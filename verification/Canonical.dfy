/** Canonical Huffman codes, section 3.2.2 of RFC 1951: the code lengths of the
    symbols determine the code words. Length 0 means "not used". */
module Canonical {
  import opened BitStrings

  const MAXBITS: nat := 15

  lemma MaxBits()
    ensures MAXBITS == 15
  {
  }

  ghost predicate ValidLens(lens: seq<nat>) {
    forall s :: 0 <= s < |lens| ==> lens[s] <= MAXBITS
  }

  /** Symbol m comes before symbol s of length l in the canonical order. */
  predicate Precedes(lens: seq<nat>, m: nat, l: nat, s: nat)
    requires m < |lens|
  {
    0 < lens[m] && (lens[m] < l || (lens[m] == l && m < s))
  }

  /** How many l-bit strings the symbols before (l, s), among the first n, take up. */
  function Taken(lens: seq<nat>, n: nat, l: nat, s: nat): nat
    requires n <= |lens|
  {
    if n == 0 then 0
    else Taken(lens, n - 1, l, s) + if Precedes(lens, n - 1, l, s) then Pow2(l - lens[n - 1]) else 0
  }

  /** The code number of symbol s. */
  function Code(lens: seq<nat>, s: nat): nat
    requires s < |lens|
  {
    Taken(lens, |lens|, lens[s], s)
  }

  /** The part of the 15-bit strings that the first n symbols take up. */
  function Kraft(lens: seq<nat>, n: nat): nat
    requires n <= |lens| && ValidLens(lens)
  {
    Taken(lens, n, MAXBITS, n)
  }

  /** The lengths leave room for a prefix code. */
  ghost predicate Fits(lens: seq<nat>) {
    ValidLens(lens) && Kraft(lens, |lens|) <= Pow2(MAXBITS)
  }

  /** The prefix code leaves no bit string undecodable. */
  ghost predicate Complete(lens: seq<nat>) {
    ValidLens(lens) && Kraft(lens, |lens|) == Pow2(MAXBITS)
  }

  function Reverse(bs: seq<bool>): (r: seq<bool>)
    ensures |r| == |bs|
  {
    if bs == [] then [] else Reverse(bs[1..]) + [bs[0]]
  }

  /** The code word of symbol s in stream order: most significant bit first. */
  function CodeWord(lens: seq<nat>, s: nat): (r: seq<bool>)
    requires s < |lens|
    ensures |r| == lens[s]
  {
    Reverse(Bits(Code(lens, s), lens[s]))
  }

  // ---- Shl is linear

  lemma {:induction false} ShlAdd(x: nat, y: nat, n: nat)
    ensures Shl(x + y, n) == Shl(x, n) + Shl(y, n)
    decreases n
  {
    if n > 0 {
      ShlAdd(x, y, n - 1);
    }
  }

  lemma {:induction false} ShlPow2(k: nat, n: nat)
    ensures Shl(Pow2(k), n) == Pow2(k + n)
    decreases n
  {
    if n > 0 {
      ShlPow2(k, n - 1);
    }
  }

  lemma {:induction false} ShlMonotone(x: nat, y: nat, n: nat)
    ensures x <= y <==> Shl(x, n) <= Shl(y, n)
    decreases n
  {
    if n > 0 {
      ShlMonotone(x, y, n - 1);
    }
  }

  // ---- The order of the code words

  /** Going from level l to level l' of the code, and on to a later symbol,
      never loses any of the strings already taken. */
  lemma {:induction false} TakenGrows(lens: seq<nat>, n: nat, l: nat, s: nat, l': nat, s': nat)
    requires n <= |lens| && (l < l' || (l == l' && s <= s'))
    ensures Shl(Taken(lens, n, l, s), l' - l) <= Taken(lens, n, l', s')
    decreases n
  {
    if n == 0 {
      ShlZero(l' - l);
    } else {
      TakenGrows(lens, n - 1, l, s, l', s');
      if Precedes(lens, n - 1, l, s) {
        ShlAdd(Taken(lens, n - 1, l, s), Pow2(l - lens[n - 1]), l' - l);
        ShlPow2(l - lens[n - 1], l' - l);
      }
    }
  }

  lemma {:induction false} ShlZero(n: nat)
    ensures Shl(0, n) == 0
  {
    if n > 0 {
      ShlZero(n - 1);
    }
  }

  /** Passing symbol s itself takes one more l-bit string if its length is l. */
  lemma {:induction false} TakenNext(lens: seq<nat>, n: nat, l: nat, s: nat)
    requires n <= |lens| && 0 < l
    ensures Taken(lens, n, l, s + 1) == Taken(lens, n, l, s) + if s < n && lens[s] == l then 1 else 0
    decreases n
  {
    if n > 0 {
      TakenNext(lens, n - 1, l, s);
    }
  }

  /** The recurrence of section 3.2.2: the first code of length l + 1. */
  lemma {:induction false} TakenNextLevel(lens: seq<nat>, n: nat, l: nat, s: nat)
    requires n <= |lens| && n <= s
    ensures Taken(lens, n, l + 1, 0) == 2 * Taken(lens, n, l, s)
    decreases n
  {
    if n > 0 {
      TakenNextLevel(lens, n - 1, l, s);
      if 0 < lens[n - 1] <= l {
        assert l + 1 - lens[n - 1] == (l - lens[n - 1]) + 1;
      }
    }
  }

  lemma {:induction false} TakenLate(lens: seq<nat>, n: nat, l: nat, s: nat, s': nat)
    requires n <= |lens| && n <= s && n <= s'
    ensures Taken(lens, n, l, s) == Taken(lens, n, l, s')
    decreases n
  {
    if n > 0 {
      TakenLate(lens, n - 1, l, s, s');
    }
  }

  /** A symbol that comes later starts after the strings of an earlier one. */
  lemma CodesOrdered(lens: seq<nat>, a: nat, b: nat)
    requires a < |lens| && b < |lens| && 0 < lens[a] && Precedes(lens, a, lens[b], b)
    ensures Shl(Code(lens, a) + 1, lens[b] - lens[a]) <= Code(lens, b)
  {
    TakenNext(lens, |lens|, lens[a], a);
    TakenGrows(lens, |lens|, lens[a], a + 1, lens[b], b);
  }

  /** Every code number fits in its length. */
  lemma CodeBound(lens: seq<nat>, s: nat)
    requires Fits(lens) && s < |lens| && 0 < lens[s]
    ensures Shl(Code(lens, s) + 1, MAXBITS - lens[s]) <= Kraft(lens, |lens|)
    ensures Code(lens, s) + 1 <= Pow2(lens[s])
  {
    hide Shl, Pow2, Taken;
    var l := lens[s];
    TakenNext(lens, |lens|, l, s);
    TakenGrows(lens, |lens|, l, s + 1, MAXBITS, |lens|);
    ShlPow2(l, MAXBITS - l);
    ShlMonotone(Code(lens, s) + 1, Pow2(l), MAXBITS - l);
  }

  // ---- Reversal

  lemma {:induction false} ReverseAppend(a: seq<bool>, b: seq<bool>)
    ensures Reverse(a + b) == Reverse(b) + Reverse(a)
  {
    if a == [] {
      assert a + b == b;
    } else {
      assert (a + b)[1..] == a[1..] + b;
      ReverseAppend(a[1..], b);
    }
  }

  lemma {:induction false} ReverseTwice(a: seq<bool>)
    ensures Reverse(Reverse(a)) == a
  {
    if a != [] {
      ReverseTwice(a[1..]);
      ReverseAppend(Reverse(a[1..]), [a[0]]);
      assert [a[0]][1..] == [];
    }
  }

  /** The first k bits in stream order are the top k bits of the number. */
  lemma ReversePrefix(v: nat, k: nat, n: nat)
    requires k <= n
    ensures Reverse(Bits(v, n))[..k] == Reverse(Bits(High(v, n - k), k))
  {
    BitsSplit(v, n - k, k);
    ReverseAppend(Bits(v, n - k), Bits(High(v, n - k), k));
  }

  lemma {:induction false} HighShl(x: nat, v: nat, n: nat)
    requires v < Pow2(n)
    ensures High(Shl(x, n) + v, n) == x
    decreases n
  {
    if n > 0 {
      HighShl(x, v / 2, n - 1);
      assert (Shl(x, n) + v) / 2 == Shl(x, n - 1) + v / 2;
    }
  }

  lemma {:induction false} ShlHigh(v: nat, n: nat)
    ensures Shl(High(v, n), n) <= v < Shl(High(v, n) + 1, n)
    decreases n
  {
    if n > 0 {
      ShlHigh(v / 2, n - 1);
    }
  }

  /** Words of the same length are equal exactly when their numbers are. */
  lemma WordsEqual(a: nat, b: nat, l: nat)
    requires a < Pow2(l) && b < Pow2(l)
    ensures Reverse(Bits(a, l)) == Reverse(Bits(b, l)) <==> a == b
  {
    ReverseTwice(Bits(a, l));
    ReverseTwice(Bits(b, l));
    ValBits(a, l);
    ValBits(b, l);
    LowBound(a, l);
    LowBound(b, l);
  }

  lemma {:induction false} HighBound(v: nat, k: nat, l: nat)
    requires v < Pow2(k + l)
    ensures High(v, k) < Pow2(l)
    decreases k
  {
    if k > 0 {
      HighBound(v / 2, k - 1, l);
    }
  }

  /** The top bits of v are c exactly when v lies in c's interval. */
  lemma IntervalOf(v: nat, c: nat, k: nat)
    ensures High(v, k) == c <==> Shl(c, k) <= v < Shl(c + 1, k)
  {
    ShlHigh(v, k);
    ShlMonotone(High(v, k) + 1, c, k);
    ShlMonotone(c + 1, High(v, k), k);
  }

  // ---- Decodability

  /** Symbol s is what the bit string starts with. */
  predicate Codes(lens: seq<nat>, s: nat, bs: seq<bool>) {
    s < |lens| && 0 < lens[s] && CodeWord(lens, s) <= bs
  }

  /** An n-bit word starts with an l-bit word exactly when its number lies in the interval. */
  lemma WordStarts(v: nat, n: nat, c: nat, l: nat)
    requires l <= n && v < Pow2(n) && c < Pow2(l)
    ensures Reverse(Bits(c, l)) <= Reverse(Bits(v, n)) <==> Shl(c, n - l) <= v < Shl(c + 1, n - l)
  {
    ReversePrefix(v, l, n);
    HighBound(v, n - l, l);
    WordsEqual(High(v, n - l), c, l);
    IntervalOf(v, c, n - l);
  }

  /** In terms of the number that the first 15 bits spell, most significant first. */
  lemma CodesMeansInterval(lens: seq<nat>, s: nat, v: nat)
    requires Fits(lens) && s < |lens| && 0 < lens[s] && v < Pow2(MAXBITS)
    ensures Codes(lens, s, Reverse(Bits(v, MAXBITS)))
       <==> Shl(Code(lens, s), MAXBITS - lens[s]) <= v < Shl(Code(lens, s) + 1, MAXBITS - lens[s])
  {
    CodeBound(lens, s);
    WordStarts(v, MAXBITS, Code(lens, s), lens[s]);
  }

  /** A code word never starts a later symbol's code word. */
  lemma NotAPrefix(lens: seq<nat>, a: nat, b: nat)
    requires Fits(lens) && a < |lens| && b < |lens| && 0 < lens[b] && Precedes(lens, a, lens[b], b)
    ensures lens[a] <= lens[b] && CodeWord(lens, b)[..lens[a]] != CodeWord(lens, a)
  {
    hide Shl, High, Code, Fits;
    var la, lb, ca, cb := lens[a], lens[b], Code(lens, a), Code(lens, b);
    CodesOrdered(lens, a, b);
    CodeBound(lens, a);
    CodeBound(lens, b);
    ReversePrefix(cb, la, lb);
    HighBound(cb, lb - la, la);
    WordsEqual(High(cb, lb - la), ca, la);
    IntervalOf(cb, ca, lb - la);
    ShlMonotone(ca, ca + 1, lb - la);
  }

  lemma PrefixFreeInOrder(lens: seq<nat>, a: nat, b: nat, bs: seq<bool>)
    requires Fits(lens) && a < |lens| && b < |lens| && 0 < lens[b] && Precedes(lens, a, lens[b], b)
    ensures !(Codes(lens, a, bs) && Codes(lens, b, bs))
  {
    NotAPrefix(lens, a, b);
    if |bs| >= lens[b] && CodeWord(lens, b) == bs[..lens[b]] {
      assert bs[..lens[b]][..lens[a]] == bs[..lens[a]];
    }
  }

  /** No code word is a prefix of another's. */
  lemma PrefixFree(lens: seq<nat>, a: nat, b: nat, bs: seq<bool>)
    requires Fits(lens) && Codes(lens, a, bs) && Codes(lens, b, bs)
    ensures a == b
  {
    if a != b {
      if Precedes(lens, a, lens[b], b) {
        PrefixFreeInOrder(lens, a, b, bs);
      } else {
        PrefixFreeInOrder(lens, b, a, bs);
      }
    }
  }

  /** With a complete code, any 15 bits start with some code word. */
  lemma CompleteDecodes(lens: seq<nat>, v: nat) returns (s: nat)
    requires Complete(lens) && v < Pow2(MAXBITS)
    ensures Codes(lens, s, Reverse(Bits(v, MAXBITS)))
  {
    TakenNone(lens, |lens|);
    ShlZero(MAXBITS - 1);
    s := FindSymbol(lens, v, 1, 0);
    CodesMeansInterval(lens, s, v);
  }

  lemma {:induction false} TakenNone(lens: seq<nat>, n: nat)
    requires n <= |lens|
    ensures Taken(lens, n, 1, 0) == 0
  {
    if n > 0 {
      TakenNone(lens, n - 1);
    }
  }

  lemma SameAtNextLevel(lens: seq<nat>, l: nat)
    requires l < MAXBITS
    ensures Shl(Taken(lens, |lens|, l + 1, 0), MAXBITS - (l + 1)) == Shl(Taken(lens, |lens|, l, |lens|), MAXBITS - l)
  {
    TakenNextLevel(lens, |lens|, l, |lens|);
    ShlShl(Taken(lens, |lens|, l, |lens|), 1, MAXBITS - (l + 1));
  }

  /** A complete code takes all 15-bit strings. */
  lemma NotPastEnd(lens: seq<nat>, v: nat, l: nat)
    requires Complete(lens) && v < Pow2(MAXBITS) && l <= MAXBITS
    requires Shl(Taken(lens, |lens|, l, |lens|), MAXBITS - l) <= v
    ensures l < MAXBITS
  {
    hide Pow2, Taken;
  }

  /** Walk through the canonical order until the strings taken pass v. */
  lemma FindSymbol(lens: seq<nat>, v: nat, l: nat, s: nat) returns (r: nat)
    requires Complete(lens) && v < Pow2(MAXBITS) && 1 <= l <= MAXBITS && s <= |lens|
    requires Shl(Taken(lens, |lens|, l, s), MAXBITS - l) <= v
    ensures r < |lens| && 0 < lens[r]
    ensures Shl(Code(lens, r), MAXBITS - lens[r]) <= v < Shl(Code(lens, r) + 1, MAXBITS - lens[r])
    decreases MAXBITS - l, |lens| - s
  {
    hide Shl, Pow2, Taken, Complete;
    if s < |lens| {
      TakenNext(lens, |lens|, l, s);
      if lens[s] == l && v < Shl(Taken(lens, |lens|, l, s) + 1, MAXBITS - l) {
        r := s;
      } else {
        r := FindSymbol(lens, v, l, s + 1);
      }
    } else {
      NotPastEnd(lens, v, l);
      SameAtNextLevel(lens, l);
      r := FindSymbol(lens, v, l + 1, 0);
    }
  }
}
