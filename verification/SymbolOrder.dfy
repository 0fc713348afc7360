/** The symbols of a code sorted canonically, as inflate_table sorts them: by
    length, then by symbol. */
module SymbolOrder {
  import opened BitStrings
  import opened Canonical
  import opened CodeWords

  /** How many of the first n symbols come before (l, s). */
  function Rank(lens: seq<nat>, n: nat, l: nat, s: nat): nat
    requires n <= |lens|
  {
    if n == 0 then 0 else Rank(lens, n - 1, l, s) + if Precedes(lens, n - 1, l, s) then 1 else 0
  }

  /** How many symbols are used at all. */
  function Used(lens: seq<nat>): nat
    requires ValidLens(lens)
  {
    Rank(lens, |lens|, MAXBITS, |lens|)
  }

  /** ord lists the used symbols in canonical order. */
  ghost predicate Sorted(lens: seq<nat>, ord: seq<nat>) {
    ValidLens(lens) && |ord| == Used(lens) &&
    forall i :: 0 <= i < |ord| ==>
      ord[i] < |lens| && 0 < lens[ord[i]] && Rank(lens, |lens|, lens[ord[i]], ord[i]) == i
  }

  lemma {:induction false} RankNext(lens: seq<nat>, n: nat, l: nat, s: nat)
    requires n <= |lens| && 0 < l
    ensures Rank(lens, n, l, s + 1) == Rank(lens, n, l, s) + if s < n && lens[s] == l then 1 else 0
    decreases n
  {
    if n > 0 {
      RankNext(lens, n - 1, l, s);
    }
  }

  lemma {:induction false} RankNextLevel(lens: seq<nat>, n: nat, l: nat, s: nat)
    requires n <= |lens| && n <= s
    ensures Rank(lens, n, l + 1, 0) == Rank(lens, n, l, s)
    decreases n
  {
    if n > 0 {
      RankNextLevel(lens, n - 1, l, s);
    }
  }

  lemma {:induction false} RankNone(lens: seq<nat>, n: nat)
    requires n <= |lens|
    ensures Rank(lens, n, 1, 0) == 0
  {
    if n > 0 {
      RankNone(lens, n - 1);
    }
  }

  lemma {:induction false} RankGrows(lens: seq<nat>, n: nat, l: nat, s: nat, l': nat, s': nat)
    requires n <= |lens| && (l < l' || (l == l' && s <= s'))
    ensures Rank(lens, n, l, s) <= Rank(lens, n, l', s')
  {
    if n > 0 {
      RankGrows(lens, n - 1, l, s, l', s');
    }
  }

  /** Ranks follow the order. */
  lemma RankOrdered(lens: seq<nat>, a: nat, b: nat)
    requires a < |lens| && b < |lens| && 0 < lens[a] && 0 < lens[b]
    ensures Precedes(lens, a, lens[b], b) <==> Rank(lens, |lens|, lens[a], a) < Rank(lens, |lens|, lens[b], b)
  {
    RankNext(lens, |lens|, lens[a], a);
    RankNext(lens, |lens|, lens[b], b);
    if Precedes(lens, a, lens[b], b) {
      RankGrows(lens, |lens|, lens[a], a + 1, lens[b], b);
    } else {
      RankGrows(lens, |lens|, lens[b], b, lens[a], a);
    }
  }

  lemma RankBelowUsed(lens: seq<nat>, s: nat)
    requires ValidLens(lens) && s < |lens| && 0 < lens[s]
    ensures Rank(lens, |lens|, lens[s], s) < Used(lens)
  {
    RankNext(lens, |lens|, lens[s], s);
    RankGrows(lens, |lens|, lens[s], s + 1, MAXBITS, |lens|);
  }

  /** Every rank below Used is some symbol's. */
  lemma SymbolOfRank(lens: seq<nat>, r: nat, l: nat, s: nat) returns (m: nat)
    requires ValidLens(lens) && 1 <= l <= MAXBITS && s <= |lens|
    requires Rank(lens, |lens|, l, s) <= r < Used(lens)
    ensures m < |lens| && 0 < lens[m] && Rank(lens, |lens|, lens[m], m) == r
    decreases MAXBITS - l, |lens| - s
  {
    if s < |lens| {
      RankNext(lens, |lens|, l, s);
      if lens[s] == l && Rank(lens, |lens|, l, s) == r {
        m := s;
      } else {
        m := SymbolOfRank(lens, r, l, s + 1);
      }
    } else {
      RankNextLevel(lens, |lens|, l, s);
      m := SymbolOfRank(lens, r, l + 1, 0);
    }
  }

  /** Consequences of being sorted, for positions i < j. */
  lemma SortedPair(lens: seq<nat>, ord: seq<nat>, i: nat, j: nat)
    requires Sorted(lens, ord) && i < j < |ord|
    ensures Precedes(lens, ord[i], lens[ord[j]], ord[j]) && lens[ord[i]] <= lens[ord[j]]
  {
    RankOrdered(lens, ord[i], ord[j]);
  }

  /** Every used symbol is listed. */
  lemma SortedComplete(lens: seq<nat>, ord: seq<nat>, s: nat)
    requires Sorted(lens, ord) && s < |lens| && 0 < lens[s]
    ensures Rank(lens, |lens|, lens[s], s) < |ord| && ord[Rank(lens, |lens|, lens[s], s)] == s
  {
    RankBelowUsed(lens, s);
    var t := ord[Rank(lens, |lens|, lens[s], s)];
    RankOrdered(lens, s, t);
    RankOrdered(lens, t, s);
  }

  // ---- Where the code words start, in 15-bit strings

  /** The first 15-bit string of the i-th symbol; past the last symbol, the end. */
  function Start(lens: seq<nat>, ord: seq<nat>, i: nat): nat
    requires ValidLens(lens) && i <= |ord| && forall k :: 0 <= k < |ord| ==> ord[k] < |lens|
  {
    if i < |ord| then Shl(Code(lens, ord[i]), MAXBITS - lens[ord[i]]) else Kraft(lens, |lens|)
  }

  /** With no symbol in between, nothing more is taken. */
  lemma {:induction false} TakenSame(lens: seq<nat>, n: nat, l: nat, s: nat, l': nat, s': nat)
    requires n <= |lens| && (l < l' || (l == l' && s <= s'))
    requires Rank(lens, n, l, s) == Rank(lens, n, l', s')
    ensures Shl(Taken(lens, n, l, s), l' - l) == Taken(lens, n, l', s')
    decreases n
  {
    if n == 0 {
      ShlZero(l' - l);
    } else {
      RankGrows(lens, n - 1, l, s, l', s');
      TakenSame(lens, n - 1, l, s, l', s');
      if Precedes(lens, n - 1, l, s) {
        ShlAdd(Taken(lens, n - 1, l, s), Pow2(l - lens[n - 1]), l' - l);
        ShlPow2(l - lens[n - 1], l' - l);
      }
    }
  }

  /** The code words are laid out one after the other. */
  lemma StartNext(lens: seq<nat>, ord: seq<nat>, i: nat)
    requires Sorted(lens, ord) && i < |ord|
    ensures Start(lens, ord, i + 1) == Shl(Code(lens, ord[i]) + 1, MAXBITS - lens[ord[i]])
  {
    var a := ord[i];
    TakenNext(lens, |lens|, lens[a], a);
    RankNext(lens, |lens|, lens[a], a);
    if i + 1 < |ord| {
      var b := ord[i + 1];
      SortedPair(lens, ord, i, i + 1);
      TakenSame(lens, |lens|, lens[a], a + 1, lens[b], b);
      ShlShl(Code(lens, a) + 1, lens[b] - lens[a], MAXBITS - lens[b]);
    } else {
      TakenSame(lens, |lens|, lens[a], a + 1, MAXBITS, |lens|);
    }
  }

  lemma StartFirst(lens: seq<nat>, ord: seq<nat>)
    requires Sorted(lens, ord)
    ensures Start(lens, ord, 0) == 0
  {
    RankNone(lens, |lens|);
    TakenNone(lens, |lens|);
    if 0 < |ord| {
      TakenSame(lens, |lens|, 1, 0, lens[ord[0]], ord[0]);
      ShlZero(lens[ord[0]] - 1);
      ShlZero(MAXBITS - lens[ord[0]]);
    } else {
      TakenSame(lens, |lens|, 1, 0, MAXBITS, |lens|);
      ShlZero(MAXBITS - 1);
    }
  }

  lemma {:induction false} StartMonotone(lens: seq<nat>, ord: seq<nat>, i: nat, j: nat)
    requires Sorted(lens, ord) && i <= j <= |ord|
    ensures Start(lens, ord, i) <= Start(lens, ord, j)
    decreases j - i
  {
    if i < j {
      StartMonotone(lens, ord, i, j - 1);
      StartNext(lens, ord, j - 1);
      ShlMonotone(Code(lens, ord[j - 1]), Code(lens, ord[j - 1]) + 1, MAXBITS - lens[ord[j - 1]]);
    }
  }

  // ---- The counting sort of inflate_table

  /** Count code lengths. */
  method CountLengths(lens: seq<nat>) returns (count: array<nat>)
    requires ValidLens(lens)
    ensures fresh(count) && count.Length == MAXBITS + 1
    ensures forall l :: 0 <= l <= MAXBITS ==> count[l] == Count(lens, |lens|, l)
  {
    count := new nat[MAXBITS + 1](i => 0);
    for sym := 0 to |lens|
      invariant forall l :: 0 <= l <= MAXBITS ==> count[l] == Count(lens, sym, l)
    {
      count[lens[sym]] := count[lens[sym]] + 1;
    }
  }

  lemma {:induction false} RankIsCount(lens: seq<nat>, n: nat, l: nat, s: nat)
    requires s <= n <= |lens| && 0 < l
    ensures Rank(lens, n, l, s) == Rank(lens, n, l, 0) + Count(lens, s, l)
    decreases s
  {
    if s > 0 {
      RankIsCount(lens, n, l, s - 1);
      RankNext(lens, n, l, s - 1);
    }
  }

  /** Offsets into the sorted table for each length. */
  method Offsets(count: array<nat>, ghost lens: seq<nat>) returns (offs: array<nat>)
    requires count.Length == MAXBITS + 1
    requires forall l :: 0 <= l <= MAXBITS ==> count[l] == Count(lens, |lens|, l)
    ensures fresh(offs) && offs.Length == MAXBITS + 1
    ensures forall l :: 1 <= l <= MAXBITS ==> offs[l] == Rank(lens, |lens|, l, 0)
  {
    offs := new nat[MAXBITS + 1](i => 0);
    RankNone(lens, |lens|);
    for len := 1 to MAXBITS
      invariant forall l :: 1 <= l <= len ==> offs[l] == Rank(lens, |lens|, l, 0)
    {
      RankIsCount(lens, |lens|, len, |lens|);
      RankNextLevel(lens, |lens|, len, |lens|);
      offs[len + 1] := offs[len] + count[len];
    }
  }

  lemma AllRankNext(lens: seq<nat>, s: nat)
    requires s < |lens|
    ensures forall l :: 1 <= l <= MAXBITS ==>
              Rank(lens, |lens|, l, s + 1) == Rank(lens, |lens|, l, s) + if lens[s] == l then 1 else 0
  {
    forall l | 1 <= l <= MAXBITS
      ensures Rank(lens, |lens|, l, s + 1) == Rank(lens, |lens|, l, s) + if lens[s] == l then 1 else 0
    {
      RankNext(lens, |lens|, l, s);
    }
  }

  /** What the sort has done when the symbols below n are in their places. */
  ghost predicate Placed(lens: seq<nat>, n: nat, work: seq<nat>)
    requires n <= |lens|
  {
    forall s {:trigger lens[s]} :: 0 <= s < n && 0 < lens[s] ==>
      Rank(lens, |lens|, lens[s], s) < |work| && work[Rank(lens, |lens|, lens[s], s)] == s
  }

  lemma PlacedNext(lens: seq<nat>, n: nat, work: seq<nat>)
    requires ValidLens(lens) && n < |lens| && Placed(lens, n, work) && 0 < lens[n]
    requires Rank(lens, |lens|, lens[n], n) < |work|
    ensures Placed(lens, n + 1, work[Rank(lens, |lens|, lens[n], n) := n])
  {
    forall s {:trigger lens[s]} | 0 <= s < n && 0 < lens[s]
      ensures Rank(lens, |lens|, lens[s], s) != Rank(lens, |lens|, lens[n], n)
    {
      RankOrdered(lens, s, n);
      RankOrdered(lens, n, s);
    }
  }

  lemma PlacedIsSorted(lens: seq<nat>, work: seq<nat>)
    requires ValidLens(lens) && Placed(lens, |lens|, work) && Used(lens) <= |work|
    ensures Sorted(lens, work[..Used(lens)])
  {
    forall i | 0 <= i < Used(lens)
      ensures work[i] < |lens| && 0 < lens[work[i]] && Rank(lens, |lens|, lens[work[i]], work[i]) == i
    {
      RankNone(lens, |lens|);
      var m := SymbolOfRank(lens, i, 1, 0);
      assert work[i] == m;
    }
  }

  lemma {:induction false} RankAtMost(lens: seq<nat>, n: nat, l: nat, s: nat)
    requires n <= |lens|
    ensures Rank(lens, n, l, s) <= n
  {
    if n > 0 {
      RankAtMost(lens, n - 1, l, s);
    }
  }

  /** Sort the symbols by length, and by symbol within each length. */
  method SortSymbols(lens: seq<nat>, offs: array<nat>, work: array<nat>)
    requires ValidLens(lens) && offs != work && offs.Length == MAXBITS + 1 && |lens| <= work.Length
    requires forall l :: 1 <= l <= MAXBITS ==> offs[l] == Rank(lens, |lens|, l, 0)
    modifies offs, work
    ensures Used(lens) <= |lens| && Sorted(lens, work[..Used(lens)])
  {
    RankAtMost(lens, |lens|, MAXBITS, |lens|);
    for sym := 0 to |lens|
      invariant forall l :: 1 <= l <= MAXBITS ==> offs[l] == Rank(lens, |lens|, l, sym)
      invariant Placed(lens, sym, work[..])
    {
      AllRankNext(lens, sym);
      if lens[sym] != 0 {
        RankBelowUsed(lens, sym);
        PlacedNext(lens, sym, work[..]);
        work[offs[lens[sym]]] := sym;
        offs[lens[sym]] := offs[lens[sym]] + 1;
      }
    }
    PlacedIsSorted(lens, work[..]);
    assert work[..][..Used(lens)] == work[..Used(lens)];
  }
}
