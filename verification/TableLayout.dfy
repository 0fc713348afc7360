/** The arithmetic behind inflate_table: which code words share a slot of the root
    table, how many bits the slot's sub-table needs, and the backwards increment
    of a bit-reversed code. */
module TableLayout {
  import opened BitStrings
  import opened Canonical
  import opened SymbolOrder
  import opened CodeWords

  /** The bit-reversed code of symbol s, as a number. */
  function Huff(lens: seq<nat>, s: nat): nat
    requires s < |lens|
  {
    Val(CodeWord(lens, s))
  }

  /** The stream bits w begin with the code word of s. */
  predicate Matches(lens: seq<nat>, s: nat, w: nat) {
    s < |lens| && 0 < lens[s] && Low(w, lens[s]) == Huff(lens, s)
  }

  lemma MatchIsCodeWord(lens: seq<nat>, s: nat, w: nat, n: nat)
    requires s < |lens| && lens[s] <= n
    ensures Low(w, lens[s]) == Huff(lens, s) <==> CodeWord(lens, s) == Bits(w, n)[..lens[s]]
  {
    BitsPrefix(w, lens[s], n);
    ValBits(w, lens[s]);
    if Low(w, lens[s]) == Huff(lens, s) {
      ValInjective(CodeWord(lens, s), Bits(w, lens[s]));
    }
  }

  /** At most one symbol matches. */
  lemma MatchUnique(lens: seq<nat>, a: nat, b: nat, w: nat)
    requires Fits(lens) && Matches(lens, a, w) && Matches(lens, b, w)
    ensures a == b
  {
    MatchIsCodeWord(lens, a, w, MAXBITS);
    MatchIsCodeWord(lens, b, w, MAXBITS);
    PrefixFree(lens, a, b, Bits(w, MAXBITS));
  }

  lemma HuffBound(lens: seq<nat>, s: nat)
    requires s < |lens|
    ensures Huff(lens, s) < Pow2(lens[s])
    ensures 0 < lens[s] ==> Matches(lens, s, Huff(lens, s))
  {
    ValBound(CodeWord(lens, s));
    LowBound(Huff(lens, s), lens[s]);
  }

  /** With a complete code, some symbol matches. */
  lemma SomeMatch(lens: seq<nat>, w: nat) returns (s: nat)
    requires Complete(lens)
    ensures Matches(lens, s, w)
  {
    var bs := Bits(w, MAXBITS);
    var v := Val(Reverse(bs));
    ValBound(Reverse(bs));
    BitsVal(Reverse(bs));
    ReverseTwice(bs);
    s := CompleteDecodes(lens, v);
    MatchIsCodeWord(lens, s, w, MAXBITS);
  }

  // ---- The backwards increment

  /** Add one to a number written most significant bit first. */
  function BackIncrement(b: seq<bool>): (r: seq<bool>)
    ensures |r| == |b|
  {
    if b == [] then []
    else if b[|b| - 1] then BackIncrement(b[..|b| - 1]) + [false]
    else b[..|b| - 1] + [true]
  }

  lemma {:induction false} BackIncrementIsNext(c: nat, n: nat)
    ensures BackIncrement(Reverse(Bits(c, n))) == Reverse(Bits(c + 1, n))
    decreases n
  {
    if n > 0 {
      hide Reverse, BackIncrement, Bits;
      var q := c / 2;
      ReverseStep(c, n);
      ReverseStep(c + 1, n);
      BackIncrementLast(Reverse(Bits(q, n - 1)), c % 2 == 1);
      BackIncrementIsNext(q, n - 1);
      if c % 2 == 1 {
        assert (c + 1) / 2 == q + 1 && (c + 1) % 2 == 0;
      } else {
        assert (c + 1) / 2 == q && (c + 1) % 2 == 1;
      }
    }
  }

  lemma ReverseStep(c: nat, n: nat)
    requires n > 0
    ensures Reverse(Bits(c, n)) == Reverse(Bits(c / 2, n - 1)) + [c % 2 == 1]
  {
    assert Bits(c, n)[1..] == Bits(c / 2, n - 1);
  }

  lemma BackIncrementLast(b: seq<bool>, last: bool)
    ensures BackIncrement(b + [last]) == if last then BackIncrement(b) + [false] else b + [true]
  {
    assert (b + [last])[..|b|] == b;
  }

  /** The effect of the source's search for the highest clear bit k below the code length. */
  lemma {:induction false} BackIncrementAt(b: seq<bool>, k: nat)
    requires k < |b| && !b[k] && forall i :: k < i < |b| ==> b[i]
    ensures Val(BackIncrement(b)) == Val(b[..k]) + Pow2(k)
  {
    var front := b[..|b| - 1];
    if k == |b| - 1 {
      ValAppend(front, [true]);
      ShlPow2(0, k);
    } else {
      assert front[..k] == b[..k];
      BackIncrementAt(front, k);
      ValAppend(BackIncrement(front), [false]);
      ShlZero(|b| - 1);
    }
  }

  lemma {:induction false} BackIncrementWraps(b: seq<bool>)
    requires forall i :: 0 <= i < |b| ==> b[i]
    ensures Val(BackIncrement(b)) == 0
  {
    if b != [] {
      var front := b[..|b| - 1];
      BackIncrementWraps(front);
      ValAppend(BackIncrement(front), [false]);
      ShlZero(|b| - 1);
    }
  }

  /** Zeros appended to the code number disappear in the reversed code. */
  lemma {:induction false} ReverseShl(c: nat, l: nat, k: nat)
    ensures Val(Reverse(Bits(Shl(c, k), l + k))) == Val(Reverse(Bits(c, l)))
    decreases k
  {
    if k > 0 {
      var r := Reverse(Bits(Shl(c, k - 1), l + k - 1));
      assert Bits(Shl(c, k), l + k) == [false] + Bits(Shl(c, k - 1), l + k - 1);
      assert Reverse(Bits(Shl(c, k), l + k)) == r + [false];
      ValAppend(r, [false]);
      ShlZero(l + k - 1);
      ReverseShl(c, l, k - 1);
    }
  }

  lemma ShlInjective(x: nat, y: nat, n: nat)
    ensures Shl(x, n) == Shl(y, n) <==> x == y
  {
    ShlMonotone(x, y, n);
    ShlMonotone(y, x, n);
  }

  /** The next symbol's code number continues this one's. */
  lemma NextCode(lens: seq<nat>, ord: seq<nat>, i: nat)
    requires Fits(lens) && Sorted(lens, ord) && i + 1 < |ord|
    ensures lens[ord[i]] <= lens[ord[i + 1]]
    ensures Code(lens, ord[i + 1]) == Shl(Code(lens, ord[i]) + 1, lens[ord[i + 1]] - lens[ord[i]])
  {
    var a, b := ord[i], ord[i + 1];
    StartNext(lens, ord, i);
    SortedPair(lens, ord, i, i + 1);
    ShlShl(Code(lens, a) + 1, lens[b] - lens[a], MAXBITS - lens[b]);
    ShlInjective(Code(lens, b), Shl(Code(lens, a) + 1, lens[b] - lens[a]), MAXBITS - lens[b]);
  }

  /** A complete code ends with all ones. */
  lemma LastCode(lens: seq<nat>, ord: seq<nat>, i: nat)
    requires Complete(lens) && Sorted(lens, ord) && i + 1 == |ord|
    ensures Code(lens, ord[i]) + 1 == Pow2(lens[ord[i]])
  {
    var l := lens[ord[i]];
    StartNext(lens, ord, i);
    ShlPow2(l, MAXBITS - l);
    ShlInjective(Code(lens, ord[i]) + 1, Pow2(l), MAXBITS - l);
  }

  /** Incrementing the reversed code of one symbol gives the next symbol's, or
      zero after the last symbol of a complete code. */
  lemma NextHuff(lens: seq<nat>, ord: seq<nat>, i: nat)
    requires Fits(lens) && Sorted(lens, ord) && i < |ord|
    ensures var next := Val(Reverse(Bits(Code(lens, ord[i]) + 1, lens[ord[i]])));
            (i + 1 < |ord| ==> Huff(lens, ord[i + 1]) == next) &&
            (i + 1 == |ord| && Complete(lens) ==> next == 0)
  {
    var l := lens[ord[i]];
    if i + 1 < |ord| {
      NextCode(lens, ord, i);
      ReverseShl(Code(lens, ord[i]) + 1, l, lens[ord[i + 1]] - l);
    } else if Complete(lens) {
      LastCode(lens, ord, i);
      PowerHasNoLowBits(l);
    }
  }

  lemma {:induction false} PowerHasNoLowBits(l: nat)
    ensures Val(Reverse(Bits(Pow2(l), l))) == 0
  {
    ShlPow2(0, l);
    assert Bits(1, 0) == [];
    ReverseShl(1, 0, l);
  }

  // ---- Slots of the root table

  /** The slot of the i-th symbol, counted in code order: the top bits of its code. */
  function Slot(lens: seq<nat>, ord: seq<nat>, root: nat, i: nat): nat
    requires ValidLens(lens) && i <= |ord| && root <= MAXBITS
    requires forall k :: 0 <= k < |ord| ==> ord[k] < |lens|
  {
    High(Start(lens, ord, i), MAXBITS - root)
  }

  lemma {:induction false} HighMonotone(a: nat, b: nat, n: nat)
    requires a <= b
    ensures High(a, n) <= High(b, n)
    decreases n
  {
    if n > 0 {
      HighMonotone(a / 2, b / 2, n - 1);
    }
  }

  lemma SlotMonotone(lens: seq<nat>, ord: seq<nat>, root: nat, i: nat, j: nat)
    requires Sorted(lens, ord) && i <= j <= |ord| && root <= MAXBITS
    ensures Slot(lens, ord, root, i) <= Slot(lens, ord, root, j)
  {
    StartMonotone(lens, ord, i, j);
    HighMonotone(Start(lens, ord, i), Start(lens, ord, j), MAXBITS - root);
  }

  lemma {:induction false} HighOfShl(x: nat, k: nat, n: nat)
    requires k <= n
    ensures High(Shl(x, k), n) == High(x, n - k)
    decreases k
  {
    if k > 0 {
      HighOfShl(x, k - 1, n - 1);
    }
  }

  /** A long code's low bits, in stream order, are its slot. */
  lemma SlotIsLow(lens: seq<nat>, ord: seq<nat>, root: nat, i: nat)
    requires Fits(lens) && Sorted(lens, ord) && i < |ord| && root <= lens[ord[i]]
    ensures Slot(lens, ord, root, i) < Pow2(root)
    ensures Low(Huff(lens, ord[i]), root) == Val(Reverse(Bits(Slot(lens, ord, root, i), root)))
  {
    hide Pow2, Shl, High, Low, Bits, Val, Reverse, Taken;
    var s, l := ord[i], lens[ord[i]];
    var c := Code(lens, s);
    CodeBound(lens, s);
    HighBound(c, l - root, root);
    HighOfShl(c, MAXBITS - l, MAXBITS - root);
    LowOfHuff(c, l, root);
  }

  lemma LowOfHuff(c: nat, l: nat, root: nat)
    requires root <= l
    ensures Low(Val(Reverse(Bits(c, l))), root) == Val(Reverse(Bits(High(c, l - root), root)))
  {
    var cw := Reverse(Bits(c, l));
    ReversePrefix(c, root, l);
    BitsVal(cw);
    BitsPrefix(Val(cw), root, l);
    ValBits(Val(cw), root);
  }

  /** Two long codes have the same low bits exactly when they share a slot. */
  lemma SameSlot(lens: seq<nat>, ord: seq<nat>, root: nat, i: nat, j: nat)
    requires Fits(lens) && Sorted(lens, ord) && i < |ord| && j < |ord|
    requires root <= lens[ord[i]] && root <= lens[ord[j]]
    ensures Low(Huff(lens, ord[i]), root) == Low(Huff(lens, ord[j]), root)
       <==> Slot(lens, ord, root, i) == Slot(lens, ord, root, j)
  {
    SlotIsLow(lens, ord, root, i);
    SlotIsLow(lens, ord, root, j);
    var a, b := Slot(lens, ord, root, i), Slot(lens, ord, root, j);
    WordsEqual(a, b, root);
    if Val(Reverse(Bits(a, root))) == Val(Reverse(Bits(b, root))) {
      ValInjective(Reverse(Bits(a, root)), Reverse(Bits(b, root)));
    }
  }

  /** The i-th symbol is long, and the one before it is short or in another slot. */
  predicate OpensSlot(lens: seq<nat>, ord: seq<nat>, root: nat, i: nat)
    requires ValidLens(lens) && i < |ord| && root <= MAXBITS
    requires forall k :: 0 <= k < |ord| ==> ord[k] < |lens|
  {
    root < lens[ord[i]] &&
    (i == 0 || lens[ord[i - 1]] <= root || Slot(lens, ord, root, i - 1) != Slot(lens, ord, root, i))
  }

  /** After a short code, the next string starts a slot. */
  lemma AlignedAfterShort(c: nat, l: nat, root: nat)
    requires l <= root <= MAXBITS
    ensures var v, k := Shl(c, MAXBITS - l), MAXBITS - root; v == Shl(High(v, k), k)
  {
    var k := MAXBITS - root;
    ShlShl(c, root - l, k);
    assert Pow2(k) >= 1;
    HighShl(Shl(c, root - l), 0, k);
  }

  /** After a long code that is the last of its slot, so does the next string. */
  lemma AlignedAfterLong(c: nat, l: nat, root: nat)
    requires root < l <= MAXBITS
    requires var k := MAXBITS - root; High(Shl(c + 1, MAXBITS - l), k) > High(Shl(c, MAXBITS - l), k)
    ensures var v, k := Shl(c + 1, MAXBITS - l), MAXBITS - root; v == Shl(High(v, k), k)
  {
    hide Shl, High, Pow2;
    var k := MAXBITS - root;
    var v, q := Shl(c + 1, MAXBITS - l), High(Shl(c, MAXBITS - l), k);
    HighOfShl(c, MAXBITS - l, k);
    ShlHigh(c, l - root);
    ShlShl(q + 1, l - root, MAXBITS - l);
    ShlMonotone(c + 1, Shl(q + 1, l - root), MAXBITS - l);
    IntervalAbove(v, q, k);
    assert Pow2(k) >= 1;
    HighShl(q + 1, 0, k);
  }

  /** A slot's first code starts at the slot's first string. */
  lemma SlotAligned(lens: seq<nat>, ord: seq<nat>, root: nat, i: nat)
    requires Fits(lens) && Sorted(lens, ord) && 0 < i < |ord| && root <= MAXBITS
    requires OpensSlot(lens, ord, root, i)
    ensures Start(lens, ord, i) == Shl(Slot(lens, ord, root, i), MAXBITS - root)
  {
    var l, c := lens[ord[i - 1]], Code(lens, ord[i - 1]);
    StartNext(lens, ord, i - 1);
    if l <= root {
      AlignedAfterShort(c + 1, l, root);
    } else {
      SlotMonotone(lens, ord, root, i - 1, i);
      AlignedAfterLong(c, l, root);
    }
  }

  // ---- How long the codes in a slot get

  /** The longest code length in the slot of the i-th symbol, from i on. */
  function SlotMax(lens: seq<nat>, ord: seq<nat>, root: nat, i: nat): nat
    requires ValidLens(lens) && i < |ord| && root <= MAXBITS
    requires forall k :: 0 <= k < |ord| ==> ord[k] < |lens|
    decreases |ord| - i
  {
    if i + 1 < |ord| && Slot(lens, ord, root, i + 1) == Slot(lens, ord, root, i)
    then SlotMax(lens, ord, root, i + 1)
    else lens[ord[i]]
  }

  lemma {:induction false} SlotMaxCovers(lens: seq<nat>, ord: seq<nat>, root: nat, i: nat, k: nat)
    requires Sorted(lens, ord) && i <= k < |ord| && root <= MAXBITS
    requires Slot(lens, ord, root, i) == Slot(lens, ord, root, k)
    ensures lens[ord[k]] <= SlotMax(lens, ord, root, i) <= MAXBITS
    decreases |ord| - i
  {
    if i < k {
      SlotMonotone(lens, ord, root, i, i + 1);
      SlotMonotone(lens, ord, root, i + 1, k);
      SlotMaxCovers(lens, ord, root, i + 1, k);
    } else if i + 1 < |ord| && Slot(lens, ord, root, i + 1) == Slot(lens, ord, root, i) {
      SlotMaxCovers(lens, ord, root, i + 1, i + 1);
      SortedPair(lens, ord, i, i + 1);
    }
  }

  /** The first symbol from i on that is longer than l. */
  function Stop(lens: seq<nat>, ord: seq<nat>, i: nat, l: nat): (r: nat)
    requires i <= |ord| && forall k :: 0 <= k < |ord| ==> ord[k] < |lens|
    ensures i <= r <= |ord|
    decreases |ord| - i
  {
    if i < |ord| && lens[ord[i]] <= l then Stop(lens, ord, i + 1, l) else i
  }

  /** How many l-bit strings the codes from i to there take up. */
  function Weight(lens: seq<nat>, ord: seq<nat>, i: nat, l: nat): nat
    requires i <= |ord| && forall k :: 0 <= k < |ord| ==> ord[k] < |lens|
    decreases |ord| - i
  {
    if i < |ord| && lens[ord[i]] <= l then Pow2(l - lens[ord[i]]) + Weight(lens, ord, i + 1, l) else 0
  }

  /** How many of the symbols from i on have length l. */
  function Remaining(lens: seq<nat>, ord: seq<nat>, i: nat, l: nat): nat
    requires i <= |ord| && forall k :: 0 <= k < |ord| ==> ord[k] < |lens|
    decreases |ord| - i
  {
    if i == |ord| then 0 else (if lens[ord[i]] == l then 1 else 0) + Remaining(lens, ord, i + 1, l)
  }

  lemma {:induction false} NoneRemaining(lens: seq<nat>, ord: seq<nat>, i: nat, l: nat)
    requires Sorted(lens, ord) && i <= |ord| && (i < |ord| ==> l < lens[ord[i]])
    ensures Remaining(lens, ord, i, l) == 0
    decreases |ord| - i
  {
    if i < |ord| {
      if i + 1 < |ord| {
        SortedPair(lens, ord, i, i + 1);
      }
      NoneRemaining(lens, ord, i + 1, l);
    }
  }

  /** The look-ahead's recurrence. */
  lemma {:induction false} WeightNext(lens: seq<nat>, ord: seq<nat>, i: nat, l: nat)
    requires Sorted(lens, ord) && i <= |ord|
    ensures Weight(lens, ord, i, l + 1) == 2 * Weight(lens, ord, i, l) + Remaining(lens, ord, i, l + 1)
    decreases |ord| - i
  {
    if i < |ord| {
      if i + 1 < |ord| {
        SortedPair(lens, ord, i, i + 1);
      }
      WeightNext(lens, ord, i + 1, l);
      if lens[ord[i]] > l + 1 {
        NoneRemaining(lens, ord, i, l + 1);
      } else if lens[ord[i]] <= l {
        assert l + 1 - lens[ord[i]] == (l - lens[ord[i]]) + 1;
      }
    }
  }

  lemma {:induction false} StopStart(lens: seq<nat>, ord: seq<nat>, i: nat, l: nat)
    requires Sorted(lens, ord) && i <= |ord| && l <= MAXBITS
    ensures Start(lens, ord, Stop(lens, ord, i, l)) == Start(lens, ord, i) + Shl(Weight(lens, ord, i, l), MAXBITS - l)
    decreases |ord| - i
  {
    if i < |ord| && lens[ord[i]] <= l {
      var m := lens[ord[i]];
      StopStart(lens, ord, i + 1, l);
      StartNext(lens, ord, i);
      ShlAdd(Code(lens, ord[i]), 1, MAXBITS - m);
      ShlAdd(Pow2(l - m), Weight(lens, ord, i + 1, l), MAXBITS - l);
      ShlPow2(l - m, MAXBITS - l);
      ShlPow2(0, MAXBITS - m);
    } else {
      ShlZero(MAXBITS - l);
    }
  }

  /** A complete code ends after the last slot. */
  lemma EndSlot(lens: seq<nat>, ord: seq<nat>, root: nat)
    requires Complete(lens) && Sorted(lens, ord) && root <= MAXBITS
    ensures Slot(lens, ord, root, |ord|) == Pow2(root)
  {
    ShlPow2(root, MAXBITS - root);
    assert Pow2(MAXBITS - root) >= 1;
    HighShl(Pow2(root), 0, MAXBITS - root);
  }

  /** The codes up to length l fill the slot exactly when no code in it is longer. */
  lemma {:induction false} StopLeavesSlot(lens: seq<nat>, ord: seq<nat>, root: nat, i: nat, l: nat)
    requires Complete(lens) && Sorted(lens, ord) && i < |ord| && root <= l <= MAXBITS && root <= lens[ord[i]]
    ensures Slot(lens, ord, root, Stop(lens, ord, i, l)) > Slot(lens, ord, root, i)
       <==> SlotMax(lens, ord, root, i) <= l
    decreases |ord| - i
  {
    SlotMaxCovers(lens, ord, root, i, i);
    if lens[ord[i]] <= l {
      SlotMonotone(lens, ord, root, i, i + 1);
      SlotMonotone(lens, ord, root, i + 1, Stop(lens, ord, i, l));
      if i + 1 < |ord| {
        SortedPair(lens, ord, i, i + 1);
        if Slot(lens, ord, root, i + 1) == Slot(lens, ord, root, i) {
          StopLeavesSlot(lens, ord, root, i + 1, l);
        }
      } else {
        SlotIsLow(lens, ord, root, i);
        EndSlot(lens, ord, root);
      }
    }
  }

  /** The look-ahead's test: at length l the slot is full exactly when the weight
      of the codes up to l reaches the slot's size. */
  lemma SlotFull(lens: seq<nat>, ord: seq<nat>, root: nat, i: nat, l: nat)
    requires Complete(lens) && Sorted(lens, ord) && 0 < i < |ord| && root <= l <= MAXBITS
    requires OpensSlot(lens, ord, root, i)
    ensures Weight(lens, ord, i, l) >= Pow2(l - root) <==> SlotMax(lens, ord, root, i) <= l
  {
    var q, m := Slot(lens, ord, root, i), Stop(lens, ord, i, l);
    SlotAligned(lens, ord, root, i);
    StopStart(lens, ord, i, l);
    StopLeavesSlot(lens, ord, root, i, l);
    IntervalAbove(Start(lens, ord, m), q, MAXBITS - root);
    FillsSlot(Weight(lens, ord, i, l), q, root, l);
  }

  lemma FillsSlot(weight: nat, q: nat, root: nat, l: nat)
    requires root <= l <= MAXBITS
    ensures weight >= Pow2(l - root)
       <==> Shl(q, MAXBITS - root) + Shl(weight, MAXBITS - l) >= Shl(q + 1, MAXBITS - root)
  {
    ShlMonotone(Pow2(l - root), weight, MAXBITS - l);
    ShlPow2(l - root, MAXBITS - l);
    ShlAdd(q, 1, MAXBITS - root);
    ShlPow2(0, MAXBITS - root);
  }

  lemma IntervalAbove(v: nat, q: nat, k: nat)
    ensures High(v, k) > q <==> v >= Shl(q + 1, k)
  {
    ShlHigh(v, k);
    ShlMonotone(q + 1, High(v, k), k);
    ShlMonotone(High(v, k) + 1, q + 1, k);
  }
}
