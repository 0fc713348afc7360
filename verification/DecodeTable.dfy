/** inflate_table of inftrees.c: a two-level decoding table for a canonical code. */
module DecodeTable {
  import opened BitStrings
  import opened Canonical
  import opened CodeWords
  import opened SymbolOrder
  import opened TableLayout

  datatype CodeType = CODES | LENS | DISTS

  /** One table entry: operation, bits to drop, value. */
  datatype Entry = Entry(op: nat, bits: nat, val: nat)

  const LBASE: seq<nat> := [3, 4, 5, 6, 7, 8, 9, 10, 11, 13, 15, 17, 19, 23, 27, 31,
                            35, 43, 51, 59, 67, 83, 99, 115, 131, 163, 195, 227, 258, 0, 0]
  const LEXT: seq<nat> := [16, 16, 16, 16, 16, 16, 16, 16, 17, 17, 17, 17, 18, 18, 18, 18,
                           19, 19, 19, 19, 20, 20, 20, 20, 21, 21, 21, 21, 16, 77, 202]
  const DBASE: seq<nat> := [1, 2, 3, 4, 5, 7, 9, 13, 17, 25, 33, 49, 65, 97, 129, 193,
                            257, 385, 513, 769, 1025, 1537, 2049, 3073, 4097, 6145,
                            8193, 12289, 16385, 24577, 0, 0]
  const DEXT: seq<nat> := [16, 16, 16, 16, 17, 17, 18, 18, 19, 19, 20, 20, 21, 21, 22, 22,
                           23, 23, 24, 24, 25, 25, 26, 26, 27, 27, 28, 28, 29, 29, 64, 64]

  const ENOUGH_LENS: nat := 852
  const ENOUGH_DISTS: nat := 592

  /** How many table entries the caller provides at least. */
  function Limit(t: CodeType): nat {
    match t case CODES => 128 case LENS => ENOUGH_LENS case DISTS => ENOUGH_DISTS
  }

  /** What the callers pass: the alphabet sizes, and short lengths for CODES. */
  ghost predicate Accepts(t: CodeType, lens: seq<nat>) {
    ValidLens(lens) &&
    match t
    case CODES => |lens| <= 19 && forall s :: 0 <= s < |lens| ==> lens[s] <= 7
    case LENS => |lens| <= 288
    case DISTS => |lens| <= 32
  }

  /** The entry that a symbol's code resolves to. */
  function SymbolEntry(t: CodeType, sym: nat, bits: nat): Entry
    requires t.LENS? ==> sym < 288
    requires t.DISTS? ==> sym < 32
  {
    match t
    case CODES => Entry(0, bits, sym)
    case LENS => if sym < 256 then Entry(0, bits, sym)
                 else if sym == 256 then Entry(96, bits, 0)
                 else Entry(LEXT[sym - 257], bits, LBASE[sym - 257])
    case DISTS => Entry(DEXT[sym], bits, DBASE[sym])
  }

  const INVALID: Entry := Entry(64, 1, 0)

  predicate IsLink(e: Entry) {
    0 < e.op < 16
  }

  /** Looking the stream bits w up in the table at `at` yields e, where e.bits is
      the number of bits consumed over both levels. */
  ghost predicate Finds(T: seq<Entry>, at: nat, root: nat, w: nat, e: Entry) {
    at + Low(w, root) < |T| &&
    var first := T[at + Low(w, root)];
    if e.bits <= root then first == e && !IsLink(e)
    else
      IsLink(first) && first.bits == root && first.val >= Pow2(root) && at + first.val + Pow2(first.op) <= |T| &&
      at + first.val + Low(High(w, root), first.op) < |T| &&
      T[at + first.val + Low(High(w, root), first.op)] == Entry(e.op, e.bits - root, e.val)
  }

  lemma SymbolEntryIsNoLink(t: CodeType, sym: nat, bits: nat)
    requires t.LENS? ==> sym < 288
    requires t.DISTS? ==> sym < 32
    ensures !IsLink(SymbolEntry(t, sym, bits)) && SymbolEntry(t, sym, bits).bits == bits
  {
  }

  // ---- The canonical order as a value

  /** The used symbols in canonical order. */
  ghost function Order(lens: seq<nat>): (ord: seq<nat>)
    requires ValidLens(lens)
    ensures Sorted(lens, ord)
  {
    seq(Used(lens), i requires 0 <= i < Used(lens) => SymbolAt(lens, i))
  }

  ghost function SymbolAt(lens: seq<nat>, i: nat): (m: nat)
    requires ValidLens(lens) && i < Used(lens)
    ensures m < |lens| && 0 < lens[m] && Rank(lens, |lens|, lens[m], m) == i
  {
    SymbolExists(lens, i);
    var m: nat :| m < |lens| && 0 < lens[m] && Rank(lens, |lens|, lens[m], m) == i;
    m
  }

  lemma SymbolExists(lens: seq<nat>, i: nat)
    requires ValidLens(lens) && i < Used(lens)
    ensures exists m: nat :: m < |lens| && 0 < lens[m] && Rank(lens, |lens|, lens[m], m) == i
  {
    RankNone(lens, |lens|);
    var m := SymbolOfRank(lens, i, 1, 0);
  }

  lemma SortedUnique(lens: seq<nat>, a: seq<nat>, b: seq<nat>)
    requires Sorted(lens, a) && Sorted(lens, b)
    ensures a == b
  {
    forall i | 0 <= i < |a|
      ensures a[i] == b[i]
    {
      SortedComplete(lens, b, a[i]);
    }
  }

  // ---- Table sizes

  /** Entries allocated when the i-th symbol is entered: the root table, and for
      every slot of long codes a sub-table of exactly the bits its longest code needs. */
  ghost function Size(lens: seq<nat>, ord: seq<nat>, root: nat, i: nat): nat
    requires Sorted(lens, ord) && i < |ord| && root <= MAXBITS
  {
    (if i == 0 then Pow2(root) else Size(lens, ord, root, i - 1)) +
    if OpensSlot(lens, ord, root, i) && SlotMax(lens, ord, root, i) > root then Pow2(SlotMax(lens, ord, root, i) - root) else 0
  }

  /** Entries that the whole table takes. */
  ghost function TableSize(lens: seq<nat>, root: nat): nat
    requires ValidLens(lens) && Used(lens) > 0 && root <= MAXBITS
  {
    Size(lens, Order(lens), root, Used(lens) - 1)
  }

  lemma {:induction false} SizeMonotone(lens: seq<nat>, ord: seq<nat>, root: nat, i: nat, j: nat)
    requires Sorted(lens, ord) && i <= j < |ord| && root <= MAXBITS
    ensures Size(lens, ord, root, i) <= Size(lens, ord, root, j)
    decreases j - i
  {
    if i < j {
      SizeMonotone(lens, ord, root, i, j - 1);
    }
  }

  // ---- The pieces of the loop

  /** Index i of the table lies in the curr-bit table at `start`, and its low a bits are h. */
  predicate IsCopy(i: nat, start: nat, curr: nat, a: nat, h: nat) {
    start <= i < start + Pow2(curr) && Low(i - start, a) == h
  }

  /** The curr-bit table at `start` of T', made from T by writing `here` at those indices. */
  ghost predicate Replicated(T: seq<Entry>, T': seq<Entry>, start: nat, h: nat, a: nat, curr: nat, here: Entry) {
    |T'| == |T| && start + Pow2(curr) <= |T| &&
    forall i {:trigger T'[i]} :: 0 <= i < |T| ==> T'[i] == if IsCopy(i, start, curr, a, h) then here else T[i]
  }

  /** Copies are written from the last one down; this one is the f-th or later. */
  predicate IsLate(i: nat, start: nat, a: nat, f: nat) {
    start <= i && High(i - start, a) >= f
  }

  method Replicate(table: array<Entry>, start: nat, h: nat, a: nat, curr: nat, here: Entry)
    requires a <= curr && h < Pow2(a) && start + Pow2(curr) <= table.Length
    modifies table
    ensures Replicated(old(table[..]), table[..], start, h, a, curr, here)
  {
    var incr, fill := Pow2(a), Pow2(curr);
    ghost var f := Pow2(curr - a);
    ShlPow2(curr - a, a);
    NoneLate(start, h, a, curr);
    while true
      invariant 0 < f <= Pow2(curr - a) && fill == Shl(f, a)
      invariant forall i :: 0 <= i < table.Length ==>
                  table[i] == if IsCopy(i, start, curr, a, h) && IsLate(i, start, a, f) then here else old(table[i])
      decreases f
    {
      f := f - 1;
      NextCopy(start, h, a, curr, f);
      fill := fill - incr;
      table[start + h + fill] := here;
      if fill == 0 {
        break;
      }
    }
  }

  lemma NoneLate(start: nat, h: nat, a: nat, curr: nat)
    requires a <= curr
    ensures forall i: nat {:trigger IsCopy(i, start, curr, a, h)} ::
              IsCopy(i, start, curr, a, h) ==> !IsLate(i, start, a, Pow2(curr - a))
  {
    forall i: nat {:trigger IsCopy(i, start, curr, a, h)} | IsCopy(i, start, curr, a, h)
      ensures !IsLate(i, start, a, Pow2(curr - a))
    {
      HighBound(i - start, a, curr - a);
    }
  }

  lemma NextCopy(start: nat, h: nat, a: nat, curr: nat, f: nat)
    requires a <= curr && h < Pow2(a) && f < Pow2(curr - a)
    ensures Shl(f + 1, a) - Pow2(a) == Shl(f, a)
    ensures Shl(f, a) == 0 <==> f == 0
    ensures h + Shl(f, a) < Pow2(curr)
    ensures forall i: nat {:trigger IsCopy(i, start, curr, a, h)} :: IsCopy(i, start, curr, a, h) ==>
              (IsLate(i, start, a, f) <==> IsLate(i, start, a, f + 1) || i == start + h + Shl(f, a))
    ensures IsCopy(start + h + Shl(f, a), start, curr, a, h)
  {
    ShlAdd(f, 1, a);
    ShlPow2(0, a);
    ShlPow2(curr - a, a);
    ShlMonotone(f + 1, Pow2(curr - a), a);
    ShlMonotone(1, f, a);
    ShlZero(a);
    HighLowUnique(h, f, a);
    forall i: nat {:trigger IsCopy(i, start, curr, a, h)} | IsCopy(i, start, curr, a, h)
      ensures IsLate(i, start, a, f) <==> IsLate(i, start, a, f + 1) || i == start + h + Shl(f, a)
    {
      LowHighSplit(i - start, a);
    }
  }

  lemma AndNothing(a: nat)
    ensures And(a, 0) == 0
  {
  }

  /** Backwards increment of the len-bit code huff. */
  method IncrementHuff(huff: nat, len: nat) returns (r: nat)
    requires huff < Pow2(len) && 1 <= len <= MAXBITS
    ensures r == Val(BackIncrement(Bits(huff, len)))
  {
    hide Bits, Val, BackIncrement, And;
    var incr := Pow2(len - 1);
    ghost var k: int := len - 1;
    ghost var b := Bits(huff, len);
    AndBit(huff, len - 1, len);
    AndNothing(huff);
    while And(huff, incr) != 0
      invariant -1 <= k < len && incr == if k >= 0 then Pow2(k) else 0
      invariant k >= 0 ==> (And(huff, incr) != 0 <==> b[k])
      invariant forall i :: k < i < len ==> b[i]
      decreases k
    {
      incr, k := incr / 2, k - 1;
      if k >= 0 {
        AndBit(huff, k, len);
      }
    }
    if incr != 0 {
      AndMask(huff, k);
      BackIncrementAt(b, k);
      BitsPrefix(huff, k, len);
      ValBits(huff, k);
      r := And(huff, incr - 1);
      r := r + incr;
    } else {
      BackIncrementWraps(b);
      r := 0;
    }
  }

  lemma {:induction false} SlotMaxAttained(lens: seq<nat>, ord: seq<nat>, root: nat, i: nat)
    requires Sorted(lens, ord) && i < |ord| && root <= MAXBITS
    ensures SlotMax(lens, ord, root, i) <= lens[ord[|ord| - 1]]
    decreases |ord| - i
  {
    if i + 1 < |ord| {
      SortedPair(lens, ord, i, |ord| - 1);
      SlotMaxAttained(lens, ord, root, i + 1);
    }
  }

  lemma LookAheadStep(lens: seq<nat>, ord: seq<nat>, root: nat, i: nat, l: nat)
    requires Complete(lens) && Sorted(lens, ord) && 0 < i < |ord| && root <= l < MAXBITS
    requires OpensSlot(lens, ord, root, i)
    ensures 2 * Weight(lens, ord, i, l) + Remaining(lens, ord, i, l + 1) == Weight(lens, ord, i, l + 1)
    ensures Weight(lens, ord, i, l + 1) >= Pow2(l + 1 - root) <==> SlotMax(lens, ord, root, i) <= l + 1
  {
    WeightNext(lens, ord, i, l);
    SlotFull(lens, ord, root, i, l + 1);
  }

  lemma NothingShorter(lens: seq<nat>, ord: seq<nat>, i: nat, l: nat)
    requires i < |ord| && (forall k :: 0 <= k < |ord| ==> ord[k] < |lens|) && l < lens[ord[i]]
    ensures Weight(lens, ord, i, l) == 0
  {
  }

  lemma PowerDoubles(n: nat)
    ensures Pow2(n + 1) == 2 * Pow2(n)
  {
  }

  /** Look ahead in the length counts to size the sub-table for the i-th symbol. */
  method LookAhead(count: array<nat>, len: nat, root: nat, max: nat, ghost lens: seq<nat>, ghost ord: seq<nat>, ghost i: nat)
    returns (curr: nat)
    requires count.Length == MAXBITS + 1 && Complete(lens) && Sorted(lens, ord) && 0 < i < |ord|
    requires 0 < root < len == lens[ord[i]] && max == lens[ord[|ord| - 1]] && OpensSlot(lens, ord, root, i)
    requires forall l :: 1 <= l <= MAXBITS ==> count[l] == Remaining(lens, ord, i, l)
    ensures root + curr == SlotMax(lens, ord, root, i) && 0 < curr
  {
    hide Pow2, Weight, Remaining, SlotMax;
    SlotMaxCovers(lens, ord, root, i, i);
    SlotMaxAttained(lens, ord, root, i);
    NothingShorter(lens, ord, i, len - 1);
    curr := len - root;
    var left: int := Pow2(curr);
    ghost var l := len - 1;
    while curr + root < max
      invariant 0 < curr && len - 1 <= l == curr + root - 1 < max
      invariant l < SlotMax(lens, ord, root, i)
      invariant left == Pow2(curr) - 2 * Weight(lens, ord, i, l)
      decreases max - curr
    {
      LookAheadStep(lens, ord, root, i, l);
      PowerDoubles(curr);
      left := left - count[curr + root];
      if left <= 0 {
        break;
      }
      curr, l := curr + 1, l + 1;
      left := left * 2;
    }
  }

  // ---- What the loop keeps

  /** The n first symbols, in canonical order, can be looked up. */
  ghost predicate Entered(t: CodeType, lens: seq<nat>, ord: seq<nat>, root: nat, at: nat, T: seq<Entry>, n: nat)
    requires Accepts(t, lens) && n <= |ord| && forall k :: 0 <= k < |ord| ==> ord[k] < |lens|
  {
    forall j, w {:trigger Matches(lens, ord[j], w)} :: 0 <= j < n && 0 <= w && Matches(lens, ord[j], w) ==>
      Finds(T, at, root, w, SymbolEntry(t, ord[j], lens[ord[j]]))
  }

  /** The sub-tables of the n first symbols lie below `next`, or are the current one. */
  ghost predicate LinksBelow(lens: seq<nat>, ord: seq<nat>, root: nat, at: nat, T: seq<Entry>, n: nat, next: nat, low: int)
    requires n <= |ord| && forall k :: 0 <= k < |ord| ==> ord[k] < |lens|
  {
    forall j {:trigger ord[j]} :: 0 <= j < n && root < lens[ord[j]] ==>
      var slot := Low(Huff(lens, ord[j]), root);
      at + slot < |T| && (slot == low || T[at + slot].val + Pow2(T[at + slot].op) <= next)
  }

  /** The current table: the root table, or the sub-table of symbol n's slot. */
  ghost predicate Current(lens: seq<nat>, ord: seq<nat>, root: nat, at: nat, T: seq<Entry>, n: nat,
                          next: nat, curr: nat, low: int, drop: nat)
    requires Sorted(lens, ord) && n < |ord| && root <= MAXBITS
  {
    if lens[ord[n]] <= root then drop == 0 && next == 0 && curr == root && low == -1
    else drop == root && next >= Pow2(root) && low == Low(Huff(lens, ord[n]), root) && 0 < curr < 16 &&
         at + low < |T| && T[at + low] == Entry(curr, root, next) && SlotMax(lens, ord, root, n) <= root + curr
  }

  /** Entering a short code in the root table. */
  lemma EnterShort(t: CodeType, lens: seq<nat>, ord: seq<nat>, root: nat, at: nat, T: seq<Entry>, T': seq<Entry>, n: nat)
    requires Accepts(t, lens) && Fits(lens) && Sorted(lens, ord) && n < |ord| && lens[ord[n]] <= root
    requires Entered(t, lens, ord, root, at, T, n)
    requires Replicated(T, T', at, Huff(lens, ord[n]), lens[ord[n]], root, SymbolEntry(t, ord[n], lens[ord[n]]))
    ensures Entered(t, lens, ord, root, at, T', n + 1)
  {
    hide Low, High, Pow2, Huff, Fits, SymbolEntry;
    forall j, w {:trigger Matches(lens, ord[j], w)} | 0 <= j < n + 1 && 0 <= w && Matches(lens, ord[j], w)
      ensures Finds(T', at, root, w, SymbolEntry(t, ord[j], lens[ord[j]]))
    {
      var idx := Low(w, root);
      LowBound(w, root);
      LowLow(w, lens[ord[n]], root);
      SymbolEntryIsNoLink(t, ord[j], lens[ord[j]]);
      if j < n {
        SortedPair(lens, ord, j, n);
        assert Finds(T, at, root, w, SymbolEntry(t, ord[j], lens[ord[j]]));
        if Low(idx, lens[ord[n]]) == Huff(lens, ord[n]) {
          assert Matches(lens, ord[n], w);
          MatchUnique(lens, ord[j], ord[n], w);
        }
      }
    }
  }

  lemma SplitUnique(a: nat, b: nat, c: nat, d: nat, n: nat)
    requires a < Pow2(n) && c < Pow2(n)
    ensures a + Shl(b, n) == c + Shl(d, n) <==> a == c && b == d
  {
    HighLowUnique(a, b, n);
    HighLowUnique(c, d, n);
  }

  /** A long code, split at the root. */
  lemma LongMatch(lens: seq<nat>, s: nat, w: nat, root: nat)
    requires s < |lens| && root < lens[s]
    ensures Matches(lens, s, w) <==>
              Low(w, root) == Low(Huff(lens, s), root) && Low(High(w, root), lens[s] - root) == High(Huff(lens, s), root)
  {
    var h := Huff(lens, s);
    HuffBound(lens, s);
    LowSplit(w, root, lens[s] - root);
    LowHighSplit(h, root);
    LowBound(w, root);
    LowBound(h, root);
    SplitUnique(Low(w, root), Low(High(w, root), lens[s] - root), Low(h, root), High(h, root), root);
  }

  /** Where the bits w are looked up in the sub-table at `next`. */
  function SubIndex(at: nat, next: nat, curr: nat, root: nat, w: nat): nat {
    at + next + Low(High(w, root), curr)
  }

  /** The sub-table indices that entering symbol s writes are those of its own code. */
  lemma SubIndexWritten(lens: seq<nat>, s: nat, root: nat, at: nat, next: nat, curr: nat, w: nat)
    requires s < |lens| && root < lens[s] <= root + curr && Low(w, root) == Low(Huff(lens, s), root)
    ensures at + next <= SubIndex(at, next, curr, root, w) < at + next + Pow2(curr)
    ensures IsCopy(SubIndex(at, next, curr, root, w), at + next, curr, lens[s] - root, High(Huff(lens, s), root))
       <==> Matches(lens, s, w)
  {
    LowBound(High(w, root), curr);
    LowLow(High(w, root), lens[s] - root, curr);
    LongMatch(lens, s, w, root);
  }

  /** The sub-table of symbol n's slot is open. */
  ghost predicate SubTableOpen(t: CodeType, lens: seq<nat>, ord: seq<nat>, root: nat, at: nat, T: seq<Entry>,
                               n: nat, next: nat, curr: nat, low: nat)
  {
    Accepts(t, lens) && Sorted(lens, ord) && n < |ord| && 0 < root < lens[ord[n]] <= root + curr &&
    next >= Pow2(root) && low == Low(Huff(lens, ord[n]), root) && 0 < curr < 16 &&
    at + low < |T| && T[at + low] == Entry(curr, root, next) && at + next + Pow2(curr) <= |T|
  }

  /** The state in which a long code is entered. */
  ghost predicate ReadyForLong(t: CodeType, lens: seq<nat>, ord: seq<nat>, root: nat, at: nat, T: seq<Entry>,
                               n: nat, next: nat, curr: nat, low: nat)
  {
    SubTableOpen(t, lens, ord, root, at, T, n, next, curr, low) && Fits(lens) &&
    Entered(t, lens, ord, root, at, T, n) && LinksBelow(lens, ord, root, at, T, n, next, low)
  }

  ghost predicate WroteLong(t: CodeType, lens: seq<nat>, ord: seq<nat>, root: nat, at: nat, T: seq<Entry>, T': seq<Entry>,
                            n: nat, next: nat, curr: nat)
    requires Accepts(t, lens) && n < |ord| && ord[n] < |lens| && root <= lens[ord[n]]
  {
    Replicated(T, T', at + next, High(Huff(lens, ord[n]), root), lens[ord[n]] - root, curr,
               SymbolEntry(t, ord[n], lens[ord[n]] - root))
  }

  /** A look-up is undisturbed if the entries it visits are. */
  lemma FindsKept(T: seq<Entry>, T': seq<Entry>, at: nat, root: nat, w: nat, e: Entry)
    requires Finds(T, at, root, w, e) && |T'| == |T|
    requires T'[at + Low(w, root)] == T[at + Low(w, root)]
    requires root < e.bits ==>
               var i := SubIndex(at, T[at + Low(w, root)].val, T[at + Low(w, root)].op, root, w);
               i < |T| && T'[i] == T[i]
    ensures Finds(T', at, root, w, e)
  {
  }

  lemma FindsInSubTable(T: seq<Entry>, at: nat, root: nat, w: nat, e: Entry, next: nat, curr: nat)
    requires root < e.bits && 0 < curr < 16 && next >= Pow2(root) && at + next + Pow2(curr) <= |T|
    requires at + Low(w, root) < |T| && T[at + Low(w, root)] == Entry(curr, root, next)
    requires SubIndex(at, next, curr, root, w) < |T|
    requires T[SubIndex(at, next, curr, root, w)] == Entry(e.op, e.bits - root, e.val)
    ensures Finds(T, at, root, w, e)
  {
  }

  /** The new code is found. */
  lemma LongIsFound(t: CodeType, lens: seq<nat>, ord: seq<nat>, root: nat, at: nat, T: seq<Entry>, T': seq<Entry>,
                    n: nat, next: nat, curr: nat, low: nat, w: nat)
    requires SubTableOpen(t, lens, ord, root, at, T, n, next, curr, low)
    requires WroteLong(t, lens, ord, root, at, T, T', n, next, curr)
    requires Matches(lens, ord[n], w)
    ensures Finds(T', at, root, w, SymbolEntry(t, ord[n], lens[ord[n]]))
  {
    LowBound(w, root);
    assert Low(w, root) == low by { LongMatch(lens, ord[n], w, root); }
    var i := SubIndex(at, next, curr, root, w);
    SubIndexWritten(lens, ord[n], root, at, next, curr, w);
    assert T'[at + low] == T[at + low];
    assert T'[i] == SymbolEntry(t, ord[n], lens[ord[n]] - root);
    FindsInSubTable(T', at, root, w, SymbolEntry(t, ord[n], lens[ord[n]]), next, curr);
  }

  /** The sub-table entry of a different code in the same slot is kept. */
  lemma OtherCopyKept(t: CodeType, lens: seq<nat>, ord: seq<nat>, root: nat, at: nat, T: seq<Entry>, T': seq<Entry>,
                      n: nat, next: nat, curr: nat, low: nat, w: nat)
    requires SubTableOpen(t, lens, ord, root, at, T, n, next, curr, low)
    requires WroteLong(t, lens, ord, root, at, T, T', n, next, curr)
    requires Low(w, root) == low && !Matches(lens, ord[n], w)
    ensures SubIndex(at, next, curr, root, w) < |T|
    ensures T'[SubIndex(at, next, curr, root, w)] == T[SubIndex(at, next, curr, root, w)]
  {
    SubIndexWritten(lens, ord[n], root, at, next, curr, w);
  }

  /** Earlier codes are still found. */
  lemma LongKeepsOthers(t: CodeType, lens: seq<nat>, ord: seq<nat>, root: nat, at: nat, T: seq<Entry>, T': seq<Entry>,
                        n: nat, next: nat, curr: nat, low: nat, j: nat, w: nat)
    requires ReadyForLong(t, lens, ord, root, at, T, n, next, curr, low)
    requires WroteLong(t, lens, ord, root, at, T, T', n, next, curr)
    requires j < n && Matches(lens, ord[j], w)
    ensures Finds(T', at, root, w, SymbolEntry(t, ord[j], lens[ord[j]]))
  {
    hide Low, High, Pow2, Huff, SymbolEntry;
    var first, e := at + Low(w, root), SymbolEntry(t, ord[j], lens[ord[j]]);
    LowBound(w, root);
    SymbolEntryIsNoLink(t, ord[j], lens[ord[j]]);
    assert Finds(T, at, root, w, e);
    if lens[ord[j]] > root {
      LongMatch(lens, ord[j], w, root);
      LowBound(High(w, root), T[first].op);
      var i := SubIndex(at, T[first].val, T[first].op, root, w);
      if Low(w, root) == low {
        if Matches(lens, ord[n], w) {
          MatchUnique(lens, ord[j], ord[n], w);
        }
        OtherCopyKept(t, lens, ord, root, at, T, T', n, next, curr, low, w);
      } else {
        assert T[first].val + Pow2(T[first].op) <= next;
        assert i < at + next;
        assert T'[i] == T[i];
      }
    }
    FindsKept(T, T', at, root, w, e);
  }

  /** Entering a long code in the current sub-table. */
  lemma EnterLong(t: CodeType, lens: seq<nat>, ord: seq<nat>, root: nat, at: nat, T: seq<Entry>, T': seq<Entry>,
                  n: nat, next: nat, curr: nat, low: nat)
    requires ReadyForLong(t, lens, ord, root, at, T, n, next, curr, low)
    requires WroteLong(t, lens, ord, root, at, T, T', n, next, curr)
    ensures Entered(t, lens, ord, root, at, T', n + 1)
  {
    forall j, w {:trigger Matches(lens, ord[j], w)} | 0 <= j < n + 1 && 0 <= w && Matches(lens, ord[j], w)
      ensures Finds(T', at, root, w, SymbolEntry(t, ord[j], lens[ord[j]]))
    {
      if j == n {
        LongIsFound(t, lens, ord, root, at, T, T', n, next, curr, low, w);
      } else {
        LongKeepsOthers(t, lens, ord, root, at, T, T', n, next, curr, low, j, w);
      }
    }
  }

  /** No earlier code uses the root slot in which a sub-table is opened. */
  lemma SlotIsFree(lens: seq<nat>, ord: seq<nat>, root: nat, n: nat, j: nat, w: nat)
    requires Fits(lens) && Sorted(lens, ord) && j < n < |ord| && 0 < root <= MAXBITS
    requires OpensSlot(lens, ord, root, n) && Matches(lens, ord[j], w)
    ensures Low(w, root) != Low(Huff(lens, ord[n]), root)
  {
    var low := Low(Huff(lens, ord[n]), root);
    SortedPair(lens, ord, j, n);
    if lens[ord[j]] > root {
      LongMatch(lens, ord[j], w, root);
      SameSlot(lens, ord, root, j, n);
      SlotMonotone(lens, ord, root, j, n - 1);
      SlotMonotone(lens, ord, root, n - 1, n);
      if j < n - 1 {
        SortedPair(lens, ord, j, n - 1);
      }
    } else if Low(w, root) == low {
      HuffBound(lens, ord[n]);
      LowLow(w, lens[ord[j]], root);
      LowLow(Huff(lens, ord[n]), lens[ord[j]], root);
      MatchUnique(lens, ord[j], ord[n], Huff(lens, ord[n]));
    }
  }

  /** Entering a long code leaves the root table alone. */
  lemma LinksAfterLong(t: CodeType, lens: seq<nat>, ord: seq<nat>, root: nat, at: nat, T: seq<Entry>, T': seq<Entry>,
                       n: nat, next: nat, curr: nat, low: nat)
    requires ReadyForLong(t, lens, ord, root, at, T, n, next, curr, low)
    requires WroteLong(t, lens, ord, root, at, T, T', n, next, curr)
    ensures LinksBelow(lens, ord, root, at, T', n + 1, next, low) && T'[at + low] == T[at + low]
  {
    LowBound(Huff(lens, ord[n]), root);
    forall j {:trigger ord[j]} | 0 <= j < n + 1 && root < lens[ord[j]]
      ensures var slot := Low(Huff(lens, ord[j]), root);
              at + slot < |T'| && (slot == low || T'[at + slot].val + Pow2(T'[at + slot].op) <= next)
    {
      LowBound(Huff(lens, ord[j]), root);
    }
  }

  /** Opening the sub-table of symbol n's slot. */
  lemma OpenSubTable(t: CodeType, lens: seq<nat>, ord: seq<nat>, root: nat, at: nat, T: seq<Entry>, T': seq<Entry>,
                     n: nat, low: nat, e: Entry)
    requires Accepts(t, lens) && Fits(lens) && Sorted(lens, ord) && n < |ord| && 0 < root <= MAXBITS
    requires OpensSlot(lens, ord, root, n) && low == Low(Huff(lens, ord[n]), root)
    requires at + low < |T| && T' == T[at + low := e] && Entered(t, lens, ord, root, at, T, n)
    requires at + Pow2(root) <= |T|
    ensures Entered(t, lens, ord, root, at, T', n)
  {
    hide Low, High, Pow2, Huff, Fits, OpensSlot, SymbolEntry;
    LowBound(Huff(lens, ord[n]), root);
    forall j, w {:trigger Matches(lens, ord[j], w)} | 0 <= j < n && 0 <= w && Matches(lens, ord[j], w)
      ensures Finds(T', at, root, w, SymbolEntry(t, ord[j], lens[ord[j]]))
    {
      LowBound(w, root);
      SlotIsFree(lens, ord, root, n, j, w);
      SymbolEntryIsNoLink(t, ord[j], lens[ord[j]]);
      FindsKept(T, T', at, root, w, SymbolEntry(t, ord[j], lens[ord[j]]));
    }
  }

  lemma LinksAfterOpen(lens: seq<nat>, ord: seq<nat>, root: nat, at: nat, T: seq<Entry>, T': seq<Entry>,
                       n: nat, oldNext: nat, oldCurr: nat, oldLow: int, low: nat, e: Entry)
    requires Fits(lens) && Sorted(lens, ord) && n < |ord| && 0 < root <= MAXBITS
    requires OpensSlot(lens, ord, root, n) && low == Low(Huff(lens, ord[n]), root)
    requires at + low < |T| && T' == T[at + low := e]
    requires LinksBelow(lens, ord, root, at, T, n, oldNext, oldLow)
    requires oldLow >= 0 ==> at + oldLow < |T| && T[at + oldLow].val == oldNext && T[at + oldLow].op == oldCurr
    ensures LinksBelow(lens, ord, root, at, T', n, oldNext + Pow2(oldCurr), low)
  {
    forall j {:trigger ord[j]} | 0 <= j < n && root < lens[ord[j]]
      ensures var slot := Low(Huff(lens, ord[j]), root);
              at + slot < |T'| && (slot == low || T'[at + slot].val + Pow2(T'[at + slot].op) <= oldNext + Pow2(oldCurr))
    {
      HuffBound(lens, ord[j]);
      SlotIsFree(lens, ord, root, n, j, Huff(lens, ord[j]));
    }
  }

  /** Everything the loop of inflate_table keeps, when symbol n is about to be entered. */
  ghost predicate LoopState(t: CodeType, lens: seq<nat>, ord: seq<nat>, root: nat, at: nat, T: seq<Entry>,
                            n: nat, huff: nat, len: nat, next: nat, curr: nat, drop: nat, low: int, used: nat)
  {
    Accepts(t, lens) && Fits(lens) && Sorted(lens, ord) && n < |ord| && 0 < root <= MAXBITS &&
    len == lens[ord[n]] && huff == Huff(lens, ord[n]) &&
    at + Limit(t) <= |T| && Pow2(root) <= used <= Limit(t) &&
    used == Size(lens, ord, root, n) && used == next + Pow2(curr) &&
    Current(lens, ord, root, at, T, n, next, curr, low, drop) &&
    Entered(t, lens, ord, root, at, T, n) && LinksBelow(lens, ord, root, at, T, n, next, low)
  }

  /** The same just after symbol n has been entered. */
  ghost predicate AfterEntry(t: CodeType, lens: seq<nat>, ord: seq<nat>, root: nat, at: nat, T: seq<Entry>,
                             n: nat, next: nat, curr: nat, drop: nat, low: int, used: nat)
  {
    Accepts(t, lens) && Fits(lens) && Sorted(lens, ord) && n < |ord| && 0 < root <= MAXBITS &&
    at + Limit(t) <= |T| && Pow2(root) <= used <= Limit(t) &&
    used == Size(lens, ord, root, n) && used == next + Pow2(curr) &&
    Current(lens, ord, root, at, T, n, next, curr, low, drop) &&
    Entered(t, lens, ord, root, at, T, n + 1) && LinksBelow(lens, ord, root, at, T, n + 1, next, low)
  }

  /** Create the table entry of a symbol. */
  method MakeEntry(t: CodeType, sym: nat, bits: nat) returns (here: Entry)
    requires t.CODES? ==> sym < 19
    requires t.LENS? ==> sym < 288
    requires t.DISTS? ==> sym < 32
    ensures here == SymbolEntry(t, sym, bits)
  {
    if sym + 1 < Match(t) {
      here := Entry(0, bits, sym);
    } else if sym >= Match(t) {
      here := if t.LENS? then Entry(LEXT[sym - 257], bits, LBASE[sym - 257])
              else Entry(DEXT[sym], bits, DBASE[sym]);
    } else {
      here := Entry(32 + 64, bits, 0);
    }
  }

  /** The replication of symbol n's entry stays within the current table. */
  lemma EntryFits(t: CodeType, lens: seq<nat>, ord: seq<nat>, root: nat, at: nat, T: seq<Entry>,
                  n: nat, huff: nat, len: nat, next: nat, curr: nat, drop: nat, low: int, used: nat)
    requires LoopState(t, lens, ord, root, at, T, n, huff, len, next, curr, drop, low, used)
    ensures n < |ord| && drop <= len <= drop + curr && drop < len && High(huff, drop) < Pow2(len - drop) && at + next + Pow2(curr) <= |T|
    ensures drop == 0 ==> High(huff, drop) == huff && next == 0 && curr == root && len <= root && low == -1
    ensures drop != 0 ==> drop == root < len && low >= 0 && SubTableOpen(t, lens, ord, root, at, T, n, next, curr, low)
    ensures (t.CODES? ==> ord[n] < 19) && (t.LENS? ==> ord[n] < 288) && (t.DISTS? ==> ord[n] < 32)
  {
    HuffBound(lens, ord[n]);
    HighBound(huff, drop, len - drop);
    SlotMaxCovers(lens, ord, root, n, n);
  }

  lemma ShortEntered(t: CodeType, lens: seq<nat>, ord: seq<nat>, root: nat, at: nat, T: seq<Entry>, T': seq<Entry>,
                     n: nat, huff: nat, len: nat, next: nat, curr: nat, low: int, used: nat)
    requires LoopState(t, lens, ord, root, at, T, n, huff, len, next, curr, 0, low, used)
    requires Replicated(T, T', at + next, huff, len, curr, SymbolEntry(t, ord[n], len))
    ensures AfterEntry(t, lens, ord, root, at, T', n, next, curr, 0, low, used)
  {
    EnterShort(t, lens, ord, root, at, T, T', n);
    NoLongYet(lens, ord, root, at, T', n + 1, next, low);
  }

  lemma LongEntered(t: CodeType, lens: seq<nat>, ord: seq<nat>, root: nat, at: nat, T: seq<Entry>, T': seq<Entry>,
                    n: nat, huff: nat, len: nat, next: nat, curr: nat, low: nat, used: nat)
    requires LoopState(t, lens, ord, root, at, T, n, huff, len, next, curr, root, low, used)
    requires SubTableOpen(t, lens, ord, root, at, T, n, next, curr, low) && root < len
    requires Replicated(T, T', at + next, High(huff, root), len - root, curr, SymbolEntry(t, ord[n], len - root))
    ensures AfterEntry(t, lens, ord, root, at, T', n, next, curr, root, low, used)
  {
    EnterLong(t, lens, ord, root, at, T, T', n, next, curr, low);
    LinksAfterLong(t, lens, ord, root, at, T, T', n, next, curr, low);
  }

  lemma ReplicatedFrame(T: seq<Entry>, T': seq<Entry>, at: nat, start: nat, h: nat, a: nat, curr: nat, here: Entry)
    requires Replicated(T, T', start, h, a, curr, here) && at <= start
    ensures |T'| == |T| && at <= |T| && forall k :: 0 <= k < at ==> T'[k] == T[k]
  {
  }

  /** Create the table entry of symbol n and replicate it. */
  method EnterSymbol(t: CodeType, table: array<Entry>, at: nat, sym: nat, len: nat, huff: nat, next: nat, curr: nat, drop: nat,
                     ghost lens: seq<nat>, ghost ord: seq<nat>, ghost root: nat, ghost n: nat, ghost low: int, ghost used: nat)
    requires LoopState(t, lens, ord, root, at, table[..], n, huff, len, next, curr, drop, low, used) && sym == ord[n]
    modifies table
    ensures AfterEntry(t, lens, ord, root, at, table[..], n, next, curr, drop, low, used)
    ensures forall k :: 0 <= k < at ==> table[k] == old(table[k])
  {
    hide *;
    ghost var T := table[..];
    EntryFits(t, lens, ord, root, at, T, n, huff, len, next, curr, drop, low, used);
    var here := MakeEntry(t, sym, len - drop);
    Replicate(table, at + next, High(huff, drop), len - drop, curr, here);
    ReplicatedFrame(T, table[..], at, at + next, High(huff, drop), len - drop, curr, here);
    if drop == 0 {
      ShortEntered(t, lens, ord, root, at, T, table[..], n, huff, len, next, curr, low, used);
    } else {
      LongEntered(t, lens, ord, root, at, T, table[..], n, huff, len, next, curr, low, used);
    }
  }

  lemma NoLongYet(lens: seq<nat>, ord: seq<nat>, root: nat, at: nat, T: seq<Entry>, n: nat, next: nat, low: int)
    requires Sorted(lens, ord) && 0 < n <= |ord| && lens[ord[n - 1]] <= root
    ensures LinksBelow(lens, ord, root, at, T, n, next, low)
  {
    forall j {:trigger ord[j]} | 0 <= j < n
      ensures lens[ord[j]] <= root
    {
      if j < n - 1 {
        SortedPair(lens, ord, j, n - 1);
      }
    }
  }

  /** First symbol that has a base and extra bits. */
  function Match(t: CodeType): nat {
    match t case CODES => 20 case LENS => 257 case DISTS => 0
  }
}
