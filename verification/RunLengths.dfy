/** scan_tree and send_tree of trees.c: code lengths as runs, section 3.2.7 of RFC 1951. */
module RunLengths {
  import opened Machine
  import opened BitStrings
  import opened Canonical
  import opened BitWriter
  import opened DeflateSpec

  /** A code length, or a repeat code with its count. */
  datatype Item = Item(sym: nat, count: nat)

  ghost predicate ValidItem(it: Item) {
    it.sym < 19 &&
    RepeatBase(it.sym) <= it.count < RepeatBase(it.sym) + Pow2(RepeatBits(it.sym))
  }

  // ---- What the encoder sends

  function MaxCount(cur: nat, prev: int): nat {
    if cur == 0 then 138 else if cur == prev then 6 else 7
  }

  function MinCount(cur: nat, prev: int): nat {
    if cur == 0 || cur == prev then 3 else 4
  }

  function Same(sym: nat, n: nat): (r: seq<Item>)
    ensures |r| == n
  {
    seq(n, i => Item(sym, 1))
  }

  /** The items for a run of `count` lengths equal to cur, after the length prev. */
  function Emit(cur: nat, prev: int, count: nat): seq<Item> {
    if count < MinCount(cur, prev) then Same(cur, count)
    else if cur != 0 then
      if cur != prev then [Item(cur, 1), Item(16, count - 1)] else [Item(16, count)]
    else if count <= 10 then [Item(17, count)]
    else [Item(18, count)]
  }

  /** The items for lens[n..], with `count` more lengths equal to lens[n] still to be sent. */
  function Items(lens: seq<nat>, n: nat, prev: int, count: nat): seq<Item>
    requires n <= |lens|
    decreases |lens| - n
  {
    if n == |lens| then []
    else if count + 1 < MaxCount(lens[n], prev) && n + 1 < |lens| && lens[n + 1] == lens[n] then
      Items(lens, n + 1, prev, count + 1)
    else
      Emit(lens[n], prev, count + 1) + Items(lens, n + 1, lens[n], 0)
  }

  /** All the items for one tree. */
  function TreeItems(lens: seq<nat>): seq<Item> {
    Items(lens, 0, -1, 0)
  }

  // ---- What the decoder makes of it

  function Copies(v: nat, n: nat): (r: seq<nat>)
    ensures |r| == n && forall i :: 0 <= i < n ==> r[i] == v
  {
    seq(n, i => v)
  }

  function Play(lens: seq<nat>, items: seq<Item>): seq<nat>
    decreases |items|
  {
    if items == [] then lens
    else if items[0].sym == 16 && lens == [] then lens
    else Play(lens + Repeated(lens, items[0].sym, items[0].count), items[1..])
  }

  /** No repeat code comes before the first length. */
  ghost predicate Playable(lens: seq<nat>, items: seq<Item>)
    decreases |items|
  {
    items == [] ||
    (ValidItem(items[0]) && !(items[0].sym == 16 && lens == []) &&
     Playable(lens + Repeated(lens, items[0].sym, items[0].count), items[1..]))
  }

  lemma {:induction false} PlayAppend(lens: seq<nat>, a: seq<Item>, b: seq<Item>)
    requires Playable(lens, a)
    ensures Play(lens, a + b) == Play(Play(lens, a), b)
    ensures Playable(lens, a + b) <==> Playable(Play(lens, a), b)
    decreases |a|
  {
    hide ValidItem;
    if a == [] {
      assert a + b == b;
    } else {
      assert (a + b)[1..] == a[1..] + b;
      PlayAppend(lens + Repeated(lens, a[0].sym, a[0].count), a[1..], b);
    }
  }

  lemma {:induction false} PlaySame(lens: seq<nat>, sym: nat, n: nat)
    requires sym < 16
    ensures Playable(lens, Same(sym, n)) && Play(lens, Same(sym, n)) == lens + Copies(sym, n)
    decreases n
  {
    if n > 0 {
      assert Same(sym, n)[1..] == Same(sym, n - 1);
      assert Repeated(lens, sym, 1) == [sym];
      PlaySame(lens + [sym], sym, n - 1);
    } else {
      assert lens + Copies(sym, n) == lens;
    }
  }

  lemma PlayOne(lens: seq<nat>, it: Item)
    requires ValidItem(it) && !(it.sym == 16 && lens == [])
    ensures Playable(lens, [it]) && Play(lens, [it]) == lens + Repeated(lens, it.sym, it.count)
  {
    var next := lens + Repeated(lens, it.sym, it.count);
    assert [it][1..] == [];
    assert Play(next, []) == next;
  }

  /** The emitted items rebuild the run, with every count within its extra bits. */
  lemma PlayEmit(lens: seq<nat>, cur: nat, prev: int, count: nat)
    requires cur < 16 && 1 <= count <= MaxCount(cur, prev) && (prev >= 0 ==> lens != [] && lens[|lens| - 1] == prev)
    ensures Playable(lens, Emit(cur, prev, count))
    ensures Play(lens, Emit(cur, prev, count)) == lens + Copies(cur, count)
  {
    hide Playable, Play;
    RepeatRanges();
    var run := Copies(cur, count);
    if count < MinCount(cur, prev) {
      PlaySame(lens, cur, count);
    } else if cur != 0 && cur != prev {
      PlayOne(lens, Item(cur, 1));
      assert Repeated(lens, cur, 1) == [cur];
      PlayOne(lens + [cur], Item(16, count - 1));
      PlayAppend(lens, [Item(cur, 1)], [Item(16, count - 1)]);
      assert [Item(cur, 1)] + [Item(16, count - 1)] == Emit(cur, prev, count);
      assert lens + [cur] + Repeated(lens + [cur], 16, count - 1) == lens + run;
    } else {
      var it := Emit(cur, prev, count)[0];
      PlayOne(lens, it);
      assert lens + Repeated(lens, it.sym, it.count) == lens + run;
    }
  }

  lemma RepeatRanges()
    ensures Pow2(0) == 1 && Pow2(2) == 4 && Pow2(3) == 8 && Pow2(7) == 128
  {
  }

  /** Round trip: the decoder rebuilds the lengths, whatever lengths came before them. */
  lemma {:induction false} ItemsRebuild(before: seq<nat>, lens: seq<nat>, n: nat, prev: int, count: nat)
    requires n <= |lens| && count <= n && forall i :: 0 <= i < |lens| ==> lens[i] < 16
    requires if n == |lens| then count == 0 else forall i :: n - count <= i < n ==> lens[i] == lens[n]
    requires if n - count == 0 then prev == -1 else prev == lens[n - count - 1]
    requires n < |lens| ==> count < MaxCount(lens[n], prev)
    ensures Playable(before + lens[..n - count], Items(lens, n, prev, count))
    ensures Play(before + lens[..n - count], Items(lens, n, prev, count)) == before + lens
    decreases |lens| - n
  {
    hide Playable, Play, Emit;
    var sofar := before + lens[..n - count];
    if n == |lens| {
      assert sofar == before + lens;
      PlayNothing(sofar);
    } else if count + 1 < MaxCount(lens[n], prev) && n + 1 < |lens| && lens[n + 1] == lens[n] {
      ItemsRebuild(before, lens, n + 1, prev, count + 1);
    } else {
      PlayEmit(sofar, lens[n], prev, count + 1);
      RunSlice(lens, n, count);
      assert sofar + Copies(lens[n], count + 1) == before + lens[..n + 1];
      ItemsRebuild(before, lens, n + 1, lens[n], 0);
      PlayAppend(sofar, Emit(lens[n], prev, count + 1), Items(lens, n + 1, lens[n], 0));
    }
  }

  lemma RunSlice(lens: seq<nat>, n: nat, count: nat)
    requires count <= n < |lens| && forall i :: n - count <= i < n ==> lens[i] == lens[n]
    ensures lens[..n + 1] == lens[..n - count] + Copies(lens[n], count + 1)
  {
    var run := Copies(lens[n], count + 1);
    assert lens[..n + 1] == lens[..n - count] + lens[n - count..n + 1];
    forall i | 0 <= i < count + 1
      ensures lens[n - count..n + 1][i] == run[i]
    {
      assert lens[n - count..n + 1][i] == lens[n - count + i];
    }
  }

  lemma PlayNothing(lens: seq<nat>)
    ensures Playable(lens, []) && Play(lens, []) == lens
  {
  }

  /** For a whole tree. */
  lemma TreeRebuilt(before: seq<nat>, lens: seq<nat>)
    requires forall i :: 0 <= i < |lens| ==> lens[i] < 16
    ensures Playable(before, TreeItems(lens)) && Play(before, TreeItems(lens)) == before + lens
  {
    assert before + lens[..0] == before;
    ItemsRebuild(before, lens, 0, -1, 0);
  }

  // ---- The two loops over a tree

  /** The next length, or the guard past the last one. */
  function Next(lens: seq<nat>, n: nat): nat {
    if n < |lens| then lens[n] else 0xffff
  }

  function CountItems(items: seq<Item>, sym: nat): nat {
    if items == [] then 0 else CountItems(items[1..], sym) + if items[0].sym == sym then 1 else 0
  }

  lemma {:induction false} CountAppend(a: seq<Item>, b: seq<Item>, sym: nat)
    ensures CountItems(a + b, sym) == CountItems(a, sym) + CountItems(b, sym)
  {
    if a == [] {
      assert a + b == b;
    } else {
      assert (a + b)[1..] == a[1..] + b;
      CountAppend(a[1..], b, sym);
    }
  }

  lemma {:induction false} CountSame(cur: nat, n: nat, sym: nat)
    ensures CountItems(Same(cur, n), sym) == if sym == cur then n else 0
    decreases n
  {
    if n > 0 {
      assert Same(cur, n)[1..] == Same(cur, n - 1);
      CountSame(cur, n - 1, sym);
    }
  }

  /** Where the loops over a tree stand: counts left and limits. */
  ghost predicate Scanning(lens: seq<nat>, n: nat, prev: int, next: nat, count: nat, max: nat, min: nat) {
    n <= |lens| && next == Next(lens, n) && (n < |lens| ==> count < max == MaxCount(next, prev) && min == MinCount(next, prev)) &&
    count <= n && (n == |lens| ==> count == 0) && (forall i :: 0 <= i < |lens| ==> lens[i] < 16) && count <= 138
  }

  lemma ScanContinues(lens: seq<nat>, n: nat, prev: int, next: nat, count: nat, max: nat, min: nat)
    requires Scanning(lens, n, prev, next, count, max, min) && n < |lens| && count + 1 < max && next == Next(lens, n + 1)
    ensures Scanning(lens, n + 1, prev, next, count + 1, max, min)
    ensures Items(lens, n, prev, count) == Items(lens, n + 1, prev, count + 1)
  {
    hide Emit;
  }

  lemma ScanEmits(lens: seq<nat>, n: nat, prev: int, next: nat, count: nat, max: nat, min: nat)
    requires Scanning(lens, n, prev, next, count, max, min) && n < |lens| && !(count + 1 < max && next == Next(lens, n + 1))
    ensures Items(lens, n, prev, count) == Emit(next, prev, count + 1) + Items(lens, n + 1, next, 0)
    ensures var next' := Next(lens, n + 1);
            Scanning(lens, n + 1, next, next', 0,
                     if next' == 0 then 138 else if next == next' then 6 else 7,
                     if next' == 0 then 3 else if next == next' then 3 else 4)
  {
    hide Emit;
  }

  /** How the items emitted for one run count. */
  lemma EmitCounts(cur: nat, prev: int, count: nat, sym: nat)
    requires cur < 16 && 1 <= count
    ensures CountItems(Emit(cur, prev, count), sym) ==
            if count < MinCount(cur, prev) then (if sym == cur then count else 0)
            else if cur != 0 then (if sym == cur && cur != prev then 1 else 0) + (if sym == 16 then 1 else 0)
            else if count <= 10 then (if sym == 17 then 1 else 0)
            else (if sym == 18 then 1 else 0)
  {
    if count < MinCount(cur, prev) {
      CountSame(cur, count, sym);
    } else if cur != 0 && cur != prev {
      assert Emit(cur, prev, count) == [Item(cur, 1)] + [Item(16, count - 1)];
      CountAppend([Item(cur, 1)], [Item(16, count - 1)], sym);
      OneItem(Item(cur, 1), sym);
      OneItem(Item(16, count - 1), sym);
    } else {
      var it := Emit(cur, prev, count)[0];
      assert Emit(cur, prev, count) == [it];
      OneItem(it, sym);
    }
  }

  lemma OneItem(it: Item, sym: nat)
    ensures CountItems([it], sym) == if it.sym == sym then 1 else 0
  {
    assert [it][1..] == [];
  }

  /** scan_tree: count the code length symbols, and set the guard. */
  method ScanTree(dl: array<nat>, maxCode: nat, freq: array<nat>)
    requires dl != freq && maxCode + 1 < dl.Length && 19 <= freq.Length
    requires forall i :: 0 <= i <= maxCode ==> dl[i] < 16
    modifies dl, freq
    ensures forall i :: 0 <= i < dl.Length && i != maxCode + 1 ==> dl[i] == old(dl[i])
    ensures forall sym :: 0 <= sym < 19 ==>
              freq[sym] == old(freq[sym]) + CountItems(TreeItems(old(dl[..maxCode + 1])), sym)
    ensures forall i :: 19 <= i < freq.Length ==> freq[i] == old(freq[i])
    ensures dl[maxCode + 1] == 0xffff
  {
    hide *;
    ghost var lens := dl[..maxCode + 1];
    var prevlen: int, nextlen: nat, count: nat, maxCount: nat, minCount: nat := -1, dl[0], 0, 7, 4;
    if nextlen == 0 {
      maxCount, minCount := 138, 3;
    }
    dl[maxCode + 1] := 0xffff;
    ScanStarts(lens, nextlen, maxCount, minCount);
    for n := 0 to maxCode + 1
      modifies freq
      invariant Scanning(lens, n, prevlen, nextlen, count, maxCount, minCount)
      invariant forall sym {:trigger freq[sym]} :: 0 <= sym < 19 ==>
                  freq[sym] + CountItems(Items(lens, n, prevlen, count), sym)
                  == old(freq[sym]) + CountItems(TreeItems(lens), sym)
      invariant forall i :: 19 <= i < freq.Length ==> freq[i] == old(freq[i])
    {
      var curlen := nextlen;
      nextlen := dl[n + 1];
      ScanFacts(lens, n, prevlen, curlen, count, maxCount, minCount);
      GuardOrNext(dl, lens, n, maxCode);
      count := count + 1;
      if count < maxCount && curlen == nextlen {
        ScanContinues(lens, n, prevlen, curlen, count - 1, maxCount, minCount);
        continue;
      }
      ScanEmits(lens, n, prevlen, curlen, count - 1, maxCount, minCount);
      EmittedCounts(Items(lens, n, prevlen, count - 1), Items(lens, n + 1, curlen, 0), prevlen, curlen, count, minCount);
      if count < minCount {
        freq[curlen] := freq[curlen] + count;
      } else if curlen != 0 {
        if curlen != prevlen {
          freq[curlen] := freq[curlen] + 1;
        }
        freq[16] := freq[16] + 1;
      } else if count <= 10 {
        freq[17] := freq[17] + 1;
      } else {
        freq[18] := freq[18] + 1;
      }
      count, prevlen := 0, curlen;
      if nextlen == 0 {
        maxCount, minCount := 138, 3;
      } else if curlen == nextlen {
        maxCount, minCount := 6, 3;
      } else {
        maxCount, minCount := 7, 4;
      }
    }
    ItemsEnd(lens, prevlen, count);
    NoItems();
  }

  lemma ScanStarts(lens: seq<nat>, next: nat, max: nat, min: nat)
    requires lens != [] && next == lens[0] && (forall i :: 0 <= i < |lens| ==> lens[i] < 16)
    requires if next == 0 then max == 138 && min == 3 else max == 7 && min == 4
    ensures Scanning(lens, 0, -1, next, 0, max, min) && Items(lens, 0, -1, 0) == TreeItems(lens)
  {
  }

  lemma ScanFacts(lens: seq<nat>, n: nat, prev: int, next: nat, count: nat, max: nat, min: nat)
    requires Scanning(lens, n, prev, next, count, max, min) && n < |lens|
    ensures next < 16 && min == MinCount(next, prev) && count < max == MaxCount(next, prev)
  {
  }

  lemma GuardOrNext(dl: array<nat>, lens: seq<nat>, n: nat, maxCode: nat)
    requires n <= maxCode && maxCode + 1 < dl.Length && |lens| == maxCode + 1 && dl[maxCode + 1] == 0xffff
    requires forall i :: 0 <= i <= maxCode ==> dl[i] == lens[i]
    ensures dl[n + 1] == Next(lens, n + 1)
  {
  }

  lemma EmittedCounts(items: seq<Item>, rest: seq<Item>, prev: int, cur: nat, count: nat, min: nat)
    requires cur < 16 && 1 <= count && min == MinCount(cur, prev) && items == Emit(cur, prev, count) + rest
    ensures forall sym: nat :: CountItems(items, sym) == CountItems(rest, sym) +
                if count < min then (if sym == cur then count else 0)
                else if cur != 0 then (if sym == cur && cur != prev then 1 else 0) + (if sym == 16 then 1 else 0)
                else if count <= 10 then (if sym == 17 then 1 else 0)
                else (if sym == 18 then 1 else 0)
  {
    hide Emit;
    forall sym: nat
      ensures CountItems(items, sym) == CountItems(rest, sym) +
                if count < min then (if sym == cur then count else 0)
                else if cur != 0 then (if sym == cur && cur != prev then 1 else 0) + (if sym == 16 then 1 else 0)
                else if count <= 10 then (if sym == 17 then 1 else 0)
                else (if sym == 18 then 1 else 0)
    {
      EmitCounts(cur, prev, count, sym);
      CountAppend(Emit(cur, prev, count), rest, sym);
    }
  }

  lemma ItemsEnd(lens: seq<nat>, prev: int, count: nat)
    ensures Items(lens, |lens|, prev, count) == []
  {
  }

  lemma NoItems()
    ensures forall sym: nat :: CountItems([], sym) == 0
  {
  }

  // ---- Sending

  function ItemBits(cl: seq<nat>, it: Item): seq<bool>
    requires it.sym < |cl|
  {
    CodeWord(cl, it.sym) + (if it.sym < 16 then [] else Bits(Offset(it), RepeatBits(it.sym)))
  }

  /** What is sent beside the code. */
  function Offset(it: Item): nat {
    if it.count < RepeatBase(it.sym) then 0 else it.count - RepeatBase(it.sym)
  }

  function ItemsBits(cl: seq<nat>, items: seq<Item>): seq<bool>
    requires AllCoded(cl, items)
  {
    if items == [] then [] else ItemBits(cl, items[0]) + ItemsBits(cl, items[1..])
  }

  /** Every item's symbol has a code word. */
  predicate AllCoded(cl: seq<nat>, items: seq<Item>) {
    forall i :: 0 <= i < |items| ==> items[i].sym < |cl| && 0 < cl[items[i].sym]
  }

  lemma {:induction false} ItemsBitsAppend(cl: seq<nat>, a: seq<Item>, b: seq<Item>)
    requires AllCoded(cl, a + b)
    ensures AllCoded(cl, a) && AllCoded(cl, b)
    ensures ItemsBits(cl, a + b) == ItemsBits(cl, a) + ItemsBits(cl, b)
    decreases |a|
  {
    hide ItemBits;
    CodedParts(cl, a, b);
    if a == [] {
      assert a + b == b;
    } else {
      assert (a + b)[1..] == a[1..] + b;
      ItemsBitsAppend(cl, a[1..], b);
    }
  }

  lemma CodedParts(cl: seq<nat>, a: seq<Item>, b: seq<Item>)
    requires AllCoded(cl, a + b)
    ensures AllCoded(cl, a) && AllCoded(cl, b)
  {
    forall i | 0 <= i < |a|
      ensures a[i].sym < |cl| && 0 < cl[a[i].sym]
    {
      assert (a + b)[i] == a[i];
    }
    forall i | 0 <= i < |b|
      ensures b[i].sym < |cl| && 0 < cl[b[i].sym]
    {
      assert (a + b)[|a| + i] == b[i];
    }
  }

  /** The arrays of a tree hold the canonical code words of these lengths. */
  ghost predicate HoldsCodes(fc: array<nat>, dl: array<nat>, lens: seq<nat>)
    reads fc, dl
  {
    |lens| <= fc.Length && |lens| <= dl.Length &&
    forall s :: 0 <= s < |lens| && lens[s] != 0 ==>
      dl[s] == lens[s] <= MAXBITS && fc[s] == Val(CodeWord(lens, s))
  }

  /** send_code */
  method SendCode(w: Writer, sym: nat, fc: array<nat>, dl: array<nat>, ghost lens: seq<nat>)
    requires w.Valid() && HoldsCodes(fc, dl, lens) && sym < |lens| && 0 < lens[sym]
    modifies w
    ensures w.Valid() && w.Stream() == old(w.Stream()) + CodeWord(lens, sym)
  {
    hide CodeWord;
    ValBound(CodeWord(lens, sym));
    BitsVal(CodeWord(lens, sym));
    w.SendBits(fc[sym], dl[sym]);
  }

  /** One item goes out. */
  method SendItem(w: Writer, ghost it: Item, sym: nat, extra: nat, fc: array<nat>, dl: array<nat>, ghost cl: seq<nat>)
    requires w.Valid() && HoldsCodes(fc, dl, cl) && AllCoded(cl, [it])
    requires sym == it.sym && extra == Offset(it) < Pow2(RepeatBits(sym)) && RepeatBits(sym) <= 7
    modifies w
    ensures w.Valid() && w.Stream() == old(w.Stream()) + ItemsBits(cl, [it])
  {
    hide *;
    OneItemBits(cl, it);
    SendCode(w, sym, fc, dl, cl);
    if sym >= 16 {
      w.SendBits(extra, RepeatBits(sym));
    }
  }

  lemma OneItemBits(cl: seq<nat>, it: Item)
    requires AllCoded(cl, [it])
    ensures it.sym < |cl| && 0 < cl[it.sym]
    ensures ItemsBits(cl, [it]) == CodeWord(cl, it.sym) + (if it.sym < 16 then [] else Bits(Offset(it), RepeatBits(it.sym)))
    ensures forall s: seq<bool>, a: seq<bool>, b: seq<bool> {:trigger s + a + b} :: s + a + b == s + (a + b)
  {
    hide CodeWord, Bits;
    assert [it][0] == it;
    assert [it][1..] == [];
  }

  lemma SameSplit(cl: seq<nat>, cur: nat, k: nat, n: nat)
    requires k < n && AllCoded(cl, Same(cur, n))
    ensures AllCoded(cl, Same(cur, k)) && AllCoded(cl, Same(cur, k + 1)) && AllCoded(cl, [Item(cur, 1)])
    ensures ItemsBits(cl, Same(cur, k + 1)) == ItemsBits(cl, Same(cur, k)) + ItemsBits(cl, [Item(cur, 1)])
  {
    hide ItemsBits;
    assert Same(cur, n) == Same(cur, k + 1) + Same(cur, n - k - 1);
    CodedParts(cl, Same(cur, k + 1), Same(cur, n - k - 1));
    assert Same(cur, k + 1) == Same(cur, k) + [Item(cur, 1)];
    ItemsBitsAppend(cl, Same(cur, k), [Item(cur, 1)]);
  }

  lemma SameEnds(cl: seq<nat>, cur: nat)
    ensures Same(cur, 0) == [] && AllCoded(cl, []) && ItemsBits(cl, []) == []
  {
  }

  /** A short run is sent one length at a time. */
  method SendEach(w: Writer, cur: nat, count: nat, fc: array<nat>, dl: array<nat>, ghost cl: seq<nat>)
    requires w.Valid() && HoldsCodes(fc, dl, cl) && cur < 16 && 0 < count && AllCoded(cl, Same(cur, count))
    modifies w
    ensures w.Valid() && w.Stream() == old(w.Stream()) + ItemsBits(cl, Same(cur, count))
  {
    hide *;
    ghost var sent: seq<bool>, before := [], w.Stream();
    SameEnds(cl, cur);
    Literal(cur);
    var left: nat := count;
    while true
      invariant 0 < left <= count && w.Valid() && HoldsCodes(fc, dl, cl)
      invariant AllCoded(cl, Same(cur, count - left)) && sent == ItemsBits(cl, Same(cur, count - left))
      invariant w.Stream() == before + sent
      decreases left
    {
      SameSplit(cl, cur, count - left, count);
      SendItem(w, Item(cur, 1), cur, 0, fc, dl, cl);
      assert before + sent + ItemsBits(cl, [Item(cur, 1)]) == before + (sent + ItemsBits(cl, [Item(cur, 1)]));
      sent := sent + ItemsBits(cl, [Item(cur, 1)]);
      left := left - 1;
      if left == 0 {
        break;
      }
    }
  }

  lemma Literal(cur: nat)
    requires cur < 16
    ensures Offset(Item(cur, 1)) == 0 < Pow2(RepeatBits(cur)) && RepeatBits(cur) == 0
  {
  }

  /** What each branch of Emit is, and that its repeat counts fit their extra bits. */
  lemma EmitCases(cl: seq<nat>, cur: nat, prev: int, count: nat)
    requires 1 <= count <= MaxCount(cur, prev) && cur < 16 && AllCoded(cl, Emit(cur, prev, count))
    ensures count < MinCount(cur, prev) ==> Emit(cur, prev, count) == Same(cur, count)
    ensures count >= MinCount(cur, prev) && cur != 0 && cur != prev ==>
              4 <= count <= 7 && AllCoded(cl, [Item(cur, 1)]) && AllCoded(cl, [Item(16, count - 1)]) &&
              ItemsBits(cl, Emit(cur, prev, count)) == ItemsBits(cl, [Item(cur, 1)]) + ItemsBits(cl, [Item(16, count - 1)])
    ensures count >= MinCount(cur, prev) && cur != 0 && cur == prev ==>
              3 <= count <= 6 && Emit(cur, prev, count) == [Item(16, count)]
    ensures count >= MinCount(cur, prev) && cur == 0 && count <= 10 ==> 3 <= count && Emit(cur, prev, count) == [Item(17, count)]
    ensures count >= MinCount(cur, prev) && cur == 0 && count > 10 ==> count <= 138 && Emit(cur, prev, count) == [Item(18, count)]
  {
    hide ItemsBits;
    if count >= MinCount(cur, prev) && cur != 0 && cur != prev {
      assert Emit(cur, prev, count) == [Item(cur, 1)] + [Item(16, count - 1)];
      ItemsBitsAppend(cl, [Item(cur, 1)], [Item(16, count - 1)]);
    }
  }

  lemma RepeatCodes(count: nat)
    ensures 3 <= count <= 6 ==> Offset(Item(16, count)) == count - 3 < Pow2(2)
    ensures 3 <= count <= 10 ==> Offset(Item(17, count)) == count - 3 < Pow2(3)
    ensures 11 <= count <= 138 ==> Offset(Item(18, count)) == count - 11 < Pow2(7)
    ensures RepeatBits(16) == 2 && RepeatBits(17) == 3 && RepeatBits(18) == 7
  {
    RepeatRanges();
  }

  /** send_tree, one run. */
  method SendRun(w: Writer, curlen: nat, prevlen: int, count0: nat, minCount: nat,
                 fc: array<nat>, dl: array<nat>, ghost cl: seq<nat>)
    requires w.Valid() && HoldsCodes(fc, dl, cl) && curlen < 16
    requires 1 <= count0 <= MaxCount(curlen, prevlen) && minCount == MinCount(curlen, prevlen)
    requires AllCoded(cl, Emit(curlen, prevlen, count0))
    modifies w
    ensures w.Valid() && w.Stream() == old(w.Stream()) + ItemsBits(cl, Emit(curlen, prevlen, count0))
  {
    hide *;
    ghost var before := w.Stream();
    EmitCases(cl, curlen, prevlen, count0);
    var count := count0;
    if count < minCount {
      SendEach(w, curlen, count, fc, dl, cl);
    } else if curlen != 0 {
      Literal(curlen);
      if curlen != prevlen {
        SendItem(w, Item(curlen, 1), curlen, 0, fc, dl, cl);
        count := count - 1;
        assert before + ItemsBits(cl, [Item(curlen, 1)]) + ItemsBits(cl, [Item(16, count)])
            == before + (ItemsBits(cl, [Item(curlen, 1)]) + ItemsBits(cl, [Item(16, count)]));
      }
      RepeatCodes(count);
      SendItem(w, Item(16, count), 16, count - 3, fc, dl, cl);
    } else if count <= 10 {
      RepeatCodes(count);
      SendItem(w, Item(17, count), 17, count - 3, fc, dl, cl);
    } else {
      RepeatCodes(count);
      SendItem(w, Item(18, count), 18, count - 11, fc, dl, cl);
    }
  }

  /** send_tree */
  method SendTree(w: Writer, tree: array<nat>, maxCode: nat, fc: array<nat>, dl: array<nat>, ghost lens: seq<nat>, ghost cl: seq<nat>)
    requires w.Valid() && HoldsCodes(fc, dl, cl)
    requires maxCode + 1 < tree.Length && lens == tree[..maxCode + 1] && tree[maxCode + 1] == 0xffff
    requires forall i :: 0 <= i <= maxCode ==> tree[i] < 16
    requires AllCoded(cl, TreeItems(lens))
    modifies w
    ensures w.Valid() && w.Stream() == old(w.Stream()) + ItemsBits(cl, TreeItems(lens))
  {
    hide *;
    var prevlen: int, nextlen: nat, count: nat, maxCount: nat, minCount: nat := -1, tree[0], 0, 7, 4;
    if nextlen == 0 {
      maxCount, minCount := 138, 3;
    }
    ScanStarts(lens, nextlen, maxCount, minCount);
    ghost var before, sent: seq<bool> := w.Stream(), [];
    assert before + sent == before && sent + ItemsBits(cl, TreeItems(lens)) == ItemsBits(cl, TreeItems(lens));
    for n := 0 to maxCode + 1
      invariant w.Valid() && HoldsCodes(fc, dl, cl)
      invariant Scanning(lens, n, prevlen, nextlen, count, maxCount, minCount)
      invariant AllCoded(cl, Items(lens, n, prevlen, count)) && w.Stream() == before + sent
      invariant sent + ItemsBits(cl, Items(lens, n, prevlen, count)) == ItemsBits(cl, TreeItems(lens))
    {
      var curlen := nextlen;
      nextlen := tree[n + 1];
      ScanFacts(lens, n, prevlen, curlen, count, maxCount, minCount);
      GuardOrNext(tree, lens, n, maxCode);
      count := count + 1;
      if count < maxCount && curlen == nextlen {
        ScanContinues(lens, n, prevlen, curlen, count - 1, maxCount, minCount);
        continue;
      }
      ScanEmits(lens, n, prevlen, curlen, count - 1, maxCount, minCount);
      ghost var run, rest := Emit(curlen, prevlen, count), Items(lens, n + 1, curlen, 0);
      ItemsBitsAppend(cl, run, rest);
      SendRun(w, curlen, prevlen, count, minCount, fc, dl, cl);
      assert before + sent + ItemsBits(cl, run) == before + (sent + ItemsBits(cl, run));
      assert sent + ItemsBits(cl, run) + ItemsBits(cl, rest) == sent + (ItemsBits(cl, run) + ItemsBits(cl, rest));
      sent := sent + ItemsBits(cl, run);
      count, prevlen := 0, curlen;
      if nextlen == 0 {
        maxCount, minCount := 138, 3;
      } else if curlen == nextlen {
        maxCount, minCount := 6, 3;
      } else {
        maxCount, minCount := 7, 4;
      }
    }
    ItemsEnd(lens, prevlen, count);
    SameEnds(cl, 0);
    assert sent + [] == sent;
  }
}
