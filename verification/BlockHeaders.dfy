/** The headers of blocks: their bits, and that the reference decoder reads them back. */
module BlockHeaders {
  import opened Machine
  import opened BitStrings
  import opened Canonical
  import opened DecodeTable
  import opened InfTrees
  import opened BitWriter
  import opened DeflateSpec
  import opened DeflateRuns
  import opened RunLengths
  import opened BlockFormat

  /** Three bits: last block or not, and the kind. */
  function HeaderBits(kind: nat, last: bool): seq<bool> {
    Bits(2 * kind + if last then 1 else 0, 3)
  }

  function SizesBits(nlen: nat, ndist: nat, ncode: nat): seq<bool>
    requires 257 <= nlen && 1 <= ndist && 4 <= ncode
  {
    Bits(nlen - 257, 5) + Bits(ndist - 1, 5) + Bits(ncode - 4, 4)
  }

  /** The lengths of the code length code, in the order of section 3.2.7. */
  function ClBits(cl: seq<nat>, n: nat): seq<bool>
    requires n <= 19 == |cl|
  {
    if n == 0 then [] else (OrderIsPermutation(n - 1); ClBits(cl, n - 1) + Bits(cl[ORDER[n - 1]], 3))
  }

  /** What comes between a dynamic block's first three bits and its data. */
  function TreesBits(ll: seq<nat>, dl: seq<nat>, cl: seq<nat>, ncode: nat): seq<bool>
    requires 257 <= |ll| && 1 <= |dl| && 4 <= ncode <= 19 == |cl|
    requires AllCoded(cl, TreeItems(ll)) && AllCoded(cl, TreeItems(dl))
  {
    SizesBits(|ll|, |dl|, ncode) + ClBits(cl, ncode) + ItemsBits(cl, TreeItems(ll)) + ItemsBits(cl, TreeItems(dl))
  }

  // ---- Block type

  lemma HeaderBitsRead(B: seq<bool>, pos: nat, kind: nat, last: bool)
    requires kind < 4 && At(B, pos, HeaderBits(kind, last))
    ensures pos + 3 <= |B| && B[pos] == last && Number(B, pos + 1, 2) == kind
  {
    hide Number;
    var v := 2 * kind + if last then 1 else 0;
    BitsSplit(v, 1, 2);
    assert Bits(v, 1) == [last];
    assert High(v, 1) == kind;
    AtSplit(B, pos, Bits(v, 1), Bits(kind, 2));
    RepeatRanges();
    AtNumber(B, pos + 1, kind, 2);
    assert B[pos..pos + 1][0] == B[pos];
  }

  /** The block type as the decoder sees it. */
  function StartOf(kind: nat, last: bool): Phase {
    if kind == 0 then StoredLength(last)
    else if kind == 1 then Length(last, FixedLitLens(), FixedDistLens(32))
    else if kind == 2 then TableSizes(last)
    else Bad
  }

  lemma HeaderDecodes(B: seq<bool>, out: seq<byte>, pos: nat, kind: nat, last: bool)
    requires kind < 4 && At(B, pos, HeaderBits(kind, last))
    ensures Reaches(B, Config(Header(false), out, pos), Config(StartOf(kind, last), out, pos + 3))
  {
    hide Number, At, Reaches;
    HeaderBitsRead(B, pos, kind, last);
    ReachesStep(B, Config(Header(false), out, pos), Config(StartOf(kind, last), out, pos + 3));
  }

  // ---- Code lengths

  lemma ReadItem(B: seq<bool>, pos: nat, cl: seq<nat>, it: Item)
    requires Fits(cl) && it.sym < |cl| && 0 < cl[it.sym] && ValidItem(it) && At(B, pos, ItemBits(cl, it))
    ensures pos + cl[it.sym] + RepeatBits(it.sym) <= |B| && ReadSymbol(cl, B[pos..]) == Symbol(it.sym)
    ensures |ItemBits(cl, it)| == cl[it.sym] + RepeatBits(it.sym)
    ensures it.count == RepeatBase(it.sym) + Number(B, pos + cl[it.sym], RepeatBits(it.sym))
  {
    hide Fits, CodeWord, ReadSymbol, Number, At;
    var w, r := CodeWord(cl, it.sym), Bits(Offset(it), RepeatBits(it.sym));
    NoBits(Offset(it));
    AtSplit(B, pos, w, r);
    AtCodeWord(B, pos, cl, it.sym);
    RepeatRanges();
    AtNumber(B, pos + cl[it.sym], Offset(it), RepeatBits(it.sym));
  }

  lemma ItemDecodes(B: seq<bool>, last: bool, nlen: nat, ndist: nat, cl: seq<nat>, lens: seq<nat>, it: Item,
                    out: seq<byte>, pos: nat)
    requires Fits(cl) && it.sym < |cl| && 0 < cl[it.sym] && ValidItem(it) && At(B, pos, ItemBits(cl, it))
    requires !(it.sym == 16 && lens == []) && |lens| + it.count <= nlen + ndist
    ensures Step(B, Config(CodeLengths(last, nlen, ndist, cl, lens), out, pos))
         == Some(Config(CodeLengths(last, nlen, ndist, cl, lens + Repeated(lens, it.sym, it.count)), out,
                        pos + |ItemBits(cl, it)|))
  {
    hide Fits, ReadSymbol, Number, At, ItemBits, Repeated;
    ReadItem(B, pos, cl, it);
  }

  lemma {:induction false} PlayGrows(lens: seq<nat>, items: seq<Item>)
    requires Playable(lens, items)
    ensures |lens| <= |Play(lens, items)|
    decreases |items|
  {
    hide ValidItem;
    if items != [] {
      PlayGrows(lens + Repeated(lens, items[0].sym, items[0].count), items[1..]);
    }
  }

  lemma {:induction false} ItemsDecode(B: seq<bool>, last: bool, nlen: nat, ndist: nat, cl: seq<nat>, lens: seq<nat>,
                                       items: seq<Item>, out: seq<byte>, pos: nat)
    requires Fits(cl) && Playable(lens, items) && AllCoded(cl, items) && At(B, pos, ItemsBits(cl, items))
    requires |Play(lens, items)| <= nlen + ndist
    ensures Reaches(B, Config(CodeLengths(last, nlen, ndist, cl, lens), out, pos),
                    Config(CodeLengths(last, nlen, ndist, cl, Play(lens, items)), out, pos + |ItemsBits(cl, items)|))
    decreases |items|
  {
    hide Fits, At, ItemBits, Repeated, Reaches, ValidItem, Step;
    var c := Config(CodeLengths(last, nlen, ndist, cl, lens), out, pos);
    if items == [] {
      ReachesSelf(B, c);
    } else {
      var it := items[0];
      var lens' := lens + Repeated(lens, it.sym, it.count);
      PlayGrows(lens', items[1..]);
      RepeatedSize(lens, it);
      AtSplit(B, pos, ItemBits(cl, it), ItemsBits(cl, items[1..]));
      ItemDecodes(B, last, nlen, ndist, cl, lens, it, out, pos);
      var p := pos + |ItemBits(cl, it)|;
      var c1 := Config(CodeLengths(last, nlen, ndist, cl, lens'), out, p);
      ReachesStep(B, c, c1);
      ItemsDecode(B, last, nlen, ndist, cl, lens', items[1..], out, p);
      ReachesTrans(B, c, c1, Config(CodeLengths(last, nlen, ndist, cl, Play(lens, items)), out, pos + |ItemsBits(cl, items)|));
    }
  }

  lemma RepeatedSize(lens: seq<nat>, it: Item)
    requires it.sym == 16 ==> lens != []
    ensures |Repeated(lens, it.sym, it.count)| == it.count
  {
  }

  // ---- The code length code

  function InOrder(cl: seq<nat>, n: nat): (r: seq<nat>)
    requires n <= 19 == |cl|
    ensures |r| == n
  {
    if n == 0 then [] else (OrderIsPermutation(n - 1); InOrder(cl, n - 1) + [cl[ORDER[n - 1]]])
  }

  lemma {:induction false} InOrderAt(cl: seq<nat>, n: nat, i: nat)
    requires i < n <= 19 == |cl|
    ensures ORDER[i] < 19 && InOrder(cl, n)[i] == cl[ORDER[i]]
    decreases n
  {
    OrderIsPermutation(i);
    if i < n - 1 {
      InOrderAt(cl, n - 1, i);
    }
  }

  lemma ClDecode(B: seq<bool>, last: bool, nlen: nat, ndist: nat, ncode: nat, cl: seq<nat>, n: nat, out: seq<byte>, pos: nat)
    requires n <= ncode <= 19 == |cl| && (forall s :: 0 <= s < 19 ==> cl[s] <= 7) && At(B, pos, ClBits(cl, n))
    ensures Reaches(B, Config(ClLengths(last, nlen, ndist, ncode, []), out, pos),
                    Config(ClLengths(last, nlen, ndist, ncode, InOrder(cl, n)), out, pos + |ClBits(cl, n)|))
    decreases n
  {
    hide At, Reaches, Number, Bits;
    var c := Config(ClLengths(last, nlen, ndist, ncode, []), out, pos);
    if n == 0 {
      ReachesSelf(B, c);
    } else {
      OrderIsPermutation(n - 1);
      var v, front := cl[ORDER[n - 1]], ClBits(cl, n - 1);
      AtSplit(B, pos, front, Bits(v, 3));
      ClDecode(B, last, nlen, ndist, ncode, cl, n - 1, out, pos);
      RepeatRanges();
      AtNumber(B, pos + |front|, v, 3);
      ReachesThen(B, c, Config(ClLengths(last, nlen, ndist, ncode, InOrder(cl, n - 1)), out, pos + |front|),
        Config(ClLengths(last, nlen, ndist, ncode, InOrder(cl, n)), out, pos + |front| + 3));
    }
  }

  /** Leaving off the zeros at the end loses nothing. */
  lemma Arranged(cl: seq<nat>, ncode: nat)
    requires ncode <= 19 == |cl| && forall i {:trigger ORDER[i]} :: ncode <= i < 19 ==> ORDER[i] < 19 && cl[ORDER[i]] == 0
    ensures Arrange(InOrder(cl, ncode)) == cl
  {
    hide InOrder;
    forall s | 0 <= s < 19
      ensures Arrange(InOrder(cl, ncode))[s] == cl[s]
    {
      OrderIsPermutation(s);
      if PLACE[s] < ncode {
        InOrderAt(cl, ncode, PLACE[s]);
      } else {
        assert cl[ORDER[PLACE[s]]] == 0;
      }
    }
  }

  // ---- All of a dynamic header

  /** What the two codes and the code length code have to be for inflate to take them. */
  ghost predicate Sendable(ll: seq<nat>, dl: seq<nat>, cl: seq<nat>, ncode: nat) {
    257 <= |ll| <= 286 && 1 <= |dl| <= 30 && 4 <= ncode <= 19 == |cl| &&
    (forall s :: 0 <= s < 19 ==> cl[s] <= 7) && Complete(cl) &&
    (forall i {:trigger ORDER[i]} :: ncode <= i < 19 ==> ORDER[i] < 19 && cl[ORDER[i]] == 0) &&
    ValidLens(ll) && ValidLens(dl) && AcceptedCodes(ll, dl) &&
    AllCoded(cl, TreeItems(ll)) && AllCoded(cl, TreeItems(dl))
  }

  lemma SizesDecode(B: seq<bool>, last: bool, nlen: nat, ndist: nat, ncode: nat, out: seq<byte>, pos: nat)
    requires 257 <= nlen <= 286 && 1 <= ndist <= 30 && 4 <= ncode <= 19 && At(B, pos, SizesBits(nlen, ndist, ncode))
    ensures Reaches(B, Config(TableSizes(last), out, pos), Config(ClLengths(last, nlen, ndist, ncode, []), out, pos + 14))
  {
    hide At, Reaches, Number, Bits;
    var a, b, c := Bits(nlen - 257, 5), Bits(ndist - 1, 5), Bits(ncode - 4, 4);
    AtSplit(B, pos, a + b, c);
    AtSplit(B, pos, a, b);
    PowersUpTo5();
    AtNumber(B, pos, nlen - 257, 5);
    AtNumber(B, pos + 5, ndist - 1, 5);
    AtNumber(B, pos + 10, ncode - 4, 4);
    ReachesStep(B, Config(TableSizes(last), out, pos), Config(ClLengths(last, nlen, ndist, ncode, []), out, pos + 14));
  }

  lemma ClAccepted(B: seq<bool>, last: bool, nlen: nat, ndist: nat, ncode: nat, cl: seq<nat>, out: seq<byte>, pos: nat)
    requires pos <= |B| && ncode <= 19 == |cl| && Complete(cl)
    requires forall i {:trigger ORDER[i]} :: ncode <= i < 19 ==> ORDER[i] < 19 && cl[ORDER[i]] == 0
    ensures Step(B, Config(ClLengths(last, nlen, ndist, ncode, InOrder(cl, ncode)), out, pos))
         == Some(Config(CodeLengths(last, nlen, ndist, cl, []), out, pos))
  {
    hide InOrder, Arrange;
    Arranged(cl, ncode);
  }

  lemma LengthsAccepted(B: seq<bool>, last: bool, ll: seq<nat>, dl: seq<nat>, cl: seq<nat>, out: seq<byte>, pos: nat)
    requires pos <= |B| && ValidLens(ll) && ValidLens(dl) && AcceptedCodes(ll, dl)
    ensures Step(B, Config(CodeLengths(last, |ll|, |dl|, cl, ll + dl), out, pos)) == Some(Config(Length(last, ll, dl), out, pos))
  {
    hide AcceptedCodes;
    assert (ll + dl)[..|ll|] == ll && (ll + dl)[|ll|..] == dl;
  }

  lemma SendableLens(ll: seq<nat>, dl: seq<nat>, cl: seq<nat>, ncode: nat)
    requires Sendable(ll, dl, cl, ncode)
    ensures forall i :: 0 <= i < |ll| ==> ll[i] < 16
    ensures forall i :: 0 <= i < |dl| ==> dl[i] < 16
    ensures Fits(cl)
  {
    hide AllCoded, TreeItems, AcceptedCodes, Taken;
  }

  /** The code lengths of both trees come back. */
  lemma TreesDecode(B: seq<bool>, last: bool, ll: seq<nat>, dl: seq<nat>, cl: seq<nat>, ncode: nat, out: seq<byte>, pos: nat)
    requires Sendable(ll, dl, cl, ncode) && pos <= |B|
    requires At(B, pos, ItemsBits(cl, TreeItems(ll)) + ItemsBits(cl, TreeItems(dl)))
    ensures var end := pos + |ItemsBits(cl, TreeItems(ll))| + |ItemsBits(cl, TreeItems(dl))|;
            Reaches(B, Config(CodeLengths(last, |ll|, |dl|, cl, []), out, pos), Config(Length(last, ll, dl), out, end))
  {
    hide At, Reaches, ItemsBits, TreeItems, AllCoded, AcceptedCodes, Complete, Fits, Step;
    SendableLens(ll, dl, cl, ncode);
    var a, b := ItemsBits(cl, TreeItems(ll)), ItemsBits(cl, TreeItems(dl));
    AtSplit(B, pos, a, b);
    TreeRebuilt([], ll);
    TreeRebuilt(ll, dl);
    assert [] + ll == ll;
    ItemsDecode(B, last, |ll|, |dl|, cl, [], TreeItems(ll), out, pos);
    ItemsDecode(B, last, |ll|, |dl|, cl, ll, TreeItems(dl), out, pos + |a|);
    AtInside(B, pos + |a|, b);
    LengthsAccepted(B, last, ll, dl, cl, out, pos + |a| + |b|);
    var c := Config(CodeLengths(last, |ll|, |dl|, cl, []), out, pos);
    var c2 := Config(CodeLengths(last, |ll|, |dl|, cl, ll + dl), out, pos + |a| + |b|);
    ReachesTrans(B, c, Config(CodeLengths(last, |ll|, |dl|, cl, ll), out, pos + |a|), c2);
    ReachesThen(B, c, c2, Config(Length(last, ll, dl), out, pos + |a| + |b|));
  }

  /** A dynamic header brings the decoder to the data with the same codes. */
  lemma DynamicDecodes(B: seq<bool>, last: bool, ll: seq<nat>, dl: seq<nat>, cl: seq<nat>, ncode: nat, out: seq<byte>, pos: nat)
    requires Sendable(ll, dl, cl, ncode) && At(B, pos, TreesBits(ll, dl, cl, ncode))
    ensures Reaches(B, Config(TableSizes(last), out, pos), Config(Length(last, ll, dl), out, pos + |TreesBits(ll, dl, cl, ncode)|))
  {
    hide At, Reaches, ItemsBits, TreeItems, AllCoded, AcceptedCodes, Complete, Step, ClBits, SizesBits, InOrder;
    var a, b := SizesBits(|ll|, |dl|, ncode), ClBits(cl, ncode);
    var d, e := ItemsBits(cl, TreeItems(ll)), ItemsBits(cl, TreeItems(dl));
    assert TreesBits(ll, dl, cl, ncode) == a + (b + (d + e));
    AtSplit(B, pos, a, b + (d + e));
    AtSplit(B, pos + |a|, b, d + e);
    SizesSize(|ll|, |dl|, ncode);
    SizesDecode(B, last, |ll|, |dl|, ncode, out, pos);
    ClDecode(B, last, |ll|, |dl|, ncode, cl, ncode, out, pos + 14);
    var p := pos + 14 + |b|;
    AtInside(B, p, d + e);
    ClAccepted(B, last, |ll|, |dl|, ncode, cl, out, p);
    TreesDecode(B, last, ll, dl, cl, ncode, out, p);
    var c := Config(TableSizes(last), out, pos);
    var c1 := Config(ClLengths(last, |ll|, |dl|, ncode, []), out, pos + 14);
    var c2 := Config(ClLengths(last, |ll|, |dl|, ncode, InOrder(cl, ncode)), out, p);
    var c3 := Config(CodeLengths(last, |ll|, |dl|, cl, []), out, p);
    ReachesTrans(B, c, c1, c2);
    ReachesThen(B, c, c2, c3);
    ReachesTrans(B, c, c3, Config(Length(last, ll, dl), out, p + |d| + |e|));
  }

  lemma SizesSize(nlen: nat, ndist: nat, ncode: nat)
    requires 257 <= nlen && 1 <= ndist && 4 <= ncode
    ensures |SizesBits(nlen, ndist, ncode)| == 14
  {
    hide Bits;
  }

  // ---- Stored blocks

  lemma {:induction false} CopyDecodes(B: seq<bool>, last: bool, data: seq<byte>, out: seq<byte>, pos: nat)
    requires pos <= |B| && At(B, pos, ByteBits(data))
    ensures Reaches(B, Config(StoredCopy(last, |data|), out, pos), Config(Header(last), out + data, pos + 8 * |data|))
    decreases |data|
  {
    hide At, Reaches, Number, ByteBits, Bits;
    var c := Config(StoredCopy(last, |data|), out, pos);
    if data == [] {
      assert out + data == out;
      ReachesStep(B, c, Config(Header(last), out, pos));
    } else {
      var b, rest := data[0], data[1..];
      assert data == [b] + rest;
      ByteBitsAppend([b], rest);
      OneByteBits(b);
      AtSplit(B, pos, Bits(b as nat, 8), ByteBits(rest));
      Pow2Of8();
      AtNumber(B, pos, b as nat, 8);
      var c1 := Config(StoredCopy(last, |rest|), out + [b], pos + 8);
      ReachesStep(B, c, c1);
      CopyDecodes(B, last, rest, out + [b], pos + 8);
      assert out + [b] + rest == out + data;
      ReachesTrans(B, c, c1, Config(Header(last), out + data, pos + 8 * |data|));
    }
  }

  lemma OneByteBits(b: byte)
    ensures ByteBits([b]) == Bits(b as nat, 8)
  {
    hide Bits;
    assert [b] == [] + [b];
    ByteBitsSnoc([], b);
  }

  /** A stored block decodes to its bytes. */
  lemma StoredDecodes(B: seq<bool>, last: bool, data: seq<byte>, out: seq<byte>, pos: nat, pad: seq<bool>)
    requires |data| < 65536 && |pad| < 8 && (pos + |pad|) % 8 == 0
    requires At(B, pos, pad + (Bits(|data|, 16) + Bits(65535 - |data|, 16) + ByteBits(data)))
    ensures Reaches(B, Config(StoredLength(last), out, pos),
                    Config(Header(last), out + data, pos + |pad| + 32 + 8 * |data|))
  {
    hide At, Reaches, Number, ByteBits, Bits, Step;
    var x, y, z := Bits(|data|, 16), Bits(65535 - |data|, 16), ByteBits(data);
    var p := pos + |pad|;
    AtSplit(B, pos, pad, x + y + z);
    AtSplit(B, p, x + y, z);
    AtSplit(B, p, x, y);
    Pow2Of16();
    AtNumber(B, p, |data|, 16);
    AtNumber(B, p + 16, 65535 - |data|, 16);
    AtInside(B, p + 32, z);
    var c, c1, c2 := Config(StoredLength(last), out, pos), Config(StoredLength(last), out, p),
                     Config(StoredCopy(last, |data|), out, p + 32);
    StoredSteps(B, last, out, pos, p, |data|);
    if pos == p {
      ReachesSelf(B, c);
    } else {
      ReachesStep(B, c, c1);
    }
    ReachesThen(B, c, c1, c2);
    CopyDecodes(B, last, data, out, p + 32);
    ReachesTrans(B, c, c2, Config(Header(last), out + data, p + 32 + 8 * |data|));
  }

  lemma StoredSteps(B: seq<bool>, last: bool, out: seq<byte>, pos: nat, p: nat, n: nat)
    requires pos <= p < pos + 8 && p % 8 == 0 && p + 32 <= |B| && n < 65536
    requires Number(B, p, 16) == n && Number(B, p + 16, 16) == 65535 - n
    ensures pos != p ==> Step(B, Config(StoredLength(last), out, pos)) == Some(Config(StoredLength(last), out, p))
    ensures Step(B, Config(StoredLength(last), out, p)) == Some(Config(StoredCopy(last, n), out, p + 32))
  {
    hide Number;
  }
}
