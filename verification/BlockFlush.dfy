/** _tr_flush_block of trees.c: building the trees for a block, choosing its encoding, and writing it. */
module BlockFlush {
  import opened Machine
  import opened BitStrings
  import opened Canonical
  import opened CodeWords
  import opened HuffmanTheory
  import opened BitLengths
  import opened TreeBuilder
  import opened HuffmanTrees
  import LengthAssignment
  import opened DecodeTable
  import opened InfTrees
  import opened BitWriter
  import opened DeflateSpec
  import opened DeflateRuns
  import opened RunLengths
  import opened StaticTables
  import opened BlockFormat
  import opened BlockHeaders
  import opened BlockSizes
  import opened Blocks

  // ---- Items of both trees

  lemma {:induction false} PlayableValid(lens: seq<nat>, items: seq<Item>, i: nat)
    requires Playable(lens, items) && i < |items|
    ensures items[i].sym < 19
    decreases |items|
  {
    hide Repeated;
    if i > 0 {
      PlayableValid(lens + Repeated(lens, items[0].sym, items[0].count), items[1..], i - 1);
    }
  }

  lemma {:induction false} ItemTotal(items: seq<Item>)
    requires forall i :: 0 <= i < |items| ==> items[i].sym < 19
    ensures FreqSum(ItemFreqs(items), 19) == |items|
    decreases |items|
  {
    hide ItemFreqs;
    if items == [] {
      NoItemsSize(seq(19, i => false), seq(19, i => 0));
    } else {
      var it, rest := items[0], items[1..];
      assert [it] + rest == items;
      ItemTotal(rest);
      ItemFreqsCons(it, rest);
      BumpSum(ItemFreqs(rest), it.sym, 19);
    }
  }

  lemma {:induction false} ItemIsCounted(items: seq<Item>, i: nat)
    requires i < |items|
    ensures CountItems(items, items[i].sym) > 0
    decreases |items|
  {
    if i > 0 {
      ItemIsCounted(items[1..], i - 1);
    }
  }

  /** The items of the literal tree and then of the distance tree. */
  function BothItems(ll: seq<nat>, dl: seq<nat>): seq<Item> {
    TreeItems(ll) + TreeItems(dl)
  }

  lemma BothItemsFacts(ll: seq<nat>, dl: seq<nat>)
    requires |ll| <= 286 && |dl| <= 30
    requires forall i :: 0 <= i < |ll| ==> ll[i] < 16
    requires forall i :: 0 <= i < |dl| ==> dl[i] < 16
    ensures forall i :: 0 <= i < |BothItems(ll, dl)| ==> BothItems(ll, dl)[i].sym < 19
    ensures FreqSum(ItemFreqs(BothItems(ll, dl)), 19) <= 316
  {
    hide TreeItems, Playable, ItemFreqs;
    TreeRebuilt([], ll);
    TreeRebuilt([], dl);
    FewItems([], TreeItems(ll));
    FewItems([], TreeItems(dl));
    forall i | 0 <= i < |BothItems(ll, dl)|
      ensures BothItems(ll, dl)[i].sym < 19
    {
      if i < |TreeItems(ll)| {
        PlayableValid([], TreeItems(ll), i);
      } else {
        PlayableValid([], TreeItems(dl), i - |TreeItems(ll)|);
      }
    }
    ItemTotal(BothItems(ll, dl));
  }

  /** The symbols that both trees need have code words. */
  lemma BothCoded(ll: seq<nat>, dl: seq<nat>, used: seq<bool>, cl: seq<nat>, codes: seq<nat>)
    requires GoodTree(BlDesc(), ItemFreqs(BothItems(ll, dl)), used, cl, codes)
    requires forall i :: 0 <= i < |BothItems(ll, dl)| ==> BothItems(ll, dl)[i].sym < 19
    ensures AllCoded(cl, BothItems(ll, dl)) && AllCoded(cl, TreeItems(ll)) && AllCoded(cl, TreeItems(dl))
    ensures |used| == 19 == |cl| && forall s :: 0 <= s < 19 && ItemFreqs(BothItems(ll, dl))[s] > 0 ==> used[s]
  {
    hide TreeItems, Complete, CodeWord, LengthAssignment.Size;
    forall i | 0 <= i < |BothItems(ll, dl)|
      ensures BothItems(ll, dl)[i].sym < |cl| && 0 < cl[BothItems(ll, dl)[i].sym]
    {
      ItemIsCounted(BothItems(ll, dl), i);
    }
    CodedParts(cl, TreeItems(ll), TreeItems(dl));
  }

  lemma BothSize(ll: seq<nat>, dl: seq<nat>, used: seq<bool>, cl: seq<nat>)
    requires |used| == 19 == |cl| && AllCoded(cl, BothItems(ll, dl))
    requires AllCoded(cl, TreeItems(ll)) && AllCoded(cl, TreeItems(dl))
    requires forall s :: 0 <= s < 19 && ItemFreqs(BothItems(ll, dl))[s] > 0 ==> used[s]
    ensures |AllExtraBits(BlDesc())| == 19
    ensures CostWithExtra(used, ItemFreqs(BothItems(ll, dl)), cl, AllExtraBits(BlDesc()))
         == |ItemsBits(cl, TreeItems(ll))| + |ItemsBits(cl, TreeItems(dl))|
  {
    hide TreeItems, ItemFreqs, AllExtraBits, CostWithExtra, AllCoded;
    ItemsSize(used, cl, BothItems(ll, dl));
    ItemsBitsAppend(cl, TreeItems(ll), TreeItems(dl));
  }

  lemma BothCounted(ll: seq<nat>, dl: seq<nat>, freq: seq<nat>)
    requires |freq| == 19
    requires forall sym :: 0 <= sym < 19 ==> freq[sym] == CountItems(TreeItems(ll), sym) + CountItems(TreeItems(dl), sym)
    ensures freq == ItemFreqs(BothItems(ll, dl))
  {
    hide TreeItems, CountItems;
    forall sym: nat | sym < 19
      ensures freq[sym] == CountItems(BothItems(ll, dl), sym)
    {
      CountAppend(TreeItems(ll), TreeItems(dl), sym);
    }
  }

  // ---- build_bl_tree

  /** Everything a good tree says about sending with it. */
  lemma TreeCodes(desc: StaticDesc, freq: seq<nat>, used: seq<bool>, lens: seq<nat>, codes: seq<nat>, fc: array<nat>, dl: array<nat>)
    requires GoodTree(desc, freq, used, lens, codes) && desc.maxLength <= MAXBITS
    requires desc.elems <= fc.Length && desc.elems <= dl.Length && fc[..desc.elems] == codes
    requires forall s :: 0 <= s < desc.elems && lens[s] != 0 ==> dl[s] == lens[s]
    ensures HoldsCodes(fc, dl, lens)
  {
    hide Complete, CodeWord, Val, LengthAssignment.Size;
    forall s | 0 <= s < |lens| && lens[s] != 0
      ensures dl[s] == lens[s] <= MAXBITS && fc[s] == Val(CodeWord(lens, s))
    {
      assert fc[..desc.elems][s] == fc[s];
    }
  }

  lemma TreeLens(desc: StaticDesc, freq: seq<nat>, used: seq<bool>, lens: seq<nat>, codes: seq<nat>)
    requires GoodTree(desc, freq, used, lens, codes)
    ensures |lens| == desc.elems == |used| == |freq| && Complete(lens) && 2 <= LengthAssignment.Size(used, |used|)
    ensures forall s :: 0 <= s < desc.elems ==> lens[s] <= desc.maxLength && (used[s] <==> lens[s] > 0)
    ensures forall s :: 0 <= s < desc.elems && freq[s] > 0 ==> used[s]
  {
    hide CodeWord, Val, LengthAssignment.Size, Taken;
  }

  lemma BlDescIs()
    ensures BlDesc().elems == 19 && BlDesc().maxLength == 7 && BlDesc().staticLens.None? && |BlDesc().extra| == 19
    ensures ValidDesc(BlDesc()) && BlDesc().base == 0
  {
    DescsValid();
  }

  lemma NoStaticCost(desc: StaticDesc, act: seq<bool>, w: seq<nat>, cost: int)
    requires ValidDesc(desc) && |act| == desc.elems <= |w| && StaticCost(desc, act, w, cost) && desc.staticLens.None?
    ensures cost == 0
  {
  }

  /** build_bl_tree */
  method BuildBlTree(b: Block, lMax: nat, dMax: nat) returns (maxBlindex: nat, ghost used: seq<bool>)
    requires b.Sized() && 256 <= lMax < 286 && dMax < 30
    requires b.lDl.Length == 573 && b.dDl.Length == 61 && b.bDl.Length == b.bFc.Length == 39
    requires b.lDl[256] != 0 && forall i :: 0 <= i <= lMax ==> b.lDl[i] < 16
    requires forall i :: 0 <= i <= dMax ==> b.dDl[i] < 16
    requires forall i :: 0 <= i < 19 ==> b.bFc[i] == 0
    requires Bytes(b.s.depth[..])
    modifies b.s, b.s.heap, b.s.depth, b.s.blCount, b.lDl, b.dDl, b.bFc, b.bDl
    ensures Bytes(b.s.depth[..]) && b.lDl[lMax + 1] == 0xffff && b.dDl[dMax + 1] == 0xffff
    ensures forall i :: 0 <= i < 573 && i != lMax + 1 ==> b.lDl[i] == old(b.lDl[i])
    ensures forall i :: 0 <= i < 61 && i != dMax + 1 ==> b.dDl[i] == old(b.dDl[i])
    ensures GoodTree(BlDesc(), ItemFreqs(BothItems(b.lDl[..lMax + 1], b.dDl[..dMax + 1])), used, b.bDl[..19], b.bFc[..19])
    ensures HoldsCodes(b.bFc, b.bDl, b.bDl[..19])
    ensures 3 <= maxBlindex <= 18
    ensures forall i {:trigger ORDER[i]} :: maxBlindex < i < |ORDER| ==> ORDER[i] < 19 && b.bDl[ORDER[i]] == 0
    ensures AllCoded(b.bDl[..19], TreeItems(b.lDl[..lMax + 1])) && AllCoded(b.bDl[..19], TreeItems(b.dDl[..dMax + 1]))
    ensures b.s.optLen == old(b.s.optLen) + |ItemsBits(b.bDl[..19], TreeItems(b.lDl[..lMax + 1]))| +
              |ItemsBits(b.bDl[..19], TreeItems(b.dDl[..dMax + 1]))| + 3 * (maxBlindex + 1) + 14
    ensures b.s.staticLen == old(b.s.staticLen)
  {
    hide *;
    BlockSizesOf(b);
    BlDescIs();
    ghost var ll, dl := b.lDl[..lMax + 1], b.dDl[..dMax + 1];
    ScanTree(b.lDl, lMax, b.bFc);
    ScanTree(b.dDl, dMax, b.bFc);
    assert b.lDl[..lMax + 1] == ll && b.dDl[..dMax + 1] == dl;
    ghost var freq: seq<nat> := b.bFc[..19];
    BothCounted(ll, dl, freq);
    BothItemsFacts(ll, dl);
    ghost var opt0, stat0 := b.s.optLen, b.s.staticLen;
    ghost var merges, w, cut;
    var m;
    m, used, merges, w, cut := BuildTree(b.s, BlDesc(), b.bFc, b.bDl);
    ghost var cl := b.bDl[..19];
    BothCoded(ll, dl, used, cl, b.bFc[..19]);
    BothSize(ll, dl, used, cl);
    NoStaticCost(BlDesc(), used, freq, b.s.staticLen - stat0);
    TreeLens(BlDesc(), freq, used, cl, b.bFc[..19]);
    SevenFits();
    TreeCodes(BlDesc(), freq, used, cl, b.bFc[..19], b.bFc, b.bDl);
    OrderFacts();
    LengthSent(ll, cl);
    maxBlindex := 18;
    while maxBlindex >= 3
      invariant 3 <= maxBlindex <= 18
      invariant exists i {:trigger ORDER[i]} :: 3 <= i <= maxBlindex && ORDER[i] < 19 && cl[ORDER[i]] != 0
      invariant forall i {:trigger ORDER[i]} :: maxBlindex < i < |ORDER| ==> ORDER[i] < 19 && b.bDl[ORDER[i]] == 0
      decreases maxBlindex
    {
      if b.bDl[ORDER[maxBlindex]] != 0 {
        break;
      }
      maxBlindex := maxBlindex - 1;
    }

    b.s.optLen := b.s.optLen + 3 * (maxBlindex + 1) + 5 + 5 + 4;
  }

  /** Repeat codes alone give only zeros. */
  lemma {:induction false} OnlyZeros(lens: seq<nat>, items: seq<Item>)
    requires Playable(lens, items) && forall x :: 0 <= x < |lens| ==> lens[x] == 0
    requires forall i :: 0 <= i < |items| ==> items[i].sym >= 16
    ensures forall x :: 0 <= x < |Play(lens, items)| ==> Play(lens, items)[x] == 0
    decreases |items|
  {
    if items != [] {
      OnlyZeros(lens + Repeated(lens, items[0].sym, items[0].count), items[1..]);
    }
  }

  /** Some length is sent as such, so at least four code length lengths are. */
  lemma LengthSent(ll: seq<nat>, cl: seq<nat>)
    requires |ll| > 256 && ll[256] != 0 && |cl| == 19 && AllCoded(cl, TreeItems(ll))
    requires forall i :: 0 <= i < |ll| ==> ll[i] < 16
    ensures exists i {:trigger ORDER[i]} :: 3 <= i <= 18 && ORDER[i] < 19 && cl[ORDER[i]] != 0
  {
    hide TreeItems, Playable, Play;
    TreeRebuilt([], ll);
    assert [] + ll == ll;
    if forall k :: 0 <= k < |TreeItems(ll)| ==> TreeItems(ll)[k].sym >= 16 {
      OnlyZeros([], TreeItems(ll));
    } else {
      var k :| 0 <= k < |TreeItems(ll)| && TreeItems(ll)[k].sym < 16;
      var s := TreeItems(ll)[k].sym;
      OrderIsPermutation(s);
      LengthsComeLater(s);
      assert cl[ORDER[PLACE[s]]] != 0;
    }
  }

  lemma LengthsComeLater(s: nat)
    requires s < 16
    ensures 3 <= PLACE[s] <= 18
  {
  }

  lemma SevenFits()
    ensures 7 <= MAXBITS
  {
  }

  lemma OrderFacts()
    ensures |ORDER| == 19 && forall i :: 0 <= i < 19 ==> ORDER[i] < 19
  {
    forall i | 0 <= i < 19
      ensures ORDER[i] < 19
    {
      OrderIsPermutation(i);
    }
  }

  // ---- What the decoder makes of a block

  ghost predicate Continues(B: seq<bool>, start: seq<bool>, bits: seq<bool>) {
    start + bits <= B
  }

  /** Wherever `bits` follows `start` in a stream, decoding them appends to the output what makes
      it out', and stops right after them. */
  ghost predicate Decodes(start: seq<bool>, bits: seq<bool>, last: bool, out: seq<byte>, out': seq<byte>) {
    forall B: seq<bool> :: Continues(B, start, bits) ==>
      Reaches(B, Config(Header(false), out, |start|), Config(Header(last), out', |start| + |bits|))
  }

  /** Blocks written one after the other decode one after the other. */
  lemma DecodesThen(start: seq<bool>, a: seq<bool>, b: seq<bool>, last: bool, out: seq<byte>, out1: seq<byte>, out2: seq<byte>)
    requires Decodes(start, a, false, out, out1) && Decodes(start + a, b, last, out1, out2)
    ensures Decodes(start, a + b, last, out, out2)
  {
    hide Reaches;
    forall B: seq<bool> | Continues(B, start, a + b)
      ensures Reaches(B, Config(Header(false), out, |start|), Config(Header(last), out2, |start| + |a + b|))
    {
      assert start + (a + b) == start + a + b;
      assert Continues(B, start, a) && Continues(B, start + a, b);
      ReachesTrans(B, Config(Header(false), out, |start|), Config(Header(false), out1, |start| + |a|),
        Config(Header(last), out2, |start| + |a + b|));
    }
  }

  /** After the last block, padded to a byte boundary, the decoder is done. */
  lemma DecodesToEnd(start: seq<bool>, bits: seq<bool>, pad: seq<bool>, out: seq<byte>, out': seq<byte>)
    requires Decodes(start, bits, true, out, out') && |pad| < 8 && |start + bits + pad| % 8 == 0
    ensures Reaches(start + bits + pad, Config(Header(false), out, |start|), Config(Done, out', |start + bits + pad|))
  {
    hide Reaches;
    var B := start + bits + pad;
    assert Continues(B, start, bits);
    ReachesThen(B, Config(Header(false), out, |start|), Config(Header(true), out', |start| + |bits|), Config(Done, out', |B|));
  }

  lemma AtPrefix(B: seq<bool>, start: seq<bool>, bits: seq<bool>)
    requires start + bits <= B
    ensures At(B, |start|, bits)
  {
    assert (start + bits)[|start|..] == bits;
  }

  /** Past the block type. */
  lemma StartDecodes(B: seq<bool>, out: seq<byte>, pos: nat, kind: nat, last: bool, rest: seq<bool>, end: Config)
    requires kind < 3 && At(B, pos, HeaderBits(kind, last) + rest)
    requires At(B, pos + 3, rest) ==> Reaches(B, Config(StartOf(kind, last), out, pos + 3), end)
    ensures Reaches(B, Config(Header(false), out, pos), end)
  {
    hide *;
    HeaderFits(kind, last);
    AtSplit(B, pos, HeaderBits(kind, last), rest);
    HeaderDecodes(B, out, pos, kind, last);
    ReachesTrans(B, Config(Header(false), out, pos), Config(StartOf(kind, last), out, pos + 3), end);
  }

  lemma StoredBlockDecodes(start: seq<bool>, pad: seq<bool>, buf: seq<byte>, last: bool, out: seq<byte>)
    requires |buf| < 65536 && |pad| < 8 && (|start| + 3 + |pad|) % 8 == 0
    ensures Decodes(start, HeaderBits(0, last) + pad + StoredBits(buf), last, out, out + buf)
  {
    hide Reaches, At, ByteBits, Bits, HeaderBits;
    var bits := HeaderBits(0, last) + pad + StoredBits(buf);
    HeaderFits(0, last);
    forall B: seq<bool> | Continues(B, start, bits)
      ensures Reaches(B, Config(Header(false), out, |start|), Config(Header(last), out + buf, |start| + |bits|))
    {
      AtPrefix(B, start, bits);
      assert bits == HeaderBits(0, last) + (pad + StoredBits(buf));
      if At(B, |start| + 3, pad + StoredBits(buf)) {
        StoredDecodes(B, last, buf, out, |start| + 3, pad);
      }
      StartDecodes(B, out, |start|, 0, last, pad + StoredBits(buf), Config(Header(last), out + buf, |start| + |bits|));
    }
  }

  lemma FixedWords()
    ensures SameWords(FixedDistLens(30), FixedDistLens(32), 30)
  {
    hide CodeWord;
    forall s | 0 <= s < 30
      ensures CodeWord(FixedDistLens(30), s) == CodeWord(FixedDistLens(32), s)
    {
      FixedDistanceWord(30, s);
      FixedDistanceWord(32, s);
    }
  }

  lemma FixedBody(tokens: seq<Token>)
    requires forall i :: 0 <= i < |tokens| ==> ValidToken(tokens[i])
    ensures AllCodedTokens(FixedLitLens(), FixedDistLens(30), tokens) && HasWord(FixedLitLens(), 256)
    ensures AllCodedTokens(FixedLitLens(), FixedDistLens(32), tokens)
    ensures BodyBits(FixedLitLens(), FixedDistLens(30), tokens) == BodyBits(FixedLitLens(), FixedDistLens(32), tokens)
  {
    hide CodeWord, LengthCode, DistanceCode, SameWords;
    FixedWords();
    SelfWords(FixedLitLens());
    SameBodyBits(FixedLitLens(), FixedDistLens(30), FixedLitLens(), FixedDistLens(32), tokens);
  }

  lemma SelfWords(lens: seq<nat>)
    ensures SameWords(lens, lens, 286)
  {
  }

  lemma FixedStart(last: bool)
    ensures StartOf(1, last) == Length(last, FixedLitLens(), FixedDistLens(32))
  {
  }

  lemma FixedBlockDecodes(start: seq<bool>, tokens: seq<Token>, last: bool, out: seq<byte>)
    requires (forall i :: 0 <= i < |tokens| ==> ValidToken(tokens[i])) && AllInReach(out, tokens)
    ensures AllCodedTokens(FixedLitLens(), FixedDistLens(30), tokens)
    ensures Decodes(start, HeaderBits(1, last) + BodyBits(FixedLitLens(), FixedDistLens(30), tokens), last, out, Expand(out, tokens))
  {
    hide Reaches, At, HeaderBits, BodyBits, FixedLitLens, FixedDistLens, AllInReach, Expand, GoodCodes, AllCodedTokens, HasWord,
      Complete, StartOf;
    FixedBody(tokens);
    var ll, dl := FixedLitLens(), FixedDistLens(32);
    var body := BodyBits(ll, FixedDistLens(30), tokens);
    HeaderFits(1, last);
    FixedCodesGood();
    FixedStart(last);
    HasWordMeans(ll, 256);
    forall B: seq<bool> | Continues(B, start, HeaderBits(1, last) + body)
      ensures Reaches(B, Config(Header(false), out, |start|), Config(Header(last), Expand(out, tokens), |start| + 3 + |body|))
    {
      AtPrefix(B, start, HeaderBits(1, last) + body);
      if At(B, |start| + 3, body) {
        BodyDecodes(B, last, ll, dl, out, |start| + 3, tokens);
      }
      StartDecodes(B, out, |start|, 1, last, body, Config(Header(last), Expand(out, tokens), |start| + 3 + |body|));
    }
  }

  lemma DynamicBlockDecodes(start: seq<bool>, tokens: seq<Token>, L: seq<nat>, D: seq<nat>, ll: seq<nat>, dl: seq<nat>,
                            cl: seq<nat>, ncode: nat, last: bool, out: seq<byte>)
    requires Sendable(ll, dl, cl, ncode) && GoodCodes(ll, dl) && HasWord(ll, 256) && |L| > 256
    requires SameWords(L, ll, 286) && SameWords(D, dl, 30) && AllCodedTokens(L, D, tokens) && AllInReach(out, tokens)
    requires AllCoded(cl, TreeItems(ll)) && AllCoded(cl, TreeItems(dl)) && 257 <= |ll| && 1 <= |dl| && 4 <= ncode <= 19 == |cl|
    ensures Decodes(start, HeaderBits(2, last) + TreesBits(ll, dl, cl, ncode) + BodyBits(L, D, tokens), last, out, Expand(out, tokens))
  {
    hide Reaches, At, HeaderBits, BodyBits, TreesBits, AllInReach, Expand, GoodCodes, AllCodedTokens, HasWord, Sendable,
      AllCoded, TreeItems, SameWords;
    SameBody(L, D, ll, dl, tokens);
    var trees, body := TreesBits(ll, dl, cl, ncode), BodyBits(L, D, tokens);
    var bits := HeaderBits(2, last) + trees + body;
    HeaderFits(2, last);
    HasWordMeans(ll, 256);
    forall B: seq<bool> | Continues(B, start, bits)
      ensures Reaches(B, Config(Header(false), out, |start|), Config(Header(last), Expand(out, tokens), |start| + |bits|))
    {
      AtPrefix(B, start, bits);
      assert bits == HeaderBits(2, last) + (trees + body);
      var end := Config(Header(last), Expand(out, tokens), |start| + |bits|);
      if At(B, |start| + 3, trees + body) {
        AtSplit(B, |start| + 3, trees, body);
        DynamicDecodes(B, last, ll, dl, cl, ncode, out, |start| + 3);
        BodyDecodes(B, last, ll, dl, out, |start| + 3 + |trees|, tokens);
        ReachesTrans(B, Config(TableSizes(last), out, |start| + 3), Config(Length(last, ll, dl), out, |start| + 3 + |trees|), end);
      }
      StartDecodes(B, out, |start|, 2, last, trees + body, end);
    }
  }

  lemma SameBody(L: seq<nat>, D: seq<nat>, ll: seq<nat>, dl: seq<nat>, tokens: seq<Token>)
    requires SameWords(L, ll, 286) && SameWords(D, dl, 30) && AllCodedTokens(L, D, tokens) && HasWord(ll, 256) && |L| > 256
    ensures AllCodedTokens(ll, dl, tokens) && |ll| > 256 && BodyBits(ll, dl, tokens) == BodyBits(L, D, tokens)
  {
    hide CodeWord, Coded, TokenBits;
    SameBodyBits(L, D, ll, dl, tokens);
  }

  // ---- The trees of a block

  /** A tree cut off after its last code. */
  lemma CutTree(lens: seq<nat>, codes: nat)
    requires codes <= |lens| && Complete(lens) && forall s :: codes <= s < |lens| ==> lens[s] == 0
    ensures Complete(lens[..codes]) && SameWords(lens, lens[..codes], |lens|)
    ensures !Rejected(LENS, lens[..codes]) && !Rejected(DISTS, lens[..codes])
  {
    hide CodeWord, Taken, Kraft;
    CodesOfPrefix(lens, codes);
  }

  lemma TokensCoded(tokens: seq<Token>, usedL: seq<bool>, L: seq<nat>, usedD: seq<bool>, D: seq<nat>)
    requires CodesUsed(usedL, usedD, tokens) && |L| == 286 && |D| == 30
    requires forall s :: 0 <= s < 286 ==> (usedL[s] <==> L[s] > 0)
    requires forall s :: 0 <= s < 30 ==> (usedD[s] <==> D[s] > 0)
    requires forall i :: 0 <= i < |tokens| ==> ValidToken(tokens[i])
    ensures AllCodedTokens(L, D, tokens) && HasWord(L, 256)
  {
    hide LitFreqs, DistFreqs, LengthCode, DistanceCode;
    EndCounted(tokens);
    forall i | 0 <= i < |tokens|
      ensures Coded(L, D, tokens[i])
    {
      SentCounted(tokens, i);
    }
  }

  lemma BufferTokens(d: seq<nat>, l: seq<nat>, n: nat)
    requires n <= |d| && n <= |l| && ValidBuffers(d, l, n)
    ensures forall i :: 0 <= i < n ==> ValidToken(TokensOf(d, l, n)[i])
  {
  }

  lemma DescShapes()
    ensures ValidDesc(LitDesc()) && ValidDesc(DistDesc())
    ensures LitDesc().elems == 286 && DistDesc().elems == 30 && LitDesc().maxLength == DistDesc().maxLength == 15 == MAXBITS
    ensures LitDesc().staticLens == Some(FixedLitLens()) && DistDesc().staticLens == Some(FixedDistLens(30))
    ensures |AllExtraBits(LitDesc())| == 286 && |AllExtraBits(DistDesc())| == 30
  {
    DescsValid();
  }

  lemma StaticCostIs(desc: StaticDesc, act: seq<bool>, w: seq<nat>, cost: int, lens: seq<nat>)
    requires ValidDesc(desc) && |act| == desc.elems <= |w| && StaticCost(desc, act, w, cost) && desc.staticLens == Some(lens)
    ensures |AllExtraBits(desc)| == desc.elems <= |lens| && cost == CostWithExtra(act, w, lens, AllExtraBits(desc))
  {
  }

  /** The literal and distance codes that a block's trees hold. */
  datatype TreeSet = TreeSet(L: seq<nat>, usedL: seq<bool>, lMax: nat, D: seq<nat>, usedD: seq<bool>, dMax: nat)

  ghost predicate GoodSet(T: TreeSet, tokens: seq<Token>) {
    |T.L| == 286 && |T.D| == 30 && CodesUsed(T.usedL, T.usedD, tokens) && Complete(T.L) && Complete(T.D) &&
    (forall s :: 0 <= s < 286 ==> (T.usedL[s] <==> T.L[s] > 0)) &&
    (forall s :: 0 <= s < 30 ==> (T.usedD[s] <==> T.D[s] > 0)) &&
    256 <= T.lMax < 286 && T.dMax < 30 &&
    (forall s :: T.lMax < s < 286 ==> T.L[s] == 0) && (forall s :: T.dMax < s < 30 ==> T.D[s] == 0)
  }

  lemma SetIsGood(T: TreeSet, tokens: seq<Token>, codesL: seq<nat>, codesD: seq<nat>)
    requires GoodTree(LitDesc(), LitFreqs(tokens), T.usedL, T.L, codesL)
    requires GoodTree(DistDesc(), DistFreqs(tokens), T.usedD, T.D, codesD)
    requires T.lMax < 286 && T.dMax < 30 && |T.usedL| == 286 && |T.usedD| == 30 && T.usedL[T.lMax]
    requires (forall x :: T.lMax < x < 286 ==> !T.usedL[x]) && (forall x :: T.dMax < x < 30 ==> !T.usedD[x])
    ensures GoodSet(T, tokens)
  {
    hide GoodTree, LitFreqs, DistFreqs, Complete, LitDesc, DistDesc;
    DescShapes();
    TreeLens(LitDesc(), LitFreqs(tokens), T.usedL, T.L, codesL);
    TreeLens(DistDesc(), DistFreqs(tokens), T.usedD, T.D, codesD);
    EndCounted(tokens);
  }

  lemma BlockCost(T: TreeSet, tokens: seq<Token>)
    requires GoodSet(T, tokens) && forall i :: 0 <= i < |tokens| ==> ValidToken(tokens[i])
    ensures AllCodedTokens(T.L, T.D, tokens) && HasWord(T.L, 256) && |T.L| == 286 && |T.usedL| == 286 && |T.usedD| == 30 == |T.D|
    ensures AllCodedTokens(FixedLitLens(), FixedDistLens(30), tokens)
    ensures |AllExtraBits(LitDesc())| == 286 && |AllExtraBits(DistDesc())| == 30
    ensures |BodyBits(T.L, T.D, tokens)|
         == CostWithExtra(T.usedL, LitFreqs(tokens), T.L, AllExtraBits(LitDesc())) +
            CostWithExtra(T.usedD, DistFreqs(tokens), T.D, AllExtraBits(DistDesc()))
    ensures |BodyBits(FixedLitLens(), FixedDistLens(30), tokens)|
         == CostWithExtra(T.usedL, LitFreqs(tokens), FixedLitLens(), AllExtraBits(LitDesc())) +
            CostWithExtra(T.usedD, DistFreqs(tokens), FixedDistLens(30), AllExtraBits(DistDesc()))
  {
    hide LitFreqs, DistFreqs, Complete, CostWithExtra, AllExtraBits, AllCodedTokens, CodeWord, BodyBits, LengthCode, DistanceCode,
      FixedLitLens;
    DescShapes();
    TokensCoded(tokens, T.usedL, T.L, T.usedD, T.D);
    FixedBody(tokens);
    TokensSize(T.usedL, T.usedD, T.L, T.D, tokens);
    TokensSize(T.usedL, T.usedD, FixedLitLens(), FixedDistLens(30), tokens);
  }

  /** The lengths that are sent: up to the last used symbol. */
  lemma SetCut(T: TreeSet, tokens: seq<Token>)
    requires GoodSet(T, tokens)
    ensures T.lMax + 1 <= |T.L| && T.dMax + 1 <= |T.D| && |T.L| == 286 && |T.D| == 30
    ensures var ll, dl := T.L[..T.lMax + 1], T.D[..T.dMax + 1];
            Complete(ll) && Complete(dl) && GoodCodes(ll, dl) && HasWord(ll, 256) &&
            SameWords(T.L, ll, 286) && SameWords(T.D, dl, 30) && 257 <= |ll| <= 286 && 1 <= |dl| <= 30 &&
            (forall i :: 0 <= i < |ll| ==> ll[i] < 16) && (forall i :: 0 <= i < |dl| ==> dl[i] < 16)
  {
    hide Complete, SameWords, LitFreqs, DistFreqs, Rejected;
    CutTree(T.L, T.lMax + 1);
    CutTree(T.D, T.dMax + 1);
    EndCounted(tokens);
    ValidOf(T.L[..T.lMax + 1]);
    ValidOf(T.D[..T.dMax + 1]);
  }

  lemma ValidOf(lens: seq<nat>)
    requires Complete(lens)
    ensures ValidLens(lens) && forall i :: 0 <= i < |lens| ==> lens[i] < 16
  {
    hide Kraft, Taken;
  }

  lemma SetIsSendable(T: TreeSet, tokens: seq<Token>, cl: seq<nat>, ncode: nat)
    requires GoodSet(T, tokens) && T.lMax + 1 <= |T.L| && T.dMax + 1 <= |T.D|
    requires |cl| == 19 && Complete(cl) && 4 <= ncode <= 19 && forall s :: 0 <= s < 19 ==> cl[s] <= 7
    requires forall i {:trigger ORDER[i]} :: ncode <= i < |ORDER| ==> ORDER[i] < 19 && cl[ORDER[i]] == 0
    requires AllCoded(cl, TreeItems(T.L[..T.lMax + 1])) && AllCoded(cl, TreeItems(T.D[..T.dMax + 1]))
    requires ValidLens(T.L[..T.lMax + 1]) && ValidLens(T.D[..T.dMax + 1])
    requires Entries(T.L[..T.lMax + 1], 9) <= ENOUGH_LENS && Entries(T.D[..T.dMax + 1], 6) <= ENOUGH_DISTS
    ensures Sendable(T.L[..T.lMax + 1], T.D[..T.dMax + 1], cl, ncode)
  {
    hide Complete, SameWords, LitFreqs, DistFreqs, Rejected, AllCoded, TreeItems, Entries, GoodCodes, ValidLens;
    SetCut(T, tokens);
    CutTree(T.L, T.lMax + 1);
    CutTree(T.D, T.dMax + 1);
    OrderFacts();
  }

  lemma {:induction false} ClSize(cl: seq<nat>, n: nat)
    requires n <= 19 == |cl|
    ensures |ClBits(cl, n)| == 3 * n
  {
    hide Bits;
    if n > 0 {
      ClSize(cl, n - 1);
    }
  }

  lemma TreesSize(ll: seq<nat>, dl: seq<nat>, cl: seq<nat>, ncode: nat)
    requires 257 <= |ll| && 1 <= |dl| && 4 <= ncode <= 19 == |cl|
    requires AllCoded(cl, TreeItems(ll)) && AllCoded(cl, TreeItems(dl))
    ensures |TreesBits(ll, dl, cl, ncode)| == 14 + 3 * ncode + |ItemsBits(cl, TreeItems(ll))| + |ItemsBits(cl, TreeItems(dl))|
  {
    hide ClBits, ItemsBits, TreeItems, AllCoded, SizesBits;
    ClSize(cl, ncode);
    SizesSize(|ll|, |dl|, ncode);
  }

  /** The state's trees are those of T, ready to be sent. */
  ghost predicate Built(b: Block, T: TreeSet, tokens: seq<Token>, maxBl: nat)
    reads b.lFc, b.lDl, b.dFc, b.dDl, b.bFc, b.bDl
  {
    b.Sized() && GoodSet(T, tokens) && T.lMax + 1 <= |T.L| && T.dMax + 1 <= |T.D| && 3 <= maxBl <= 18 &&
    HoldsCodes(b.lFc, b.lDl, T.L) && HoldsCodes(b.dFc, b.dDl, T.D) && HoldsCodes(b.bFc, b.bDl, b.bDl[..19]) &&
    b.lDl[..T.lMax + 1] == T.L[..T.lMax + 1] && b.dDl[..T.dMax + 1] == T.D[..T.dMax + 1] &&
    b.lDl[T.lMax + 1] == 0xffff && b.dDl[T.dMax + 1] == 0xffff &&
    Complete(b.bDl[..19]) && (forall s :: 0 <= s < 19 ==> b.bDl[s] <= 7) &&
    (forall i {:trigger ORDER[i]} :: maxBl < i < |ORDER| ==> ORDER[i] < 19 && b.bDl[ORDER[i]] == 0) &&
    AllCoded(b.bDl[..19], TreeItems(T.L[..T.lMax + 1])) && AllCoded(b.bDl[..19], TreeItems(T.D[..T.dMax + 1]))
  }

  lemma BuiltFacts(b: Block, T: TreeSet, tokens: seq<Token>, maxBl: nat)
    requires Built(b, T, tokens, maxBl)
    ensures b.Sized() && GoodSet(T, tokens) && T.lMax + 1 <= |T.L| && T.dMax + 1 <= |T.D| && 3 <= maxBl <= 18
    ensures HoldsCodes(b.lFc, b.lDl, T.L) && HoldsCodes(b.dFc, b.dDl, T.D) && HoldsCodes(b.bFc, b.bDl, b.bDl[..19])
    ensures b.lDl[..T.lMax + 1] == T.L[..T.lMax + 1] && b.dDl[..T.dMax + 1] == T.D[..T.dMax + 1]
    ensures b.lDl[T.lMax + 1] == 0xffff && b.dDl[T.dMax + 1] == 0xffff
    ensures Complete(b.bDl[..19]) && forall s :: 0 <= s < 19 ==> b.bDl[..19][s] <= 7
    ensures forall i {:trigger ORDER[i]} :: maxBl < i < |ORDER| ==> ORDER[i] < 19 && b.bDl[..19][ORDER[i]] == 0
    ensures AllCoded(b.bDl[..19], TreeItems(T.L[..T.lMax + 1])) && AllCoded(b.bDl[..19], TreeItems(T.D[..T.dMax + 1]))
  {
    hide GoodSet, HoldsCodes, Complete, AllCoded, TreeItems;
  }

  lemma IsBuilt(b: Block, T: TreeSet, tokens: seq<Token>, maxBl: nat)
    requires b.Sized() && b.lDl.Length == 573 && b.dDl.Length == 61 && b.bDl.Length == 39
    requires GoodSet(T, tokens) && |T.L| == 286 && |T.D| == 30 && T.lMax < 286 && T.dMax < 30 && 3 <= maxBl <= 18
    requires HoldsCodes(b.lFc, b.lDl, T.L) && HoldsCodes(b.dFc, b.dDl, T.D) && HoldsCodes(b.bFc, b.bDl, b.bDl[..19])
    requires b.lDl[..T.lMax + 1] == T.L[..T.lMax + 1] && b.dDl[..T.dMax + 1] == T.D[..T.dMax + 1]
    requires b.lDl[T.lMax + 1] == 0xffff && b.dDl[T.dMax + 1] == 0xffff
    requires Complete(b.bDl[..19]) && forall s :: 0 <= s < 19 ==> b.bDl[s] <= 7
    requires forall i {:trigger ORDER[i]} :: maxBl < i < |ORDER| ==> ORDER[i] < 19 && b.bDl[ORDER[i]] == 0
    requires AllCoded(b.bDl[..19], TreeItems(T.L[..T.lMax + 1])) && AllCoded(b.bDl[..19], TreeItems(T.D[..T.dMax + 1]))
    ensures Built(b, T, tokens, maxBl)
  {
    hide GoodSet, HoldsCodes, Complete, AllCoded, TreeItems;
  }

  lemma FreqBounds(tokens: seq<Token>)
    requires |tokens| < 32768
    ensures FreqSum(LitFreqs(tokens), 286) + 2 < 65536 && FreqSum(DistFreqs(tokens), 30) + 2 < 65536
  {
    FreqTotals(tokens);
  }

  /** The two big trees. */
  method BuildBigTrees(b: Block) returns (lMax: nat, dMax: nat, ghost T: TreeSet, ghost codesL: seq<nat>, ghost codesD: seq<nat>)
    requires b.Valid()
    modifies b.s, b.s.heap, b.s.depth, b.s.blCount, b.lFc, b.lDl, b.dFc, b.dDl
    ensures Bytes(b.s.depth[..]) && T.lMax == lMax && T.dMax == dMax
    ensures GoodSet(T, b.Tokens()) && |T.L| == 286 && |T.D| == 30 && |T.usedL| == 286 && |T.usedD| == 30
    ensures GoodTree(LitDesc(), LitFreqs(b.Tokens()), T.usedL, T.L, codesL) && GoodTree(DistDesc(), DistFreqs(b.Tokens()), T.usedD, T.D, codesD)
    ensures b.Sized() && b.lDl.Length == b.lFc.Length == 573 && b.dDl.Length == b.dFc.Length == 61
    ensures b.lDl[..286] == T.L && b.dDl[..30] == T.D && b.lFc[..286] == codesL && b.dFc[..30] == codesD
    ensures |AllExtraBits(LitDesc())| == 286 && |AllExtraBits(DistDesc())| == 30
    ensures b.s.optLen == CostWithExtra(T.usedL, LitFreqs(b.Tokens()), T.L, AllExtraBits(LitDesc())) +
                          CostWithExtra(T.usedD, DistFreqs(b.Tokens()), T.D, AllExtraBits(DistDesc()))
    ensures b.s.staticLen == CostWithExtra(T.usedL, LitFreqs(b.Tokens()), FixedLitLens(), AllExtraBits(LitDesc())) +
                             CostWithExtra(T.usedD, DistFreqs(b.Tokens()), FixedDistLens(30), AllExtraBits(DistDesc()))
  {
    hide *;
    BlockFacts(b);
    BlockSizesOf(b);
    DescShapes();
    TokensIs(b);
    ghost var tokens := b.Tokens();
    FreqBounds(tokens);
    ghost var usedL, usedD, merges, w, cut;
    lMax, usedL, merges, w, cut := BuildTree(b.s, LitDesc(), b.lFc, b.lDl);
    ghost var L: seq<nat> := b.lDl[..286];
    codesL := b.lFc[..286];
    TreeLens(LitDesc(), LitFreqs(tokens), usedL, L, codesL);
    StaticCostIs(LitDesc(), usedL, LitFreqs(tokens), b.s.staticLen, FixedLitLens());
    ghost var stat := b.s.staticLen;
    dMax, usedD, merges, w, cut := BuildTree(b.s, DistDesc(), b.dFc, b.dDl);
    ghost var D: seq<nat> := b.dDl[..30];
    codesD := b.dFc[..30];
    TreeLens(DistDesc(), DistFreqs(tokens), usedD, D, codesD);
    StaticCostIs(DistDesc(), usedD, DistFreqs(tokens), b.s.staticLen - stat, FixedDistLens(30));
    T := TreeSet(L, usedL, lMax, D, usedD, dMax);
    SetIsGood(T, tokens, codesL, codesD);
  }

  lemma StaysHeld(desc: StaticDesc, freq: seq<nat>, used: seq<bool>, lens: seq<nat>, codes: seq<nat>,
                  fc: array<nat>, dl: array<nat>, max: nat)
    requires GoodTree(desc, freq, used, lens, codes) && desc.maxLength <= MAXBITS && |lens| == desc.elems
    requires desc.elems <= fc.Length && desc.elems <= dl.Length && fc[..desc.elems] == codes && max < desc.elems
    requires dl[..max + 1] == lens[..max + 1] && forall s :: max < s < desc.elems ==> lens[s] == 0
    ensures HoldsCodes(fc, dl, lens)
  {
    hide GoodTree;
    forall s | 0 <= s < desc.elems && lens[s] != 0
      ensures dl[s] == lens[s]
    {
      assert dl[..max + 1][s] == lens[..max + 1][s];
    }
    TreeCodes(desc, freq, used, lens, codes, fc, dl);
  }

  lemma SetTails(T: TreeSet, tokens: seq<Token>)
    requires GoodSet(T, tokens)
    ensures |T.L| == 286 && |T.D| == 30 && 256 <= T.lMax < 286 && T.dMax < 30 && T.L[256] != 0
    ensures (forall s :: T.lMax < s < 286 ==> T.L[s] == 0) && (forall s :: T.dMax < s < 30 ==> T.D[s] == 0)
  {
    hide LitFreqs, DistFreqs, Complete;
    EndCounted(tokens);
  }

  /** All three trees, and what the block will take up with them. */
  method BuildTrees(b: Block) returns (lMax: nat, dMax: nat, maxBl: nat, ghost T: TreeSet)
    requires b.Valid()
    modifies b.s, b.s.heap, b.s.depth, b.s.blCount, b.lFc, b.lDl, b.dFc, b.dDl, b.bFc, b.bDl
    ensures Bytes(b.s.depth[..]) && T.lMax == lMax && T.dMax == dMax && Built(b, T, b.Tokens(), maxBl)
    ensures AllCodedTokens(T.L, T.D, b.Tokens()) && HasWord(T.L, 256) && |T.L| == 286 && |T.D| == 30 && 256 <= lMax < 286 && dMax < 30
    ensures AllCodedTokens(FixedLitLens(), FixedDistLens(30), b.Tokens()) && b.bDl.Length == 39 && 3 <= maxBl <= 18
    ensures AllCoded(b.bDl[..19], TreeItems(T.L[..lMax + 1])) && AllCoded(b.bDl[..19], TreeItems(T.D[..dMax + 1]))
    ensures b.s.optLen == |TreesBits(T.L[..lMax + 1], T.D[..dMax + 1], b.bDl[..19], maxBl + 1)| + |BodyBits(T.L, T.D, b.Tokens())|
    ensures b.s.staticLen == |BodyBits(FixedLitLens(), FixedDistLens(30), b.Tokens())|
  {
    hide *;
    BlockFacts(b);
    BlockSizesOf(b);
    TokensIs(b);
    BufferTokens(b.dBuf[..], b.lBuf[..], b.lastLit);
    ghost var tokens, codesL, codesD := b.Tokens(), [], [];
    lMax, dMax, T, codesL, codesD := BuildBigTrees(b);
    BlockCost(T, tokens);
    SetTails(T, tokens);
    SetCut(T, tokens);
    PrefixOf(b.lDl[..], 286, lMax + 1);
    PrefixOf(b.dDl[..], 30, dMax + 1);
    assert forall i :: 0 <= i <= lMax ==> b.lDl[i] == T.L[..lMax + 1][i];
    assert forall i :: 0 <= i <= dMax ==> b.dDl[i] == T.D[..dMax + 1][i];
    ghost var used;
    maxBl, used := BuildBlTree(b, lMax, dMax);
    assert b.lDl[..lMax + 1] == T.L[..lMax + 1] && b.dDl[..dMax + 1] == T.D[..dMax + 1];
    DescShapes();
    BlDescIs();
    StaysHeld(LitDesc(), LitFreqs(tokens), T.usedL, T.L, codesL, b.lFc, b.lDl, lMax);
    StaysHeld(DistDesc(), DistFreqs(tokens), T.usedD, T.D, codesD, b.dFc, b.dDl, dMax);
    TreeLens(BlDesc(), ItemFreqs(BothItems(T.L[..lMax + 1], T.D[..dMax + 1])), used, b.bDl[..19], b.bFc[..19]);
    assert forall s :: 0 <= s < 19 ==> b.bDl[s] == b.bDl[..19][s];
    TreesSize(T.L[..lMax + 1], T.D[..dMax + 1], b.bDl[..19], maxBl + 1);
    IsBuilt(b, T, tokens, maxBl);
  }

  lemma PrefixOf(a: seq<nat>, n: nat, m: nat)
    requires m <= n <= |a|
    ensures a[..n][..m] == a[..m]
  {
  }

  // ---- init_block and _tr_flush_block

  lemma EmptyFreqs(l: array<nat>, d: array<nat>)
    requires l.Length == 573 && d.Length == 61
    requires forall i :: 0 <= i < 286 ==> l[i] == if i == 256 then 1 else 0
    requires forall i :: 0 <= i < 30 ==> d[i] == 0
    ensures l[..286] == LitFreqs([]) && d[..30] == DistFreqs([])
  {
  }

  lemma NoTokens(d: seq<nat>, l: seq<nat>)
    ensures TokensOf(d, l, 0) == [] && ValidBuffers(d, l, 0)
  {
  }

  /** init_block */
  method InitBlock(b: Block)
    requires b.Sized() && b.w.Valid() && b.t.Valid() && Bytes(b.s.depth[..])
    modifies b, b.s, b.lFc, b.dFc, b.bFc
    ensures b.Valid() && b.Tokens() == []
  {
    hide *;
    BlockSizesOf(b);
    BufferApart(b);
    TablesApart(b);
    for n := 0 to 286
      modifies b.lFc
      invariant forall i :: 0 <= i < n ==> b.lFc[i] == 0
    {
      b.lFc[n] := 0;
    }
    for n := 0 to 30
      modifies b.dFc
      invariant forall i :: 0 <= i < n ==> b.dFc[i] == 0
    {
      b.dFc[n] := 0;
    }
    for n := 0 to 19
      modifies b.bFc
      invariant forall i :: 0 <= i < n ==> b.bFc[i] == 0
    {
      b.bFc[n] := 0;
    }
    b.lFc[256] := 1;
    b.s.optLen, b.s.staticLen := 0, 0;
    b.lastLit, b.matches := 0, 0;
    EmptyFreqs(b.lFc, b.dFc);
    NoTokens(b.dBuf[..], b.lBuf[..]);
    TokensIs(b);
    TablesKept(b);
    BlockIsValid(b);
  }

  /** What one call of _tr_flush_block wrote. */
  datatype Written = Written(kind: nat, bits: seq<bool>, pad: seq<bool>, opt: nat, stat: nat, ll: seq<nat>, dl: seq<nat>)

  /** The sizes in bytes that the choice is made by. */
  function InBytes(bits: nat): nat {
    (bits + 3 + 7) / 8
  }

  function Min(a: nat, b: nat): nat {
    if a < b then a else b
  }

  /** The encoding that _tr_flush_block chooses. */
  function Choice(buf: Option<seq<byte>>, fixed: bool, opt: nat, stat: nat): nat {
    if buf.Some? && |buf.value| + 4 <= Min(InBytes(opt), InBytes(stat)) then 0
    else if fixed || InBytes(stat) <= InBytes(opt) then 1
    else 2
  }

  /** The dynamic tables are within the space that inflate has for them. */
  ghost predicate TablesFit(r: Written) {
    r.kind == 2 ==>
      ValidLens(r.ll) && ValidLens(r.dl) && Entries(r.ll, 9) <= ENOUGH_LENS && Entries(r.dl, 6) <= ENOUGH_DISTS
  }

  /** The block means the tokens: decoding it appends their expansion to any output they can refer to. */
  ghost predicate Faithful(start: seq<bool>, r: Written, tokens: seq<Token>, buf: Option<seq<byte>>, last: bool) {
    TablesFit(r) ==>
      forall out :: AllInReach(out, tokens) && (r.kind == 0 ==> buf.Some? && Expand(out, tokens) == out + buf.value) ==>
        Decodes(start, r.bits, last, out, Expand(out, tokens))
  }

  /** As many bytes as a token stands for. */
  function Width(t: Token): nat {
    match t
    case Lit(_) => 1
    case Copy(length, _) => length
  }

  function Span(tokens: seq<Token>): nat {
    if tokens == [] then 0 else Span(tokens[..|tokens| - 1]) + Width(tokens[|tokens| - 1])
  }

  lemma {:induction false} CopySpan(out: seq<byte>, length: nat, distance: nat)
    requires 1 <= distance <= |out|
    ensures |CopyBytes(out, length, distance)| == |out| + length
    decreases length
  {
    if length > 0 {
      CopySpan(out + [out[|out| - distance]], length - 1, distance);
    }
  }

  lemma {:induction false} ExpandSpan(out: seq<byte>, tokens: seq<Token>)
    requires AllInReach(out, tokens)
    ensures |Expand(out, tokens)| == |out| + Span(tokens)
    decreases |tokens|
  {
    hide Expand, AllInReach, CopyBytes;
    if tokens == [] {
      ExpandNothing(out);
    } else {
      var front, t := tokens[..|tokens| - 1], tokens[|tokens| - 1];
      LastToken(out, tokens);
      ExpandSpan(out, front);
      if t.Copy? {
        CopySpan(Expand(out, front), t.length, t.distance);
      }
    }
  }

  lemma {:induction false} SpanGrows(tokens: seq<Token>)
    requires forall i :: 0 <= i < |tokens| ==> ValidToken(tokens[i])
    ensures |tokens| <= Span(tokens)
  {
    if tokens != [] {
      SpanGrows(tokens[..|tokens| - 1]);
    }
  }

  /** Nine bits a byte are enough for the fixed codes. */
  lemma FixedTokenSize(t: Token)
    requires Coded(FixedLitLens(), FixedDistLens(30), t)
    ensures |TokenBits(FixedLitLens(), FixedDistLens(30), t)| <= 9 * Width(t)
  {
    hide CodeWord, LengthCode, DistanceCode, Bits;
    if t.Copy? {
      LengthWord(FixedLitLens(), t.length);
      DistanceWord(FixedDistLens(30), t.distance);
      ExtraBitsBound(t.length, t.distance);
    }
  }

  lemma ExtraBitsBound(length: nat, distance: nat)
    requires 3 <= length <= 258 && 1 <= distance <= 32768
    ensures EXTRA_DBITS[DistanceCode(distance)] <= 13 && EXTRA_LBITS[LengthCode(length)] <= 5
    ensures length <= 10 ==> LengthCode(length) < 8 && EXTRA_LBITS[LengthCode(length)] == 0
  {
    hide LengthCode, DistanceCode;
    LengthFits(length);
    if length <= 10 {
      assert LBASE[8] == 11;
      LengthTable();
    }
  }

  lemma {:induction false} FixedTokensSize(tokens: seq<Token>)
    requires AllCodedTokens(FixedLitLens(), FixedDistLens(30), tokens)
    ensures |TokensBits(FixedLitLens(), FixedDistLens(30), tokens)| <= 9 * Span(tokens)
    decreases |tokens|
  {
    hide TokenBits, Coded, Width, FixedLitLens, FixedDistLens;
    if tokens != [] {
      FixedTokensSize(tokens[..|tokens| - 1]);
      FixedTokenSize(tokens[|tokens| - 1]);
    }
  }

  /** The fixed encoding of a block takes nine bits a byte at most, and seven for its end. */
  lemma FixedBodySize(tokens: seq<Token>)
    requires AllCodedTokens(FixedLitLens(), FixedDistLens(30), tokens)
    ensures |BodyBits(FixedLitLens(), FixedDistLens(30), tokens)| <= 9 * Span(tokens) + 7
  {
    hide TokensBits, AllCodedTokens, Span;
    FixedTokensSize(tokens);
  }

  /** The size the fixed encoding would have is that of its bits. */
  ghost predicate StaticSize(r: Written, tokens: seq<Token>) {
    AllCodedTokens(FixedLitLens(), FixedDistLens(30), tokens) && r.stat == |BodyBits(FixedLitLens(), FixedDistLens(30), tokens)|
  }

  /** Whatever the choice, little more than the fixed encoding would take. */
  lemma BlockSize(r: Written, tokens: seq<Token>, buf: Option<seq<byte>>, fixed: bool)
    requires r.kind == Choice(buf, fixed, r.opt, r.stat) && StaticSize(r, tokens)
    requires buf.Some? ==> |buf.value| == Span(tokens)
    requires r.kind == 0 ==> buf.Some? && |r.bits| <= 42 + 8 * |buf.value|
    requires r.kind == 1 ==> |r.bits| == 3 + r.stat
    requires r.kind == 2 ==> |r.bits| == 3 + r.opt
    ensures |r.bits| <= 9 * Span(tokens) + 27 && (Span(tokens) >= 127 ==> |r.bits| <= 9 * Span(tokens) + 10)
  {
    hide Span, BodyBits, AllCodedTokens;
    FixedBodySize(tokens);
  }

  lemma StoredFaithful(start: seq<bool>, r: Written, tokens: seq<Token>, buf: Option<seq<byte>>, last: bool, pad: seq<bool>)
    requires r.kind == 0 && buf.Some? && |buf.value| < 65536 && |pad| < 8 && (|start| + 3 + |pad|) % 8 == 0
    requires r.bits == HeaderBits(0, last) + pad + StoredBits(buf.value)
    ensures Faithful(start, r, tokens, buf, last)
  {
    hide Decodes, AllInReach, Expand, HeaderBits, StoredBits;
    forall out | AllInReach(out, tokens) && Expand(out, tokens) == out + buf.value
      ensures Decodes(start, r.bits, last, out, Expand(out, tokens))
    {
      StoredBlockDecodes(start, pad, buf.value, last, out);
    }
  }

  lemma FixedFaithful(start: seq<bool>, r: Written, tokens: seq<Token>, buf: Option<seq<byte>>, last: bool)
    requires r.kind == 1 && forall i :: 0 <= i < |tokens| ==> ValidToken(tokens[i])
    requires AllCodedTokens(FixedLitLens(), FixedDistLens(30), tokens)
    requires r.bits == HeaderBits(1, last) + BodyBits(FixedLitLens(), FixedDistLens(30), tokens)
    ensures Faithful(start, r, tokens, buf, last)
  {
    hide Decodes, AllInReach, Expand, HeaderBits, BodyBits, AllCodedTokens, FixedLitLens, ValidToken;
    forall out | AllInReach(out, tokens)
      ensures Decodes(start, r.bits, last, out, Expand(out, tokens))
    {
      FixedBlockDecodes(start, tokens, last, out);
    }
  }

  lemma DynamicFaithful(start: seq<bool>, r: Written, tokens: seq<Token>, buf: Option<seq<byte>>, last: bool,
                        T: TreeSet, cl: seq<nat>, ncode: nat)
    requires r.kind == 2 && GoodSet(T, tokens) && |T.L| == 286 && |T.D| == 30 && 256 <= T.lMax < 286 && T.dMax < 30
    requires r.ll == T.L[..T.lMax + 1] && r.dl == T.D[..T.dMax + 1] && AllCodedTokens(T.L, T.D, tokens)
    requires |cl| == 19 && Complete(cl) && 4 <= ncode <= 19 && forall s :: 0 <= s < 19 ==> cl[s] <= 7
    requires forall i {:trigger ORDER[i]} :: ncode <= i < |ORDER| ==> ORDER[i] < 19 && cl[ORDER[i]] == 0
    requires AllCoded(cl, TreeItems(r.ll)) && AllCoded(cl, TreeItems(r.dl))
    requires r.bits == HeaderBits(2, last) + TreesBits(r.ll, r.dl, cl, ncode) + BodyBits(T.L, T.D, tokens)
    ensures Faithful(start, r, tokens, buf, last)
  {
    hide Decodes, AllInReach, Expand, HeaderBits, BodyBits, TreesBits, AllCodedTokens, GoodSet, Complete, AllCoded, TreeItems,
      Sendable, GoodCodes, SameWords, HasWord, Entries, ValidLens;
    SetCut(T, tokens);
    if TablesFit(r) {
      SetIsSendable(T, tokens, cl, ncode);
      forall out | AllInReach(out, tokens)
        ensures Decodes(start, r.bits, last, out, Expand(out, tokens))
      {
        DynamicBlockDecodes(start, tokens, T.L, T.D, r.ll, r.dl, cl, ncode, last, out);
      }
    }
  }

  /** send_bits of the block type. */
  method SendHeader(w: Writer, kind: nat, last: bool)
    requires w.Valid() && kind < 3
    modifies w
    ensures w.Valid() && w.Stream() == old(w.Stream()) + HeaderBits(kind, last) && |HeaderBits(kind, last)| == 3
  {
    hide *;
    HeaderFits(kind, last);
    w.SendBits(2 * kind + if last then 1 else 0, 3);
  }

  lemma ChoiceIs(buf: Option<seq<byte>>, fixed: bool, opt: nat, stat: nat)
    ensures InBytes(opt) == (opt + 3 + 7) / 8 && InBytes(stat) == (stat + 3 + 7) / 8
    ensures Choice(buf, fixed, opt, stat) ==
            if buf.Some? && |buf.value| + 4 <= (if InBytes(opt) < InBytes(stat) then InBytes(opt) else InBytes(stat)) then 0
            else if fixed || InBytes(stat) <= InBytes(opt) then 1 else 2
  {
  }

  /** The chosen encoding goes out. */
  method WriteBlock(b: Block, buf: Option<seq<byte>>, last: bool, kind: nat, lMax: nat, dMax: nat, maxBl: nat,
                    ghost T: TreeSet, ghost ll: seq<nat>, ghost dl: seq<nat>, ghost cl: seq<nat>, ghost tokens: seq<Token>,
                    ghost opt: nat, ghost stat: nat) returns (ghost r: Written)
    requires kind < 3 && (kind == 0 ==> buf.Some? && |buf.value| < 65536)
    requires T.lMax == lMax && T.dMax == dMax && 3 <= maxBl <= 18 && 256 <= lMax < 286 && dMax < 30
    requires |T.L| == 286 && |T.D| == 30 && b.bDl.Length == 39 && ll == T.L[..lMax + 1] && dl == T.D[..dMax + 1] && cl == b.bDl[..19]
    requires AllCoded(cl, TreeItems(ll)) && AllCoded(cl, TreeItems(dl))
    requires AllCodedTokens(T.L, T.D, tokens) && HasWord(T.L, 256)
    requires AllCodedTokens(FixedLitLens(), FixedDistLens(30), tokens)
    requires opt == |TreesBits(ll, dl, cl, maxBl + 1)| + |BodyBits(T.L, T.D, tokens)|
    requires stat == |BodyBits(FixedLitLens(), FixedDistLens(30), tokens)|
    requires b.Valid0() && b.Tokens() == tokens && Built(b, T, tokens, maxBl)
    modifies b.w
    ensures b.w.Valid() && r.kind == kind && r.opt == opt && r.stat == stat && r.pad == []
    ensures b.w.Stream() == old(b.w.Stream()) + r.bits
    ensures kind == 0 ==> |r.bits| <= 42 + 8 * |buf.value|
    ensures kind == 1 ==> |r.bits| == 3 + stat
    ensures kind == 2 ==> |r.bits| == 3 + opt
    ensures Faithful(old(b.w.Stream()), r, tokens, buf, last)
  {
    hide *;
    b.Parts();
    BlockSizesOf(b);
    TokensIs(b);
    ghost var start := b.w.Stream();
    BufferTokens(b.dBuf[..], b.lBuf[..], b.lastLit);
    BuiltFacts(b, T, tokens, maxBl);
    SetCut(T, tokens);
    if kind == 0 {
      ghost var pad := StoredBlock(b.w, buf.value, last);
      ghost var bits := HeaderBits(0, last) + pad + StoredBits(buf.value);
      assert start + HeaderBits(0, last) + pad + StoredBits(buf.value) == start + bits;
      r := Written(0, bits, [], opt, stat, [], []);
      StoredFaithful(start, r, tokens, buf, last, pad);
      StoredBlockSize(buf.value, last);
    } else if kind == 1 {
      SendHeader(b.w, 1, last);
      FixedBody(tokens);
      HeldByTables(b.t);
      CompressBlock(b, b.t.ltFc, b.t.ltDl, b.t.dtFc, b.t.dtDl, FixedLitLens(), FixedDistLens(30));
      ghost var body := BodyBits(FixedLitLens(), FixedDistLens(30), tokens);
      Assoc(start, HeaderBits(1, last), body);
      r := Written(1, HeaderBits(1, last) + body, [], opt, stat, [], []);
      FixedFaithful(start, r, tokens, buf, last);
    } else {
      SendHeader(b.w, 2, last);
      SendAllTrees(b, lMax + 1, dMax + 1, maxBl + 1, ll, dl, cl);
      CompressBlock(b, b.lFc, b.lDl, b.dFc, b.dDl, T.L, T.D);
      ghost var trees, body := TreesBits(ll, dl, cl, maxBl + 1), BodyBits(T.L, T.D, tokens);
      assert start + HeaderBits(2, last) + trees + body == start + (HeaderBits(2, last) + trees + body);
      r := Written(2, HeaderBits(2, last) + trees + body, [], opt, stat, ll, dl);
      DynamicFaithful(start, r, tokens, buf, last, T, cl, maxBl + 1);
    }
  }

  lemma HeldByTables(t: Tables)
    requires t.Valid()
    ensures HoldsCodes(t.ltFc, t.ltDl, FixedLitLens()) && HoldsCodes(t.dtFc, t.dtDl, FixedDistLens(30))
  {
    hide HoldsCodes, LengthsSet, BasesSet, DistancesSet, FarSet, DistBasesSet;
  }

  /** _tr_flush_block */
  method FlushBlock(b: Block, buf: Option<seq<byte>>, last: bool, fixed: bool) returns (ghost r: Written)
    requires b.Valid() && (buf.Some? ==> |buf.value| < 65536)
    modifies b, b.w, b.s, b.s.heap, b.s.depth, b.s.blCount, b.lFc, b.lDl, b.dFc, b.dDl, b.bFc, b.bDl
    ensures b.Valid() && b.Tokens() == []
    ensures b.w.Stream() == old(b.w.Stream()) + r.bits + r.pad
    ensures if last then |r.pad| < 8 && |b.w.Stream()| % 8 == 0 else r.pad == []
    ensures r.kind == Choice(buf, fixed, r.opt, r.stat)
    ensures StaticSize(r, old(b.Tokens())) && (r.kind == 0 ==> |r.bits| <= 42 + 8 * |buf.value|)
    ensures r.kind == 1 ==> |r.bits| == 3 + r.stat
    ensures r.kind == 2 ==> |r.bits| == 3 + r.opt
    ensures Faithful(old(b.w.Stream()), r, old(b.Tokens()), buf, last)
  {
    hide *;
    BlockFacts(b);
    BlockSizesOf(b);
    BufferApart(b);
    TablesApart(b);
    TokensIs(b);
    ghost var tokens := b.Tokens();
    ghost var T;
    var lMax, dMax, maxBlindex;
    lMax, dMax, maxBlindex, T := BuildTrees(b);
    TablesKept(b);
    TokensIs(b);
    b.IsValid0();
    var optLenb, staticLenb := (b.s.optLen + 3 + 7) / 8, (b.s.staticLen + 3 + 7) / 8;
    ChoiceIs(buf, fixed, b.s.optLen, b.s.staticLen);
    if staticLenb <= optLenb {
      optLenb := staticLenb;
    }
    var kind: nat;
    if buf.Some? && |buf.value| + 4 <= optLenb {
      kind := 0;
    } else if fixed || staticLenb == optLenb {
      kind := 1;
    } else {
      kind := 2;
    }
    ghost var start, stat := b.w.Stream(), b.s.staticLen;
    r := WriteBlock(b, buf, last, kind, lMax, dMax, maxBlindex,
                    T, T.L[..lMax + 1], T.D[..dMax + 1], b.bDl[..19], tokens, b.s.optLen, b.s.staticLen);
    IsStaticSize(r, tokens, stat);
    TablesKept(b);
    InitBlock(b);
    BlockFacts(b);
    assert b.w.Stream() + [] == b.w.Stream();
    if last {
      ghost var end := b.w.Stream();
      b.w.BiWindup();
      ghost var pad: seq<bool> :| |pad| < 8 && b.w.Stream() == end + pad;
      r := r.(pad := pad);
      Repadded(start, r, r.(pad := []), tokens, buf, last);
      IsStaticSize(r, tokens, stat);
      TokensIs(b);
      TablesKept(b);
      BlockIsValid(b);
    }
  }

  lemma IsStaticSize(r: Written, tokens: seq<Token>, stat: nat)
    requires AllCodedTokens(FixedLitLens(), FixedDistLens(30), tokens)
    requires r.stat == stat == |BodyBits(FixedLitLens(), FixedDistLens(30), tokens)|
    ensures StaticSize(r, tokens)
  {
    hide AllCodedTokens, BodyBits, FixedLitLens, FixedDistLens;
  }

  lemma StoredBlockSize(buf: seq<byte>, last: bool)
    requires |buf| < 65536
    ensures |HeaderBits(0, last)| == 3 && |StoredBits(buf)| == 32 + 8 * |buf|
  {
    HeaderFits(0, last);
  }

  lemma Repadded(start: seq<bool>, r: Written, r': Written, tokens: seq<Token>, buf: Option<seq<byte>>, last: bool)
    requires r' == r.(pad := [])
    ensures Faithful(start, r, tokens, buf, last) == Faithful(start, r', tokens, buf, last)
  {
    hide Decodes, AllInReach, Expand;
  }

  lemma NoTokensBody()
    ensures AllCodedTokens(FixedLitLens(), FixedDistLens(30), []) && AllInReach([], []) && |FixedLitLens()| > 256
    ensures HasWord(FixedLitLens(), 256) && FixedLitLens()[256] == 7
    ensures BodyBits(FixedLitLens(), FixedDistLens(30), []) == CodeWord(FixedLitLens(), 256)
    ensures forall out: seq<byte> :: AllInReach(out, []) && Expand(out, []) == out
  {
    hide CodeWord;
    assert TokensBits(FixedLitLens(), FixedDistLens(30), []) == [];
  }

  /** _tr_align: an empty block with the fixed codes. */
  method TrAlign(b: Block) returns (ghost bits: seq<bool>)
    requires b.Valid()
    modifies b.w
    ensures b.w.Valid() && b.w.Stream() == old(b.w.Stream()) + bits && |bits| == 10
    ensures forall out :: Decodes(old(b.w.Stream()), bits, false, out, out)
  {
    hide *;
    BlockFacts(b);
    NoTokensBody();
    HeldByTables(b.t);
    HasWordIs(FixedLitLens(), 256);
    ghost var start := b.w.Stream();
    SendHeader(b.w, 1, false);
    SendCode(b.w, 256, b.t.ltFc, b.t.ltDl, FixedLitLens());
    bits := HeaderBits(1, false) + CodeWord(FixedLitLens(), 256);
    HeaderFits(1, false);
    assert start + HeaderBits(1, false) + CodeWord(FixedLitLens(), 256) == start + bits;
    b.w.BiFlush();
    forall out: seq<byte>
      ensures Decodes(start, bits, false, out, out)
    {
      FixedBlockDecodes(start, [], false, out);
    }
  }

  lemma HasWordIs(lens: seq<nat>, s: nat)
    requires HasWord(lens, s)
    ensures s < |lens| && 0 < lens[s]
  {
  }
}
