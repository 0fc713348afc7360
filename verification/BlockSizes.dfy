/** The bookkeeping behind a block's size: symbol frequencies, and the number of bits they imply. */
module BlockSizes {
  import opened Machine
  import opened BitStrings
  import opened Canonical
  import opened CodeWords
  import opened HuffmanTheory
  import opened BitLengths
  import opened TreeBuilder
  import opened DecodeTable
  import opened InfTrees
  import opened BitWriter
  import opened DeflateSpec
  import opened DeflateRuns
  import opened RunLengths
  import opened StaticTables
  import opened BlockFormat
  import opened BlockHeaders

  // ---- The three kinds of trees

  function LitDesc(): StaticDesc {
    StaticDesc(Some(FixedLitLens()), EXTRA_LBITS, 257, 286, 15)
  }

  function DistDesc(): StaticDesc {
    StaticDesc(Some(FixedDistLens(30)), EXTRA_DBITS, 0, 30, 15)
  }

  function BlDesc(): StaticDesc {
    StaticDesc(None, EXTRA_BLBITS, 0, 19, 7)
  }

  lemma DescsValid()
    ensures ValidDesc(LitDesc()) && ValidDesc(DistDesc()) && ValidDesc(BlDesc())
  {
    PowersUpTo5();
    PowersUpTo13();
    Pow2Monotone(9, 15);
  }

  lemma LitExtra(c: nat)
    requires c < 286
    ensures |AllExtraBits(LitDesc())| == 286
    ensures AllExtraBits(LitDesc())[c] == if c < 257 then 0 else EXTRA_LBITS[c - 257]
  {
  }

  lemma DistExtra(c: nat)
    requires c < 30
    ensures |AllExtraBits(DistDesc())| == 30 && AllExtraBits(DistDesc())[c] == EXTRA_DBITS[c]
  {
  }

  lemma BlExtra(c: nat)
    requires c < 19
    ensures |AllExtraBits(BlDesc())| == 19 && AllExtraBits(BlDesc())[c] == RepeatBits(c)
  {
  }

  // ---- Frequencies

  function LitSymbol(t: Token): (s: nat)
    ensures s < 286
  {
    match t
    case Lit(value) => value as nat
    case Copy(length, _) => 257 + LengthCode(length)
  }

  function Bump(f: seq<nat>, s: nat): (r: seq<nat>)
    requires s < |f|
    ensures |r| == |f|
  {
    f[s := f[s] + 1]
  }

  /** How often each literal or length symbol is sent; the end of block once. */
  function LitFreqs(tokens: seq<Token>): (r: seq<nat>)
    ensures |r| == 286
  {
    if tokens == [] then seq(286, s => if s == 256 then 1 else 0)
    else Bump(LitFreqs(tokens[..|tokens| - 1]), LitSymbol(tokens[|tokens| - 1]))
  }

  function DistFreqs(tokens: seq<Token>): (r: seq<nat>)
    ensures |r| == 30
  {
    if tokens == [] then seq(30, s => 0)
    else
      var f, t := DistFreqs(tokens[..|tokens| - 1]), tokens[|tokens| - 1];
      if t.Copy? then Bump(f, DistanceCode(t.distance)) else f
  }

  lemma FreqsSnoc(tokens: seq<Token>, t: Token)
    ensures LitFreqs(tokens + [t]) == Bump(LitFreqs(tokens), LitSymbol(t))
    ensures DistFreqs(tokens + [t]) == if t.Copy? then Bump(DistFreqs(tokens), DistanceCode(t.distance)) else DistFreqs(tokens)
  {
    assert (tokens + [t])[..|tokens|] == tokens;
  }

  lemma {:induction false} BumpSum(f: seq<nat>, s: nat, n: nat)
    requires s < |f| && n <= |f|
    ensures FreqSum(Bump(f, s), n) == FreqSum(f, n) + if s < n then 1 else 0
  {
    if n > 0 {
      BumpSum(f, s, n - 1);
    }
  }

  lemma {:induction false} ConstantSum(f: seq<nat>, n: nat, at: nat)
    requires n <= |f| && forall s :: 0 <= s < n ==> f[s] == if s == at then 1 else 0
    ensures FreqSum(f, n) == if at < n then 1 else 0
  {
    if n > 0 {
      ConstantSum(f, n - 1, at);
    }
  }

  lemma {:induction false} FreqTotals(tokens: seq<Token>)
    ensures FreqSum(LitFreqs(tokens), 286) == |tokens| + 1 && FreqSum(DistFreqs(tokens), 30) <= |tokens|
  {
    if tokens == [] {
      ConstantSum(LitFreqs([]), 286, 256);
      ConstantSum(DistFreqs([]), 30, 30);
    } else {
      var front, t := tokens[..|tokens| - 1], tokens[|tokens| - 1];
      FreqTotals(front);
      assert front + [t] == tokens;
      FreqsSnoc(front, t);
      BumpSum(LitFreqs(front), LitSymbol(t), 286);
      if t.Copy? {
        BumpSum(DistFreqs(front), DistanceCode(t.distance), 30);
      }
    }
  }

  /** A symbol that is sent has a frequency. */
  lemma {:induction false} SentCounted(tokens: seq<Token>, i: nat)
    requires i < |tokens|
    ensures LitFreqs(tokens)[LitSymbol(tokens[i])] > 0 && LitFreqs(tokens)[256] > 0
    ensures tokens[i].Copy? ==> DistFreqs(tokens)[DistanceCode(tokens[i].distance)] > 0
  {
    hide DistanceCode, LitSymbol;
    var front := tokens[..|tokens| - 1];
    EndCounted(front);
    if i < |tokens| - 1 {
      SentCounted(front, i);
    }
  }

  lemma {:induction false} EndCounted(tokens: seq<Token>)
    ensures LitFreqs(tokens)[256] > 0
  {
    if tokens != [] {
      EndCounted(tokens[..|tokens| - 1]);
    }
  }

  // ---- Sizes

  lemma {:induction false} BumpCost(act: seq<bool>, f: seq<nat>, len: seq<nat>, s: nat, n: nat)
    requires n <= |act| && n <= |f| && n <= |len| && s < |f| && s < |act| && s < |len| && act[s]
    ensures Cost(act, Bump(f, s), len, n) == Cost(act, f, len, n) + if s < n then len[s] else 0
  {
    if n > 0 {
      BumpCost(act, f, len, s, n - 1);
      if n - 1 == s {
        assert (f[s] + 1) * len[s] == f[s] * len[s] + len[s];
      }
    }
  }

  lemma BumpCostWithExtra(act: seq<bool>, f: seq<nat>, len: seq<nat>, extra: seq<nat>, s: nat)
    requires |act| == |f| <= |len| && |act| <= |extra| && s < |act| && act[s]
    ensures CostWithExtra(act, Bump(f, s), len, extra) == CostWithExtra(act, f, len, extra) + len[s] + extra[s]
  {
    hide Cost;
    BumpCost(act, f, len, s, |act|);
    BumpCost(act, f, extra, s, |act|);
  }

  lemma {:induction false} ZeroCost(act: seq<bool>, f: seq<nat>, len: seq<nat>, n: nat)
    requires n <= |act| && n <= |f| && n <= |len| && forall s :: 0 <= s < n ==> f[s] == 0
    ensures Cost(act, f, len, n) == 0
  {
    if n > 0 {
      ZeroCost(act, f, len, n - 1);
    }
  }

  lemma {:induction false} OneCost(act: seq<bool>, f: seq<nat>, len: seq<nat>, at: nat, n: nat)
    requires n <= |act| && n <= |f| && n <= |len| && at < |act| && at < |len| && act[at]
    requires forall s :: 0 <= s < n ==> f[s] == if s == at then 1 else 0
    ensures Cost(act, f, len, n) == if at < n then len[at] else 0
  {
    if n > 0 {
      OneCost(act, f, len, at, n - 1);
    }
  }

  /** Which symbols of each code may be sent. */
  ghost predicate CodesUsed(usedL: seq<bool>, usedD: seq<bool>, tokens: seq<Token>) {
    |usedL| == 286 && |usedD| == 30 &&
    (forall s :: 0 <= s < 286 && LitFreqs(tokens)[s] > 0 ==> usedL[s]) &&
    (forall s :: 0 <= s < 30 && DistFreqs(tokens)[s] > 0 ==> usedD[s])
  }

  lemma UsedFront(usedL: seq<bool>, usedD: seq<bool>, tokens: seq<Token>, t: Token)
    requires CodesUsed(usedL, usedD, tokens + [t])
    ensures CodesUsed(usedL, usedD, tokens) && usedL[LitSymbol(t)]
    ensures t.Copy? ==> usedD[DistanceCode(t.distance)]
  {
    hide LitSymbol, DistanceCode, LitFreqs, DistFreqs;
    FreqsSnoc(tokens, t);
  }

  lemma TokenSize(ll: seq<nat>, dl: seq<nat>, t: Token)
    requires Coded(ll, dl, t)
    ensures LitSymbol(t) < |ll| && |AllExtraBits(LitDesc())| == 286 && |AllExtraBits(DistDesc())| == 30
    ensures t.Copy? ==> DistanceCode(t.distance) < |dl|
    ensures |TokenBits(ll, dl, t)| == ll[LitSymbol(t)] + AllExtraBits(LitDesc())[LitSymbol(t)] +
              if t.Copy? then dl[DistanceCode(t.distance)] + AllExtraBits(DistDesc())[DistanceCode(t.distance)] else 0
  {
    hide CodeWord, Bits, LengthCode, DistanceCode, AllExtraBits;
    LitExtra(LitSymbol(t));
    if t.Copy? {
      LengthWord(ll, t.length);
      DistanceWord(dl, t.distance);
      DistExtra(DistanceCode(t.distance));
    } else {
      DistExtra(0);
    }
  }

  /** The size of the data of a block is what the frequencies say, to the bit. */
  lemma {:induction false} TokensSize(usedL: seq<bool>, usedD: seq<bool>, ll: seq<nat>, dl: seq<nat>, tokens: seq<Token>)
    requires CodesUsed(usedL, usedD, tokens) && |ll| >= 286 && |dl| >= 30 && AllCodedTokens(ll, dl, tokens)
    ensures |AllExtraBits(LitDesc())| == 286 && |AllExtraBits(DistDesc())| == 30
    ensures |BodyBits(ll, dl, tokens)|
         == CostWithExtra(usedL, LitFreqs(tokens), ll, AllExtraBits(LitDesc())) +
            CostWithExtra(usedD, DistFreqs(tokens), dl, AllExtraBits(DistDesc()))
    decreases |tokens|
  {
    hide AllExtraBits, TokenBits, Coded, CostWithExtra, LitSymbol, DistanceCode, CodeWord, LitFreqs, DistFreqs;
    LitExtra(256);
    DistExtra(0);
    if tokens == [] {
      EmptySize(usedL, usedD, ll, dl);
    } else {
      var front, t := tokens[..|tokens| - 1], tokens[|tokens| - 1];
      assert front + [t] == tokens;
      UsedFront(usedL, usedD, front, t);
      TokensSize(usedL, usedD, ll, dl, front);
      TokenSize(ll, dl, t);
      FreqsSnoc(front, t);
      BumpCostWithExtra(usedL, LitFreqs(front), ll, AllExtraBits(LitDesc()), LitSymbol(t));
      if t.Copy? {
        BumpCostWithExtra(usedD, DistFreqs(front), dl, AllExtraBits(DistDesc()), DistanceCode(t.distance));
      }
    }
  }

  lemma EmptySize(usedL: seq<bool>, usedD: seq<bool>, ll: seq<nat>, dl: seq<nat>)
    requires CodesUsed(usedL, usedD, []) && |ll| >= 286 && |dl| >= 30
    ensures |AllExtraBits(LitDesc())| == 286 && |AllExtraBits(DistDesc())| == 30
    ensures CostWithExtra(usedL, LitFreqs([]), ll, AllExtraBits(LitDesc())) == ll[256]
    ensures CostWithExtra(usedD, DistFreqs([]), dl, AllExtraBits(DistDesc())) == 0
  {
    hide AllExtraBits, Cost;
    LitExtra(256);
    DistExtra(0);
    var x, y := AllExtraBits(LitDesc()), AllExtraBits(DistDesc());
    OneCost(usedL, LitFreqs([]), ll, 256, 286);
    OneCost(usedL, LitFreqs([]), x, 256, 286);
    ZeroCost(usedD, DistFreqs([]), dl, 30);
    ZeroCost(usedD, DistFreqs([]), y, 30);
  }

  // ---- Code length items

  function ItemFreqs(items: seq<Item>): (r: seq<nat>)
    ensures |r| == 19
  {
    seq(19, s requires 0 <= s => CountItems(items, s))
  }

  lemma ItemFreqsCons(it: Item, rest: seq<Item>)
    requires it.sym < 19
    ensures ItemFreqs([it] + rest) == Bump(ItemFreqs(rest), it.sym)
  {
    assert ([it] + rest)[1..] == rest;
  }

  lemma {:induction false} ItemsSize(used: seq<bool>, cl: seq<nat>, items: seq<Item>)
    requires |used| == 19 == |cl| && AllCoded(cl, items)
    requires forall s :: 0 <= s < 19 && ItemFreqs(items)[s] > 0 ==> used[s]
    ensures |AllExtraBits(BlDesc())| == 19
    ensures |ItemsBits(cl, items)| == CostWithExtra(used, ItemFreqs(items), cl, AllExtraBits(BlDesc()))
    ensures FreqSum(ItemFreqs(items), 19) == |items|
    decreases |items|
  {
    hide AllExtraBits, ItemBits, CostWithExtra, CodeWord, ItemFreqs;
    BlExtra(0);
    if items == [] {
      NoItemsSize(used, cl);
    } else {
      var it, rest := items[0], items[1..];
      assert [it] + rest == items;
      ItemFreqsCons(it, rest);
      ItemsSize(used, cl, rest);
      ItemSize(cl, it);
      BlExtra(it.sym);
      BumpCostWithExtra(used, ItemFreqs(rest), cl, AllExtraBits(BlDesc()), it.sym);
      BumpSum(ItemFreqs(rest), it.sym, 19);
    }
  }

  lemma ItemSize(cl: seq<nat>, it: Item)
    requires it.sym < |cl|
    ensures |ItemBits(cl, it)| == cl[it.sym] + RepeatBits(it.sym)
  {
    hide CodeWord, Bits;
  }

  lemma NoItemsSize(used: seq<bool>, cl: seq<nat>)
    requires |used| == 19 == |cl|
    ensures |AllExtraBits(BlDesc())| == 19
    ensures CostWithExtra(used, ItemFreqs([]), cl, AllExtraBits(BlDesc())) == 0 && FreqSum(ItemFreqs([]), 19) == 0
  {
    hide AllExtraBits, Cost;
    BlExtra(0);
    ZeroCost(used, ItemFreqs([]), cl, 19);
    ZeroCost(used, ItemFreqs([]), AllExtraBits(BlDesc()), 19);
    ConstantSum(ItemFreqs([]), 19, 19);
  }

  /** There are no more items than lengths. */
  lemma {:induction false} FewItems(lens: seq<nat>, items: seq<Item>)
    requires Playable(lens, items)
    ensures |lens| + |items| <= |Play(lens, items)|
    decreases |items|
  {
    if items != [] {
      FewItems(lens + Repeated(lens, items[0].sym, items[0].count), items[1..]);
    }
  }
}
