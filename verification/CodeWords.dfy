/** gen_codes and bi_reverse of trees.c: the canonical code words, bit-reversed
    for a stream that is written from the low end. */
module CodeWords {
  import opened Machine
  import opened BitStrings
  import opened Canonical

  /** bi_reverse */
  method BiReverse(value: nat, length: nat) returns (r: nat)
    requires 1 <= length <= 15
    ensures r == Val(Reverse(Bits(value, length)))
  {
    var res, code, len := 0, value, length;
    ghost var i := 0;
    assert Reverse(Bits(value, 0)) == [];
    while true
      invariant 0 < len == length - i && code == High(value, i)
      invariant res == 2 * Val(Reverse(Bits(value, i)))
      decreases len
    {
      OneMoreBit(value, i, res);
      res := Or(res, code % 2);
      code, res := code / 2, res * 2;
      len, i := len - 1, i + 1;
      if len == 0 {
        break;
      }
    }
    r := res / 2;
  }

  lemma OneMoreBit(v: nat, i: nat, res: nat)
    requires res == 2 * Val(Reverse(Bits(v, i)))
    ensures Or(res, High(v, i) % 2) == Val(Reverse(Bits(v, i + 1)))
    ensures High(v, i) / 2 == High(v, i + 1)
  {
    var b := High(v, i) % 2 == 1;
    BitsSplit(v, i, 1);
    assert Bits(High(v, i), 1) == [b];
    ReverseAppend(Bits(v, i), [b]);
    assert Reverse([b]) == [b];
    assert ([b] + Reverse(Bits(v, i)))[1..] == Reverse(Bits(v, i));
    HighHigh(v, i, 1);
    assert High(High(v, i), 1) == High(v, i) / 2;
    assert Or(res / 2, 0) == res / 2;
  }

  /** How many of the first n symbols have length l. */
  function Count(lens: seq<nat>, n: nat, l: nat): nat
    requires n <= |lens|
  {
    if n == 0 then 0 else Count(lens, n - 1, l) + if lens[n - 1] == l then 1 else 0
  }

  lemma {:induction false} TakenIsFirstPlusCount(lens: seq<nat>, n: nat, l: nat, s: nat)
    requires s <= n <= |lens| && 0 < l
    ensures Taken(lens, n, l, s) == Taken(lens, n, l, 0) + Count(lens, s, l)
    decreases s
  {
    if s > 0 {
      TakenIsFirstPlusCount(lens, n, l, s - 1);
      TakenNext(lens, n, l, s - 1);
    }
  }

  lemma AllNext(lens: seq<nat>, n: nat)
    requires n < |lens|
    ensures forall l :: 1 <= l <= MAXBITS ==>
              Taken(lens, |lens|, l, n + 1) == Taken(lens, |lens|, l, n) + if lens[n] == l then 1 else 0
  {
    forall l | 1 <= l <= MAXBITS
      ensures Taken(lens, |lens|, l, n + 1) == Taken(lens, |lens|, l, n) + if lens[n] == l then 1 else 0
    {
      TakenNext(lens, |lens|, l, n);
    }
  }

  lemma CodeIsSmall(lens: seq<nat>, n: nat)
    requires Fits(lens) && n < |lens| && lens[n] != 0
    ensures Code(lens, n) + 1 < 65536
  {
    CodeBound(lens, n);
    Pow2Monotone(lens[n], MAXBITS);
  }

  /** gen_codes: the tree's Len fields are in dl, and its Code fields go to fc. */
  method GenCodes(fc: array<nat>, dl: array<nat>, codes: nat, blCount: array<nat>)
    requires fc != dl && fc != blCount && codes <= dl.Length && codes <= fc.Length
    requires blCount.Length == MAXBITS + 1 && blCount[0] == 0
    requires Fits(dl[..codes])
    requires forall l :: 1 <= l <= MAXBITS ==> blCount[l] == Count(dl[..codes], codes, l)
    modifies fc
    ensures forall n :: 0 <= n < codes && dl[n] != 0 ==> fc[n] == Val(CodeWord(dl[..codes], n))
    ensures forall n :: 0 <= n < fc.Length && (n >= codes || dl[n] == 0) ==> fc[n] == old(fc[n])
  {
    ghost var lens := dl[..codes];
    var nextCode := FirstCodes(blCount, lens);
    for n := 0 to codes
      invariant dl[..codes] == lens
      invariant nextCode.Length == MAXBITS + 1 && fresh(nextCode)
      invariant forall l :: 1 <= l <= MAXBITS ==> nextCode[l] == Taken(lens, codes, l, n)
      invariant forall m :: 0 <= m < n && lens[m] != 0 ==> fc[m] == Val(CodeWord(lens, m))
      invariant forall m :: 0 <= m < fc.Length && (m >= n || dl[m] == 0) ==> fc[m] == old(fc[m])
    {
      assert dl[n] == lens[n];
      AllNext(lens, n);
      if dl[n] != 0 {
        var code := nextCode[dl[n]];
        CodeIsSmall(lens, n);
        nextCode[dl[n]] := Ush(code + 1);
        fc[n] := BiReverse(code, dl[n]);
      }
    }
  }

  /** The 16-bit next_code entries never overflow. */
  lemma FirstCodeBound(lens: seq<nat>, l: nat)
    requires Fits(lens) && 1 <= l <= MAXBITS
    ensures Taken(lens, |lens|, l, 0) <= Pow2(l) < 65536
  {
    TakenGrows(lens, |lens|, l, 0, MAXBITS, |lens|);
    ShlPow2(l, MAXBITS - l);
    ShlMonotone(Taken(lens, |lens|, l, 0), Pow2(l), MAXBITS - l);
    Pow2Monotone(l, MAXBITS);
  }

  lemma FirstCodeStep(lens: seq<nat>, l: nat)
    requires Fits(lens) && 1 <= l < MAXBITS
    ensures (Taken(lens, |lens|, l, 0) + Count(lens, |lens|, l)) * 2 == Taken(lens, |lens|, l + 1, 0) < 65536
  {
    TakenIsFirstPlusCount(lens, |lens|, l, |lens|);
    TakenNextLevel(lens, |lens|, l, |lens|);
    FirstCodeBound(lens, l + 1);
  }

  /** The first code of each length, from the number of codes of each length. */
  method FirstCodes(blCount: array<nat>, ghost lens: seq<nat>) returns (nextCode: array<nat>)
    requires blCount.Length == MAXBITS + 1 && blCount[0] == 0 && Fits(lens)
    requires forall l :: 1 <= l <= MAXBITS ==> blCount[l] == Count(lens, |lens|, l)
    ensures fresh(nextCode) && nextCode.Length == MAXBITS + 1
    ensures forall l :: 1 <= l <= MAXBITS ==> nextCode[l] == Taken(lens, |lens|, l, 0)
  {
    nextCode := new nat[MAXBITS + 1](i => 0);
    var code := 0;
    TakenNone(lens, |lens|);
    for bits := 1 to MAXBITS + 1
      invariant bits == 1 ==> code == 0
      invariant bits > 1 ==> code == Taken(lens, |lens|, bits - 1, 0)
      invariant forall l :: 1 <= l < bits ==> nextCode[l] == Taken(lens, |lens|, l, 0)
    {
      if bits > 1 {
        FirstCodeStep(lens, bits - 1);
      }
      code := (code + blCount[bits - 1]) * 2;
      nextCode[bits] := Ush(code);
    }
  }
}
