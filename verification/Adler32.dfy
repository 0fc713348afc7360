/** The Adler-32 checksum of section 2.2 of RFC 1950: the block-wise loop with a
    deferred modulo, and the combination of two checksums. */
module Adler32 {
  import opened Machine

  const BASE: int := 65521
  const NMAX: int := 5552

  /** The checksum's two sums, each reduced after every byte. */
  function Sums(a: nat, b: nat, data: seq<byte>): (r: (nat, nat)) {
    if data == [] then (a % BASE, b % BASE)
    else Accumulate(Sums(a, b, data[..|data| - 1]), data[|data| - 1])
  }

  function Accumulate(sums: (nat, nat), x: byte): (nat, nat) {
    var a := (sums.0 + x as int) % BASE;
    (a, (sums.1 + a) % BASE)
  }

  /** The same two sums, never reduced. */
  function RawA(a: nat, data: seq<byte>): nat {
    if data == [] then a else RawA(a, data[..|data| - 1]) + data[|data| - 1] as int
  }

  function RawB(a: nat, b: nat, data: seq<byte>): nat {
    if data == [] then b else RawB(a, b, data[..|data| - 1]) + RawA(a, data)
  }

  function Pack(p: (nat, nat)): nat {
    p.0 + 65536 * p.1
  }

  lemma ModPlus(x: nat, y: nat)
    ensures (x % BASE + y) % BASE == (x + y) % BASE
  {
  }

  lemma AccumulateReduced(a: nat, b: nat, x: byte)
    ensures Accumulate((a % BASE, b % BASE), x) == ((a + x as int) % BASE, (b + a + x as int) % BASE)
  {
    ModPlus(a, x as int);
    ModPlus(b, (a + x as int) % BASE);
    ModPlus(a + x as int, b);
  }

  /** Reducing late is the same as reducing at each byte. */
  lemma {:induction false} DeferredModulo(a: nat, b: nat, data: seq<byte>)
    ensures Sums(a, b, data) == (RawA(a, data) % BASE, RawB(a, b, data) % BASE)
  {
    if data != [] {
      var d, x := data[..|data| - 1], data[|data| - 1];
      DeferredModulo(a, b, d);
      AccumulateReduced(RawA(a, d), RawB(a, b, d), x);
    }
  }

  /** How large the second sum can get after n bytes. */
  function Bound(n: nat): nat {
    if n == 0 then 65535 else Bound(n - 1) + 65535 + 255 * n
  }

  lemma {:induction false} BoundClosed(n: nat)
    ensures 2 * Bound(n) == 131070 * (n + 1) + 255 * (n * (n + 1))
  {
    if n > 0 {
      BoundClosed(n - 1);
      assert n * (n + 1) == (n - 1) * n + 2 * n;
    }
  }

  lemma {:induction false} BoundMonotone(m: nat, n: nat)
    requires m <= n
    ensures Bound(m) <= Bound(n)
  {
    if m < n {
      BoundMonotone(m, n - 1);
    }
  }

  /** From any 16-bit starting sums, NMAX bytes keep both raw sums below 2^32;
      the bound is tight enough that the source needs no earlier reduction. */
  lemma {:induction false} RawBounds(a: nat, b: nat, data: seq<byte>)
    requires a <= 65535 && b <= 65535
    ensures RawA(a, data) <= 65535 + 255 * |data|
    ensures RawB(a, b, data) <= Bound(|data|)
    ensures |data| <= NMAX ==> RawB(a, b, data) < 0x1_0000_0000 && RawA(a, data) < 0x1_0000_0000
  {
    if data != [] {
      RawBounds(a, b, data[..|data| - 1]);
    }
    if |data| <= NMAX {
      BoundMonotone(|data|, NMAX);
      BoundClosed(NMAX);
    }
  }

  lemma SumsReduced(a: nat, b: nat, data: seq<byte>)
    ensures var s := Sums(a, b, data); s.0 < BASE && s.1 < BASE && (s.0 % BASE, s.1 % BASE) == s
  {
  }

  lemma {:induction false} SumsAppend(a: nat, b: nat, d: seq<byte>, e: seq<byte>)
    ensures Sums(Sums(a, b, d).0, Sums(a, b, d).1, e) == Sums(a, b, d + e)
  {
    if e == [] {
      assert d + e == d;
      SumsReduced(a, b, d);
    } else {
      SumsAppend(a, b, d, e[..|e| - 1]);
      assert (d + e)[..|d + e| - 1] == d + e[..|e| - 1];
    }
  }

  lemma {:induction false} SumsFromReduced(a: nat, b: nat, e: seq<byte>)
    ensures Sums(a % BASE, b % BASE, e) == Sums(a, b, e)
  {
    if e != [] {
      SumsFromReduced(a, b, e[..|e| - 1]);
    }
  }

  /** What one modulo after a block of bytes achieves. */
  lemma BlockReduced(a: nat, b: nat, lo: nat, hi: nat, d: seq<byte>, e: seq<byte>)
    requires (a % BASE, b % BASE) == Sums(lo, hi, d)
    ensures (RawA(a, e) % BASE, RawB(a, b, e) % BASE) == Sums(lo, hi, d + e)
  {
    DeferredModulo(a, b, e);
    SumsFromReduced(a, b, e);
    SumsAppend(lo, hi, d, e);
  }

  /** DO1: one byte added to both sums, in 32-bit arithmetic that cannot wrap. */
  method AddByte(ghost a0: nat, ghost b0: nat, ghost done: seq<byte>, x: byte, adler: uint32, sum2: uint32)
    returns (adler': uint32, sum2': uint32)
    requires a0 <= 65535 && b0 <= 65535 && |done| < NMAX
    requires adler as int == RawA(a0, done) && sum2 as int == RawB(a0, b0, done)
    ensures adler' as int == RawA(a0, done + [x]) && sum2' as int == RawB(a0, b0, done + [x])
  {
    assert (done + [x])[..|done|] == done;
    RawBounds(a0, b0, done + [x]);
    adler' := adler + x as uint32;
    sum2' := sum2 + adler';
  }

  /** The bytes buf[p..q) added one at a time. */
  method AddBytes(ghost a0: nat, ghost b0: nat, ghost done: seq<byte>, buf: seq<byte>, p: nat, q: nat,
                  adler: uint32, sum2: uint32)
    returns (adler': uint32, sum2': uint32)
    requires a0 <= 65535 && b0 <= 65535 && p <= q <= |buf| && |done| + (q - p) <= NMAX
    requires adler as int == RawA(a0, done) && sum2 as int == RawB(a0, b0, done)
    ensures adler' as int == RawA(a0, done + buf[p..q]) && sum2' as int == RawB(a0, b0, done + buf[p..q])
  {
    adler', sum2' := adler, sum2;
    assert done + buf[p..p] == done;
    for k := p to q
      invariant adler' as int == RawA(a0, done + buf[p..k])
      invariant sum2' as int == RawB(a0, b0, done + buf[p..k])
    {
      adler', sum2' := AddByte(a0, b0, done + buf[p..k], buf[k], adler', sum2');
      assert done + buf[p..k] + [buf[k]] == done + buf[p..k + 1];
    }
  }

  /** One block of NMAX bytes, 16 at a time, with no modulo. */
  method Block(buf: seq<byte>, pos: nat, adler: uint32, sum2: uint32) returns (a: uint32, b: uint32)
    requires adler < 65536 && sum2 < 65536 && pos + NMAX <= |buf|
    ensures a as int == RawA(adler as int, buf[pos..pos + NMAX])
    ensures b as int == RawB(adler as int, sum2 as int, buf[pos..pos + NMAX])
  {
    var n, p := NMAX / 16, pos;
    a, b := adler, sum2;
    while n > 0
      invariant 0 <= n <= NMAX / 16 && p == pos + 16 * (NMAX / 16 - n)
      invariant a as int == RawA(adler as int, buf[pos..p])
      invariant b as int == RawB(adler as int, sum2 as int, buf[pos..p])
    {
      a, b := AddBytes(adler as int, sum2 as int, buf[pos..p], buf, p, p + 16, a, b);
      assert buf[pos..p] + buf[p..p + 16] == buf[pos..p + 16];
      p, n := p + 16, n - 1;
    }
  }

  /** One block and its modulo. */
  method BlockModulo(ghost lo: nat, ghost hi: nat, buf: seq<byte>, pos: nat, adler: uint32, sum2: uint32)
    returns (adler': uint32, sum2': uint32)
    requires adler < 65536 && sum2 < 65536 && pos + NMAX <= |buf|
    requires (adler as int % BASE, sum2 as int % BASE) == Sums(lo, hi, buf[..pos])
    ensures adler' < 65521 && sum2' < 65521
    ensures (adler' as int, sum2' as int) == Sums(lo, hi, buf[..pos + NMAX])
  {
    var a, b := Block(buf, pos, adler, sum2);
    BlockReduced(adler as int, sum2 as int, lo, hi, buf[..pos], buf[pos..pos + NMAX]);
    assert buf[..pos] + buf[pos..pos + NMAX] == buf[..pos + NMAX];
    adler', sum2' := a % 65521, b % 65521;
  }

  /** adler32_z when the buffer holds at least 16 bytes: blocks of NMAX bytes with
      one modulo each, then the remaining bytes with one more. */
  method LongAdler(start1: uint32, start2: uint32, buf: seq<byte>) returns (r: uint32)
    requires start1 < 65536 && start2 < 65536 && |buf| >= 16
    ensures r as int == Pack(Sums(start1 as int, start2 as int, buf))
  {
    hide Sums, Accumulate, RawA, RawB, Pack, Bound;
    ghost var lo, hi := start1 as int, start2 as int;
    NoBytes(lo, hi, buf);
    var adler, sum2, pos := start1, start2, 0;
    while |buf| - pos >= NMAX
      invariant 0 <= pos <= |buf|
      invariant adler < 65536 && sum2 < 65536
      invariant (adler as int % BASE, sum2 as int % BASE) == Sums(lo, hi, buf[..pos])
      invariant pos > 0 ==> adler < 65521 && sum2 < 65521
      decreases |buf| - pos
    {
      adler, sum2 := BlockModulo(lo, hi, buf, pos, adler, sum2);
      pos := pos + NMAX;
    }
    assert buf[..pos] + buf[pos..] == buf;
    if pos < |buf| {
      adler, sum2 := Remainder(lo, hi, buf, pos, adler, sum2);
    } else {
      assert buf[..pos] == buf;
    }
    r := adler + sum2 * 65536;
    PackIs(adler as int, sum2 as int);
  }

  lemma NoBytes(lo: nat, hi: nat, buf: seq<byte>)
    ensures (lo % BASE, hi % BASE) == Sums(lo, hi, buf[..0])
  {
  }

  lemma PackIs(lo: nat, hi: nat)
    ensures Pack((lo, hi)) == lo + hi * 65536
  {
  }

  /** The last, shorter block: groups of 16, then single bytes, then the modulo. */
  method Remainder(ghost lo: nat, ghost hi: nat, buf: seq<byte>, pos: nat, adler: uint32, sum2: uint32)
    returns (adler': uint32, sum2': uint32)
    requires adler < 65536 && sum2 < 65536 && pos < |buf| < pos + NMAX
    requires (adler as int % BASE, sum2 as int % BASE) == Sums(lo, hi, buf[..pos])
    ensures (adler' as int, sum2' as int) == Sums(lo, hi, buf)
    ensures adler' < 65521 && sum2' < 65521
  {
    hide Sums, Accumulate, Bound;
    var a, b, p := adler, sum2, pos;
    ghost var a0, b0 := adler as int, sum2 as int;
    while |buf| - p >= 16
      invariant pos <= p <= |buf|
      invariant a as int == RawA(a0, buf[pos..p]) && b as int == RawB(a0, b0, buf[pos..p])
    {
      a, b := AddBytes(a0, b0, buf[pos..p], buf, p, p + 16, a, b);
      assert buf[pos..p] + buf[p..p + 16] == buf[pos..p + 16];
      p := p + 16;
    }
    a, b := AddBytes(a0, b0, buf[pos..p], buf, p, |buf|, a, b);
    assert buf[pos..p] + buf[p..|buf|] == buf[pos..];
    BlockReduced(a0, b0, lo, hi, buf[..pos], buf[pos..]);
    assert buf[..pos] + buf[pos..] == buf;
    adler', sum2' := a % 65521, b % 65521;
  }

  /** adler32_z for fewer than 16 bytes, other than one: a subtraction reduces the
      first sum, a modulo the second. */
  method ShortAdler(start1: uint32, start2: uint32, buf: seq<byte>) returns (r: uint32)
    requires start1 < 65536 && start2 < 65536 && |buf| < 16
    ensures r as int == Pack(Sums(start1 as int, start2 as int, buf))
  {
    hide Sums, Accumulate, RawA, RawB, Pack, Bound;
    ghost var lo, hi := start1 as int, start2 as int;
    RawOfNothing(lo, hi);
    var adler, sum2 := AddBytes(lo, hi, [], buf, 0, |buf|, start1, start2);
    assert [] + buf[0..|buf|] == buf;
    RawBounds(lo, hi, buf);
    DeferredModulo(lo, hi, buf);
    if adler >= 65521 { adler := adler - 65521; }
    sum2 := sum2 % 65521;
    r := adler + sum2 * 65536;
    PackIs(adler as int, sum2 as int);
  }

  lemma RawOfNothing(a: nat, b: nat)
    ensures RawA(a, []) == a && RawB(a, b, []) == b
  {
  }

  lemma OneByte(lo: nat, hi: nat, x: byte)
    requires lo < 65536 && hi < 65536
    ensures var a := if lo + x as int >= BASE then lo + x as int - BASE else lo + x as int;
            var b := if hi + a >= BASE then hi + a - BASE else hi + a;
            Sums(lo, hi, [x]).0 == a && (Sums(lo, hi, [x]).1 == b <==> hi + a < 2 * BASE)
  {
    DeferredModulo(lo, hi, [x]);
    assert [x][..0] == [];
    assert RawA(lo, [x]) == lo + x as int;
    assert RawB(lo, hi, [x]) == hi + lo + x as int;
  }

  /** A start value for which one subtraction is not enough: with the halves 65520 and 65535, and a byte 0,
      the one-byte path leaves 65534 in the second half, where the definition has 13. */
  lemma OneByteDeparts()
    ensures Sums(65520, 65535, [0 as byte]) == (65520, 13)
    ensures 65535 + 65520 - BASE == 65534 && 65535 + Sums(65520, 65535, [0 as byte]).0 >= 2 * BASE
  {
    assert [0 as byte][..0] == [];
    assert Sums(65520, 65535, []) == (65520, 14);
  }

  lemma PackInjective(p: (nat, nat), q: (nat, nat))
    requires p.0 < 65536 && q.0 < 65536
    ensures Pack(p) == Pack(q) <==> p == q
  {
  }

  /** adler32_z. For a null buffer the result is 1. Otherwise it is the per-byte
      definition, except on the one-byte path when the incoming second half is
      so large (never a valid checksum) that one subtraction does not reduce it. */
  method Adler32Z(start: uint32, buffer: Option<seq<byte>>) returns (r: uint32)
    ensures buffer.None? ==> r == 1
    ensures buffer.Some? ==>
              var lo, hi := start as int % 65536, start as int / 65536;
              (r as int == Pack(Sums(lo, hi, buffer.value))
               <==> !(|buffer.value| == 1 && hi + Sums(lo, hi, buffer.value).0 >= 2 * BASE))
  {
    var sum2: uint32 := start / 65536;
    var adler: uint32 := start % 65536;
    if buffer == None {
      return 1;
    }
    var buf := buffer.value;
    if |buf| == 1 {
      assert buf == [buf[0]];
      ghost var p := Sums(adler as int, sum2 as int, buf);
      OneByte(adler as int, sum2 as int, buf[0]);
      adler := adler + buf[0] as uint32;
      if adler >= 65521 { adler := adler - 65521; }
      sum2 := sum2 + adler;
      if sum2 >= 65521 { sum2 := sum2 - 65521; }
      PackInjective((adler as int, sum2 as int), p);
      r := adler + sum2 * 65536;
    } else if |buf| < 16 {
      r := ShortAdler(adler, sum2, buf);
    } else {
      r := LongAdler(adler, sum2, buf);
    }
  }

  /** n copies of a, added up. */
  function Times(n: nat, a: nat): nat
    decreases n, a
  {
    if n == 0 then 0 else Times(n - 1, a) + a
  }

  lemma {:induction false} TimesIsProduct(n: nat, a: nat)
    ensures Times(n, a) == n * a
  {
    if n > 0 {
      TimesIsProduct(n - 1, a);
      assert n * a == (n - 1) * a + a;
    }
  }

  lemma {:induction false} TimesReduced(n: nat, a: nat)
    ensures Times(n, a) % BASE == Times(n % BASE, a) % BASE
  {
    if n >= BASE {
      TimesReduced(n - BASE, a);
      TimesAdd(n - BASE, BASE, a);
      TimesIsProduct(BASE, a);
      ModDrop(Times(n - BASE, a), a);
    }
  }

  lemma {:induction false} TimesAdd(m: nat, n: nat, a: nat)
    ensures Times(m + n, a) == Times(m, a) + Times(n, a)
  {
    if n > 0 {
      TimesAdd(m, n - 1, a);
    }
  }

  lemma ModDrop(x: nat, k: nat)
    ensures (x + BASE * k) % BASE == x % BASE
  {
  }

  /** Starting both sums elsewhere shifts them by known amounts. */
  lemma {:induction false} RawShift(a: nat, b: nat, data: seq<byte>)
    ensures RawA(a, data) == a + RawA(0, data)
    ensures RawB(a, b, data) == b + Times(|data|, a) + RawB(0, 0, data)
  {
    if data != [] {
      RawShift(a, b, data[..|data| - 1]);
    }
  }

  lemma Unpack(a: nat, b: nat)
    requires a < 65536
    ensures Pack((a, b)) % 65536 == a && Pack((a, b)) / 65536 == b
  {
  }

  lemma SubtractDown(x: nat)
    requires x < 4 * BASE
    ensures var y := if x >= 2 * BASE then x - 2 * BASE else x;
            (if y >= BASE then y - BASE else y) == x % BASE
    ensures x < 3 * BASE ==>
              var y := if x >= BASE then x - BASE else x;
              (if y >= BASE then y - BASE else y) == x % BASE
  {
  }

  /** adler32_combine_: for len2 < 0 an impossible checksum; otherwise the checksum
      of the concatenation, whatever the two strings are. */
  method Combine(adler1: uint32, adler2: uint32, len2: int, ghost d: seq<byte>, ghost e: seq<byte>)
    returns (r: uint32)
    requires adler1 as int == Pack(Sums(1, 0, d)) && adler2 as int == Pack(Sums(1, 0, e))
    requires len2 >= 0 ==> len2 == |e|
    ensures len2 < 0 ==> r == 0xffff_ffff
    ensures len2 >= 0 ==> r as int == Pack(Sums(1, 0, d + e))
  {
    if len2 < 0 {
      return 0xffff_ffff;
    }
    ghost var a1, b1, a2, b2 := Sums(1, 0, d).0, Sums(1, 0, d).1, Sums(1, 0, e).0, Sums(1, 0, e).1;
    SumsReduced(1, 0, d);
    SumsReduced(1, 0, e);
    Unpack(a1, b1);
    Unpack(a2, b2);
    r := CombineHalves(adler1 % 65536, adler1 / 65536, adler2 % 65536, adler2 / 65536, (len2 % 65521) as uint32);
    CombineSums(d, e);
  }

  method CombineHalves(a1: uint32, b1: uint32, a2: uint32, b2: uint32, rem: uint32) returns (r: uint32)
    requires a1 < 65521 && b1 < 65521 && a2 < 65521 && b2 < 65521 && rem < 65521
    ensures r as int == Pack(Combined((a1 as int, b1 as int), (a2 as int, b2 as int), rem as int))
  {
    var sum1 := a1;
    assert rem as int * sum1 as int <= 65520 * 65520;
    var sum2: uint32 := rem * sum1;
    sum2 := sum2 % 65521;
    sum1 := sum1 + a2 + 65521 - 1;
    sum2 := sum2 + b1 + b2 + 65521 - rem;
    SubtractDown(sum1 as int);
    SubtractDown(sum2 as int);
    if sum1 >= 65521 { sum1 := sum1 - 65521; }
    if sum1 >= 65521 { sum1 := sum1 - 65521; }
    if sum2 >= 131042 { sum2 := sum2 - 131042; }
    if sum2 >= 65521 { sum2 := sum2 - 65521; }
    return sum1 + sum2 * 65536;
  }

  /** The formula that adler32_combine_ evaluates. */
  function Combined(p: (nat, nat), q: (nat, nat), rem: nat): (nat, nat)
    requires rem < BASE
  {
    ((p.0 + q.0 + BASE - 1) % BASE, ((rem * p.0) % BASE + p.1 + q.1 + BASE - rem) % BASE)
  }

  lemma CombineSums(d: seq<byte>, e: seq<byte>)
    ensures Sums(1, 0, d + e) == Combined(Sums(1, 0, d), Sums(1, 0, e), |e| % BASE)
  {
    var p := Sums(1, 0, d);
    SumsAppend(1, 0, d, e);
    ShiftedSums(p.0, p.1, e);
    ShiftedSums(1, 0, e);
    TimesOne(|e|);
    CombineArith(p, Sums(1, 0, e), |e|, RawA(0, e), RawB(0, 0, e));
  }

  lemma ShiftedSums(a: nat, b: nat, e: seq<byte>)
    ensures Sums(a, b, e) == ((a + RawA(0, e)) % BASE, (b + Times(|e|, a) + RawB(0, 0, e)) % BASE)
  {
    DeferredModulo(a, b, e);
    RawShift(a, b, e);
  }

  lemma CombineArith(p: (nat, nat), q: (nat, nat), n: nat, s: nat, t: nat)
    requires q == ((1 + s) % BASE, (n + t) % BASE)
    ensures ((p.0 + s) % BASE, (p.1 + Times(n, p.0) + t) % BASE) == Combined(p, q, n % BASE)
  {
    TimesReduced(n, p.0);
    TimesIsProduct(n % BASE, p.0);
    ModFirst(p.0, s);
    ModSecond(Times(n, p.0), p.1, t, n);
  }

  lemma ModFirst(a: nat, k: nat)
    ensures (a + (1 + k) % BASE + BASE - 1) % BASE == (a + k) % BASE
  {
  }

  lemma ModSecond(pe: nat, b: nat, k: nat, n: nat)
    ensures (pe % BASE + b + (n + k) % BASE + BASE - n % BASE) % BASE == (b + pe + k) % BASE
  {
  }

  lemma {:induction false} TimesOne(n: nat)
    ensures Times(n, 1) == n
  {
    if n > 0 {
      TimesOne(n - 1);
    }
  }

  // ---- The check value

  lemma StartSums()
    ensures Sums(1, 0, []) == (1, 0)
  {
  }

  lemma OneByteMore(d: seq<byte>, x: byte, a: nat, b: nat)
    requires Sums(1, 0, d) == (a, b) && b + a + x as nat < BASE
    ensures Sums(1, 0, d + [x]) == (a + x as nat, b + a + x as nat)
  {
    hide Accumulate;
    assert (d + [x])[..|d|] == d;
    AccumulateSmall(a, b, x);
  }

  lemma AccumulateSmall(a: nat, b: nat, x: byte)
    requires b + a + x as nat < BASE
    ensures Accumulate((a, b), x) == (a + x as nat, b + a + x as nat)
  {
  }

  /** The checksum of the digits 1 to 9. */
  lemma CheckValue()
    ensures Pack(Sums(1, 0, [49, 50, 51, 52, 53, 54, 55, 56, 57])) == 0x091e_01de
  {
    hide Sums;
    StartSums();
    OneByteMore([], 49, 1, 0);
    assert [] + [49] == [49 as byte];
    OneByteMore([49], 50, 50, 50);
    assert [49] + [50] == [49 as byte, 50];
    OneByteMore([49, 50], 51, 100, 150);
    assert [49, 50] + [51] == [49 as byte, 50, 51];
    OneByteMore([49, 50, 51], 52, 151, 301);
    assert [49, 50, 51] + [52] == [49 as byte, 50, 51, 52];
    OneByteMore([49, 50, 51, 52], 53, 203, 504);
    assert [49, 50, 51, 52] + [53] == [49 as byte, 50, 51, 52, 53];
    OneByteMore([49, 50, 51, 52, 53], 54, 256, 760);
    assert [49, 50, 51, 52, 53] + [54] == [49 as byte, 50, 51, 52, 53, 54];
    OneByteMore([49, 50, 51, 52, 53, 54], 55, 310, 1070);
    assert [49, 50, 51, 52, 53, 54] + [55] == [49 as byte, 50, 51, 52, 53, 54, 55];
    OneByteMore([49, 50, 51, 52, 53, 54, 55], 56, 365, 1435);
    assert [49, 50, 51, 52, 53, 54, 55] + [56] == [49 as byte, 50, 51, 52, 53, 54, 55, 56];
    OneByteMore([49, 50, 51, 52, 53, 54, 55, 56], 57, 421, 1856);
    assert [49, 50, 51, 52, 53, 54, 55, 56] + [57] == [49 as byte, 50, 51, 52, 53, 54, 55, 56, 57];
  }
}
