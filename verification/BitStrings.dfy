/** Bit strings, least significant bit first, and the numbers they stand for. */
module BitStrings {

  function Pow2(n: nat): (r: nat)
    ensures r >= 1
  {
    if n == 0 then 1 else 2 * Pow2(n - 1)
  }

  /** The low n bits of v. */
  function Bits(v: nat, n: nat): (r: seq<bool>)
    ensures |r| == n
    decreases n, v
  {
    if n == 0 then [] else [v % 2 == 1] + Bits(v / 2, n - 1)
  }

  /** The number a bit string stands for. */
  function Val(bs: seq<bool>): nat {
    if bs == [] then 0 else (if bs[0] then 1 else 0) + 2 * Val(bs[1..])
  }

  /** w & ((1 << n) - 1) */
  function Low(w: nat, n: nat): nat
    decreases n, w
  {
    if n == 0 then 0 else w % 2 + 2 * Low(w / 2, n - 1)
  }

  /** w >> n */
  function High(w: nat, n: nat): nat
    decreases n, w
  {
    if n == 0 then w else High(w / 2, n - 1)
  }

  lemma {:induction false} LowHighAreModDiv(w: nat, n: nat)
    ensures w == Low(w, n) + Pow2(n) * High(w, n) && Low(w, n) < Pow2(n)
    ensures Low(w, n) == w % Pow2(n) && High(w, n) == w / Pow2(n)
    decreases n
  {
    if n > 0 {
      LowHighAreModDiv(w / 2, n - 1);
      TwiceProduct(Pow2(n - 1), High(w / 2, n - 1));
    }
    DivModUnique(w, Pow2(n), High(w, n), Low(w, n));
  }

  lemma DivModUnique(w: nat, p: nat, h: nat, l: nat)
    requires p > 0 && l < p && w == l + p * h
    ensures w % p == l && w / p == h
  {
    var h', l' := w / p, w % p;
    assert w == p * h' + l';
    MulMonotone(p, h, h');
    MulMonotone(p, h', h);
  }

  lemma MulMonotone(p: nat, a: nat, b: nat)
    ensures a < b ==> p * a + p <= p * b
  {
    if a < b {
      var d := b - a;
      assert p * b == p * a + p * d;
      assert p * d >= p * 1;
    }
  }

  lemma {:induction false} Pow2Add(m: nat, n: nat)
    ensures Pow2(m + n) == Pow2(m) * Pow2(n)
  {
    if m > 0 {
      Pow2Add(m - 1, n);
    }
  }

  lemma {:induction false} Pow2Monotone(m: nat, n: nat)
    requires m <= n
    ensures Pow2(m) <= Pow2(n)
  {
    if m < n {
      Pow2Monotone(m, n - 1);
    }
  }

  lemma {:induction false} ValBits(v: nat, n: nat)
    ensures Val(Bits(v, n)) == Low(v, n)
    decreases n
  {
    if n > 0 {
      ValBits(v / 2, n - 1);
    }
  }

  lemma {:induction false} LowBound(v: nat, n: nat)
    ensures Low(v, n) < Pow2(n) && Low(v, n) <= v
    ensures v < Pow2(n) ==> Low(v, n) == v && High(v, n) == 0
    decreases n
  {
    if n > 0 {
      LowBound(v / 2, n - 1);
    }
  }

  lemma {:induction false} ValBound(bs: seq<bool>)
    ensures Val(bs) < Pow2(|bs|)
  {
    if bs != [] {
      ValBound(bs[1..]);
    }
  }

  lemma {:induction false} BitsVal(bs: seq<bool>)
    ensures Bits(Val(bs), |bs|) == bs
  {
    if bs != [] {
      BitsVal(bs[1..]);
      assert Val(bs) / 2 == Val(bs[1..]);
    }
  }

  lemma {:induction false} ValInjective(a: seq<bool>, b: seq<bool>)
    requires |a| == |b| && Val(a) == Val(b)
    ensures a == b
  {
    BitsVal(a);
    BitsVal(b);
  }

  /** v << n */
  function Shl(v: nat, n: nat): nat
    decreases n, v
  {
    if n == 0 then v else 2 * Shl(v, n - 1)
  }

  lemma {:induction false} ValAppend(a: seq<bool>, b: seq<bool>)
    ensures Val(a + b) == Val(a) + Shl(Val(b), |a|)
  {
    if a == [] {
      assert a + b == b;
    } else {
      assert (a + b)[1..] == a[1..] + b;
      ValAppend(a[1..], b);
    }
  }

  lemma TwiceProduct(p: nat, v: nat)
    ensures 2 * (p * v) == (2 * p) * v
  {
  }

  lemma {:induction false} BitsSplit(v: nat, m: nat, n: nat)
    ensures Bits(v, m + n) == Bits(v, m) + Bits(High(v, m), n)
    decreases m
  {
    if m > 0 {
      BitsSplit(v / 2, m - 1, n);
    }
  }

  lemma BitsPrefix(v: nat, k: nat, n: nat)
    requires k <= n
    ensures Bits(v, n)[..k] == Bits(v, k) && Bits(v, n)[k..] == Bits(High(v, k), n - k)
  {
    BitsSplit(v, k, n - k);
  }

  lemma {:induction false} BitsLow(v: nat, k: nat, n: nat)
    requires k <= n
    ensures Bits(Low(v, n), k) == Bits(v, k)
    decreases k
  {
    if k > 0 {
      BitsLow(v / 2, k - 1, n - 1);
      assert Low(v, n) / 2 == Low(v / 2, n - 1);
    }
  }

  lemma LowEqual(a: nat, b: nat, n: nat)
    ensures Low(a, n) == Low(b, n) <==> Bits(a, n) == Bits(b, n)
  {
    ValBits(a, n);
    ValBits(b, n);
    BitsLow(a, n, n);
    BitsLow(b, n, n);
  }

  lemma {:induction false} HighHigh(v: nat, m: nat, n: nat)
    ensures High(High(v, m), n) == High(v, m + n)
    decreases m
  {
    if m > 0 {
      HighHigh(v / 2, m - 1, n);
    }
  }

  /** a & b */
  function And(a: nat, b: nat): nat {
    if a == 0 || b == 0 then 0 else (if a % 2 == 1 && b % 2 == 1 then 1 else 0) + 2 * And(a / 2, b / 2)
  }

  /** a | b */
  function Or(a: nat, b: nat): nat {
    if a == 0 then b else if b == 0 then a
    else (if a % 2 == 1 || b % 2 == 1 then 1 else 0) + 2 * Or(a / 2, b / 2)
  }

  /** Masking with the low n bits. */
  lemma {:induction false} AndMask(a: nat, n: nat)
    ensures And(a, Pow2(n) - 1) == Low(a, n)
    decreases n
  {
    if n > 0 {
      AndMask(a / 2, n - 1);
      assert (Pow2(n) - 1) / 2 == Pow2(n - 1) - 1;
      if a == 0 {
        LowBound(0, n);
      }
    }
  }

  /** Testing one bit. */
  lemma {:induction false} AndBit(a: nat, k: nat, n: nat)
    requires k < n
    ensures And(a, Pow2(k)) != 0 <==> Bits(a, n)[k]
    decreases n
  {
    if k > 0 {
      if a == 0 {
        ZerosBits(n);
      } else {
        AndBit(a / 2, k - 1, n - 1);
        assert Pow2(k) / 2 == Pow2(k - 1);
      }
    } else if a != 0 {
      assert And(a, 1) == a % 2;
    }
  }

  lemma {:induction false} ZerosBits(n: nat)
    ensures forall i :: 0 <= i < n ==> !Bits(0, n)[i]
  {
    if n > 0 {
      ZerosBits(n - 1);
    }
  }

  /** Or of disjoint bits is a sum. */
  lemma {:induction false} OrIsSum(a: nat, b: nat, k: nat)
    requires a < Pow2(k)
    ensures Or(a, Shl(b, k)) == a + Shl(b, k)
    decreases k
  {
    if k > 0 && a != 0 && Shl(b, k) != 0 {
      OrIsSum(a / 2, b, k - 1);
    }
  }

  lemma {:induction false} HighLowUnique(l: nat, h: nat, n: nat)
    requires l < Pow2(n)
    ensures Low(l + Shl(h, n), n) == l && High(l + Shl(h, n), n) == h
    decreases n
  {
    if n > 0 {
      HighLowUnique(l / 2, h, n - 1);
      assert (l + Shl(h, n)) / 2 == l / 2 + Shl(h, n - 1);
    }
  }

  lemma {:induction false} LowHighSplit(w: nat, n: nat)
    ensures w == Low(w, n) + Shl(High(w, n), n)
    decreases n
  {
    if n > 0 {
      LowHighSplit(w / 2, n - 1);
    }
  }

  lemma {:induction false} LowLow(w: nat, m: nat, n: nat)
    requires m <= n
    ensures Low(Low(w, n), m) == Low(w, m)
    decreases m
  {
    if m > 0 {
      LowLow(w / 2, m - 1, n - 1);
      assert Low(w, n) / 2 == Low(w / 2, n - 1);
    }
  }

  /** Taking n bits after skipping m is the same in either order. */
  lemma {:induction false} HighOfLow(w: nat, m: nat, n: nat)
    ensures High(Low(w, m + n), m) == Low(High(w, m), n)
    decreases m
  {
    if m > 0 {
      HighOfLow(w / 2, m - 1, n);
      assert Low(w, m + n) / 2 == Low(w / 2, m + n - 1);
    }
  }

  lemma {:induction false} LowSplit(w: nat, m: nat, n: nat)
    ensures Low(w, m + n) == Low(w, m) + Shl(Low(High(w, m), n), m)
    decreases m
  {
    if m > 0 {
      LowSplit(w / 2, m - 1, n);
    }
  }

  lemma {:induction false} ShlShl(x: nat, m: nat, n: nat)
    ensures Shl(Shl(x, m), n) == Shl(x, m + n)
    decreases n
  {
    if n > 0 {
      ShlShl(x, m, n - 1);
    }
  }

  lemma Pow2Of8()
    ensures Pow2(8) == 256
  {
  }

  lemma Pow2Of16()
    ensures Pow2(16) == 65536
  {
    assert Pow2(8) == 256;
    Pow2Add(8, 8);
  }

  // ---- The bits of a byte

  lemma BitsOfByte(n: nat)
    ensures var s := Bits(n, 8);
      && s[0] == (n % 2 == 1) && s[1] == (n / 2 % 2 == 1) && s[2] == (n / 4 % 2 == 1) && s[3] == (n / 8 % 2 == 1)
      && s[4] == (n / 16 % 2 == 1) && s[5] == (n / 32 % 2 == 1) && s[6] == (n / 64 % 2 == 1) && s[7] == (n / 128 % 2 == 1)
  {
    hide Bits;
    var m := n / 16;
    BitsOfFour(n);
    BitsOfFour(m);
    BitsSplit(n, 4, 4);
    HighOfFour(n);
    assert m / 2 == n / 32 && m / 4 == n / 64 && m / 8 == n / 128;
  }

  lemma BitsOfFour(n: nat)
    ensures Bits(n, 4) == [n % 2 == 1, n / 2 % 2 == 1, n / 4 % 2 == 1, n / 8 % 2 == 1]
  {
    assert Bits(n / 8, 1) == [n / 8 % 2 == 1] + Bits(n / 16, 0);
    assert Bits(n / 4, 2) == [n / 4 % 2 == 1] + Bits(n / 4 / 2, 1);
    assert Bits(n / 2, 3) == [n / 2 % 2 == 1] + Bits(n / 2 / 2, 2);
  }

  lemma HighOfFour(n: nat)
    ensures High(n, 4) == n / 16
  {
    LowHighAreModDiv(n, 4);
    assert Pow2(4) == 16;
  }
}
