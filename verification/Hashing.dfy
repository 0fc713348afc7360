/** The rolling hash of three bytes that finds match candidates: UPDATE_HASH of deflate.c. */
module Hashing {
  import opened Machine
  import opened BitStrings

  /** a ^ b */
  function Xor(a: nat, b: nat): nat {
    if a == 0 then b else if b == 0 then a
    else (if a % 2 != b % 2 then 1 else 0) + 2 * Xor(a / 2, b / 2)
  }

  lemma XorStep(a: nat, b: nat)
    ensures Xor(a, b) % 2 == (if a % 2 != b % 2 then 1 else 0) && Xor(a, b) / 2 == Xor(a / 2, b / 2)
  {
    hide Xor;
    XorIs(a, b);
    XorIs(a / 2, b / 2);
    LastBit(if a % 2 != b % 2 then 1 else 0, Xor(a / 2, b / 2));
  }

  lemma XorIs(a: nat, b: nat)
    ensures Xor(a, b) == if a == 0 then b else if b == 0 then a else (if a % 2 != b % 2 then 1 else 0) + 2 * Xor(a / 2, b / 2)
  {
  }

  lemma LastBit(bit: nat, rest: nat)
    requires bit < 2
    ensures (bit + 2 * rest) % 2 == bit && (bit + 2 * rest) / 2 == rest
  {
  }

  lemma {:induction false} XorCancels(x: nat, a: nat, b: nat)
    requires Xor(x, a) == Xor(x, b)
    ensures a == b
    decreases x + a + b
  {
    if x != 0 || a != 0 {
      XorStep(x, a);
      XorStep(x, b);
      if x + a + b > 0 && (x / 2 + a / 2 + b / 2 < x + a + b) {
        XorCancels(x / 2, a / 2, b / 2);
      }
    }
  }

  lemma {:induction false} LowXor(a: nat, b: nat, n: nat)
    ensures Low(Xor(a, b), n) == Xor(Low(a, n), Low(b, n))
    decreases n
  {
    if n > 0 {
      LowXor(a / 2, b / 2, n - 1);
      XorStep(a, b);
      XorStep(Low(a, n), Low(b, n));
      assert Low(a, n) / 2 == Low(a / 2, n - 1) && Low(b, n) / 2 == Low(b / 2, n - 1);
    }
  }

  lemma XorTwice(a: nat, b: nat)
    ensures Xor(2 * a, 2 * b) == 2 * Xor(a, b)
  {
    XorStep(2 * a, 2 * b);
    assert 2 * a / 2 == a && 2 * b / 2 == b;
  }

  lemma {:induction false} ShlXor(a: nat, b: nat, s: nat)
    ensures Shl(Xor(a, b), s) == Xor(Shl(a, s), Shl(b, s))
    decreases s
  {
    if s > 0 {
      ShlXor(a, b, s - 1);
      XorTwice(Shl(a, s - 1), Shl(b, s - 1));
    }
  }

  lemma {:induction false} LowShl(a: nat, s: nat, n: nat)
    ensures Low(Shl(a, s), n) == if n <= s then 0 else Shl(Low(a, n - s), s)
    decreases s
  {
    if s > 0 && n > 0 {
      LowShl(a, s - 1, n - 1);
      LowTwice(Shl(a, s - 1), n);
    }
  }

  lemma LowTwice(v: nat, n: nat)
    requires n > 0
    ensures Low(2 * v, n) == 2 * Low(v, n - 1)
  {
    assert 2 * v / 2 == v;
  }

  // ---- The hash

  /** The hash table has 2^bits entries, and each byte moves those before it up by `shift` bits. */
  predicate HashSizes(bits: nat, shift: nat) {
    8 <= bits <= 16 && 1 <= shift <= bits <= 3 * shift
  }

  /** UPDATE_HASH */
  function UpdateHash(h: nat, c: byte, bits: nat, shift: nat): (r: nat) {
    Low(Xor(Shl(h, shift), c as nat), bits)
  }

  /** The hash of three bytes. */
  function Hash(a: byte, b: byte, c: byte, bits: nat, shift: nat): nat {
    UpdateHash(UpdateHash(a as nat, b, bits, shift), c, bits, shift)
  }

  lemma HashBound(h: nat, c: byte, bits: nat, shift: nat)
    ensures UpdateHash(h, c, bits, shift) < Pow2(bits)
  {
    LowBound(Xor(Shl(h, shift), c as nat), bits);
  }

  /** h is what remains of the bytes a and b: one more byte makes it their hash. */
  ghost predicate Rolled(h: nat, a: byte, b: byte, bits: nat, shift: nat) {
    forall c: byte :: UpdateHash(h, c, bits, shift) == Hash(a, b, c, bits, shift)
  }

  /** Only the low bits of h matter. */
  lemma UpdateOfLow(h: nat, c: byte, bits: nat, shift: nat)
    ensures UpdateHash(Low(h, bits), c, bits, shift) == UpdateHash(h, c, bits, shift)
  {
    hide Low, Shl, Xor;
    LowXor(Shl(h, shift), c as nat, bits);
    LowXor(Shl(Low(h, bits), shift), c as nat, bits);
    LowShl(h, shift, bits);
    LowShl(Low(h, bits), shift, bits);
    if bits > shift {
      LowLow(h, bits - shift, bits);
    }
  }

  /** What two updates do. */
  lemma TwoUpdates(h: nat, c: byte, d: byte, bits: nat, shift: nat)
    ensures UpdateHash(UpdateHash(h, c, bits, shift), d, bits, shift)
         == Xor(Xor(Low(Shl(h, shift + shift), bits), Low(Shl(c as nat, shift), bits)), Low(d as nat, bits))
  {
    hide Low, Shl, Xor;
    var x := Xor(Shl(h, shift), c as nat);
    UpdateOfLow(x, d, bits, shift);
    ShlXor(Shl(h, shift), c as nat, shift);
    ShlShl(h, shift, shift);
    LowXor(Shl(x, shift), d as nat, bits);
    LowXor(Shl(h, shift + shift), Shl(c as nat, shift), bits);
  }

  /** With three updates the oldest byte has left the hash. */
  lemma OldestByteGone(a: byte, b: byte, c: byte, d: byte, bits: nat, shift: nat)
    requires HashSizes(bits, shift)
    ensures UpdateHash(Hash(a, b, c, bits, shift), d, bits, shift) == Hash(b, c, d, bits, shift)
  {
    hide Low, Shl, Xor;
    var g := UpdateHash(a as nat, b, bits, shift);
    TwoUpdates(g, c, d, bits, shift);
    TwoUpdates(b as nat, c, d, bits, shift);
    LowShl(g, shift + shift, bits);
    LowShl(b as nat, shift + shift, bits);
    if bits > shift + shift {
      var k := bits - (shift + shift);
      LowLow(Xor(Shl(a as nat, shift), b as nat), k, bits);
      LowXor(Shl(a as nat, shift), b as nat, k);
      LowShl(a as nat, shift, k);
      XorZero(Low(b as nat, k));
    }
  }

  lemma XorZero(a: nat)
    ensures Xor(0, a) == a
  {
  }

  /** The hash rolls on: after the byte c, it is what remains of b and c. */
  lemma RollsOn(h: nat, a: byte, b: byte, c: byte, bits: nat, shift: nat)
    requires HashSizes(bits, shift) && Rolled(h, a, b, bits, shift)
    ensures UpdateHash(h, c, bits, shift) == Hash(a, b, c, bits, shift)
    ensures Rolled(UpdateHash(h, c, bits, shift), b, c, bits, shift)
  {
    hide UpdateHash;
    forall d: byte
      ensures UpdateHash(UpdateHash(h, c, bits, shift), d, bits, shift) == Hash(b, c, d, bits, shift)
    {
      OldestByteGone(a, b, c, d, bits, shift);
    }
  }

  lemma RolledAfresh(a: byte, b: byte, bits: nat, shift: nat)
    ensures Rolled(UpdateHash(a as nat, b, bits, shift), a, b, bits, shift)
  {
  }

  /** Two bytes and the hash determine the third: it need not be compared. */
  lemma ThirdByteForced(a: byte, b: byte, c: byte, d: byte, bits: nat, shift: nat)
    requires 8 <= bits && Hash(a, b, c, bits, shift) == Hash(a, b, d, bits, shift)
    ensures c == d
  {
    hide Shl, Xor, Low;
    var x := Shl(UpdateHash(a as nat, b, bits, shift), shift);
    LowXor(x, c as nat, bits);
    LowXor(x, d as nat, bits);
    XorCancels(Low(x, bits), Low(c as nat, bits), Low(d as nat, bits));
    Pow2Monotone(8, bits);
    Pow2Of8();
    LowBound(c as nat, bits);
    LowBound(d as nat, bits);
  }
}
