/** The bit packer of trees.c: send_bits, bi_flush and bi_windup over bi_buf and pending_buf. */
module BitWriter {
  import opened Machine
  import opened BitStrings
  import opened Canonical

  /** The bits of some bytes in stream order: each byte from its low end. */
  function ByteBits(bytes: seq<byte>): (r: seq<bool>)
    ensures |r| == 8 * |bytes|
  {
    if bytes == [] then [] else ByteBits(bytes[..|bytes| - 1]) + Bits(bytes[|bytes| - 1] as nat, 8)
  }

  lemma ByteBitsSnoc(bytes: seq<byte>, b: byte)
    ensures ByteBits(bytes + [b]) == ByteBits(bytes) + Bits(b as nat, 8)
  {
    assert (bytes + [b])[..|bytes|] == bytes;
  }

  lemma {:induction false} ByteBitsAppend(a: seq<byte>, b: seq<byte>)
    ensures ByteBits(a + b) == ByteBits(a) + ByteBits(b)
  {
    hide Bits;
    if b == [] {
      assert a + b == a;
    } else {
      var b' := b[..|b| - 1];
      ByteBitsAppend(a, b');
      assert a + b == (a + b') + [b[|b| - 1]];
      ByteBitsSnoc(a + b', b[|b| - 1]);
    }
  }

  function Low8(w: nat): byte {
    (w % 256) as byte
  }

  class Writer {
    var pending: seq<byte>
    var biBuf: nat
    var biValid: nat

    ghost predicate Valid()
      reads this
    {
      biValid <= 16 && biBuf < Pow2(biValid)
    }

    /** Everything sent so far. */
    ghost function Stream(): seq<bool>
      reads this
    {
      ByteBits(pending) + Bits(biBuf, biValid)
    }

    constructor ()
      ensures Valid() && Stream() == []
    {
      pending, biBuf, biValid := [], 0, 0;
    }

    /** put_byte */
    method PutByte(b: byte)
      modifies this`pending
      ensures pending == old(pending) + [b]
      ensures ByteBits(pending) == old(ByteBits(pending)) + Bits(b as nat, 8)
    {
      ByteBitsSnoc(pending, b);
      pending := pending + [b];
    }

    /** put_short */
    method PutShort(w: nat)
      requires w < 65536
      modifies this`pending
      ensures pending == old(pending) + [Low8(w), Low8(w / 256)]
      ensures ByteBits(pending) == old(ByteBits(pending)) + Bits(w, 16)
    {
      hide *;
      ghost var before := ByteBits(pending);
      ShortBits(w);
      PutByte(Low8(w));
      PutByte(Low8(w / 256));
      assert ByteBits(pending) == before + (Bits(Low8(w) as nat, 8) + Bits(Low8(w / 256) as nat, 8));
    }

    /** send_bits */
    method SendBits(value: nat, length: nat)
      requires Valid() && length <= 16 && value < Pow2(length)
      modifies this
      ensures Valid() && Stream() == old(Stream()) + Bits(value, length)
    {
      hide Bits, ByteBits, Pow2, Low, High, Shl, Or;
      ghost var sent, kept := ByteBits(pending), Bits(biBuf, biValid);
      assert sent + kept + Bits(value, length) == sent + (kept + Bits(value, length));
      if biValid > 16 - length {
        FillUp(biBuf, biValid, value, length);
        biBuf := Ush(Or(biBuf, Shl(value, biValid)));
        PutShort(biBuf);
        assert sent + (Bits(biBuf, 16) + Bits(High(value, 16 - biValid), biValid + length - 16))
            == sent + Bits(biBuf, 16) + Bits(High(value, 16 - biValid), biValid + length - 16);
        biBuf := High(value, 16 - biValid);
        biValid := biValid + length - 16;
      } else {
        AddOn(biBuf, biValid, value, length);
        biBuf := Ush(Or(biBuf, Ush(Shl(value, biValid))));
        biValid := biValid + length;
      }
    }

    /** bi_flush: keep at most 7 bits back. */
    method BiFlush()
      requires Valid()
      modifies this
      ensures Valid() && Stream() == old(Stream()) && biValid <= 7
    {
      hide Bits, ByteBits, High;
      if biValid == 16 {
        Pow2Of16();
        PutShort(biBuf);
        biBuf, biValid := 0, 0;
        NoBits(0);
      } else if biValid >= 8 {
        TopByte(biBuf, biValid);
        PutByte(Low8(biBuf));
        biBuf := High(biBuf, 8);
        biValid := biValid - 8;
      }
    }

    /** bi_windup: pad with zeros to a byte boundary. */
    method BiWindup()
      requires Valid()
      modifies this
      ensures Valid() && biValid == 0
      ensures exists pad: seq<bool> :: |pad| < 8 && (forall i :: 0 <= i < |pad| ==> !pad[i]) &&
                Stream() == old(Stream()) + pad && |Stream()| % 8 == 0
    {
      hide Bits, ByteBits, High;
      ghost var pad := seq(if biValid > 8 then 16 - biValid else if biValid > 0 then 8 - biValid else 0, i => false);
      PadBits(biBuf, biValid, 16);
      PadBits(biBuf, biValid, 8);
      NoBits(0);
      NoBits(biBuf);
      if biValid > 8 {
        Pow2Of16();
        Pow2Monotone(biValid, 16);
        PutShort(biBuf);
      } else if biValid > 0 {
        Pow2Monotone(biValid, 8);
        Pow2Of8();
        PutByte(Low8(biBuf));
      }
      biBuf, biValid := 0, 0;
      assert Stream() == old(Stream()) + pad;
    }
  }

  lemma NoBits(v: nat)
    ensures Bits(v, 0) == []
  {
  }

  /** The two bytes of a short. */
  lemma ShortBits(w: nat)
    requires w < 65536
    ensures Bits(w, 16) == Bits(Low8(w) as nat, 8) + Bits(Low8(w / 256) as nat, 8)
  {
    hide Bits;
    BitsSplit(w, 8, 8);
    LowHighAreModDiv(w, 8);
    Pow2Of8();
    BitsLow(w, 8, 8);
  }

  /** The value fits beside the valid bits. */
  lemma AddOn(buf: nat, valid: nat, value: nat, length: nat)
    requires valid + length <= 16 && buf < Pow2(valid) && value < Pow2(length)
    ensures Ush(Or(buf, Ush(Shl(value, valid)))) == buf + Shl(value, valid) < Pow2(valid + length)
    ensures Bits(buf + Shl(value, valid), valid + length) == Bits(buf, valid) + Bits(value, length)
  {
    hide Bits, Or;
    OrIsSum(buf, value, valid);
    HighLowUnique(buf, value, valid);
    BitsSplit(buf + Shl(value, valid), valid, length);
    BitsLow(buf + Shl(value, valid), valid, valid);
    ShlMonotone(value + 1, Pow2(length), valid);
    ShlAdd(value, 1, valid);
    ShlPow2(0, valid);
    ShlPow2(length, valid);
    Pow2Monotone(valid + length, 16);
    Pow2Of16();
  }

  /** The value overflows: 16 bits go out and the rest stays. */
  lemma FillUp(buf: nat, valid: nat, value: nat, length: nat)
    requires valid <= 16 && length <= 16 && valid + length > 16 && buf < Pow2(valid) && value < Pow2(length)
    ensures var out, rest := Ush(Or(buf, Shl(value, valid))), High(value, 16 - valid);
            out < 65536 && rest < Pow2(valid + length - 16) &&
            Bits(buf, valid) + Bits(value, length) == Bits(out, 16) + Bits(rest, valid + length - 16)
  {
    hide Bits, Or;
    OrIsSum(buf, value, valid);
    var all := buf + Shl(value, valid);
    HighLowUnique(buf, value, valid);
    BitsSplit(all, valid, length);
    BitsLow(all, valid, valid);
    BitsSplit(all, 16, valid + length - 16);
    HighHigh(all, valid, 16 - valid);
    LowHighAreModDiv(all, 16);
    Pow2Of16();
    BitsLow(all, 16, 16);
    HighBound(value, 16 - valid, valid + length - 16);
  }

  lemma TopByte(buf: nat, valid: nat)
    requires 8 <= valid && buf < Pow2(valid)
    ensures Bits(buf, valid) == Bits(Low8(buf) as nat, 8) + Bits(High(buf, 8), valid - 8)
    ensures High(buf, 8) < Pow2(valid - 8)
  {
    hide Bits;
    BitsSplit(buf, 8, valid - 8);
    LowHighAreModDiv(buf, 8);
    Pow2Of8();
    BitsLow(buf, 8, 8);
    HighBound(buf, 8, valid - 8);
  }

  lemma PadBits(buf: nat, valid: nat, n: nat)
    requires buf < Pow2(valid)
    ensures valid <= n ==> Bits(buf, n) == Bits(buf, valid) + seq(n - valid, i => false)
  {
    hide Bits;
    if valid <= n {
      BitsSplit(buf, valid, n - valid);
      LowBound(buf, valid);
      ZerosBits(n - valid);
      assert Bits(0, n - valid) == seq(n - valid, i => false);
    }
  }
}
