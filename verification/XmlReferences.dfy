/** What the references of XML text stand for: the five entities by name, character references as numbers in
    positional notation, and those numbers as UTF-8 in the sense of RFC 3629. */
module XmlReferences {
  import opened Machine
  import opened XmlText

  /** The bytes of a string of ASCII characters. */
  function Ascii(s: string): (r: seq<byte>)
    ensures |r| == |s|
  {
    seq(|s|, i requires 0 <= i < |s| => (s[i] as int % 128) as byte)
  }

  // ---- The entities

  /** The characters with a name are written as that name. */
  lemma EntitiesWritten()
    ensures EncodeByte('&' as int as byte) == Ascii("&amp;")
    ensures EncodeByte('<' as int as byte) == Ascii("&lt;")
    ensures EncodeByte('>' as int as byte) == Ascii("&gt;")
    ensures EncodeByte('"' as int as byte) == Ascii("&quot;")
    ensures EncodeByte('\'' as int as byte) == Ascii("&apos;")
  {
    EntityBytes();
  }

  /** Control characters are written by number, in two digits and capital letters. */
  lemma ControlsWritten()
    ensures EncodeByte('\n' as int as byte) == Ascii("&#x0A;") && EncodeByte(31) == Ascii("&#x1F;")
  {
  }

  lemma EntityBytes()
    ensures |ENTITIES| == 5
    ensures ENTITIES[0].0 == Ascii("&amp;") && [ENTITIES[0].1] == Ascii("&")
    ensures ENTITIES[1].0 == Ascii("&lt;") && [ENTITIES[1].1] == Ascii("<")
    ensures ENTITIES[2].0 == Ascii("&gt;") && [ENTITIES[2].1] == Ascii(">")
    ensures ENTITIES[3].0 == Ascii("&quot;") && [ENTITIES[3].1] == Ascii("\"")
    ensures ENTITIES[4].0 == Ascii("&apos;") && [ENTITIES[4].1] == Ascii("'")
  {
  }

  /** Wherever the names come up in a text, they are read as the characters. */
  lemma EntitiesRead(t: seq<byte>, p: nat)
    requires NoNul(t) && p < |t|
    ensures StartsWith(t, p, Ascii("&amp;")) ==> Char(t, p) == Some(Got(p + 5, Ascii("&")))
    ensures StartsWith(t, p, Ascii("&lt;")) ==> Char(t, p) == Some(Got(p + 4, Ascii("<")))
    ensures StartsWith(t, p, Ascii("&gt;")) ==> Char(t, p) == Some(Got(p + 4, Ascii(">")))
    ensures StartsWith(t, p, Ascii("&quot;")) ==> Char(t, p) == Some(Got(p + 6, Ascii("\"")))
    ensures StartsWith(t, p, Ascii("&apos;")) ==> Char(t, p) == Some(Got(p + 6, Ascii("'")))
  {
    hide *;
    EntityBytes();
    forall i | 0 <= i < 5 && StartsWith(t, p, ENTITIES[i].0)
      ensures Char(t, p) == Some(Got(p + |ENTITIES[i].0|, [ENTITIES[i].1]))
    {
      EntityIsRead(t, p, i);
    }
  }

  // ---- Numbers

  function Power(base: nat, n: nat): nat {
    if n == 0 then 1 else base * Power(base, n - 1)
  }

  /** The value of a run of digits, the most significant first. */
  function Positional(digits: seq<nat>, base: nat): nat {
    if digits == [] then 0 else digits[0] * Power(base, |digits| - 1) + Positional(digits[1..], base)
  }

  /** A byte that is written for the digit d. */
  predicate Writes(c: byte, d: nat, base: nat) {
    d < base &&
    if d < 10 then c as nat == '0' as nat + d else c as nat == 'a' as nat + (d - 10) || c as nat == 'A' as nat + (d - 10)
  }

  /** From p on: the opening, one byte for each digit, and a semicolon. */
  predicate Numeral(t: seq<byte>, p: nat, opening: seq<byte>, digits: seq<nat>, base: nat) {
    StartsWith(t, p, opening) && p + |opening| + |digits| < |t| && t[p + |opening| + |digits|] == ';' as int as byte &&
    forall i :: 0 <= i < |digits| ==> Writes(t[p + |opening| + i], digits[i], base)
  }

  const WORD: nat := 0x1_0000_0000

  lemma PositionalIs(digits: seq<nat>, base: nat)
    requires digits != []
    ensures Positional(digits, base) == digits[0] * Power(base, |digits| - 1) + Positional(digits[1..], base)
    ensures digits[0] * Power(base, |digits| - 1) >= 0
  {
    hide Power;
  }

  lemma {:induction false} SuffixIsLess(digits: seq<nat>, base: nat, k: nat)
    requires k <= |digits|
    ensures Positional(digits[k..], base) <= Positional(digits, base)
  {
    hide Positional, Power;
    if k > 0 {
      assert digits[1..][k - 1..] == digits[k..];
      PositionalIs(digits, base);
      SuffixIsLess(digits[1..], base, k - 1);
    } else {
      assert digits[0..] == digits;
    }
  }

  /** The digit before a suffix adds its weight. */
  lemma OneDigitMore(digits: seq<nat>, base: nat, k: nat)
    requires 1 <= k <= |digits|
    ensures Positional(digits[k - 1..], base) == digits[k - 1] * Power(base, |digits| - k) + Positional(digits[k..], base)
  {
    hide Positional, Power;
    assert digits[k - 1..][1..] == digits[k..];
    PositionalIs(digits[k - 1..], base);
  }

  /** A digit that counts has a weight below the value. */
  lemma WeightIsLess(d: nat, weight: nat, rest: nat, bound: nat)
    requires d * weight + rest < bound
    ensures d > 0 ==> weight < bound && d * weight < bound
  {
    if d > 0 {
      assert (d - 1) * weight >= 0;
    }
  }

  lemma DigitIs(c: byte, d: nat, base: nat)
    requires Writes(c, d, base) && (base == 10 || base == 16)
    ensures Digit(c, base) == Some(d) && c != HASH && c != LETTER_X && c != SEMICOLON && c != 0
  {
  }

  /** Nothing wraps below 2^32. */
  lemma NothingWraps(product: nat, sum: nat)
    requires product + sum < WORD
    ensures (sum + product % WORD) % 0x1_0000_0000_0000_0000 == product + sum
  {
  }

  lemma SameProduct(d: nat, weight: nat, mult: nat)
    requires d > 0 ==> mult == weight
    ensures mult * d == d * weight
  {
    if d == 0 {
      assert mult * 0 == 0 && 0 * weight == 0;
    }
  }

  lemma NextWeight(weight: nat, mult: nat, base: nat)
    requires (weight < WORD ==> mult == weight) && base > 0
    ensures base * weight < WORD ==> mult * base % WORD == base * weight
  {
    if base * weight < WORD {
      WeightIsLess(base, weight, 0, WORD);
      assert mult * base == base * weight;
    }
  }

  /** The sum and the weight after one digit more, in the arithmetic of the machine. */
  lemma OneDigitSum(d: nat, weight: nat, mult: nat, base: nat, sum: nat)
    requires d * weight + sum < WORD && (weight < WORD ==> mult == weight) && base > 0
    ensures (sum + mult * d % WORD) % 0x1_0000_0000_0000_0000 == d * weight + sum
    ensures base * weight < WORD ==> mult * base % WORD == base * weight
  {
    WeightIsLess(d, weight, sum, WORD);
    SameProduct(d, weight, mult);
    NothingWraps(d * weight, sum);
    NextWeight(weight, mult, base);
  }

  lemma ScanStep(t: seq<byte>, q: nat, mark: byte, base: nat, mult: nat, sum: nat, d: nat)
    requires 0 < q < |t| && t[q] != mark && Digit(t[q], base) == Some(d) && exists k :: 0 <= k <= q - 1 && t[k] == mark
    ensures Scan(t, q, mark, base, mult, sum)
         == Scan(t, q - 1, mark, base, mult * base % WORD, (sum + mult * d % WORD) % 0x1_0000_0000_0000_0000)
  {
  }

  /** With the digits from k on summed up, the rest of the loop arrives at the value of all. */
  lemma {:induction false} ScanAdds(t: seq<byte>, start: nat, mark: byte, digits: seq<nat>, base: nat, k: nat, mult: nat)
    requires (base == 10 && mark == HASH) || (base == 16 && mark == LETTER_X)
    requires 0 < start && start + |digits| <= |t| && t[start - 1] == mark && k <= |digits| && Positional(digits, base) < WORD
    requires forall i :: 0 <= i < |digits| ==> Writes(t[start + i], digits[i], base)
    requires Power(base, |digits| - k) < WORD ==> mult == Power(base, |digits| - k)
    ensures Scan(t, start + k - 1, mark, base, mult, Positional(digits[k..], base)) == Some(Positional(digits, base))
    decreases k
  {
    hide Scan, Digit, Writes, Power, Positional;
    if k == 0 {
      assert digits[0..] == digits;
      ScanEnds(t, start - 1, mark, base, mult, Positional(digits, base));
    } else {
      var d, weight, sum, q := digits[k - 1], Power(base, |digits| - k), Positional(digits[k..], base), start + k - 1;
      assert t[q] == t[start + (k - 1)];
      DigitIs(t[q], d, base);
      OneDigitMore(digits, base, k);
      SuffixIsLess(digits, base, k - 1);
      OneDigitSum(d, weight, mult, base, sum);
      PowerIs(base, |digits| - k + 1);
      ScanStep(t, q, mark, base, mult, sum, d);
      ScanAdds(t, start, mark, digits, base, k - 1, mult * base % WORD);
    }
  }

  lemma PowerIs(base: nat, n: nat)
    ensures Power(base, 0) == 1 && (n > 0 ==> Power(base, n) == base * Power(base, n - 1))
  {
  }

  lemma ScanEnds(t: seq<byte>, q: nat, mark: byte, base: nat, mult: nat, sum: nat)
    requires q < |t| && t[q] == mark
    ensures Scan(t, q, mark, base, mult, sum) == Some(sum)
  {
  }

  lemma {:induction false} FindAfter(t: seq<byte>, i: nat, n: nat, c: byte)
    requires i + n < |t| && t[i + n] == c && forall k :: i <= k < i + n ==> t[k] != c
    ensures Find(t, i, c) == Some(i + n)
    decreases n
  {
    if n > 0 {
      FindAfter(t, i + 1, n - 1, c);
    }
  }

  /** A reference, from its digits. */
  lemma ReferenceIs(t: seq<byte>, p: nat, start: nat, mark: byte, digits: seq<nat>, base: nat)
    requires (base == 10 && mark == HASH) || (base == 16 && mark == LETTER_X)
    requires p < start && start + |digits| < |t| && t[start - 1] == mark && Positional(digits, base) < WORD
    requires t[start + |digits|] == SEMICOLON && forall i :: 0 <= i < |digits| ==> Writes(t[start + i], digits[i], base)
    ensures Reference(t, p, start, mark, base) == Some(Got(start + |digits| + 1, Utf8(Positional(digits, base))))
  {
    hide Scan, Digit, Writes, Power, Positional, Utf8;
    forall k | start <= k < start + |digits| ensures t[k] != SEMICOLON {
      assert Writes(t[start + (k - start)], digits[k - start], base);
      DigitIs(t[k], digits[k - start], base);
    }
    FindAfter(t, start, |digits|, SEMICOLON);
    PowerIs(base, 0);
    assert digits[|digits|..] == [];
    NoDigits(base);
    ScanAdds(t, start, mark, digits, base, |digits|, 1);
  }

  lemma NoDigits(base: nat)
    ensures Positional([], base) == 0
  {
  }

  /** "&#d...d;" is the character with that number in decimal. */
  lemma DecimalIsRead(t: seq<byte>, p: nat, digits: seq<nat>)
    requires NoNul(t) && Numeral(t, p, Ascii("&#"), digits, 10) && Positional(digits, 10) < WORD
    ensures p < |t| && Char(t, p) == Some(Got(p + |digits| + 3, Utf8(Positional(digits, 10))))
  {
    hide Positional, Reference, Writes, Utf8, Named;
    StartsAt(t, p, Ascii("&#"), 0);
    StartsAt(t, p, Ascii("&#"), 1);
    if digits != [] {
      assert Writes(t[p + 2 + 0], digits[0], 10);
      DigitIs(t[p + 2], digits[0], 10);
    }
    ReferenceIs(t, p, p + 2, HASH, digits, 10);
  }

  /** "&#xh...h;" is the character with that number in hexadecimal, in letters of either case. */
  lemma HexadecimalIsRead(t: seq<byte>, p: nat, digits: seq<nat>)
    requires NoNul(t) && Numeral(t, p, Ascii("&#x"), digits, 16) && Positional(digits, 16) < WORD
    ensures p < |t| && Char(t, p) == Some(Got(p + |digits| + 4, Utf8(Positional(digits, 16))))
  {
    hide Positional, Reference, Writes, Utf8, Named;
    StartsAt(t, p, Ascii("&#x"), 0);
    StartsAt(t, p, Ascii("&#x"), 1);
    StartsAt(t, p, Ascii("&#x"), 2);
    if digits != [] {
      assert Writes(t[p + 3 + 0], digits[0], 16);
      DigitIs(t[p + 3], digits[0], 16);
    }
    ReferenceIs(t, p, p + 3, LETTER_X, digits, 16);
  }

  // ---- UTF-8

  /** The number that a sequence encodes: the low bits of the lead byte, then six bits of each later one. */
  function Scalar(s: seq<byte>): nat {
    if |s| == 1 then s[0] as nat
    else if |s| == 2 then s[0] as nat % 0x20 * 0x40 + s[1] as nat % 0x40
    else if |s| == 3 then s[0] as nat % 0x10 * 0x1000 + s[1] as nat % 0x40 * 0x40 + s[2] as nat % 0x40
    else if |s| == 4 then
      s[0] as nat % 0x8 * 0x4_0000 + s[1] as nat % 0x40 * 0x1000 + s[2] as nat % 0x40 * 0x40 + s[3] as nat % 0x40
    else 0
  }

  /** The numbers of characters: up to 10FFFF, without the surrogates. */
  predicate IsScalar(v: nat) {
    v < 0xD800 || 0xE000 <= v < 0x11_0000
  }

  /** Six bits at a time. */
  lemma SixBits(v: nat)
    ensures v == v / 64 * 64 + v % 64 && v / 4096 == v / 64 / 64 && v / 0x4_0000 == v / 4096 / 64
  {
  }

  lemma LaterByte(v: nat)
    ensures Tail(Continuation(v)) && Continuation(v) as nat == 0x80 + v % 0x40 && Continuation(v) as nat % 0x40 == v % 0x40
  {
  }

  lemma TwoByteCharacter(v: nat)
    requires 0x80 <= v < 0x800
    ensures |Utf8(v)| == 2 && Scalar(Utf8(v)) == v && WellFormed(Utf8(v))
  {
    hide WellFormed;
    SixBits(v);
    WellFormedSequence(Utf8(v));
  }

  lemma ThreeByteCharacter(v: nat)
    requires 0x800 <= v < 0x1_0000
    ensures |Utf8(v)| == 3 && Scalar(Utf8(v)) == v && (WellFormed(Utf8(v)) <==> IsScalar(v))
  {
    hide WellFormed, Continuation, Tail;
    SixBits(v);
    SixBits(v / 64);
    LaterByte(v);
    LaterByte(v / 64);
    WellFormedSequence(Utf8(v));
    ThreeLead(v);
  }

  /** The ranges of the first two bytes of three leave out the surrogates. */
  lemma ThreeLead(v: nat)
    requires 0x800 <= v < 0x1_0000
    ensures ThreeBytes((0xE0 + v / 4096) as byte, Continuation(v / 64)) <==> IsScalar(v)
  {
    hide Continuation;
    LaterByte(v / 64);
    SixBits(v);
    SixBits(v / 64);
  }

  lemma FourByteCharacter(v: nat)
    requires 0x1_0000 <= v < 0x20_0000
    ensures |Utf8(v)| == 4 && Scalar(Utf8(v)) == v && (WellFormed(Utf8(v)) <==> IsScalar(v))
  {
    hide WellFormed, Continuation, Tail, FourBytes;
    SixBits(v);
    SixBits(v / 64);
    SixBits(v / 4096);
    LaterByte(v);
    LaterByte(v / 64);
    LaterByte(v / 4096);
    WellFormedSequence(Utf8(v));
    FourLead(v);
  }

  /** The ranges of the first two bytes of four end at the last character. */
  lemma FourLead(v: nat)
    requires 0x1_0000 <= v < 0x20_0000
    ensures FourBytes((0xF0 + v / 0x4_0000) as byte, Continuation(v / 4096)) <==> IsScalar(v)
  {
    hide Continuation;
    LaterByte(v / 4096);
    SixBits(v);
    SixBits(v / 4096);
  }

  /** A character is written as the well-formed sequence that encodes it; what is no character is not. */
  lemma Utf8IsFaithful(v: nat)
    requires v < 0x20_0000
    ensures Scalar(Utf8(v)) == v
    ensures WellFormed(Utf8(v)) <==> IsScalar(v)
    ensures |Utf8(v)| == if v < 0x80 then 1 else if v < 0x800 then 2 else if v < 0x1_0000 then 3 else 4
  {
    hide WellFormed, Continuation;
    if v < 0x80 {
      WellFormedSequence(Utf8(v));
    } else if v < 0x800 {
      TwoByteCharacter(v);
    } else if v < 0x1_0000 {
      ThreeByteCharacter(v);
    } else {
      FourByteCharacter(v);
    }
  }

  /** A single sequence by itself. */
  lemma WellFormedSequence(s: seq<byte>)
    ensures |s| == 1 ==> (WellFormed(s) <==> s[0] < 0x80)
    ensures |s| == 2 && s[0] >= 0x80 && s[1] >= 0x80 ==> (WellFormed(s) <==> 0xC2 <= s[0] <= 0xDF && Tail(s[1]))
    ensures |s| == 3 && s[0] >= 0xE0 && s[1] >= 0x80 && s[2] >= 0x80 ==>
      (WellFormed(s) <==> ThreeBytes(s[0], s[1]) && Tail(s[2]))
    ensures |s| == 4 && s[0] >= 0xF0 && s[1] >= 0x80 && s[2] >= 0x80 && s[3] >= 0x80 ==>
      (WellFormed(s) <==> FourBytes(s[0], s[1]) && Tail(s[2]) && Tail(s[3]))
  {
    if s != [] {
      assert s[|s|..] == [];
    }
  }
}
