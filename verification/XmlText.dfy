/** Text of TinyXML: EncodeString of tinyxml.cpp escapes what ReadText of tinyxmlparser.cpp undoes. */
module XmlText {
  import opened Machine

  const AMPERSAND: byte := 38
  const HASH: byte := 35
  const LETTER_X: byte := 120
  const SEMICOLON: byte := 59
  const QUOTE: byte := 34

  /** The entities: what stands for a character, and the character. */
  const ENTITIES: seq<(seq<byte>, byte)> := [
    ([38, 97, 109, 112, 59], 38),
    ([38, 108, 116, 59], 60),
    ([38, 103, 116, 59], 62),
    ([38, 113, 117, 111, 116, 59], 34),
    ([38, 97, 112, 111, 115, 59], 39)
  ]

  /** A byte of a C string; its end reads as NUL. */
  function At(t: seq<byte>, i: nat): byte {
    if i < |t| then t[i] else 0
  }

  predicate NoNul(t: seq<byte>) {
    forall i :: 0 <= i < |t| ==> t[i] != 0
  }

  // ---- EncodeString

  /** A hexadecimal digit of printf's %X. */
  function HexDigit(v: nat): byte
    requires v < 16
  {
    if v < 10 then (48 + v) as byte else (55 + v) as byte
  }

  /** What one byte is written as. */
  function EncodeByte(c: byte): seq<byte> {
    if c == 38 then ENTITIES[0].0
    else if c == 60 then ENTITIES[1].0
    else if c == 62 then ENTITIES[2].0
    else if c == 34 then ENTITIES[3].0
    else if c == 39 then ENTITIES[4].0
    else if c < 32 then [AMPERSAND, HASH, LETTER_X, HexDigit(c as nat / 16), HexDigit(c as nat % 16), SEMICOLON]
    else [c]
  }

  /** A hexadecimal character reference begins here. */
  predicate IsReference(str: seq<byte>, i: nat) {
    i + 2 < |str| && str[i] == AMPERSAND && str[i + 1] == HASH && str[i + 2] == LETTER_X
  }

  /** Where a reference ends that is passed through: before its semicolon, or before the last byte. */
  function PastReference(str: seq<byte>, i: nat): (r: nat)
    requires i < |str|
    ensures i <= r < |str|
    decreases |str| - i
  {
    if i + 1 >= |str| then i
    else if str[i + 1] == SEMICOLON then i + 1
    else PastReference(str, i + 1)
  }

  /** What EncodeString makes of str from i on. */
  function Encoded(str: seq<byte>, i: nat): seq<byte>
    requires i <= |str|
    decreases |str| - i
  {
    if i == |str| then []
    else if IsReference(str, i) then str[i..PastReference(str, i)] + Encoded(str, PastReference(str, i))
    else EncodeByte(str[i]) + Encoded(str, i + 1)
  }

  /** The branches for a single byte. */
  method AppendByte(out: seq<byte>, c: byte) returns (outString: seq<byte>)
    ensures outString == out + EncodeByte(c)
  {
    hide EncodeByte;
    ByteEncoded(c);
    if c == AMPERSAND {
      outString := out + ENTITIES[0].0;
    } else if c == 60 {
      outString := out + ENTITIES[1].0;
    } else if c == 62 {
      outString := out + ENTITIES[2].0;
    } else if c == 34 {
      outString := out + ENTITIES[3].0;
    } else if c == 39 {
      outString := out + ENTITIES[4].0;
    } else if c < 32 {
      outString := out + [AMPERSAND, HASH, LETTER_X, HexDigit(c as nat / 16), HexDigit(c as nat % 16), SEMICOLON];
    } else {
      outString := out + [c];
    }
  }

  lemma EncodedIs(str: seq<byte>, i: nat)
    requires i < |str|
    ensures IsReference(str, i) <==> i < |str| - 2 && str[i] == AMPERSAND && str[i + 1] == HASH && str[i + 2] == LETTER_X
    ensures IsReference(str, i) ==> Encoded(str, i) == str[i..PastReference(str, i)] + Encoded(str, PastReference(str, i))
    ensures !IsReference(str, i) ==> Encoded(str, i) == EncodeByte(str[i]) + Encoded(str, i + 1)
  {
    hide EncodeByte, PastReference;
  }

  lemma Assoc(a: seq<byte>, b: seq<byte>, c: seq<byte>)
    ensures a + b + c == a + (b + c)
  {
  }

  lemma EncodedEnds(str: seq<byte>)
    ensures Encoded(str, |str|) == []
  {
  }

  /** EncodeString */
  method EncodeString(str: seq<byte>) returns (outString: seq<byte>)
    ensures outString == Encoded(str, 0)
  {
    hide *;
    outString := [];
    var i := 0;
    assert [] + Encoded(str, 0) == Encoded(str, 0);
    EncodedEnds(str);
    while i < |str|
      invariant 0 <= i <= |str| && outString + Encoded(str, i) == Encoded(str, 0)
    {
      EncodedIs(str, i);
      var c := str[i];
      ghost var before, start := outString, i;
      if c == AMPERSAND && i < |str| - 2 && str[i + 1] == HASH && str[i + 2] == LETTER_X {
        outString, i := PassReference(str, i, outString);
        Assoc(before, str[start..i], Encoded(str, i));
      } else {
        outString := AppendByte(outString, c);
        i := i + 1;
        Assoc(before, EncodeByte(c), Encoded(str, i));
      }
    }
    assert outString + [] == outString;
  }

  lemma ByteEncoded(c: byte)
    ensures c == 38 ==> EncodeByte(c) == ENTITIES[0].0
    ensures c == 60 ==> EncodeByte(c) == ENTITIES[1].0
    ensures c == 62 ==> EncodeByte(c) == ENTITIES[2].0
    ensures c == 34 ==> EncodeByte(c) == ENTITIES[3].0
    ensures c == 39 ==> EncodeByte(c) == ENTITIES[4].0
    ensures c < 32 ==> EncodeByte(c) == [AMPERSAND, HASH, LETTER_X, HexDigit(c as nat / 16), HexDigit(c as nat % 16), SEMICOLON]
    ensures c >= 32 && !(c in {38, 60, 62, 34, 39}) ==> EncodeByte(c) == [c]
  {
  }

  /** The inner loop: a reference goes out as it is. */
  method PassReference(str: seq<byte>, i0: nat, out: seq<byte>) returns (outString: seq<byte>, i: nat)
    requires IsReference(str, i0)
    ensures i0 < i == PastReference(str, i0) && outString == out + str[i0..i]
  {
    outString, i := out, i0;
    assert out + str[i0..i0] == out;
    while i < |str| - 1
      invariant i0 <= i < |str| && outString == out + str[i0..i] && PastReference(str, i) == PastReference(str, i0)
    {
      outString := outString + [str[i]];
      i := i + 1;
      assert str[i0..i] == str[i0..i - 1] + [str[i - 1]];
      if str[i] == SEMICOLON {
        break;
      }
    }
  }

  // ---- Reading one character

  /** Where reading goes on, and the bytes of the character read. */
  datatype Got = Got(next: nat, bytes: seq<byte>)

  /** utf8ByteTable: the length of a sequence by its lead byte. */
  function Utf8Length(lead: byte): nat {
    if lead < 194 then 1 else if lead < 224 then 2 else if lead < 240 then 3 else if lead < 245 then 4 else 1
  }

  /** A byte after the first: (v | 0x80) & 0xBF. */
  function Continuation(v: nat): byte {
    (128 + v % 64) as byte
  }

  /** ConvertUTF32ToUTF8 */
  function Utf8(input: nat): (r: seq<byte>)
    ensures |r| <= 4
  {
    if input < 0x80 then [input as byte]
    else if input < 0x800 then [(0xC0 + input / 64) as byte, Continuation(input)]
    else if input < 0x1_0000 then [(0xE0 + input / 4096) as byte, Continuation(input / 64), Continuation(input)]
    else if input < 0x20_0000 then
      [(0xF0 + input / 0x4_0000) as byte, Continuation(input / 4096), Continuation(input / 64), Continuation(input)]
    else []
  }

  /** strchr: the next place of c, if there is one. */
  function Find(t: seq<byte>, i: nat, c: byte): (r: Option<nat>)
    ensures r.Some? ==> i <= r.value < |t| && t[r.value] == c && forall k :: i <= k < r.value ==> t[k] != c
    ensures r.None? ==> forall k :: i <= k < |t| ==> t[k] != c
    decreases |t| - i
  {
    if i >= |t| then None else if t[i] == c then Some(i) else Find(t, i + 1, c)
  }

  /** The value of a digit in this base. */
  function Digit(c: byte, base: nat): Option<nat> {
    if 48 <= c <= 57 then Some(c as nat - 48)
    else if base == 16 && 97 <= c <= 102 then Some(c as nat - 87)
    else if base == 16 && 65 <= c <= 70 then Some(c as nat - 55)
    else None
  }

  /** The number read backwards from q to the mark, in unsigned int and unsigned long arithmetic. */
  function Scan(t: seq<byte>, q: nat, mark: byte, base: nat, mult: nat, ucs: nat): Option<nat>
    requires q < |t| && exists k :: 0 <= k <= q && t[k] == mark
  {
    if t[q] == mark then Some(ucs)
    else
      match Digit(t[q], base)
      case None => None
      case Some(d) =>
        assert q > 0;
        Scan(t, q - 1, mark, base, mult * base % 0x1_0000_0000, (ucs + mult * d % 0x1_0000_0000) % 0x1_0000_0000_0000_0000)
  }

  /** A character reference from p on: where it ends, and its characters; None when it is no reference. */
  function Reference(t: seq<byte>, p: nat, from: nat, mark: byte, base: nat): (r: Option<Got>)
    requires p < from <= |t| && t[from - 1] == mark
    ensures r.Some? ==> r.value.next > p
  {
    match Find(t, from, SEMICOLON)
    case None => None
    case Some(q) =>
      match Scan(t, q - 1, mark, base, 1, 0)
      case None => None
      case Some(ucs) => Some(Got(q + 1, Utf8(ucs)))
  }

  predicate StartsWith(t: seq<byte>, p: nat, s: seq<byte>) {
    p + |s| <= |t| && t[p..p + |s|] == s
  }

  /** The first entity that is at p; none leaves no character at all. */
  function Named(t: seq<byte>, p: nat, i: nat): (r: Got)
    requires i <= |ENTITIES|
    ensures r.next > p
    decreases |ENTITIES| - i
  {
    if i == |ENTITIES| then Got(p + 1, [])
    else if StartsWith(t, p, ENTITIES[i].0) then Got(p + |ENTITIES[i].0|, [ENTITIES[i].1])
    else Named(t, p, i + 1)
  }

  /** GetEntity, for UTF-8; None is a null pointer. */
  function Entity(t: seq<byte>, p: nat): (r: Option<Got>)
    requires p < |t| && NoNul(t)
    ensures r.Some? ==> r.value.next > p
  {
    if At(t, p + 1) == HASH && At(t, p + 2) != 0 then
      if At(t, p + 2) == LETTER_X then
        if At(t, p + 3) == 0 then None else Reference(t, p, p + 3, LETTER_X, 16)
      else Reference(t, p, p + 2, HASH, 10)
    else
      Some(Named(t, p, 0))
  }

  /** GetChar, for UTF-8: where the next character is, and the bytes of this one. */
  function Char(t: seq<byte>, p: nat): (r: Option<Got>)
    requires p < |t| && NoNul(t)
    ensures r.Some? ==> r.value.next > p
  {
    var n := Utf8Length(t[p]);
    if n == 1 then
      if t[p] == AMPERSAND then Entity(t, p) else Some(Got(p + 1, [t[p]]))
    else Some(Got(p + n, seq(n, i requires 0 <= i < n => At(t, p + i))))
  }

  // ---- ReadText

  /** The text up to the end tag, all white space kept; the place of the end tag, or None for a null pointer. */
  function Text(t: seq<byte>, p: nat, endTag: seq<byte>): (seq<byte>, Option<nat>)
    requires NoNul(t)
    decreases |t| - p
  {
    if p >= |t| || StartsWith(t, p, endTag) then ([], Some(p))
    else
      match Char(t, p)
      case None => ([], None)
      case Some(Got(next, c)) =>
        var (rest, end) := Text(t, next, endTag);
        (c + rest, end)
  }

  /** The loop over the digits of a reference, from the last to the mark. */
  method ReadDigits(t: seq<byte>, q0: nat, mark: byte, base: nat) returns (ucs: Option<nat>)
    requires q0 < |t| && exists k :: 0 <= k <= q0 && t[k] == mark
    ensures ucs == Scan(t, q0, mark, base, 1, 0)
  {
    var q: nat, mult: nat, sum: nat := q0, 1, 0;
    while t[q] != mark
      invariant 0 <= q <= q0 && exists k :: 0 <= k <= q && t[k] == mark
      invariant Scan(t, q, mark, base, mult, sum) == Scan(t, q0, mark, base, 1, 0)
      decreases q
    {
      var d := Digit(t[q], base);
      if d.None? {
        return None;
      }
      sum := (sum + mult * d.value % 0x1_0000_0000) % 0x1_0000_0000_0000_0000;
      mult := mult * base % 0x1_0000_0000;
      q := q - 1;
    }
    return Some(sum);
  }

  /** GetEntity */
  method GetEntity(t: seq<byte>, p: nat) returns (next: Option<nat>, value: seq<byte>)
    requires p < |t| && NoNul(t)
    ensures Entity(t, p) == if next.None? then None else Some(Got(next.value, value))
  {
    value := [];
    if At(t, p + 1) == HASH && At(t, p + 2) != 0 {
      var from, mark, base := p + 2, HASH, 10;
      if At(t, p + 2) == LETTER_X {
        if At(t, p + 3) == 0 {
          return None, [];
        }
        from, mark, base := p + 3, LETTER_X, 16;
      }
      var q := Find(t, from, SEMICOLON);
      if q.None? {
        return None, [];
      }
      var ucs := ReadDigits(t, q.value - 1, mark, base);
      if ucs.None? {
        return None, [];
      }
      return Some(q.value + 1), Utf8(ucs.value);
    }
    var i := 0;
    while i < |ENTITIES|
      invariant 0 <= i <= |ENTITIES| && Named(t, p, i) == Named(t, p, 0)
    {
      if StartsWith(t, p, ENTITIES[i].0) {
        return Some(p + |ENTITIES[i].0|), [ENTITIES[i].1];
      }
      i := i + 1;
    }
    next := Some(p + 1);
  }

  /** GetChar */
  method GetChar(t: seq<byte>, p: nat) returns (next: Option<nat>, value: seq<byte>)
    requires p < |t| && NoNul(t)
    ensures Char(t, p) == if next.None? then None else Some(Got(next.value, value))
  {
    var length := Utf8Length(t[p]);
    if length == 1 {
      if t[p] == AMPERSAND {
        next, value := GetEntity(t, p);
        return;
      }
      return Some(p + 1), [t[p]];
    }
    value := seq(length, i => 0);
    var i := 0;
    while At(t, p + i) != 0 && i < length
      invariant 0 <= i <= length && |value| == length
      invariant forall k :: 0 <= k < i ==> value[k] == At(t, p + k)
      invariant forall k :: i <= k < length ==> value[k] == 0
      decreases length - i
    {
      value := value[i := t[p + i]];
      i := i + 1;
    }
    assert i < length ==> p + i >= |t|;
    forall k | 0 <= k < length
      ensures value[k] == At(t, p + k)
    {
    }
    assert Char(t, p).value.bytes == value;
    next := Some(p + length);
  }

  /** ReadText, keeping white space: the text, and the place past the end tag. */
  method ReadText(t: seq<byte>, start: nat, endTag: seq<byte>) returns (text: seq<byte>, p: Option<nat>)
    requires NoNul(t)
    ensures text == Text(t, start, endTag).0
    ensures var end := Text(t, start, endTag).1;
            p == if end.Some? && end.value < |t| then Some(end.value + |endTag|) else end
  {
    text, p := [], Some(start);
    assert [] + Text(t, start, endTag).0 == Text(t, start, endTag).0;
    while p.Some? && p.value < |t| && !StartsWith(t, p.value, endTag)
      invariant p.Some? ==> text + Text(t, p.value, endTag).0 == Text(t, start, endTag).0
      invariant p.Some? ==> Text(t, p.value, endTag).1 == Text(t, start, endTag).1
      invariant p.None? ==> Text(t, start, endTag) == (text, None)
      decreases p.Some?, if p.Some? then |t| - p.value else 0
    {
      ghost var before := text;
      var c;
      p, c := GetChar(t, p.value);
      assert before + [] == before;
      if p.Some? {
        text := text + c;
        assert before + (c + Text(t, p.value, endTag).0) == text + Text(t, p.value, endTag).0;
      }
    }
    if p.Some? && p.value < |t| {
      p := Some(p.value + |endTag|);
    }
  }

  // ---- Reading back what was written

  /** No hexadecimal reference in the text. */
  predicate Plain(str: seq<byte>) {
    forall i :: 0 <= i < |str| ==> !IsReference(str, i)
  }

  /** Taken apart by lead bytes, no sequence is cut short or takes in a byte that is written as something else. */
  predicate Intact(str: seq<byte>)
    decreases |str|
  {
    str == [] ||
    (var n := Utf8Length(str[0]);
     n <= |str| && (forall i :: 1 <= i < n ==> EncodeByte(str[i]) == [str[i]]) && Intact(str[n..]))
  }

  /** Well-formed UTF-8, by the byte ranges of section 4 of RFC 3629. */
  predicate WellFormed(str: seq<byte>)
    decreases |str|
  {
    str == [] ||
    (str[0] < 0x80 && WellFormed(str[1..])) ||
    (|str| >= 2 && 0xC2 <= str[0] <= 0xDF && Tail(str[1]) && WellFormed(str[2..])) ||
    (|str| >= 3 && ThreeBytes(str[0], str[1]) && Tail(str[2]) && WellFormed(str[3..])) ||
    (|str| >= 4 && FourBytes(str[0], str[1]) && Tail(str[2]) && Tail(str[3]) && WellFormed(str[4..]))
  }

  predicate Tail(b: byte) {
    0x80 <= b <= 0xBF
  }

  predicate ThreeBytes(a: byte, b: byte) {
    (a == 0xE0 && 0xA0 <= b <= 0xBF) || (0xE1 <= a <= 0xEC && Tail(b)) || (a == 0xED && 0x80 <= b <= 0x9F) ||
    (0xEE <= a <= 0xEF && Tail(b))
  }

  predicate FourBytes(a: byte, b: byte) {
    (a == 0xF0 && 0x90 <= b <= 0xBF) || (0xF1 <= a <= 0xF3 && Tail(b)) || (a == 0xF4 && 0x80 <= b <= 0x8F)
  }

  lemma {:induction false} WellFormedIsIntact(str: seq<byte>)
    requires WellFormed(str)
    ensures Intact(str)
    decreases |str|
  {
    if str != [] {
      var n := Utf8Length(str[0]);
      assert n <= |str| && WellFormed(str[n..]);
      WellFormedIsIntact(str[n..]);
    }
  }

  /** Encoding from i on is encoding the rest. */
  lemma {:induction false} EncodedRest(str: seq<byte>, i: nat, k: nat)
    requires Plain(str) && k <= i <= |str|
    ensures Plain(str[k..]) && Encoded(str[k..], i - k) == Encoded(str, i)
    decreases |str| - i
  {
    hide EncodeByte, PastReference, Encoded;
    assert Plain(str[k..]) by {
      forall j | 0 <= j < |str[k..]|
        ensures !IsReference(str[k..], j)
      {
        assert !IsReference(str, k + j);
      }
    }
    if i < |str| {
      EncodedRest(str, i + 1, k);
      EncodedIs(str, i);
      EncodedIs(str[k..], i - k);
    } else {
      EncodedEnds(str);
      EncodedEnds(str[k..]);
    }
  }

  /** What the encoded text begins with. */
  lemma EncodedFirst(str: seq<byte>)
    requires Plain(str) && str != []
    ensures Plain(str[1..]) && Encoded(str, 0) == EncodeByte(str[0]) + Encoded(str[1..], 0)
  {
    hide EncodeByte;
    EncodedRest(str, 1, 1);
  }

  /** Bytes that are written as they are. */
  lemma {:induction false} EncodedAsIs(str: seq<byte>, n: nat)
    requires Plain(str) && n <= |str| && forall i :: 0 <= i < n ==> EncodeByte(str[i]) == [str[i]]
    ensures Plain(str[n..]) && Encoded(str, 0) == str[..n] + Encoded(str[n..], 0)
    decreases n
  {
    hide EncodeByte;
    if n == 0 {
      assert str[0..] == str;
    } else {
      EncodedFirst(str);
      EncodedAsIs(str[1..], n - 1);
      assert str[1..][n - 1..] == str[n..] && [str[0]] + str[1..][..n - 1] == str[..n];
    }
  }

  /** A byte above the ASCII range is written as it is. */
  lemma HighBytes(c: byte)
    ensures c >= 128 ==> EncodeByte(c) == [c]
    ensures Utf8Length(c) > 1 ==> c >= 194 && c != QUOTE
    ensures 1 <= Utf8Length(c) <= 4
    ensures EncodeByte(c) != [] && EncodeByte(c)[0] != QUOTE
    ensures EncodeByte(c)[0] == AMPERSAND || EncodeByte(c) == [c]
  {
  }

  /** Reading a hexadecimal reference to a control character. */
  lemma ControlIsRead(t: seq<byte>, p: nat, c: byte)
    requires NoNul(t) && 0 < c < 32 && StartsWith(t, p, EncodeByte(c))
    ensures p < |t| && Char(t, p) == Some(Got(p + 6, [c]))
  {
    var e := EncodeByte(c);
    var h, l := HexDigit(c as nat / 16), HexDigit(c as nat % 16);
    assert t[p] == t[p..p + 6][0] && t[p + 1] == t[p..p + 6][1] && t[p + 2] == t[p..p + 6][2];
    assert t[p + 3] == t[p..p + 6][3] == h && t[p + 4] == t[p..p + 6][4] == l && t[p + 5] == t[p..p + 6][5] == SEMICOLON;
    DigitsBack(c as nat / 16);
    DigitsBack(c as nat % 16);
    assert Find(t, p + 5, SEMICOLON) == Some(p + 5);
    assert Find(t, p + 4, SEMICOLON) == Some(p + 5);
    assert Find(t, p + 3, SEMICOLON) == Some(p + 5);
    var low, high := c as nat % 16, c as nat / 16;
    assert Scan(t, p + 2, LETTER_X, 16, 256, low + 16 * high) == Some(low + 16 * high);
    assert Scan(t, p + 3, LETTER_X, 16, 16, low) == Some(low + 16 * high);
    assert Scan(t, p + 4, LETTER_X, 16, 1, 0) == Some(low + 16 * high);
    assert low + 16 * high == c as nat;
  }

  lemma DigitsBack(v: nat)
    requires v < 16
    ensures Digit(HexDigit(v), 16) == Some(v) && HexDigit(v) != LETTER_X && HexDigit(v) != SEMICOLON && HexDigit(v) != 0
  {
  }

  /** Reading a named entity. */
  lemma EntityIsRead(t: seq<byte>, p: nat, i: nat)
    requires NoNul(t) && i < 5 && StartsWith(t, p, ENTITIES[i].0)
    ensures p < |t| && Char(t, p) == Some(Got(p + |ENTITIES[i].0|, [ENTITIES[i].1]))
  {
    StartsAt(t, p, ENTITIES[i].0, 0);
    StartsAt(t, p, ENTITIES[i].0, 1);
    forall j | 0 <= j < i
      ensures !StartsWith(t, p, ENTITIES[j].0)
    {
      OnlyEntity(t, p, i, j);
    }
    NamedIs(t, p, 0, i);
  }

  lemma StartsAt(t: seq<byte>, p: nat, s: seq<byte>, k: nat)
    requires StartsWith(t, p, s) && k < |s|
    ensures p + k < |t| && t[p + k] == s[k]
  {
    assert t[p..p + |s|][k] == t[p + k];
  }

  /** No two entities begin alike. */
  lemma OnlyEntity(t: seq<byte>, p: nat, i: nat, j: nat)
    requires j < i < 5 && StartsWith(t, p, ENTITIES[i].0)
    ensures !StartsWith(t, p, ENTITIES[j].0)
  {
    hide StartsWith;
    StartsAt(t, p, ENTITIES[i].0, 1);
    StartsAt(t, p, ENTITIES[i].0, 2);
    if StartsWith(t, p, ENTITIES[j].0) {
      StartsAt(t, p, ENTITIES[j].0, 1);
      StartsAt(t, p, ENTITIES[j].0, 2);
    }
  }

  lemma {:induction false} NamedIs(t: seq<byte>, p: nat, k: nat, i: nat)
    requires k <= i < 5 && StartsWith(t, p, ENTITIES[i].0) && forall j :: k <= j < i ==> !StartsWith(t, p, ENTITIES[j].0)
    ensures Named(t, p, k) == Got(p + |ENTITIES[i].0|, [ENTITIES[i].1])
    decreases i - k
  {
    if k < i {
      NamedIs(t, p, k + 1, i);
    }
  }

  /** What reading on from p leads to: n bytes of str read, and the rest of it still encoded. */
  ghost predicate ReadOn(t: seq<byte>, p: nat, str: seq<byte>, n: nat, next: nat, rest: seq<byte>)
    requires NoNul(t)
  {
    p < |t| && n <= |str| && t[p] != QUOTE && Char(t, p) == Some(Got(next, str[..n])) && next <= |t| &&
    t[next..] == Encoded(str[n..], 0) + rest
  }

  lemma SequenceReadOn(t: seq<byte>, p: nat, str: seq<byte>, rest: seq<byte>, n: nat)
    requires NoNul(t) && p <= |t| && t[p..] == Encoded(str, 0) + rest && Plain(str) && str != []
    requires n == Utf8Length(str[0]) && 1 < n <= |str| && forall i :: 1 <= i < n ==> EncodeByte(str[i]) == [str[i]]
    ensures Plain(str[n..]) && ReadOn(t, p, str, n, p + n, rest)
  {
    hide *;
    HighBytes(str[0]);
    forall i | 0 <= i < n
      ensures EncodeByte(str[i]) == [str[i]]
    {
      if i == 0 {
        HighBytes(str[0]);
      }
    }
    EncodedAsIs(str, n);
    var a, after := str[..n], Encoded(str[n..], 0) + rest;
    Assoc(a, Encoded(str[n..], 0), rest);
    SplitAt(t, p, a, after);
    assert |a| == n && a[0] == str[0];
    assert t[p + n..] == after;
    SequenceIsRead(t, p, a, p + n);
    IsReadOn(t, p, str, n, p + n, rest);
  }

  lemma IsReadOn(t: seq<byte>, p: nat, str: seq<byte>, n: nat, next: nat, rest: seq<byte>)
    requires NoNul(t) && p < |t| && n <= |str| && t[p] != QUOTE && Char(t, p) == Some(Got(next, str[..n])) && next <= |t|
    requires t[next..] == Encoded(str[n..], 0) + rest
    ensures ReadOn(t, p, str, n, next, rest)
  {
    hide Char, Encoded;
  }

  lemma ByteReadOn(t: seq<byte>, p: nat, str: seq<byte>, rest: seq<byte>)
    requires NoNul(t) && p <= |t| && t[p..] == Encoded(str, 0) + rest && Plain(str) && str != []
    requires Utf8Length(str[0]) == 1 && str[0] != 0
    ensures Plain(str[1..]) && ReadOn(t, p, str, 1, p + |EncodeByte(str[0])|, rest)
  {
    hide EncodeByte, Encoded, Char, Plain;
    var c := str[0];
    HighBytes(c);
    EncodedFirst(str);
    assert EncodeByte(c) + Encoded(str[1..], 0) + rest == EncodeByte(c) + (Encoded(str[1..], 0) + rest);
    SplitAt(t, p, EncodeByte(c), Encoded(str[1..], 0) + rest);
    OneIsRead(t, p, c);
    assert str[..1] == [c];
  }

  /** The first character of the encoded text is read back as the bytes it came from. */
  lemma FirstIsRead(t: seq<byte>, p: nat, str: seq<byte>, rest: seq<byte>) returns (next: nat)
    requires NoNul(t) && p <= |t| && t[p..] == Encoded(str, 0) + rest && Plain(str) && Intact(str) && NoNul(str) && str != []
    ensures var n := Utf8Length(str[0]); 1 <= n <= |str| && Plain(str[n..]) && ReadOn(t, p, str, n, next, rest)
  {
    hide EncodeByte, Encoded, Char, Plain, Intact, ReadOn;
    IntactParts(str);
    HighBytes(str[0]);
    var n := Utf8Length(str[0]);
    if n > 1 {
      SequenceReadOn(t, p, str, rest, n);
      next := p + n;
    } else {
      ByteReadOn(t, p, str, rest);
      next := p + |EncodeByte(str[0])|;
    }
  }

  lemma IntactParts(str: seq<byte>)
    requires Intact(str) && str != []
    ensures var n := Utf8Length(str[0]);
            n <= |str| && (forall i :: 1 <= i < n ==> EncodeByte(str[i]) == [str[i]]) && Intact(str[n..])
  {
    hide EncodeByte;
  }

  lemma SplitAt(t: seq<byte>, p: nat, a: seq<byte>, b: seq<byte>)
    requires p <= |t| && t[p..] == a + b
    ensures StartsWith(t, p, a) && p + |a| <= |t| && t[p + |a|..] == b
  {
    assert t[p..][..|a|] == a && t[p..][|a|..] == b;
  }

  /** A sequence of more than one byte is copied. */
  lemma SequenceIsRead(t: seq<byte>, p: nat, a: seq<byte>, next: nat)
    requires NoNul(t) && StartsWith(t, p, a) && |a| > 1 && Utf8Length(a[0]) == |a| && next == p + |a|
    ensures p < |t| && t[p] == a[0] && Char(t, p) == Some(Got(next, a))
  {
    assert t[p] == t[p..p + |a|][0];
    forall i | 0 <= i < |a|
      ensures At(t, p + i) == a[i]
    {
      assert t[p..p + |a|][i] == a[i];
    }
    assert Char(t, p).value.bytes == a;
  }

  /** What one byte is written as is read as that byte. */
  lemma OneIsRead(t: seq<byte>, p: nat, c: byte)
    requires NoNul(t) && StartsWith(t, p, EncodeByte(c)) && c != 0 && Utf8Length(c) == 1
    ensures p < |t| && t[p] == EncodeByte(c)[0] && Char(t, p) == Some(Got(p + |EncodeByte(c)|, [c]))
  {
    hide EncodeByte, Char;
    ByteEncoded(c);
    HighBytes(c);
    assert t[p] == t[p..p + |EncodeByte(c)|][0];
    if c < 32 {
      ControlIsRead(t, p, c);
    } else if c == 38 {
      EntityIsRead(t, p, 0);
    } else if c == 60 {
      EntityIsRead(t, p, 1);
    } else if c == 62 {
      EntityIsRead(t, p, 2);
    } else if c == 34 {
      EntityIsRead(t, p, 3);
    } else if c == 39 {
      EntityIsRead(t, p, 4);
    } else {
      PlainIsRead(t, p);
    }
  }

  lemma PlainIsRead(t: seq<byte>, p: nat)
    requires NoNul(t) && p < |t| && Utf8Length(t[p]) == 1 && t[p] != AMPERSAND
    ensures Char(t, p) == Some(Got(p + 1, [t[p]]))
  {
  }

  /** ReadText undoes EncodeString, up to the quote that ends the text. */
  lemma {:induction false} ReadsBack(t: seq<byte>, p: nat, str: seq<byte>, rest: seq<byte>)
    requires NoNul(t) && p <= |t| && t[p..] == Encoded(str, 0) + ([QUOTE] + rest)
    requires Plain(str) && Intact(str) && NoNul(str)
    ensures Text(t, p, [QUOTE]) == (str, Some(p + |Encoded(str, 0)|))
    decreases |str|
  {
    hide EncodeByte, Encoded, Char, Plain, Intact;
    if str == [] {
      NothingEncoded();
      assert t[p..][0] == QUOTE;
      assert StartsWith(t, p, [QUOTE]);
    } else {
      var next := FirstIsRead(t, p, str, [QUOTE] + rest);
      IntactParts(str);
      var n := Utf8Length(str[0]);
      ReadsBack(t, next, str[n..], rest);
      assert str[..n] + str[n..] == str;
      assert t[p..p + 1][0] == t[p];
      assert |t| - p == |Encoded(str, 0)| + 1 + |rest|;
    }
  }

  lemma NothingEncoded()
    ensures Encoded([], 0) == []
  {
  }

  /** The round trip, for well-formed UTF-8 without NUL and without hexadecimal references: ReadText of what
      EncodeString writes, followed by a quote, is the text again, and the quote is where it stops. */
  lemma EncodedTextReadsBack(str: seq<byte>, rest: seq<byte>)
    requires WellFormed(str) && NoNul(str) && NoNul(rest) && Plain(str)
    ensures NoNul(Encoded(str, 0) + ([QUOTE] + rest))
    ensures Text(Encoded(str, 0) + ([QUOTE] + rest), 0, [QUOTE]) == (str, Some(|Encoded(str, 0)|))
  {
    EncodedHasNoNul(str, 0);
    WellFormedIsIntact(str);
    var t := Encoded(str, 0) + ([QUOTE] + rest);
    assert t[0..] == t;
    ReadsBack(t, 0, str, rest);
  }

  /** What ConvertUTF32ToUTF8 writes, the table of lead bytes takes for one sequence: exactly below 0x140000. */
  lemma Utf8IsOneSequence(input: nat)
    ensures input < 0x20_0000 ==> Utf8(input) != []
    ensures input < 0x20_0000 ==> (Utf8Length(Utf8(input)[0]) == |Utf8(input)| <==> input < 0x14_0000)
  {
  }

  lemma NoNulByte(c: byte)
    ensures c != 0 ==> NoNul(EncodeByte(c))
  {
  }

  lemma {:induction false} EncodedHasNoNul(str: seq<byte>, i: nat)
    requires NoNul(str) && i <= |str|
    ensures NoNul(Encoded(str, i))
    decreases |str| - i
  {
    hide EncodeByte, Encoded;
    if i == |str| {
      EncodedEnds(str);
    } else {
      EncodedIs(str, i);
      NoNulByte(str[i]);
      if IsReference(str, i) {
        EncodedHasNoNul(str, PastReference(str, i));
      } else {
        EncodedHasNoNul(str, i + 1);
      }
    }
  }
}
