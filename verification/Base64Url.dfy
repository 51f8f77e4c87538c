/** base64.RawURLEncoding: section 5 of RFC 4648 without padding, as Go decodes it: line
    breaks are skipped and left-over low bits of the last digit are not looked at. */
module Base64Url {
  import opened Options

  type byte = x: int | 0 <= x < 256
  type digit = x: int | 0 <= x < 64

  function ToChar(d: digit): char {
    if d < 26 then 'A' + d as char
    else if d < 52 then 'a' + (d - 26) as char
    else if d < 62 then '0' + (d - 52) as char
    else if d == 62 then '-' else '_'
  }

  function ToDigit(c: char): Option<digit> {
    if 'A' <= c <= 'Z' then Some((c - 'A') as int)
    else if 'a' <= c <= 'z' then Some((c - 'a') as int + 26)
    else if '0' <= c <= '9' then Some((c - '0') as int + 52)
    else if c == '-' then Some(62)
    else if c == '_' then Some(63)
    else None
  }

  /** Three bytes are four digits: x/4, the rest of x with y/16, the rest of y with z/64, and
      the rest of z; a missing byte counts as zero. */
  function D0(x: byte): digit { x / 4 }
  function D1(x: byte, y: byte): digit { x % 4 * 16 + y / 16 }
  function D2(y: byte, z: byte): digit { y % 16 * 4 + z / 64 }
  function D3(z: byte): digit { z % 64 }

  function B0(a: digit, b: digit): byte { (a as int) * 4 + b / 16 }
  function B1(b: digit, c: digit): byte { (b as int) % 16 * 16 + c / 4 }
  function B2(c: digit, d: digit): byte { (c as int) % 4 * 64 + d }

  function Encode(b: seq<byte>): string {
    if |b| == 0 then ""
    else if |b| == 1 then [ToChar(D0(b[0])), ToChar(D1(b[0], 0))]
    else if |b| == 2 then [ToChar(D0(b[0])), ToChar(D1(b[0], b[1])), ToChar(D2(b[1], 0))]
    else [ToChar(D0(b[0])), ToChar(D1(b[0], b[1])), ToChar(D2(b[1], b[2])), ToChar(D3(b[2]))] + Encode(b[3..])
  }

  function Digits(s: string): Option<seq<digit>> {
    if |s| == 0 then Some([])
    else match (ToDigit(s[0]), Digits(s[1..]))
      case (Some(d), Some(rest)) => Some([d] + rest)
      case _ => None
  }

  /** Four digits make three bytes; two or three left over make one or two. */
  function FromDigits(d: seq<digit>): Option<seq<byte>> {
    if |d| == 0 then Some([])
    else if |d| == 1 then None
    else if |d| == 2 then Some([B0(d[0], d[1])])
    else if |d| == 3 then Some([B0(d[0], d[1]), B1(d[1], d[2])])
    else match FromDigits(d[4..])
      case Some(rest) => Some([B0(d[0], d[1]), B1(d[1], d[2]), B2(d[2], d[3])] + rest)
      case None => None
  }

  function WithoutBreaks(s: string): string {
    if |s| == 0 then ""
    else (if s[0] == '\n' || s[0] == '\r' then "" else [s[0]]) + WithoutBreaks(s[1..])
  }

  function Decode(s: string): Option<seq<byte>> {
    match Digits(WithoutBreaks(s))
    case Some(d) => FromDigits(d)
    case None => None
  }

  lemma DigitOfChar(d: digit)
    ensures ToDigit(ToChar(d)) == Some(d)
    ensures ToChar(d) !in {'.', '\n', '\r', ' '}
  {
  }

  /** The digits behind an encoding. */
  function DigitsOf(b: seq<byte>): seq<digit> {
    if |b| == 0 then []
    else if |b| == 1 then [D0(b[0]), D1(b[0], 0)]
    else if |b| == 2 then [D0(b[0]), D1(b[0], b[1]), D2(b[1], 0)]
    else [D0(b[0]), D1(b[0], b[1]), D2(b[1], b[2]), D3(b[2])] + DigitsOf(b[3..])
  }

  function Chars(d: seq<digit>): string { seq(|d|, i requires 0 <= i < |d| => ToChar(d[i])) }

  lemma {:induction false} EncodeIsChars(b: seq<byte>)
    ensures Encode(b) == Chars(DigitsOf(b))
  {
    if |b| > 2 { EncodeIsChars(b[3..]); }
  }

  lemma {:induction false} CharsHaveDigits(d: seq<digit>)
    ensures WithoutBreaks(Chars(d)) == Chars(d) && Digits(Chars(d)) == Some(d)
    ensures forall c :: c in Chars(d) ==> c !in {'.', '\n', '\r', ' '} && ToDigit(c).Some?
  {
    if |d| == 0 {
      assert Chars(d) == "";
    } else {
      var s := Chars(d);
      DigitOfChar(d[0]);
      CharsHaveDigits(d[1..]);
      assert s[0] == ToChar(d[0]) && s[1..] == Chars(d[1..]);
      assert s == [s[0]] + s[1..];
      assert [d[0]] + d[1..] == d;
    }
  }

  lemma GroupBytes(x: byte, y: byte, z: byte)
    ensures B0(D0(x), D1(x, y)) == x && B1(D1(x, y), D2(y, z)) == y && B2(D2(y, z), D3(z)) == z
  {
  }

  lemma GroupDigits(a: digit, b: digit, c: digit, d: digit)
    ensures D0(B0(a, b)) == a && D1(B0(a, b), B1(b, c)) == b
    ensures D2(B1(b, c), B2(c, d)) == c && D3(B2(c, d)) == d
    ensures D1(B0(a, b), 0) == b <==> b % 16 == 0
    ensures D2(B1(b, c), 0) == c <==> c % 4 == 0
  {
  }

  lemma OneByte(a: digit, b: digit, x: byte)
    requires B0(a, b) == x
    ensures FromDigits([a, b]) == Some([x])
  {
  }

  lemma TwoBytes(a: digit, b: digit, c: digit, x: byte, y: byte)
    requires B0(a, b) == x && B1(b, c) == y
    ensures FromDigits([a, b, c]) == Some([x, y])
  {
  }

  lemma LastTwo(x: byte, y: byte)
    ensures FromDigits(DigitsOf([x, y])) == Some([x, y])
  {
    var a, b, c := D0(x), D1(x, y), D2(y, 0);
    assert DigitsOf([x, y]) == [a, b, c];
    assert B0(a, b) == x && B1(b, c) == y by { GroupBytes(x, y, 0); }
    TwoBytes(a, b, c, x, y);
  }

  lemma LastOne(x: byte)
    ensures FromDigits(DigitsOf([x])) == Some([x])
  {
    var a, b := D0(x), D1(x, 0);
    assert DigitsOf([x]) == [a, b];
    assert B0(a, b) == x by { GroupBytes(x, 0, 0); }
    OneByte(a, b, x);
  }

  lemma {:induction false} BytesOfDigits(b: seq<byte>)
    ensures FromDigits(DigitsOf(b)) == Some(b)
  {
    if |b| == 1 {
      LastOne(b[0]);
      assert b == [b[0]];
    } else if |b| == 2 {
      LastTwo(b[0], b[1]);
      assert b == [b[0], b[1]];
    } else if |b| > 2 {
      GroupBytes(b[0], b[1], b[2]);
      BytesOfDigits(b[3..]);
      assert DigitsOf(b)[4..] == DigitsOf(b[3..]);
      assert b == [b[0], b[1], b[2]] + b[3..];
    }
  }

  /** Decoding after encoding, over all byte strings; and the alphabet has no separator. */
  lemma DecodeEncode(b: seq<byte>)
    ensures Decode(Encode(b)) == Some(b)
    ensures forall c :: c in Encode(b) ==> c !in {'.', '\n', '\r', ' '} && ToDigit(c).Some?
  {
    EncodeIsChars(b);
    CharsHaveDigits(DigitsOf(b));
    BytesOfDigits(b);
  }

  // ---- The other direction ----

  /** The low bits that the last digit carries beyond the last byte. */
  function Spare(d: seq<digit>): nat {
    if |d| % 4 == 2 then d[|d| - 1] % 16 else if |d| % 4 == 3 then d[|d| - 1] % 4 else 0
  }

  lemma {:induction false} DigitsOfBytes(d: seq<digit>)
    requires FromDigits(d).Some?
    ensures DigitsOf(FromDigits(d).value) == d <==> Spare(d) == 0
  {
    var b := FromDigits(d).value;
    if |d| == 2 {
      GroupDigits(d[0], d[1], 0, 0);
      assert DigitsOf(b) == [d[0], D1(b[0], 0)] && d == [d[0], d[1]];
    } else if |d| == 3 {
      GroupDigits(d[0], d[1], d[2], 0);
      assert DigitsOf(b) == [d[0], d[1], D2(b[1], 0)] && d == [d[0], d[1], d[2]];
    } else if |d| >= 4 {
      GroupDigits(d[0], d[1], d[2], d[3]);
      DigitsOfBytes(d[4..]);
      SpareOfRest(d);
      assert b[3..] == FromDigits(d[4..]).value;
      assert DigitsOf(b) == d[..4] + DigitsOf(b[3..]);
      assert d == d[..4] + d[4..];
      assert DigitsOf(b)[4..] == DigitsOf(b[3..]);
    }
  }

  lemma SpareOfRest(d: seq<digit>)
    requires |d| >= 4
    ensures Spare(d) == Spare(d[4..])
  {
    assert |d[4..]| % 4 == |d| % 4;
  }

  lemma {:induction false} CharsOfDigits(s: string)
    requires Digits(s).Some?
    ensures Chars(Digits(s).value) == s
  {
    if |s| > 0 {
      CharsOfDigits(s[1..]);
      assert Chars(Digits(s).value)[1..] == Chars(Digits(s[1..]).value);
    }
  }

  /** Encoding after decoding gives the text back exactly when it has no line breaks and its
      spare bits are zero: Go's decoder accepts more than one text for the same bytes. */
  lemma EncodeDecode(s: string)
    requires Decode(s).Some?
    ensures Encode(Decode(s).value) == s <==> WithoutBreaks(s) == s && Spare(Digits(WithoutBreaks(s)).value) == 0
  {
    var d := Digits(WithoutBreaks(s)).value;
    DigitsOfBytes(d);
    EncodeIsChars(Decode(s).value);
    CharsOfDigits(WithoutBreaks(s));
    CharsHaveDigits(DigitsOf(Decode(s).value));
    if Encode(Decode(s).value) == s { assert Digits(s) == Some(DigitsOf(Decode(s).value)); }
  }
}
