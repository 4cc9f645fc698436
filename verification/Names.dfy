/** Process names: Rust strings, kept as their bytes. */
module Names {
  import opened Words

  // UTF-8, as Rust checks it (table 3-7 of the Unicode Standard)

  predicate Continues(b: byte) {
    0x80 <= b <= 0xBF
  }

  /** The second byte of a character of three or four. */
  predicate ContinuesAfter(a: byte, b: byte) {
    && Continues(b)
    && (a == 0xE0 ==> b >= 0xA0) && (a == 0xED ==> b <= 0x9F)
    && (a == 0xF0 ==> b >= 0x90) && (a == 0xF4 ==> b <= 0x8F)
  }

  /** The length of the character `s` begins with; 0 when it begins with none. */
  function CharLength(s: seq<byte>): (n: nat)
    ensures n <= |s|
  {
    if s == [] then 0
    else if s[0] < 0x80 then 1
    else if 0xC2 <= s[0] <= 0xDF then (if |s| >= 2 && Continues(s[1]) then 2 else 0)
    else if 0xE0 <= s[0] <= 0xEF then (if |s| >= 3 && ContinuesAfter(s[0], s[1]) && Continues(s[2]) then 3 else 0)
    else if 0xF0 <= s[0] <= 0xF4 then
      (if |s| >= 4 && ContinuesAfter(s[0], s[1]) && Continues(s[2]) && Continues(s[3]) then 4 else 0)
    else 0
  }

  predicate Utf8(s: seq<byte>) {
    s == [] || (CharLength(s) > 0 && Utf8(s[CharLength(s)..]))
  }

  // The same from the other side: characters, encoded

  predicate Scalar(c: nat) {
    c < 0xD800 || 0xE000 <= c < 0x11_0000
  }

  /** `char::encode_utf8` */
  function EncodeChar(c: nat): seq<byte>
    requires Scalar(c)
  {
    if c < 0x80 then [c]
    else if c < 0x800 then [0xC0 + c / 64, 0x80 + c % 64]
    else if c < 0x1_0000 then [0xE0 + c / 64 / 64, 0x80 + c / 64 % 64, 0x80 + c % 64]
    else [0xF0 + c / 64 / 64 / 64, 0x80 + c / 64 / 64 % 64, 0x80 + c / 64 % 64, 0x80 + c % 64]
  }

  ghost predicate Scalars(text: seq<nat>) {
    forall i :: 0 <= i < |text| ==> Scalar(text[i])
  }

  function EncodeText(text: seq<nat>): seq<byte>
    requires Scalars(text)
  {
    if text == [] then [] else EncodeChar(text[0]) + EncodeText(text[1..])
  }

  lemma EncodedLength(c: nat, rest: seq<byte>)
    requires Scalar(c)
    ensures CharLength(EncodeChar(c) + rest) == |EncodeChar(c)|
  {
    var s := EncodeChar(c) + rest;
    assert forall i :: 0 <= i < |EncodeChar(c)| ==> s[i] == EncodeChar(c)[i];
  }

  lemma SixBits(a: nat, b: nat)
    requires b < 64
    ensures (a * 64 + b) / 64 == a && (a * 64 + b) % 64 == b
  {
  }

  lemma DecodeTwo(s: seq<byte>) returns (c: nat)
    requires CharLength(s) == 2
    ensures Scalar(c) && s[..2] == EncodeChar(c)
  {
    var a: nat, b: nat := s[0] - 0xC0, s[1] - 0x80;
    SixBits(a, b);
    c := a * 64 + b;
  }

  lemma DecodeThree(s: seq<byte>) returns (c: nat)
    requires CharLength(s) == 3
    ensures Scalar(c) && s[..3] == EncodeChar(c)
  {
    var a: nat, b: nat, d: nat := s[0] - 0xE0, s[1] - 0x80, s[2] - 0x80;
    SixBits(a, b);
    SixBits(a * 64 + b, d);
    c := (a * 64 + b) * 64 + d;
  }

  lemma DecodeFour(s: seq<byte>) returns (c: nat)
    requires CharLength(s) == 4
    ensures Scalar(c) && s[..4] == EncodeChar(c)
  {
    var a: nat, b: nat, d: nat, e: nat := s[0] - 0xF0, s[1] - 0x80, s[2] - 0x80, s[3] - 0x80;
    SixBits(a, b);
    SixBits(a * 64 + b, d);
    SixBits((a * 64 + b) * 64 + d, e);
    c := ((a * 64 + b) * 64 + d) * 64 + e;
  }

  lemma DecodeChar(s: seq<byte>) returns (c: nat)
    requires CharLength(s) > 0
    ensures Scalar(c) && s[..CharLength(s)] == EncodeChar(c)
  {
    if CharLength(s) == 1 {
      c := s[0];
    } else if CharLength(s) == 2 {
      c := DecodeTwo(s);
    } else if CharLength(s) == 3 {
      c := DecodeThree(s);
    } else {
      c := DecodeFour(s);
    }
  }

  /** Exactly the encodings of text pass the check. */
  lemma Utf8Exact(s: seq<byte>)
    ensures Utf8(s) <==> exists text :: Scalars(text) && s == EncodeText(text)
  {
    if Utf8(s) {
      var text := DecodeText(s);
    }
    forall text | Scalars(text) && s == EncodeText(text) ensures Utf8(s) {
      EncodedIsUtf8(text);
    }
  }

  lemma {:induction false} EncodedIsUtf8(text: seq<nat>)
    requires Scalars(text)
    ensures Utf8(EncodeText(text))
  {
    if text != [] {
      EncodedIsUtf8(text[1..]);
      EncodedLength(text[0], EncodeText(text[1..]));
      assert EncodeText(text)[|EncodeChar(text[0])|..] == EncodeText(text[1..]);
    }
  }

  lemma {:induction false} DecodeText(s: seq<byte>) returns (text: seq<nat>)
    requires Utf8(s)
    ensures Scalars(text) && s == EncodeText(text)
  {
    text := [];
    if s != [] {
      var n := CharLength(s);
      var c := DecodeChar(s);
      var rest := DecodeText(s[n..]);
      text := [c] + rest;
      assert text[1..] == rest && s == s[..n] + s[n..];
    }
  }

  type Name = s: Vec<byte> | Utf8(s) witness []

  // Lower case

  function LowerByte(b: byte): byte {
    if 'A' as int <= b <= 'Z' as int then b + 32 else b
  }

  function LowerBytes(s: seq<byte>): (r: seq<byte>)
    ensures |r| == |s|
    ensures forall i :: 0 <= i < |s| ==> r[i] == LowerByte(s[i])
  {
    seq(|s|, i requires 0 <= i < |s| => LowerByte(s[i]))
  }

  /** Upper-case letters become the lower-case ones of the same place in the alphabet; nothing else changes. */
  lemma LowerMeans(b: byte)
    ensures if 'A' as int <= b <= 'Z' as int then LowerByte(b) - 'a' as int == b - 'A' as int else LowerByte(b) == b
  {
  }

  lemma {:induction false} LowerKeepsUtf8(s: seq<byte>)
    requires Utf8(s)
    ensures Utf8(LowerBytes(s))
  {
    if s != [] {
      var n := CharLength(s);
      assert CharLength(LowerBytes(s)) == n;
      LowerKeepsUtf8(s[n..]);
      assert LowerBytes(s)[n..] == LowerBytes(s[n..]);
    }
  }

  /** `str::make_ascii_lowercase` */
  function Lower(s: Name): (r: Name)
    ensures |r| == |s|
    ensures forall i :: 0 <= i < |s| ==> r[i] == LowerByte(s[i])
  {
    LowerKeepsUtf8(s);
    LowerBytes(s)
  }
}
