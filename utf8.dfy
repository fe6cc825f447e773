/**
 * UTF-8 as Rust's `String::from_utf8` understands it (RFC 3629): the
 * shortest encoding of each Unicode scalar value, no surrogates, nothing
 * above U+10FFFF. Rocket's `Body::into_string` and the conversion of a
 * request body to bytes rely on it.
 */
module Utf8 {
  import opened Wrappers

  newtype byte = b: int | 0 <= b < 0x100

  predicate IsContinuation(b: byte) {
    0x80 <= b < 0xC0
  }

  /** Bytes of `c`, shortest form. */
  function EncodeChar(c: char): (r: seq<byte>)
    ensures 1 <= |r| <= 4
  {
    var cp := c as int;
    if cp < 0x80 then
      [cp as byte]
    else if cp < 0x800 then
      [(0xC0 + cp / 64) as byte, (0x80 + cp % 64) as byte]
    else if cp < 0x10000 then
      [(0xE0 + cp / 4096) as byte, (0x80 + (cp / 64) % 64) as byte, (0x80 + cp % 64) as byte]
    else
      [(0xF0 + cp / 262144) as byte, (0x80 + (cp / 4096) % 64) as byte,
       (0x80 + (cp / 64) % 64) as byte, (0x80 + cp % 64) as byte]
  }

  /** The UTF-8 encoding of a string: one to four bytes per character, and ASCII text byte for byte. */
  function Encode(s: string): (r: seq<byte>)
    ensures |s| <= |r| <= 4 * |s|
    ensures (forall i :: 0 <= i < |s| ==> s[i] as int < 0x80) ==>
              |r| == |s| && forall i :: 0 <= i < |s| ==> r[i] as int == s[i] as int
    decreases |s|
  {
    if s == [] then []
    else
      var head := EncodeChar(s[0]);
      var tail := Encode(s[1..]);
      assert forall i :: 1 <= i < |s| ==> s[1..][i - 1] == s[i];
      assert forall i :: |head| <= i < |head| + |tail| ==> (head + tail)[i] == tail[i - |head|];
      head + tail
  }

  /**
   * The scalar value that the well-formed sequence at the head of `b`
   * encodes, with the number of bytes it takes; `None` when the head is
   * not well formed (a stray continuation byte, an overlong form, a
   * surrogate, a value above U+10FFFF, a truncated sequence).
   */
  function DecodeFirst(b: seq<byte>): (r: Option<(char, nat)>)
    requires |b| > 0
    ensures r.Some? ==> 1 <= r.value.1 <= |b|
  {
    var b0 := b[0] as int;
    if b0 < 0x80 then
      Some((b0 as char, 1))
    else if 0xC2 <= b0 <= 0xDF then
      if |b| >= 2 && IsContinuation(b[1]) then
        Some((((b0 - 0xC0) * 64 + (b[1] as int - 0x80)) as char, 2))
      else None
    else if 0xE0 <= b0 <= 0xEF then
      if |b| >= 3 && IsContinuation(b[1]) && IsContinuation(b[2])
         && (b0 == 0xE0 ==> b[1] >= 0xA0) && (b0 == 0xED ==> b[1] < 0xA0) then
        Some((((b0 - 0xE0) * 4096 + (b[1] as int - 0x80) * 64 + (b[2] as int - 0x80)) as char, 3))
      else None
    else if 0xF0 <= b0 <= 0xF4 then
      if |b| >= 4 && IsContinuation(b[1]) && IsContinuation(b[2]) && IsContinuation(b[3])
         && (b0 == 0xF0 ==> b[1] >= 0x90) && (b0 == 0xF4 ==> b[1] < 0x90) then
        Some((((b0 - 0xF0) * 262144 + (b[1] as int - 0x80) * 4096
               + (b[2] as int - 0x80) * 64 + (b[3] as int - 0x80)) as char, 4))
      else None
    else None
  }

  /**
   * `String::from_utf8(b).ok()`: the text `b` encodes, or `None` when `b` is
   * not UTF-8. A text has at most as many characters as its encoding has
   * bytes, and ASCII bytes always decode, one character each.
   */
  function Decode(b: seq<byte>): (r: Option<string>)
    ensures r.Some? ==> |r.value| <= |b|
    ensures (forall i :: 0 <= i < |b| ==> b[i] < 0x80) ==>
              r.Some? && |r.value| == |b| && forall i :: 0 <= i < |b| ==> r.value[i] as int == b[i] as int
    decreases |b|
  {
    if b == [] then Some([])
    else
      assert forall i :: 1 <= i < |b| ==> b[1..][i - 1] == b[i];
      match DecodeFirst(b)
      case None => None
      case Some((c, n)) =>
        match Decode(b[n..])
        case None => None
        case Some(rest) => Some([c] + rest)
  }

  /** Decoding the head of an encoded character gives the character back. */
  lemma DecodeFirstEncodeChar(c: char, rest: seq<byte>)
    ensures DecodeFirst(EncodeChar(c) + rest) == Some((c, |EncodeChar(c)|))
  {
    var cp := c as int;
    var b := EncodeChar(c) + rest;
    if cp < 0x80 {
    } else if cp < 0x800 {
      assert cp == 64 * (cp / 64) + cp % 64;
    } else if cp < 0x10000 {
      var q := cp / 64;
      assert cp == 64 * q + cp % 64;
      assert q == 64 * (q / 64) + q % 64;
      assert cp / 4096 == q / 64;
    } else {
      var q := cp / 64;
      var q2 := q / 64;
      assert cp == 64 * q + cp % 64;
      assert q == 64 * q2 + q % 64;
      assert q2 == 64 * (q2 / 64) + q2 % 64;
      assert cp / 4096 == q2;
      assert cp / 262144 == q2 / 64;
    }
  }

  /** Every string decodes back from its encoding. */
  lemma {:induction false} DecodeEncode(s: string)
    ensures Decode(Encode(s)) == Some(s)
    decreases |s|
  {
    if s != [] {
      var e := EncodeChar(s[0]);
      DecodeFirstEncodeChar(s[0], Encode(s[1..]));
      assert (e + Encode(s[1..]))[|e|..] == Encode(s[1..]);
      DecodeEncode(s[1..]);
      assert [s[0]] + s[1..] == s;
    }
  }

  /** A well-formed head is re-encoded to exactly the bytes it was decoded from. */
  lemma EncodeCharDecodeFirst(b: seq<byte>)
    requires |b| > 0 && DecodeFirst(b).Some?
    ensures EncodeChar(DecodeFirst(b).value.0) == b[..DecodeFirst(b).value.1]
  {
    var b0 := b[0] as int;
    var c := DecodeFirst(b).value.0;
    var cp := c as int;
    if b0 < 0x80 {
    } else if b0 <= 0xDF {
      var d1 := b[1] as int - 0x80;
      assert cp == 64 * (b0 - 0xC0) + d1;
      assert cp / 64 == b0 - 0xC0 && cp % 64 == d1;
    } else if b0 <= 0xEF {
      var d1, d2 := b[1] as int - 0x80, b[2] as int - 0x80;
      var q := 64 * (b0 - 0xE0) + d1;
      assert cp == 64 * q + d2;
      assert cp / 64 == q && cp % 64 == d2;
      assert q / 64 == b0 - 0xE0 && q % 64 == d1;
      assert cp / 4096 == q / 64;
    } else {
      var d1, d2, d3 := b[1] as int - 0x80, b[2] as int - 0x80, b[3] as int - 0x80;
      var q2 := 64 * (b0 - 0xF0) + d1;
      var q := 64 * q2 + d2;
      assert cp == 64 * q + d3;
      assert cp / 64 == q && cp % 64 == d3;
      assert q / 64 == q2 && q % 64 == d2;
      assert q2 / 64 == b0 - 0xF0 && q2 % 64 == d1;
      assert cp / 4096 == q2;
      assert cp / 262144 == q2 / 64;
    }
  }

  /** Decoding loses nothing: a decoded text re-encodes to the original bytes. */
  lemma {:induction false} EncodeDecode(b: seq<byte>)
    requires Decode(b).Some?
    ensures Encode(Decode(b).value) == b
    decreases |b|
  {
    if b != [] {
      var n := DecodeFirst(b).value.1;
      EncodeCharDecodeFirst(b);
      EncodeDecode(b[n..]);
      var s := Decode(b).value;
      assert s[1..] == Decode(b[n..]).value;
      assert b[..n] + b[n..] == b;
    }
  }

  /** `b` decodes exactly when it is the encoding of some text, and then to that text. */
  lemma DecodeIffEncoding(b: seq<byte>)
    ensures Decode(b).Some? <==> exists s :: Encode(s) == b
    ensures forall s :: Encode(s) == b ==> Decode(b) == Some(s)
  {
    if Decode(b).Some? {
      EncodeDecode(b);
    }
    forall s | Encode(s) == b
      ensures Decode(b) == Some(s)
    {
      DecodeEncode(s);
    }
  }

  /** Distinct texts have distinct encodings. */
  lemma EncodeInjective(s: string, t: string)
    requires Encode(s) == Encode(t)
    ensures s == t
  {
    DecodeEncode(s);
    DecodeEncode(t);
  }
}
