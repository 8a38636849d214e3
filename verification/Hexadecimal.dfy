/** Hexadecimal text, and the digest reader `_raw_digest` of `medulla/connector_pack.py`.  Text stands for its
    UTF-8 bytes. */
module Hexadecimal {
  import opened Basics
  import opened ByteStrings
  import opened FramedDigests

  function HexDigit(d: nat): Byte
    requires d < 16
  {
    if d < 10 then 48 + d else 87 + d
  }

  /** `bytes.hex` */
  function Hex(data: Bytes): (r: Bytes)
    ensures |r| == 2 * |data|
  {
    if data == [] then [] else [HexDigit(data[0] / 16), HexDigit(data[0] % 16)] + Hex(data[1..])
  }

  /** The value of a digit of either case. */
  function HexValue(c: Byte): (r: Option<nat>)
    ensures r.Some? ==> r.value < 16
  {
    if 48 <= c <= 57 then Some(c - 48)
    else if 97 <= c <= 102 then Some(c - 87)
    else if 65 <= c <= 70 then Some(c - 55)
    else None
  }

  predicate IsSpace(c: Byte) { 9 <= c <= 13 || c == 32 }

  /** `bytes.fromhex` when `spaces`, which skips white space before a byte; otherwise `binascii.unhexlify`. */
  function Unhex(text: Bytes, spaces: bool): Option<Bytes>
  {
    if text == [] then Some([])
    else if spaces && IsSpace(text[0]) then Unhex(text[1..], spaces)
    else if |text| == 1 then None
    else
      var high, low, rest := HexValue(text[0]), HexValue(text[1]), Unhex(text[2..], spaces);
      if high.Some? && low.Some? && rest.Some? then Some([16 * high.value + low.value] + rest.value) else None
  }

  lemma HexDigits(d: nat)
    requires d < 16
    ensures HexDigit(d) == Ascii("0123456789abcdef")[d]
  {
    var digits := "0123456789abcdef";
    assert digits[d] as int == if d < 10 then 48 + d else 87 + d;
  }

  lemma HexValueDigit(d: nat)
    requires d < 16
    ensures HexValue(HexDigit(d)) == Some(d) && !IsSpace(HexDigit(d))
  {
  }

  lemma {:induction false} UnhexHex(data: Bytes, spaces: bool)
    ensures Unhex(Hex(data), spaces) == Some(data)
  {
    if data != [] {
      UnhexHex(data[1..], spaces);
      HexValueDigit(data[0] / 16);
      HexValueDigit(data[0] % 16);
      assert Hex(data)[2..] == Hex(data[1..]);
      assert 16 * (data[0] / 16) + data[0] % 16 == data[0];
      assert [data[0]] + data[1..] == data;
    }
  }

  function LowerByte(c: Byte): Byte { if 65 <= c <= 90 then c + 32 else c }

  function Lower(text: Bytes): (r: Bytes)
    ensures |r| == |text| && forall i :: 0 <= i < |r| ==> r[i] == LowerByte(text[i])
  {
    seq(|text|, i requires 0 <= i < |text| => LowerByte(text[i]))
  }

  lemma DigitIff(c: Byte, d: nat)
    requires d < 16
    ensures HexValue(c) == Some(d) <==> LowerByte(c) == HexDigit(d)
  {
  }

  /** Two characters stand for a byte exactly when they are its digits, in either case. */
  lemma PairIff(c: Byte, d: Byte, b: Byte)
    ensures HexValue(c).Some? && HexValue(d).Some? && 16 * HexValue(c).value + HexValue(d).value == b <==>
            LowerByte(c) == HexDigit(b / 16) && LowerByte(d) == HexDigit(b % 16)
  {
    DigitIff(c, b / 16);
    DigitIff(d, b % 16);
  }

  lemma LowerFirst(text: Bytes)
    requires |text| >= 2
    ensures Lower(text) == [LowerByte(text[0]), LowerByte(text[1])] + Lower(text[2..])
  {
  }

  lemma UnhexFirst(text: Bytes, data: Bytes)
    requires |text| >= 2 && data != []
    ensures Unhex(text, false) == Some(data) <==>
      && HexValue(text[0]).Some? && HexValue(text[1]).Some?
      && 16 * HexValue(text[0]).value + HexValue(text[1]).value == data[0]
      && Unhex(text[2..], false) == Some(data[1..])
  {
    assert data == [data[0]] + data[1..];
  }

  lemma SameTwo(text: Bytes, data: Bytes)
    requires |text| >= 2 && data != []
    ensures Lower(text) == Hex(data) <==>
      LowerByte(text[0]) == HexDigit(data[0] / 16) && LowerByte(text[1]) == HexDigit(data[0] % 16)
      && Lower(text[2..]) == Hex(data[1..])
  {
    LowerFirst(text);
    var x, y := [LowerByte(text[0]), LowerByte(text[1])], [HexDigit(data[0] / 16), HexDigit(data[0] % 16)];
    if Lower(text) == Hex(data) { SameSplit(x, Lower(text[2..]), y, Hex(data[1..])); }
    assert x == y <==> x[0] == y[0] && x[1] == y[1];
  }

  /** Text is read as `data` exactly when it is its hexadecimal text, in either case. */
  lemma {:induction false} UnhexIff(text: Bytes, data: Bytes)
    ensures Unhex(text, false) == Some(data) <==> Lower(text) == Hex(data)
    decreases |text|
  {
    if |text| >= 2 && data != [] {
      UnhexIff(text[2..], data[1..]);
      PairIff(text[0], text[1], data[0]);
      LowerFirst(text);
      UnhexFirst(text, data);
      assert Lower(text) == Hex(data) <==>
        LowerByte(text[0]) == HexDigit(data[0] / 16) && LowerByte(text[1]) == HexDigit(data[0] % 16)
        && Lower(text[2..]) == Hex(data[1..]) by { SameTwo(text, data); }
    }
  }

  /** `text.lower() == text`, as far as ASCII letters go; other text is no hexadecimal anyway. */
  predicate NoUpper(text: Bytes) { forall i :: 0 <= i < |text| ==> !(65 <= text[i] <= 90) }

  function RawDigest(text: Bytes): (r: Option<Digest>)
  {
    if |text| != 64 || !NoUpper(text) then None
    else
      var raw := Unhex(text, true);
      if raw.None? || |raw.value| != 32 then None else Some(raw.value)
  }

  /** Text of `n` lower-case characters that spells `n / 2` bytes is their hexadecimal text: there is no room for
      white space. */
  lemma {:induction false} NoRoomForSpaces(text: Bytes, data: Bytes)
    requires Unhex(text, true) == Some(data)
    ensures |text| >= 2 * |data|
    ensures |text| == 2 * |data| && NoUpper(text) ==> text == Hex(data)
  {
    if text != [] {
      if IsSpace(text[0]) {
        NoRoomForSpaces(text[1..], data);
      } else {
        NoRoomForSpaces(text[2..], data[1..]);
        var high, low := HexValue(text[0]).value, HexValue(text[1]).value;
        assert data[0] / 16 == high && data[0] % 16 == low;
        assert text == [text[0], text[1]] + text[2..];
      }
    }
  }

  lemma {:induction false} HexNoUpper(data: Bytes)
    ensures NoUpper(Hex(data))
  {
    if data != [] { HexNoUpper(data[1..]); }
  }

  /** The digest reader accepts exactly the 64 lower-case hexadecimal characters of 32 bytes, and returns those. */
  lemma RawDigestIff(text: Bytes, digest: Digest)
    ensures RawDigest(text) == Some(digest) <==> text == Hex(digest)
  {
    HexNoUpper(digest);
    UnhexHex(digest, true);
    if RawDigest(text) == Some(digest) { NoRoomForSpaces(text, digest); }
  }
}
