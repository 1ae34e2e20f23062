/** The two releases of the content script and what differs between them. */
module Versions {

  /** `content.js` is release 1.3 of the script, `volatility.js` is
      release 1.8. */
  datatype Version = V1_3 | V1_8

  /** The text shown for an infinite L/S ratio. */
  function InfinityToken(v: Version): string {
    match v
    case V1_3 => "âˆž"
    case V1_8 => "∞"
  }

  /** The number of rows one metrics pass appends: five value rows, and in
      release 1.8 the equation row after them. */
  function InjectedRowCount(v: Version): nat {
    match v
    case V1_3 => 5
    case V1_8 => 6
  }

  // ---------------------------------------------------------------------
  // Where the release 1.3 token comes from

  /** The three UTF-8 bytes of a code point in U+0800..U+FFFF. */
  function Utf8Bytes3(c: char): (bs: seq<nat>)
    requires 0x800 <= c as int < 0x10000
    ensures |bs| == 3 && 0xE0 <= bs[0] < 0xF0 && 0x80 <= bs[1] < 0xC0 && 0x80 <= bs[2] < 0xC0
    ensures (bs[0] - 0xE0) * 4096 + (bs[1] - 0x80) * 64 + (bs[2] - 0x80) == c as int
  {
    var n := c as int;
    [0xE0 + n / 4096, 0x80 + (n / 64) % 64, 0x80 + n % 64]
  }

  /** The Windows-1252 characters of the bytes 0x80..0x9F; the five bytes
      the code page leaves unassigned decode to the C1 control of the same
      number, as browsers decode them. */
  const Cp1252High: seq<char> := [
    '\U{20AC}', '\U{81}', '\U{201A}', '\U{192}', '\U{201E}', '\U{2026}', '\U{2020}', '\U{2021}',
    '\U{2C6}', '\U{2030}', '\U{160}', '\U{2039}', '\U{152}', '\U{8D}', '\U{17D}', '\U{8F}',
    '\U{90}', '\U{2018}', '\U{2019}', '\U{201C}', '\U{201D}', '\U{2022}', '\U{2013}', '\U{2014}',
    '\U{2DC}', '\U{2122}', '\U{161}', '\U{203A}', '\U{153}', '\U{9D}', '\U{17E}', '\U{178}']

  /** One byte read as Windows-1252: outside 0x80..0x9F the byte is the
      Latin-1 character of the same number. */
  function Cp1252(b: nat): char
    requires b < 0x100
  {
    if 0x80 <= b < 0xA0 then Cp1252High[b - 0x80] else b as char
  }

  function Cp1252Text(bs: seq<nat>): (s: string)
    requires forall i :: 0 <= i < |bs| ==> bs[i] < 0x100
    ensures |s| == |bs|
  {
    seq(|bs|, i requires 0 <= i < |bs| => Cp1252(bs[i]))
  }

  /** The release 1.3 token is the infinity sign of release 1.8 encoded as
      UTF-8 and decoded as Windows-1252: the script file was saved in one
      encoding and read in the other. */
  lemma InfinityMojibake()
    ensures InfinityToken(V1_3) == Cp1252Text(Utf8Bytes3(InfinityToken(V1_8)[0]))
    ensures |InfinityToken(V1_8)| == 1 && |InfinityToken(V1_3)| == 3
  {
    var bs := Utf8Bytes3('∞');
    assert bs == [0xE2, 0x88, 0x9E];
    assert Cp1252Text(bs) == [Cp1252(0xE2), Cp1252(0x88), Cp1252(0x9E)];
  }
}
