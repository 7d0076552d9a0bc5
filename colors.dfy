/** Colour strings of the settings form: the `#RRGGBB` validator, the decoder
    of a valid colour into its red, green and blue channels, and the encoder
    that writes channels back as such a colour. */
module Colors {

  /** One character of the class `[a-fA-F0-9]`. */
  predicate IsHexDigit(c: char) {
    '0' <= c <= '9' || 'a' <= c <= 'f' || 'A' <= c <= 'F'
  }

  /** The value of one hexadecimal digit, either case. */
  function DigitValue(c: char): (v: nat)
    requires IsHexDigit(c)
    ensures v < 16
  {
    if '0' <= c <= '9' then c as int - '0' as int
    else if 'a' <= c <= 'f' then c as int - 'a' as int + 10
    else c as int - 'A' as int + 10
  }

  /** The pattern `[a-fA-F0-9]{n}$`, anchored at the start of `s`:
      `s` is exactly `n` hexadecimal digits. */
  function MatchHexRun(s: string, n: nat): (b: bool)
    ensures b <==> |s| == n && forall i :: 0 <= i < |s| ==> IsHexDigit(s[i])
  {
    if n == 0 then s == []
    else s != [] && IsHexDigit(s[0]) && MatchHexRun(s[1..], n - 1)
  }

  /** `isValidHexColor`: the whole string matches `^#[a-fA-F0-9]{6}$`
      (no multiline flag, so `$` is the end of the input). */
  function IsValidHexColor(s: string): (b: bool)
    ensures b <==> |s| == 7 && s[0] == '#' && forall i :: 1 <= i < 7 ==> IsHexDigit(s[i])
  {
    |s| > 0 && s[0] == '#' && MatchHexRun(s[1..], 6)
  }

  /** Any other length, any other first character, or any character outside
      the hex class in the six positions after `#` is rejected. */
  lemma ValidHexColorRejects(s: string)
    ensures |s| != 7 ==> !IsValidHexColor(s)
    ensures |s| > 0 && s[0] != '#' ==> !IsValidHexColor(s)
    ensures forall i :: 1 <= i < |s| && !IsHexDigit(s[i]) ==> !IsValidHexColor(s)
  {
  }

  function Pow16(n: nat): (p: nat)
    ensures p >= 1
  {
    if n == 0 then 1 else 16 * Pow16(n - 1)
  }

  /** The number a string of hexadecimal digits denotes, read most
      significant digit first: what `Number('0x' + digits)` yields. */
  function HexValue(s: string): (v: nat)
    requires forall i :: 0 <= i < |s| ==> IsHexDigit(s[i])
    ensures v < Pow16(|s|)
  {
    if s == [] then 0
    else 16 * HexValue(s[..|s| - 1]) + DigitValue(s[|s| - 1])
  }

  /** The byte written by the two digits `hi lo`. */
  function ByteValue(hi: char, lo: char): (v: nat)
    requires IsHexDigit(hi) && IsHexDigit(lo)
    ensures v < 256
  {
    16 * DigitValue(hi) + DigitValue(lo)
  }

  /** Six digits denote the three bytes they spell, weighted 2^16, 2^8, 1. */
  lemma {:induction false} HexValueSix(t: string)
    requires |t| == 6 && forall i :: 0 <= i < 6 ==> IsHexDigit(t[i])
    ensures HexValue(t) == ByteValue(t[0], t[1]) * 0x10000 + ByteValue(t[2], t[3]) * 0x100 + ByteValue(t[4], t[5])
  {
    assert t[..5][..4] == t[..4];
    assert t[..4][..3] == t[..3];
    assert t[..3][..2] == t[..2];
    assert t[..2][..1] == t[..1];
    assert t[..1][..0] == [];
    assert HexValue(t[..1]) == DigitValue(t[0]);
    assert HexValue(t[..2]) == ByteValue(t[0], t[1]);
    assert HexValue(t[..4]) == ByteValue(t[0], t[1]) * 0x100 + ByteValue(t[2], t[3]);
    assert HexValue(t) == HexValue(t[..4]) * 0x100 + ByteValue(t[4], t[5]);
  }

  function Pow2(k: nat): (p: nat)
    ensures p >= 1
  {
    if k == 0 then 1 else 2 * Pow2(k - 1)
  }

  /** `x >> k` on a non-negative 32-bit value: floor division by 2^k. */
  function ShiftRight(x: nat, k: nat): int {
    x / Pow2(k)
  }

  /** `x & 255`: its low eight bits (Dafny's `%` is never negative). */
  function LowByte(x: int): nat {
    x % 256
  }

  /** `hexToRGB`: the channels of a valid colour. The 24-bit value
      `'0x' + s.substring(1)` fits in 32 bits, so the shifts and masks act on
      a non-negative integer. */
  function HexToRGB(s: string): (rgb: seq<nat>)
    requires IsValidHexColor(s)
    ensures |rgb| == 3
    ensures rgb[0] == ByteValue(s[1], s[2])
    ensures rgb[1] == ByteValue(s[3], s[4])
    ensures rgb[2] == ByteValue(s[5], s[6])
    ensures forall i :: 0 <= i < 3 ==> rgb[i] <= 255
  {
    var hexVal := HexValue(s[1..]);
    HexToRGBChannels(s, hexVal);
    [LowByte(ShiftRight(hexVal, 16)), LowByte(ShiftRight(hexVal, 8)), LowByte(hexVal)]
  }

  lemma HexToRGBChannels(s: string, hexVal: nat)
    requires IsValidHexColor(s) && hexVal == HexValue(s[1..])
    ensures LowByte(ShiftRight(hexVal, 16)) == ByteValue(s[1], s[2])
    ensures LowByte(ShiftRight(hexVal, 8)) == ByteValue(s[3], s[4])
    ensures LowByte(hexVal) == ByteValue(s[5], s[6])
  {
    HexValueSix(s[1..]);
    assert Pow2(8) == 0x100;
    assert Pow2(16) == 0x10000;
    SplitBytes(ByteValue(s[1], s[2]), ByteValue(s[3], s[4]), ByteValue(s[5], s[6]));
  }

  /** Shifting and masking a 24-bit value recovers each of its bytes. */
  lemma SplitBytes(r: nat, g: nat, b: nat)
    requires r < 256 && g < 256 && b < 256
    ensures (r * 0x10000 + g * 0x100 + b) / 0x10000 % 256 == r
    ensures (r * 0x10000 + g * 0x100 + b) / 0x100 % 256 == g
    ensures (r * 0x10000 + g * 0x100 + b) % 256 == b
  {
  }

  /** The lower-case digit for a value below 16. */
  function HexChar(d: nat): (c: char)
    requires d < 16
    ensures IsHexDigit(c) && DigitValue(c) == d
  {
    "0123456789abcdef"[d]
  }

  /** `#rrggbb` for three channel values, the format the settings form asks for. */
  function RGBToHex(r: nat, g: nat, b: nat): (s: string)
    requires r < 256 && g < 256 && b < 256
    ensures IsValidHexColor(s)
  {
    ['#', HexChar(r / 16), HexChar(r % 16), HexChar(g / 16), HexChar(g % 16), HexChar(b / 16), HexChar(b % 16)]
  }

  /** The two digits written for a channel denote that channel. */
  lemma ByteOfHexChars(v: nat)
    requires v < 256
    ensures ByteValue(HexChar(v / 16), HexChar(v % 16)) == v
  {
  }

  /** Decoding undoes encoding: every channel triple survives the round trip. */
  lemma DecodeEncode(r: nat, g: nat, b: nat)
    requires r < 256 && g < 256 && b < 256
    ensures HexToRGB(RGBToHex(r, g, b)) == [r, g, b]
  {
    var s := RGBToHex(r, g, b);
    var rgb := HexToRGB(s);
    ByteOfHexChars(r);
    ByteOfHexChars(g);
    ByteOfHexChars(b);
    assert rgb[0] == r && rgb[1] == g && rgb[2] == b;
  }

  /** Encoding the decoded channels gives back the colour, up to the case of its letters. */
  lemma EncodeDecode(s: string)
    requires IsValidHexColor(s)
    ensures var t := RGBToHex(HexToRGB(s)[0], HexToRGB(s)[1], HexToRGB(s)[2]);
      forall i :: 1 <= i < 7 ==> DigitValue(t[i]) == DigitValue(s[i])
  {
    var rgb := HexToRGB(s);
    var t := RGBToHex(rgb[0], rgb[1], rgb[2]);
    assert rgb[0] / 16 == DigitValue(s[1]) && rgb[0] % 16 == DigitValue(s[2]);
    assert rgb[1] / 16 == DigitValue(s[3]) && rgb[1] % 16 == DigitValue(s[4]);
    assert rgb[2] / 16 == DigitValue(s[5]) && rgb[2] % 16 == DigitValue(s[6]);
  }

  /** Sample colours decoded: an orange and black. */
  lemma HexToRGBExamples()
    ensures HexToRGB("#ff8000") == [255, 128, 0]
    ensures HexToRGB("#000000") == [0, 0, 0]
  {
  }

  /** White decodes the same in either letter case. */
  lemma HexToRGBLetterCase()
    ensures HexToRGB("#ffffff") == [255, 255, 255]
    ensures HexToRGB("#FFfFff") == [255, 255, 255]
  {
  }
}
