/** Lower-case hexadecimal text of a digest, as `fmt.Sprintf("%x", ...)` prints it. */
module HexText {
  import opened Bytes

  function HexDigit(nibble: byte): byte {
    if nibble < 10 then nibble + 0x30 else nibble + 0x57
  }

  function HighDigit(b: byte): byte {
    HexDigit(b >> 4)
  }

  function LowDigit(b: byte): byte {
    HexDigit(b & 0x0f)
  }

  function Hex(d: Bytes): (r: Bytes)
    ensures |r| == 2 * |d|
  {
    seq(2 * |d|, i requires 0 <= i < 2 * |d| => if i % 2 == 0 then HighDigit(d[i / 2]) else LowDigit(d[i / 2]))
  }

  lemma HexByteInjective(a: byte, b: byte)
    requires HighDigit(a) == HighDigit(b) && LowDigit(a) == LowDigit(b)
    ensures a == b
  {
  }

  lemma HexInjective(d: Bytes, e: Bytes)
    requires Hex(d) == Hex(e)
    ensures d == e
  {
    assert |Hex(d)| == 2 * |d| && |Hex(e)| == 2 * |e|;
    forall i | 0 <= i < |d|
      ensures d[i] == e[i]
    {
      assert Hex(d)[2 * i] == HighDigit(d[i]) && Hex(e)[2 * i] == HighDigit(e[i]);
      assert Hex(d)[2 * i + 1] == LowDigit(d[i]) && Hex(e)[2 * i + 1] == LowDigit(e[i]);
      HexByteInjective(d[i], e[i]);
    }
  }

  /** No character of the text is above `f`. */
  lemma HexAlphabet(d: Bytes, i: nat)
    requires i < |Hex(d)|
    ensures Hex(d)[i] <= 0x66
  {
  }

  /** The bytes of "0123456789abcdef". */
  const DIGITS: Bytes :=
    [0x30, 0x31, 0x32, 0x33, 0x34, 0x35, 0x36, 0x37, 0x38, 0x39, 0x61, 0x62, 0x63, 0x64, 0x65, 0x66]

  lemma DigitOf(nibble: byte)
    requires nibble < 16
    ensures HexDigit(nibble) == DIGITS[nibble as int]
  {
    if nibble < 4 {
      assert nibble == 0 || nibble == 1 || nibble == 2 || nibble == 3;
    } else if nibble < 8 {
      assert nibble == 4 || nibble == 5 || nibble == 6 || nibble == 7;
    } else if nibble < 12 {
      assert nibble == 8 || nibble == 9 || nibble == 10 || nibble == 11;
    } else {
      assert nibble == 12 || nibble == 13 || nibble == 14 || nibble == 15;
    }
  }

  /** Each byte in turn as two lower-case digits, the high one first. */
  lemma HexDigits(d: Bytes, i: nat)
    requires i < |d|
    ensures Hex(d)[2 * i] == DIGITS[(d[i] >> 4) as int] && Hex(d)[2 * i + 1] == DIGITS[(d[i] & 0x0f) as int]
  {
    DigitOf(d[i] >> 4);
    DigitOf(d[i] & 0x0f);
  }
}
