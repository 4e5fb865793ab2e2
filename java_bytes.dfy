/**
 * Java's primitive integer semantics as the codecs rely on them: the signed
 * 8-bit `byte`, the narrowing cast `(byte) v`, the unsigned view `b & 0xFF`,
 * 32-bit `int` wrap-around, and the one-byte-per-char string conversions.
 */
module JavaBytes {
  /** A Java `byte`: a two's-complement value in -128..127. */
  newtype int8 = x: int | -128 <= x < 128

  const TWO_8: int := 0x100
  const TWO_16: int := 0x1_0000
  const TWO_31: int := 0x8000_0000
  const TWO_32: int := 0x1_0000_0000

  /** `(byte) v`: keeps the low 8 bits of `v`, read as a signed value. */
  function ToByte(v: int): (b: int8)
    ensures (b as int - v) % TWO_8 == 0
  {
    ((v + 128) % TWO_8 - 128) as int8
  }

  /** `b & 0xFF` (byte2int): the unsigned value of a byte. */
  function Byte2Int(b: int8): (r: int)
    ensures 0 <= r < TWO_8
    ensures b >= 0 ==> r == b as int
    ensures b < 0 ==> r == b as int + TWO_8
  {
    if b < 0 then b as int + TWO_8 else b as int
  }

  /** The narrowing cast undoes the unsigned view, and the unsigned view of a cast is the value modulo 256. */
  lemma {:induction false} ByteRoundTrip(b: int8, v: int)
    ensures ToByte(Byte2Int(b)) == b
    ensures Byte2Int(ToByte(v)) == v % TWO_8
  {
  }

  /** A value 0..255 read back through the narrowing cast is itself. */
  lemma {:induction false} SmallByte(v: int)
    requires 0 <= v < TWO_8
    ensures Byte2Int(ToByte(v)) == v
  {
  }

  /** The high and low nibbles of `h * 16 + l`. */
  lemma {:induction false} Nibbles(h: int, l: int)
    requires 0 <= h < 16 && 0 <= l < 16
    ensures (h * 16 + l) / 16 == h && (h * 16 + l) % 16 == l
  {
  }

  /** The byte whose eight bits are `x`. */
  function FromBits8(x: bv8): int8
  {
    ToByte(x as int)
  }

  /** `(int) v` for a value computed in `long` or unbounded arithmetic: the low 32 bits, signed. */
  function ToInt32(v: int): (r: int)
    ensures -TWO_31 <= r < TWO_31
    ensures (r - v) % TWO_32 == 0
  {
    (v + TWO_31) % TWO_32 - TWO_31
  }

  /** A byte as a `char` of a `new String(bytes)` under a one-byte charset. */
  function ByteToChar(b: int8): char
  {
    Byte2Int(b) as char
  }

  /** `(byte) c` for a char: the low 8 bits of its code. */
  function CharToByte(c: char): int8
  {
    ToByte(c as int)
  }

  /** `new String(bytes)`: one char per byte. */
  function Latin1(bs: seq<int8>): (s: string)
    ensures |s| == |bs|
    ensures forall i :: 0 <= i < |bs| ==> s[i] == ByteToChar(bs[i])
  {
    seq(|bs|, i requires 0 <= i < |bs| => ByteToChar(bs[i]))
  }

  /** The bytes a string's chars narrow to. */
  function AsciiBytes(s: string): (bs: seq<int8>)
    ensures |bs| == |s|
    ensures forall i :: 0 <= i < |s| ==> bs[i] == CharToByte(s[i])
  {
    seq(|s|, i requires 0 <= i < |s| => CharToByte(s[i]))
  }

  /** Chars below 256 survive a trip through bytes. */
  lemma {:induction false} Latin1AsciiRoundTrip(s: string)
    requires forall i :: 0 <= i < |s| ==> s[i] as int < TWO_8
    ensures Latin1(AsciiBytes(s)) == s
  {
    var r := Latin1(AsciiBytes(s));
    forall i | 0 <= i < |s|
      ensures r[i] == s[i]
    {
      assert Byte2Int(ToByte(s[i] as int)) == s[i] as int;
    }
  }
}
