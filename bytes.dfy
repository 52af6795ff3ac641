/**
 Byte-level arithmetic of the packed bit field: where bit `n` lives (byte `n >> 3`,
 mask `1 << (7 - n % 8)`, most significant bit first), what the three in-place byte
 updates do to each bit of a byte, and how one byte is printed by `%02x` and `%08b`.
 A byte is a `bv8`, the Go `uint8`.
 */
module ByteOps {

  type byte = bv8

  /** The index of the byte that holds bit `n` (Go: `n >> 3`). */
  function ByteOf(n: nat): (i: nat)
    ensures 8 * i <= n < 8 * i + 8
  {
    n / 8
  }

  /** The position of bit `n` inside its byte, counted from the most significant
      bit (Go: `n - (n >> 3) << 3`). */
  function OffsetOf(n: nat): (p: nat)
    ensures p < 8
    ensures n == 8 * ByteOf(n) + p
  {
    n - 8 * ByteOf(n)
  }

  /** The mask that selects position `p` of a byte (Go: a `uint8` 1 shifted left by `7 - p`). */
  function Mask(p: nat): (m: byte)
    requires p < 8
    ensures m != 0 && m & (m - 1) == 0
  {
    (1 as byte) << (7 - p)
  }

  /** The eight masks: bit 0 of a byte is its most significant bit, bit 7 its least. */
  lemma MaskTable()
    ensures Mask(0) == 0x80 && Mask(1) == 0x40 && Mask(2) == 0x20 && Mask(3) == 0x10
    ensures Mask(4) == 0x08 && Mask(5) == 0x04 && Mask(6) == 0x02 && Mask(7) == 0x01
  {
  }

  /** Positions count from the most significant bit: position `p` is `0x80` shifted right by `p`. */
  lemma MaskFromTop(p: nat)
    requires p < 8
    ensures Mask(p) == 0x80 >> p
  {
  }

  /** Two positions of one byte select disjoint masks. */
  lemma MasksDisjoint(p: nat, q: nat)
    requires p < 8 && q < 8 && p != q
    ensures Mask(p) & Mask(q) == 0
  {
  }

  /** The three in-place updates of a byte at position `p`: `|=` sets it, `&^=` clears it,
      `^=` flips it, and every other position `q` keeps its value. */
  lemma MaskUpdates(b: byte, p: nat, q: nat)
    requires p < 8 && q < 8
    ensures ((b | Mask(p)) & Mask(q) != 0) == (p == q || b & Mask(q) != 0)
    ensures ((b & !Mask(p)) & Mask(q) != 0) == (p != q && b & Mask(q) != 0)
    ensures ((b ^ Mask(p)) & Mask(q) != 0) == ((p == q) != (b & Mask(q) != 0))
  {
  }

  /** The digits `%x` prints, lower case. */
  const HexDigits: string := "0123456789abcdef"

  predicate IsHexDigit(c: char) {
    '0' <= c <= '9' || 'a' <= c <= 'f'
  }

  /** The lower-case hexadecimal digit of a nibble. */
  function HexDigit(d: byte): (c: char)
    requires d < 16
    ensures IsHexDigit(c)
  {
    HexDigits[d as int]
  }

  /** The value of a lower-case hexadecimal digit. */
  function DigitValue(c: char): (d: byte)
    requires IsHexDigit(c)
    ensures d < 16
  {
    if c <= '9' then (c as int - '0' as int) as byte else (c as int - 'a' as int + 10) as byte
  }

  /** `DigitValue` inverts `HexDigit` on digits. */
  lemma DigitValueInverse(c: char)
    requires IsHexDigit(c)
    ensures HexDigit(DigitValue(c)) == c
  {
    var d := DigitValue(c);
    if c <= '9' {
      assert d as int == c as int - '0' as int;
    } else {
      assert d as int == c as int - 'a' as int + 10;
    }
  }

  /** `HexDigit` inverts `DigitValue` on nibbles. */
  lemma {:induction false} DigitRoundTrip(d: byte)
    requires d < 16
    ensures DigitValue(HexDigit(d)) == d
  {
    var c := HexDigit(d);
    if d < 10 {
      assert c as int == '0' as int + d as int;
    } else {
      assert c as int == 'a' as int + d as int - 10;
    }
  }

  /** `%02x` of one byte: two lower-case digits, high nibble first. */
  function Hex2(b: byte): (s: string)
    ensures |s| == 2 && IsHexDigit(s[0]) && IsHexDigit(s[1])
    ensures (DigitValue(s[0]) << 4) | DigitValue(s[1]) == b
  {
    DigitRoundTrip(b >> 4);
    DigitRoundTrip(b & 0xF);
    [HexDigit(b >> 4), HexDigit(b & 0xF)]
  }

  /** Binary digit `p` of a byte, most significant first: the byte shifted right by `7 - p`, low bit. */
  function BinDigit(b: byte, p: nat): (c: char)
    requires p < 8
    ensures c == (if b & Mask(p) != 0 then '1' else '0')
  {
    if (b >> (7 - p)) & 1 == 1 then '1' else '0'
  }

  /** `%08b` of one byte: eight binary digits, most significant first. */
  function Bin8(b: byte): (s: string)
    ensures |s| == 8
    ensures forall p | 0 <= p < 8 :: s[p] == (if b & Mask(p) != 0 then '1' else '0')
  {
    seq(8, p requires 0 <= p < 8 => BinDigit(b, p))
  }
}
