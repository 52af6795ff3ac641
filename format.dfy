/**
 The two printed forms of a field: `HexString` (two lower-case hex digits per byte,
 `%02x`) and `String` (eight binary digits per byte, `%08b`). Both print the first
 `maxbit / 8` bytes of storage and nothing else.
 */
module FieldFormat {
  import opened ByteOps
  import opened FieldModel

  /** The bytes the printers walk: `for i := 0; i < (b.maxbit / 8); i++` (bits.go:147, 219).
      All of the storage exactly when `maxbit` fills it; after `SetMaxBitNdx` the last byte is
      left out. */
  function Shown(f: Field): (bs: seq<byte>)
    requires f.Valid()
    ensures |bs| == f.maxbit / 8 && bs == f.box[..|bs|]
    ensures |bs| == |f.box| <==> f.maxbit == 8 * |f.box|
    ensures |bs| == |f.box| || |bs| == |f.box| - 1
  {
    f.box[..f.maxbit / 8]
  }

  /** The shown bytes carry the field's bits below `8 * (maxbit / 8)`. */
  lemma ShownBits(f: Field, k: nat)
    requires f.Valid() && k < 8 * |Shown(f)|
    ensures BitAt(Shown(f), k) == BitAt(f.box, k)
  {
    var bs := Shown(f);
    assert bs[ByteOf(k)] == f.box[ByteOf(k)];
  }

  predicate AllHex(s: string) {
    forall i | 0 <= i < |s| :: IsHexDigit(s[i])
  }

  /** `%02x` of every byte, concatenated. */
  function HexOf(bs: seq<byte>): (s: string)
    ensures |s| == 2 * |bs| && AllHex(s)
    decreases |bs|
  {
    if bs == [] then ""
    else HexOf(bs[..|bs| - 1]) + Hex2(bs[|bs| - 1])
  }

  /** Reads back a string of hex digit pairs, high nibble first: the inverse of `HexOf`. */
  function UnHex(s: string): (bs: seq<byte>)
    requires |s| % 2 == 0 && AllHex(s)
    ensures |bs| == |s| / 2
    decreases |s|
  {
    if s == [] then []
    else UnHex(s[..|s| - 2]) + [(DigitValue(s[|s| - 2]) << 4) | DigitValue(s[|s| - 1])]
  }

  /** The hex form loses nothing: reading it back gives the bytes. */
  lemma {:induction false} HexRoundTrip(bs: seq<byte>)
    ensures UnHex(HexOf(bs)) == bs
    decreases |bs|
  {
    if bs != [] {
      var init, last := bs[..|bs| - 1], bs[|bs| - 1];
      UnHexOfSnoc(bs);
      HexRoundTrip(init);
      SnocSplit(bs);
    }
  }

  lemma SnocSplit(bs: seq<byte>)
    requires bs != []
    ensures bs == bs[..|bs| - 1] + [bs[|bs| - 1]]
  {
  }

  /** Reading back the hex form of a non-empty sequence ends with its last byte. */
  lemma UnHexOfSnoc(bs: seq<byte>)
    requires bs != []
    ensures UnHex(HexOf(bs)) == UnHex(HexOf(bs[..|bs| - 1])) + [bs[|bs| - 1]]
  {
    var init, last := bs[..|bs| - 1], bs[|bs| - 1];
    var s, h := HexOf(bs), Hex2(last);
    assert s == HexOf(init) + h;
    assert s[..|s| - 2] == HexOf(init);
    assert s[|s| - 2] == h[0] && s[|s| - 1] == h[1];
  }

  /** Two hex digits printed from the byte they denote are the same two digits. */
  lemma Hex2OfDigits(c0: char, c1: char)
    requires IsHexDigit(c0) && IsHexDigit(c1)
    ensures Hex2((DigitValue(c0) << 4) | DigitValue(c1)) == [c0, c1]
  {
    DigitValueInverse(c0);
    DigitValueInverse(c1);
    var d0, d1 := DigitValue(c0), DigitValue(c1);
    var b := (d0 << 4) | d1;
    assert b >> 4 == d0 && b & 0xF == d1;
  }

  /** Every even-length string of lower-case hex digits is the hex form of some bytes. */
  lemma {:induction false} UnHexRoundTrip(s: string)
    requires |s| % 2 == 0 && AllHex(s)
    ensures HexOf(UnHex(s)) == s
    decreases |s|
  {
    if s != [] {
      var init := s[..|s| - 2];
      var bs := UnHex(s);
      UnHexLast(s);
      UnHexRoundTrip(init);
      Hex2OfDigits(s[|s| - 2], s[|s| - 1]);
      assert HexOf(bs) == HexOf(bs[..|bs| - 1]) + Hex2(bs[|bs| - 1]);
      LastTwo(s);
    }
  }

  /** The last byte read back comes from the last two digits, the others from the rest. */
  lemma UnHexLast(s: string)
    requires |s| % 2 == 0 && AllHex(s) && |s| >= 2
    ensures AllHex(s[..|s| - 2])
    ensures UnHex(s)[..|s| / 2 - 1] == UnHex(s[..|s| - 2])
    ensures UnHex(s)[|s| / 2 - 1] == (DigitValue(s[|s| - 2]) << 4) | DigitValue(s[|s| - 1])
  {
  }

  lemma LastTwo(s: string)
    requires |s| >= 2
    ensures s == s[..|s| - 2] + [s[|s| - 2], s[|s| - 1]]
  {
  }

  /** `%08b` of every byte, concatenated: character `k` is `'1'` exactly when bit `k` is set. */
  function BinOf(bs: seq<byte>): (s: string)
    ensures |s| == 8 * |bs|
    ensures forall k | 0 <= k < |s| :: s[k] == if BitAt(bs, k) then '1' else '0'
    decreases |bs|
  {
    if bs == [] then ""
    else
      var init, last := bs[..|bs| - 1], bs[|bs| - 1];
      var s := BinOf(init) + Bin8(last);
      assert forall k | 0 <= k < |s| :: s[k] == if BitAt(bs, k) then '1' else '0' by {
        forall k | 0 <= k < |s|
          ensures s[k] == if BitAt(bs, k) then '1' else '0'
        {
          if k < 8 * |init| {
            assert bs[ByteOf(k)] == init[ByteOf(k)];
          } else {
            assert ByteOf(k) == |init| && OffsetOf(k) == k - 8 * |init|;
          }
        }
      }
      s
  }

  /** The output of `HexString` (bits.go:145-151). */
  function HexForm(f: Field): (s: string)
    requires f.Valid()
    ensures |s| == 2 * (f.maxbit / 8) && AllHex(s) && UnHex(s) == Shown(f)
  {
    HexRoundTrip(Shown(f));
    HexOf(Shown(f))
  }

  /** The output of `String` (bits.go:217-223). */
  function BinForm(f: Field): (s: string)
    requires f.Valid()
    ensures |s| == 8 * (f.maxbit / 8)
    ensures forall k | 0 <= k < |s| :: s[k] == if BitAt(f.box, k) then '1' else '0'
  {
    var s := BinOf(Shown(f));
    forall k | 0 <= k < |s|
      ensures BitAt(Shown(f), k) == BitAt(f.box, k)
    {
      ShownBits(f, k);
    }
    s
  }

  /** After `SetMaxBitNdx(n)` the printers show `n / 8` bytes, one fewer than the storage
      holds: bits `8 * (n / 8)` up to `n` never appear in either string. */
  lemma ResetHidesLastByte(n: nat)
    ensures |Shown(Reset(n))| == |Reset(n).box| - 1
    ensures |HexForm(Reset(n))| == 2 * (n / 8) && |BinForm(Reset(n))| == 8 * (n / 8)
  {
  }

  /** Once a bit access has grown the storage, the printers show all of it. */
  lemma GrownIsShown(f: Field, op: Op, n: nat)
    requires f.Valid() && n >= f.maxbit
    ensures Shown(Apply(op, f, n)) == Apply(op, f, n).box
  {
  }
}
