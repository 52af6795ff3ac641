/**
 The behaviours the package's tests check (bits_test.go), stated over the field model:
 the printed forms after `SetMaxBitNdx(10)` and `SetBits({0, 2, 4, 16})`, the two
 reducers on that field, the range operations over bits 0 to 31, clearing what was set,
 and the self-extending storage of a field that starts empty.
 */
module Scenarios {
  import opened ByteOps
  import opened FieldModel
  import opened FieldQueries
  import opened FieldFormat

  /** The field of tests 3 to 5: `SetMaxBitNdx(10)`, then `SetBits({0, 2, 4, 16})`. */
  function SampleField(): (f: Field)
    ensures f.Valid()
  {
    ApplyAll(Set, Reset(10), [0, 2, 4, 16])
  }

  /** `ApplyAll` over four indices is four bit accesses in order. */
  lemma ApplyFour(op: Op, f: Field, a: nat, b: nat, c: nat, d: nat)
    requires f.Valid()
    ensures ApplyAll(op, f, [a, b, c, d]) == Apply(op, Apply(op, Apply(op, Apply(op, f, a), b), c), d)
  {
    var s0, s1, s2, s3: seq<nat> := [], [a], [a, b], [a, b, c];
    assert s0 + [a] == s1 && s1 + [b] == s2 && s2 + [c] == s3 && s3 + [d] == [a, b, c, d];
    ApplyAllSnoc(op, f, s0, a);
    var f1 := ApplyAll(op, f, s1);
    ApplyAllSnoc(op, f, s1, b);
    var f2 := ApplyAll(op, f, s2);
    ApplyAllSnoc(op, f, s2, c);
    var f3 := ApplyAll(op, f, s3);
    ApplyAllSnoc(op, f, s3, d);
    assert f1 == Apply(op, f, a) && f2 == Apply(op, f1, b) && f3 == Apply(op, f2, c);
  }

  lemma ApplyAllSnoc(op: Op, f: Field, ns: seq<nat>, x: nat)
    requires f.Valid()
    ensures ApplyAll(op, f, ns + [x]) == Apply(op, ApplyAll(op, f, ns), x)
  {
    assert (ns + [x])[..|ns|] == ns;
  }

  /** The first three accesses stay inside the two bytes `SetMaxBitNdx(10)` made. */
  lemma SampleLowBits()
    ensures Apply(Set, Apply(Set, Apply(Set, Reset(10), 0), 2), 4) == Field(10, [0xa8, 0x00])
  {
    var f0 := Reset(10);
    assert f0 == Field(10, [0, 0]);
    SetInside(f0, 0, 0x80);
    SetInside(Field(10, [0x80, 0]), 2, 0xa0);
    SetInside(Field(10, [0xa0, 0]), 4, 0xa8);
  }

  /** Setting a bit of the first byte below `maxbit`: no growth, one byte updated. */
  lemma SetInside(f: Field, n: nat, b: byte)
    requires f.Valid() && n < 8 && n < f.maxbit && |f.box| == 2 && f.box[1] == 0
    requires b == f.box[0] | Mask(n)
    ensures Apply(Set, f, n) == Field(f.maxbit, [b, 0])
  {
    assert Extend(f, n) == f;
    assert ByteOf(n) == 0 && OffsetOf(n) == n;
  }

  /** Setting bit 16 grows two bytes of storage to three, and the field holds 0xa8 0x00 0x80. */
  lemma SampleFieldState()
    ensures SampleField() == Field(24, [0xa8, 0x00, 0x80])
  {
    ApplyFour(Set, Reset(10), 0, 2, 4, 16);
    SampleLowBits();
    SampleHighBit();
  }

  /** Bit 16 lies past `maxbit` 10: one zero byte is appended, `maxbit` becomes 24. */
  lemma SampleHighBit()
    ensures Apply(Set, Field(10, [0xa8, 0x00]), 16) == Field(24, [0xa8, 0x00, 0x80])
  {
    var f := Field(10, [0xa8, 0x00]);
    var e := Extend(f, 16);
    assert GrownLength(2, 16) == 3;
    assert e.box == [0xa8, 0x00] + Zeros(1);
    assert e == Field(24, [0xa8, 0x00, 0x00]);
    assert ByteOf(16) == 2 && OffsetOf(16) == 0;
    assert UpdateByte(Set, 0x00, Mask(0)) == 0x80;
  }

  /** The storage of the sample field. */
  const SampleBox: seq<byte> := [0xa8, 0x00, 0x80]

  /** Test 4: `HexString` prints "a80080". */
  lemma SampleHex()
    ensures HexForm(SampleField()) == "a80080"
  {
    SampleFieldState();
    assert Shown(SampleField()) == SampleBox;
    SampleHexOf();
  }

  lemma SampleHexOf()
    ensures HexOf(SampleBox) == "a80080"
  {
    var s0, s1, s2: seq<byte> := [], [0xa8], [0xa8, 0x00];
    assert s0 + [0xa8] == s1 && s1 + [0x00] == s2 && s2 + [0x80] == SampleBox;
    HexOfSnoc(s0, 0xa8);
    HexOfSnoc(s1, 0x00);
    HexOfSnoc(s2, 0x80);
    SampleDigits();
    assert "" + "a8" + "00" + "80" == "a80080";
  }

  lemma HexOfSnoc(bs: seq<byte>, b: byte)
    ensures HexOf(bs + [b]) == HexOf(bs) + Hex2(b)
  {
    assert (bs + [b])[..|bs|] == bs;
  }

  /** `%02x` of the three bytes of the sample field. */
  lemma SampleDigits()
    ensures Hex2(0xa8) == "a8" && Hex2(0x00) == "00" && Hex2(0x80) == "80"
  {
    assert HexDigits[10] == 'a' && HexDigits[8] == '8' && HexDigits[0] == '0';
    assert (0xa8 as byte) >> 4 == 10 && (0xa8 as byte) & 0xF == 8;
    assert (0x80 as byte) >> 4 == 8 && (0x80 as byte) & 0xF == 0;
  }

  /** The bits the reducer scenarios probe: 0, 2 and 4 are set, 1, 3, 5 and 7 are not. */
  lemma SampleProbes()
    ensures BitAt(SampleBox, 0) && BitAt(SampleBox, 2) && BitAt(SampleBox, 4)
    ensures !BitAt(SampleBox, 1) && !BitAt(SampleBox, 3) && !BitAt(SampleBox, 5) && !BitAt(SampleBox, 7)
  {
    MaskTable();
    FirstByteBit(0, 0x80);
    FirstByteBit(1, 0x40);
    FirstByteBit(2, 0x20);
    FirstByteBit(3, 0x10);
    FirstByteBit(4, 0x08);
    FirstByteBit(5, 0x04);
    FirstByteBit(7, 0x01);
  }

  /** Bits 0 to 7 of the sample storage come from its first byte, 0xa8. */
  lemma FirstByteBit(k: nat, m: byte)
    requires k < 8 && m == Mask(k)
    ensures BitAt(SampleBox, k) == (0xa8 & m != 0)
  {
    assert ByteOf(k) == 0 && OffsetOf(k) == k;
  }

  lemma BinOfSnoc(bs: seq<byte>, b: byte)
    ensures BinOf(bs + [b]) == BinOf(bs) + Bin8(b)
  {
    assert (bs + [b])[..|bs|] == bs;
  }

  /** `%08b` of the three bytes of the sample field. */
  lemma SampleBin8()
    ensures Bin8(0xa8) == "10101000" && Bin8(0x00) == "00000000" && Bin8(0x80) == "10000000"
  {
    MaskTable();
  }

  /** Test 4: `String` prints "101010000000000010000000": bits 0, 2, 4 and 16. */
  lemma SampleBinary()
    ensures BinForm(SampleField()) == "101010000000000010000000"
  {
    SampleFieldState();
    assert Shown(SampleField()) == SampleBox;
    SampleBinOf();
  }

  lemma SampleBinOf()
    ensures BinOf(SampleBox) == "101010000000000010000000"
  {
    var s0, s1, s2: seq<byte> := [], [0xa8], [0xa8, 0x00];
    assert s0 + [0xa8] == s1 && s1 + [0x00] == s2 && s2 + [0x80] == SampleBox;
    BinOfSnoc(s0, 0xa8);
    BinOfSnoc(s1, 0x00);
    BinOfSnoc(s2, 0x80);
    SampleBin8();
    assert "" + "10101000" == "10101000";
    SampleBinConcat();
  }

  lemma SampleBinConcat()
    ensures "10101000" + "00000000" + "10000000" == "101010000000000010000000"
  {
  }

  /** Test 5: `OrBitsByNdx({3, 7, 5})` is false and `OrBitsByNdx({3, 7, 5, 2})` is true. */
  lemma SampleOr()
    ensures OrResult(SampleField().box, [3, 7, 5]) == (false, None)
    ensures OrResult(SampleField().box, [3, 7, 5, 2]) == (true, None)
  {
    SampleFieldState();
    SampleProbes();
    var probe: seq<nat> := [3, 7, 5, 2];
    assert probe[3] == 2;
  }

  /** Test 5: `AndBitsByNdx({1, 2, 3})` is false and `AndBitsByNdx({2, 4, 0})` is true. */
  lemma SampleAnd()
    ensures AndResult(SampleField().box, [1, 2, 3]) == (false, None)
    ensures AndResult(SampleField().box, [2, 4, 0]) == (true, None)
  {
    SampleFieldState();
    SampleProbes();
    var probe: seq<nat> := [1, 2, 3];
    assert probe[0] == 1;
  }

  /** Test 3: clearing the bits that were set leaves `TrueBitsLoHi(0, 16)` empty. */
  lemma ClearedHasNoTrueBits()
    ensures Select(ApplyAll(Clr, SampleField(), [0, 2, 4, 16]).box, 0, 16, true) == []
  {
    var ns: seq<nat> := [0, 2, 4, 16];
    var g := ApplyAll(Clr, SampleField(), ns);
    var r := Select(g.box, 0, 16, true);
    if r != [] {
      var k := r[0];
      SelectMembers(g.box, 0, 16, true, k);
      ClrAllAt(SampleField(), ns, k);
      SetAllAt(Reset(10), ns, k);
      assert false;
    }
  }

  /** Test 6: after `SetMaxBitNdx(31)`, `SetLoHi(0, 31)` sets bits 0 to 31, `ClrLoHi(0, 31)`
      clears them again and `TglLoHi(0, 31)` sets them once more. */
  lemma RangeSetClearToggle(k: nat)
    requires k <= 31
    ensures var on := ApplyAll(Set, Reset(31), Range(0, 31));
            var off := ApplyAll(Clr, on, Range(0, 31));
            var flip := ApplyAll(Tgl, off, Range(0, 31));
            BitAt(on.box, k) && !BitAt(off.box, k) && BitAt(flip.box, k)
  {
    var on := ApplyAll(Set, Reset(31), Range(0, 31));
    var off := ApplyAll(Clr, on, Range(0, 31));
    RangeAt(Set, Reset(31), 0, 31, k);
    RangeAt(Clr, on, 0, 31, k);
    RangeAt(Tgl, off, 0, 31, k);
  }

  /** The number of bytes test 7 expects once bit `k` is set: `(k + 1) / 8`, rounded up. */
  function Units(k: nat): (u: nat)
    ensures 8 * (u - 1) <= k < 8 * u
  {
    if (k + 1) % 8 != 0 then (k + 1) / 8 + 1 else (k + 1) / 8
  }

  /** Test 7, the self-extending storage: setting bits 0, 1, ..., k of an empty field one at
      a time leaves exactly `Units(k)` bytes, all of them shown, so `HexString` has
      `2 * Units(k)` characters. */
  lemma {:induction false} SelfExtending(k: nat)
    ensures var f := ApplyAll(Set, Empty(), Range(0, k));
            |f.box| == Units(k) && f.maxbit == 8 * |f.box| && |HexForm(f)| == 2 * Units(k)
    decreases k
  {
    ApplyRangeStep(Set, Empty(), 0, k);
    var g := ApplyAll(Set, Empty(), Range(0, k - 1));
    if k == 0 {
      ApplyEmptyRange(Set, Empty(), 0, -1);
      assert g == Empty();
    } else {
      SelfExtending(k - 1);
      if k < g.maxbit {
        assert Units(k) == Units(k - 1);
      } else {
        assert k == 8 * |g.box|;
        assert Units(k) == |g.box| + 1;
      }
    }
  }
}
