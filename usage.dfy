/**
 The first two tests of bits_test.go, run against the `BitField` object itself: a sequence
 of method calls on one field, with what each read returns stated as the method's result.
 */
module Usage {
  import opened FieldModel
  import opened Bits

  /** Test 1: after `SetMaxBitNdx(10)` and `SetBit(0)`, bit 0 reads true and bit 1 false;
      `SetBit(9)` makes bit 9 read true and `ClrBit(9)` false again. */
  method SetAndClear() returns (b0: bool, b1: bool, b9: bool, b9Cleared: bool)
    ensures b0 && !b1 && b9 && !b9Cleared
  {
    var bits := new BitField();
    bits.SetMaxBitNdx(10);
    bits.SetBit(0);
    b0, b1 := ReadFirstTwo(bits);
    b9, b9Cleared := SetThenClear(bits, 9);
  }

  /** Reads bits 0 and 1 of the field that has only bit 0 set; reads inside the field change nothing. */
  method ReadFirstTwo(bits: BitField) returns (b0: bool, b1: bool)
    requires bits.Valid() && bits.State() == Apply(Set, Reset(10), 0)
    modifies bits
    ensures bits.Valid() && bits.State() == old(bits.State())
    ensures b0 && !b1
  {
    ghost var f := bits.State();
    assert BitAt(f.box, 0) && !BitAt(f.box, 1) by {
      ApplyAtTarget(Set, Reset(10), 0);
      ApplyAtOthers(Set, Reset(10), 0, 1);
    }
    b0 := bits.Bit(0);
    assert bits.State() == f by { ReadInside(f, 0); }
    b1 := bits.Bit(1);
    assert bits.State() == f by { ReadInside(f, 1); }
  }

  /** `SetBit(n)` then `Bit(n)` reads true; `ClrBit(n)` then `Bit(n)` reads false. */
  method SetThenClear(bits: BitField, n: nat) returns (afterSet: bool, afterClr: bool)
    requires bits.Valid()
    modifies bits
    ensures afterSet && !afterClr
  {
    ghost var f := bits.State();
    assert BitAt(Apply(Set, f, n).box, n) by { ApplyAtTarget(Set, f, n); }
    bits.SetBit(n);
    afterSet := bits.Bit(n);
    ghost var g := bits.State();
    assert !BitAt(Apply(Clr, g, n).box, n) by { ApplyAtTarget(Clr, g, n); }
    bits.ClrBit(n);
    afterClr := bits.Bit(n);
  }

  /** Test 2: after `SetMaxBitNdx(20)` and `SetBits({4, 12})` bit 12 reads true; each
      `TglBit(12)` flips it, and `ClrBit(12)` clears it. */
  method SetToggleClear() returns (set12: bool, flipped: bool, restored: bool, cleared: bool)
    ensures set12 && !flipped && restored && !cleared
  {
    var bits := new BitField();
    bits.SetMaxBitNdx(20);
    bits.SetBits([4, 12]);
    assert BitAt(bits.bitbox, 12) by { SetAllAt(Reset(20), [4, 12], 12); }
    set12 := bits.Bit(12);
    ghost var f := bits.State();
    assert !BitAt(Apply(Tgl, f, 12).box, 12) by { ApplyAtTarget(Tgl, f, 12); }
    bits.TglBit(12);
    flipped := bits.Bit(12);
    ghost var g := bits.State();
    assert BitAt(Apply(Tgl, g, 12).box, 12) by { ApplyAtTarget(Tgl, g, 12); }
    bits.TglBit(12);
    restored := bits.Bit(12);
    ghost var h := bits.State();
    assert !BitAt(Apply(Clr, h, 12).box, 12) by { ApplyAtTarget(Clr, h, 12); }
    bits.ClrBit(12);
    cleared := bits.Bit(12);
  }
}
