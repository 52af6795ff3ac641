/**
 The `BitField` object itself: a bit count and a byte slice updated in place. Every
 method is proved against the value-level model: a bit access leaves the state
 `Apply(op, old state, n)`, a bulk or range operation `ApplyAll` over its indices, and
 the queries return `Select`, `AndResult` and `OrResult` of the bits they started from.
 */
module Bits {
  import opened ByteOps
  import opened FieldModel
  import opened FieldQueries
  import opened FieldFormat

  class BitField {
    var maxbit: int
    var bitbox: seq<byte>

    /** The object's state as a value of the model. */
    function State(): Field
      reads this
    {
      Field(maxbit, bitbox)
    }

    ghost predicate Valid()
      reads this
    {
      State().Valid()
    }

    /** The zero value `BitField{}`: no storage and `maxbit` 0. */
    constructor ()
      ensures Valid() && State() == Empty()
    {
      maxbit := 0;
      bitbox := [];
    }

    /** The growth loop at the top of `Bit`, `ClrBit`, `SetBit` and `TglBit`
        (bits.go:47-58): append a zero byte and recompute `maxbit` until it exceeds `n`. */
    method Grow(n: nat)
      requires Valid()
      modifies this
      ensures Valid() && State() == Extend(old(State()), n)
    {
      if n >= maxbit {
        ghost var len0 := |bitbox|;
        while true
          invariant Valid() && maxbit <= n
          invariant len0 <= |bitbox| && bitbox[..len0] == old(bitbox)
          invariant forall i | len0 <= i < |bitbox| :: bitbox[i] == 0
          invariant |bitbox| == len0 ==> maxbit == old(maxbit)
          invariant |bitbox| > len0 ==> maxbit == 8 * |bitbox|
          decreases n + 8 - 8 * |bitbox|
        {
          bitbox := bitbox + [0];
          maxbit := 8 * |bitbox|;
          if maxbit > n {
            break;
          }
        }
        ghost var g := Extend(old(State()), n);
        assert |bitbox| == GrownLength(len0, n);
        assert bitbox == g.box by {
          forall i | 0 <= i < |bitbox|
            ensures bitbox[i] == g.box[i]
          {
            if i < len0 {
              assert bitbox[i] == bitbox[..len0][i] && g.box[i] == g.box[..len0][i];
            }
          }
        }
      }
    }

    /** `Bit(n)` (bits.go:46-64): grows the field if needed and returns bit `n`, which is the
        bit as it was before growth. */
    method Bit(n: nat) returns (v: bool)
      requires Valid()
      modifies this
      ensures Valid() && State() == Apply(Read, old(State()), n)
      ensures v == BitAt(old(bitbox), n)
    {
      ExtendKeepsBits(State(), n, n);
      Grow(n);
      var byteNum := ByteOf(n);
      v := bitbox[byteNum] & Mask(OffsetOf(n)) != 0;
      assert bitbox[byteNum := bitbox[byteNum]] == bitbox;
    }

    /** `ClrBit(n)` (bits.go:67-87): grows the field if needed, then `&^=` on byte `n >> 3`. */
    method ClrBit(n: nat)
      requires Valid()
      modifies this
      ensures Valid() && State() == Apply(Clr, old(State()), n)
    {
      Grow(n);
      var byteNum := ByteOf(n);
      bitbox := bitbox[byteNum := bitbox[byteNum] & !Mask(OffsetOf(n))];
    }

    /** `SetBit(n)` (bits.go:168-186): grows the field if needed, then `|=` on byte `n >> 3`. */
    method SetBit(n: nat)
      requires Valid()
      modifies this
      ensures Valid() && State() == Apply(Set, old(State()), n)
    {
      Grow(n);
      var byteNum := ByteOf(n);
      bitbox := bitbox[byteNum := bitbox[byteNum] | Mask(OffsetOf(n))];
    }

    /** `TglBit(n)` (bits.go:226-244): grows the field if needed, then `^=` on byte `n >> 3`. */
    method TglBit(n: nat)
      requires Valid()
      modifies this
      ensures Valid() && State() == Apply(Tgl, old(State()), n)
    {
      Grow(n);
      var byteNum := ByteOf(n);
      bitbox := bitbox[byteNum := bitbox[byteNum] ^ Mask(OffsetOf(n))];
    }

    /** `ClrBits(many)` (bits.go:90-94): `ClrBit` on each index in order. */
    method ClrBits(many: seq<nat>)
      requires Valid()
      modifies this
      ensures Valid() && State() == ApplyAll(Clr, old(State()), many)
    {
      for i := 0 to |many|
        invariant Valid() && State() == ApplyAll(Clr, old(State()), many[..i])
      {
        ClrBit(many[i]);
        assert many[..i + 1][..i] == many[..i];
      }
      assert many[..|many|] == many;
    }

    /** `SetBits(many)` (bits.go:189-193): `SetBit` on each index in order. */
    method SetBits(many: seq<nat>)
      requires Valid()
      modifies this
      ensures Valid() && State() == ApplyAll(Set, old(State()), many)
    {
      for i := 0 to |many|
        invariant Valid() && State() == ApplyAll(Set, old(State()), many[..i])
      {
        SetBit(many[i]);
        assert many[..i + 1][..i] == many[..i];
      }
      assert many[..|many|] == many;
    }

    /** `TglBits(many)` (bits.go:247-251): `TglBit` on each index in order. */
    method TglBits(many: seq<nat>)
      requires Valid()
      modifies this
      ensures Valid() && State() == ApplyAll(Tgl, old(State()), many)
    {
      for i := 0 to |many|
        invariant Valid() && State() == ApplyAll(Tgl, old(State()), many[..i])
      {
        TglBit(many[i]);
        assert many[..i + 1][..i] == many[..i];
      }
      assert many[..|many|] == many;
    }

    /** `ClrLoHi(lo, hi)` (bits.go:97-101): `ClrBit(i)` for `i := lo; i <= hi; i++`. */
    method ClrLoHi(lo: int, hi: int)
      requires 0 <= lo || hi < lo
      requires Valid()
      modifies this
      ensures Valid() && State() == ApplyAll(Clr, old(State()), Range(lo, hi))
    {
      if hi < lo {
        ApplyEmptyRange(Clr, State(), lo, hi);
      } else {
        ClrLoHiLoop(lo, hi);
      }
    }

    /** The loop of `ClrLoHi` over a non-empty range. */
    method ClrLoHiLoop(lo: nat, hi: int)
      requires lo <= hi && Valid()
      modifies this
      ensures Valid() && State() == ApplyAll(Clr, old(State()), Range(lo, hi))
    {
      var i: nat := lo;
      while i <= hi
        invariant lo <= i <= hi + 1
        invariant Valid() && State() == ApplyAll(Clr, old(State()), Range(lo, i - 1))
      {
        ApplyRangeStep(Clr, old(State()), lo, i);
        ClrBit(i);
        i := i + 1;
      }
    }

    /** `SetLoHi(lo, hi)` (bits.go:196-200): `SetBit(i)` for `i := lo; i <= hi; i++`. */
    method SetLoHi(lo: int, hi: int)
      requires 0 <= lo || hi < lo
      requires Valid()
      modifies this
      ensures Valid() && State() == ApplyAll(Set, old(State()), Range(lo, hi))
    {
      if hi < lo {
        ApplyEmptyRange(Set, State(), lo, hi);
      } else {
        SetLoHiLoop(lo, hi);
      }
    }

    /** The loop of `SetLoHi` over a non-empty range. */
    method SetLoHiLoop(lo: nat, hi: int)
      requires lo <= hi && Valid()
      modifies this
      ensures Valid() && State() == ApplyAll(Set, old(State()), Range(lo, hi))
    {
      var i: nat := lo;
      while i <= hi
        invariant lo <= i <= hi + 1
        invariant Valid() && State() == ApplyAll(Set, old(State()), Range(lo, i - 1))
      {
        ApplyRangeStep(Set, old(State()), lo, i);
        SetBit(i);
        i := i + 1;
      }
    }

    /** `TglLoHi(lo, hi)` (bits.go:254-258): `TglBit(i)` for `i := lo; i <= hi; i++`. */
    method TglLoHi(lo: int, hi: int)
      requires 0 <= lo || hi < lo
      requires Valid()
      modifies this
      ensures Valid() && State() == ApplyAll(Tgl, old(State()), Range(lo, hi))
    {
      if hi < lo {
        ApplyEmptyRange(Tgl, State(), lo, hi);
      } else {
        TglLoHiLoop(lo, hi);
      }
    }

    /** The loop of `TglLoHi` over a non-empty range. */
    method TglLoHiLoop(lo: nat, hi: int)
      requires lo <= hi && Valid()
      modifies this
      ensures Valid() && State() == ApplyAll(Tgl, old(State()), Range(lo, hi))
    {
      var i: nat := lo;
      while i <= hi
        invariant lo <= i <= hi + 1
        invariant Valid() && State() == ApplyAll(Tgl, old(State()), Range(lo, i - 1))
      {
        ApplyRangeStep(Tgl, old(State()), lo, i);
        TglBit(i);
        i := i + 1;
      }
    }

    /** `TrueBitsLoHi(lo, hi)` (bits.go:261-269): the indices of `[lo, hi]` whose bit was
        set, ascending. Reading grows the field up to `hi`. */
    method TrueBitsLoHi(lo: int, hi: int) returns (rv: seq<nat>)
      requires 0 <= lo || hi < lo
      requires Valid()
      modifies this
      ensures rv == Select(old(bitbox), lo, hi, true)
      ensures Valid() && State() == ApplyAll(Read, old(State()), Range(lo, hi))
    {
      if hi < lo {
        ApplyEmptyRange(Read, State(), lo, hi);
        rv := [];
      } else {
        rv := TrueBitsLoHiLoop(lo, hi);
      }
    }

    /** The loop of `TrueBitsLoHi` over a non-empty range. */
    method TrueBitsLoHiLoop(lo: nat, hi: int) returns (rv: seq<nat>)
      requires lo <= hi && Valid()
      modifies this
      ensures rv == Select(old(bitbox), lo, hi, true)
      ensures Valid() && State() == ApplyAll(Read, old(State()), Range(lo, hi))
    {
      rv := [];
      var i: nat := lo;
      while i <= hi
        invariant lo <= i <= hi + 1
        invariant Valid() && State() == ApplyAll(Read, old(State()), Range(lo, i - 1))
        invariant rv == Select(old(bitbox), lo, i - 1, true)
      {
        ApplyRangeStep(Read, old(State()), lo, i);
        ReadAllAt(old(State()), Range(lo, i - 1), i);
        SelectSnoc(old(bitbox), lo, i, true);
        var v := Bit(i);
        if v {
          rv := rv + [i];
        }
        i := i + 1;
      }
      LoopDone(old(bitbox), lo, hi, i);
    }

    /** `FalseBitsLoHi(lo, hi)` (bits.go:132-140): the indices of `[lo, hi]` whose bit was
        clear, ascending. Reading grows the field up to `hi`. */
    method FalseBitsLoHi(lo: int, hi: int) returns (rv: seq<nat>)
      requires 0 <= lo || hi < lo
      requires Valid()
      modifies this
      ensures rv == Select(old(bitbox), lo, hi, false)
      ensures Valid() && State() == ApplyAll(Read, old(State()), Range(lo, hi))
    {
      if hi < lo {
        ApplyEmptyRange(Read, State(), lo, hi);
        rv := [];
      } else {
        rv := FalseBitsLoHiLoop(lo, hi);
      }
    }

    /** The loop of `FalseBitsLoHi` over a non-empty range. */
    method FalseBitsLoHiLoop(lo: nat, hi: int) returns (rv: seq<nat>)
      requires lo <= hi && Valid()
      modifies this
      ensures rv == Select(old(bitbox), lo, hi, false)
      ensures Valid() && State() == ApplyAll(Read, old(State()), Range(lo, hi))
    {
      rv := [];
      var i: nat := lo;
      while i <= hi
        invariant lo <= i <= hi + 1
        invariant Valid() && State() == ApplyAll(Read, old(State()), Range(lo, i - 1))
        invariant rv == Select(old(bitbox), lo, i - 1, false)
      {
        ApplyRangeStep(Read, old(State()), lo, i);
        ReadAllAt(old(State()), Range(lo, i - 1), i);
        SelectSnoc(old(bitbox), lo, i, false);
        var v := Bit(i);
        if !v {
          rv := rv + [i];
        }
        i := i + 1;
      }
      LoopDone(old(bitbox), lo, hi, i);
    }

    /** `AndBitsByNdx(many)` (bits.go:32-43): an error for an empty slice; otherwise reads
        the listed bits in order and returns false at the first clear one. */
    method AndBitsByNdx(many: seq<nat>) returns (v: bool, err: Option<Error>)
      requires Valid()
      modifies this
      ensures (v, err) == AndResult(old(bitbox), many)
      ensures Valid() && State() == ApplyAll(Read, old(State()), many[..Probed(old(bitbox), many, false)])
    {
      if |many| == 0 {
        return false, Some(NonEmptySliceRequired);
      }
      ghost var f0, box0 := State(), bitbox;
      for i := 0 to |many|
        invariant Valid() && State() == ApplyAll(Read, f0, many[..i])
        invariant i <= Scan(box0, many, false)
      {
        ReadStep(f0, many, i);
        ScanPast(box0, many, false, i);
        var b := Bit(many[i]);
        if !b {
          ProbedStops(box0, many, false, i);
          return false, None;
        }
      }
      ProbedAll(box0, many, false);
      return true, None;
    }

    /** `OrBitsByNdx(many)` (bits.go:154-165): an error for an empty slice; otherwise reads
        the listed bits in order and returns true at the first set one. */
    method OrBitsByNdx(many: seq<nat>) returns (v: bool, err: Option<Error>)
      requires Valid()
      modifies this
      ensures (v, err) == OrResult(old(bitbox), many)
      ensures Valid() && State() == ApplyAll(Read, old(State()), many[..Probed(old(bitbox), many, true)])
    {
      if |many| == 0 {
        return false, Some(NonEmptySliceRequired);
      }
      ghost var f0, box0 := State(), bitbox;
      for i := 0 to |many|
        invariant Valid() && State() == ApplyAll(Read, f0, many[..i])
        invariant i <= Scan(box0, many, true)
      {
        ReadStep(f0, many, i);
        ScanPast(box0, many, true, i);
        var b := Bit(many[i]);
        if b {
          ProbedStops(box0, many, true, i);
          return true, None;
        }
      }
      ProbedAll(box0, many, true);
      return false, None;
    }

    /** `SetMaxBitNdx(n)` (bits.go:207-212): `maxbit` becomes `n` and the storage is
        replaced by `n / 8 + 1` zero bytes. */
    method SetMaxBitNdx(n: nat)
      modifies this
      ensures Valid() && State() == Reset(n)
    {
      maxbit := n;
      bitbox := seq(n / 8 + 1, _ => 0);
    }

    /** `HexString()` (bits.go:145-151): `%02x` of bytes `0 .. maxbit / 8 - 1`, in order. */
    method HexString() returns (hs: string)
      requires Valid()
      ensures hs == HexForm(State())
    {
      hs := "";
      for i := 0 to maxbit / 8
        invariant hs == HexOf(bitbox[..i])
      {
        hs := hs + Hex2(bitbox[i]);
        assert bitbox[..i + 1][..i] == bitbox[..i];
      }
    }

    /** `String()` (bits.go:217-223): `%08b` of bytes `0 .. maxbit / 8 - 1`, in order. */
    method String() returns (rs: string)
      requires Valid()
      ensures rs == BinForm(State())
    {
      rs := "";
      for i := 0 to maxbit / 8
        invariant rs == BinOf(bitbox[..i])
      {
        rs := rs + Bin8(bitbox[i]);
        assert bitbox[..i + 1][..i] == bitbox[..i];
      }
    }
  }
}
