/**
 The state of a `BitField` as a value: the logical bit count `maxbit` and the byte
 storage `box` (Go: `bitbox`), with the growth step every bit access runs first and the
 four single-bit operations (read, set, clear, toggle) over it. The class in module
 `Bits` is proved against these functions.
 */
module FieldModel {
  import opened ByteOps

  /** `maxbit` is the number of bits the field currently claims; after growth it is
      `8 * |box|`, after `SetMaxBitNdx(n)` it is `n`, which need not be a multiple of 8. */
  datatype Field = Field(maxbit: int, box: seq<byte>) {
    /** Every reachable state: `maxbit` lies in the last byte of storage
        (characterised by `ValidShapes`). */
    predicate Valid() {
      0 <= maxbit && 8 * (|box| - 1) <= maxbit <= 8 * |box|
    }
  }

  /** The two shapes of a valid field: `maxbit / 8 + 1` bytes, as `SetMaxBitNdx` allocates,
      or exactly `maxbit / 8` bytes with `maxbit` a multiple of 8, as growth leaves it.
      Either way every bit below `maxbit` has a byte. */
  lemma ValidShapes(f: Field)
    ensures f.Valid() <==> 0 <= f.maxbit && (|f.box| == f.maxbit / 8 + 1 || (f.maxbit % 8 == 0 && |f.box| == f.maxbit / 8))
    ensures f.Valid() ==> forall n: nat | n < f.maxbit :: ByteOf(n) < |f.box|
  {
  }

  /** The zero value of the Go struct: no storage, `maxbit` 0. */
  function Empty(): (f: Field)
    ensures f.Valid() && f.box == []
  {
    Field(0, [])
  }

  function Zeros(k: nat): (z: seq<byte>)
    ensures |z| == k && forall i | 0 <= i < k :: z[i] == 0
  {
    seq(k, _ => 0)
  }

  /** Whether bit `n` of the storage is set; a bit beyond the storage reads as false,
      which is what the field reports once growth has zero-filled it. */
  predicate BitAt(box: seq<byte>, n: nat)
    ensures ByteOf(n) >= |box| ==> !BitAt(box, n)
  {
    ByteOf(n) < |box| && box[ByteOf(n)] & Mask(OffsetOf(n)) != 0
  }

  /** The same test read the other way round: shift the byte right so that bit `n` lands in
      the lowest place, then test that place. */
  lemma BitAtShifted(box: seq<byte>, n: nat)
    requires ByteOf(n) < |box|
    ensures BitAt(box, n) <==> (box[ByteOf(n)] >> (7 - OffsetOf(n))) & 1 == 1
  {
    MaskFromTop(OffsetOf(n));
  }

  /** The storage length at which the growth loop stops for an index `n >= maxbit`:
      at least one byte is appended, and then the first length whose bit count exceeds `n`. */
  function GrownLength(len: nat, n: nat): (l: nat)
    ensures l > len && 8 * l > n
    ensures l == len + 1 || 8 * (l - 1) <= n
  {
    if len + 1 > n / 8 + 1 then len + 1 else n / 8 + 1
  }

  /** The growth loop run at the top of every bit access (bits.go:47-58, repeated in
      ClrBit, SetBit and TglBit): nothing happens below `maxbit`; otherwise zero bytes are
      appended and `maxbit` becomes the storage's bit count. */
  function Extend(f: Field, n: nat): (g: Field)
    requires f.Valid()
    ensures g.Valid() && n < g.maxbit && f.maxbit <= g.maxbit
    ensures |f.box| <= |g.box| && g.box[..|f.box|] == f.box
    ensures forall i | |f.box| <= i < |g.box| :: g.box[i] == 0
    ensures n < f.maxbit ==> g == f
    ensures n >= f.maxbit ==> |g.box| > |f.box| && g.maxbit == 8 * |g.box|
    ensures n >= f.maxbit ==> |g.box| == |f.box| + 1 || 8 * (|g.box| - 1) <= n
  {
    if n < f.maxbit then f
    else
      var l := GrownLength(|f.box|, n);
      Field(8 * l, f.box + Zeros(l - |f.box|))
  }

  /** Growth keeps the value of every bit. */
  lemma ExtendKeepsBits(f: Field, n: nat, k: nat)
    requires f.Valid()
    ensures BitAt(Extend(f, n).box, k) == BitAt(f.box, k)
  {
    var g := Extend(f, n);
    if ByteOf(k) < |f.box| {
      assert g.box[ByteOf(k)] == g.box[..|f.box|][ByteOf(k)];
    }
  }

  /** The four single-bit operations of the source. */
  datatype Op = Read | Set | Clr | Tgl

  /** The value a bit has after `op` when it had value `b`. */
  function NewBit(op: Op, b: bool): bool {
    match op
    case Read => b
    case Set => true
    case Clr => false
    case Tgl => !b
  }

  /** The in-place byte update of `op` under mask `m`: `|=`, `&^=` and `^=` in Go. */
  function UpdateByte(op: Op, b: byte, m: byte): (r: byte)
    ensures (r ^ b) & !m == 0
  {
    match op
    case Read => b
    case Set => b | m
    case Clr => b & !m
    case Tgl => b ^ m
  }

  /** Updating a byte at position `p` gives position `p` its new value and keeps the others. */
  lemma UpdateByteAt(op: Op, b: byte, p: nat, q: nat)
    requires p < 8 && q < 8
    ensures (UpdateByte(op, b, Mask(p)) & Mask(q) != 0)
         == if p == q then NewBit(op, b & Mask(p) != 0) else b & Mask(q) != 0
  {
    MaskUpdates(b, p, q);
    match op
    case Read =>
    case Set => assert UpdateByte(op, b, Mask(p)) == b | Mask(p);
    case Clr => assert UpdateByte(op, b, Mask(p)) == b & !Mask(p);
    case Tgl => assert UpdateByte(op, b, Mask(p)) == b ^ Mask(p);
  }

  /** One bit access: grow for `n`, then update byte `n >> 3` under the mask of `n`
      (bits.go:46-63, 67-87, 168-186, 226-244). Only that byte differs from the grown storage. */
  function Apply(op: Op, f: Field, n: nat): (g: Field)
    requires f.Valid()
    ensures g.Valid()
    ensures g.maxbit == Extend(f, n).maxbit && |g.box| == |Extend(f, n).box|
    ensures forall i | 0 <= i < |g.box| && i != ByteOf(n) :: g.box[i] == Extend(f, n).box[i]
    ensures g.box[ByteOf(n)] == UpdateByte(op, Extend(f, n).box[ByteOf(n)], Mask(OffsetOf(n)))
  {
    var e := Extend(f, n);
    var i := ByteOf(n);
    Field(e.maxbit, e.box[i := UpdateByte(op, e.box[i], Mask(OffsetOf(n)))])
  }

  /** After one bit access bit `n` has the operation's new value ... */
  lemma ApplyAtTarget(op: Op, f: Field, n: nat)
    requires f.Valid()
    ensures BitAt(Apply(op, f, n).box, n) == NewBit(op, BitAt(f.box, n))
  {
    var e, g := Extend(f, n), Apply(op, f, n);
    var i, p := ByteOf(n), OffsetOf(n);
    ExtendKeepsBits(f, n, n);
    assert g.box[i] == UpdateByte(op, e.box[i], Mask(p));
    UpdateByteAt(op, e.box[i], p, p);
  }

  /** ... and every other bit keeps its old value. */
  lemma ApplyAtOthers(op: Op, f: Field, n: nat, k: nat)
    requires f.Valid() && k != n
    ensures BitAt(Apply(op, f, n).box, k) == BitAt(f.box, k)
  {
    ExtendKeepsBits(f, n, k);
    if ByteOf(k) == ByteOf(n) {
      SameByteOthers(op, f, n, k);
    } else {
      OtherBytes(op, f, n, k);
    }
  }

  /** A bit sharing the target's byte keeps its grown value. */
  lemma SameByteOthers(op: Op, f: Field, n: nat, k: nat)
    requires f.Valid() && k != n && ByteOf(k) == ByteOf(n)
    ensures BitAt(Apply(op, f, n).box, k) == BitAt(Extend(f, n).box, k)
  {
    var e, g, i := Extend(f, n), Apply(op, f, n), ByteOf(n);
    var p, q := OffsetOf(n), OffsetOf(k);
    assert p != q by { assert n == 8 * i + p && k == 8 * i + q; }
    assert g.box[i] == UpdateByte(op, e.box[i], Mask(p));
    assert (g.box[i] & Mask(q) != 0) == (e.box[i] & Mask(q) != 0) by {
      UpdateByteAt(op, e.box[i], p, q);
    }
  }

  /** A bit in another byte keeps its grown value. */
  lemma OtherBytes(op: Op, f: Field, n: nat, k: nat)
    requires f.Valid() && ByteOf(k) != ByteOf(n)
    ensures BitAt(Apply(op, f, n).box, k) == BitAt(Extend(f, n).box, k)
  {
    var e, g, i := Extend(f, n), Apply(op, f, n), ByteOf(k);
    if i < |g.box| {
      assert g.box[i] == e.box[i];
    }
  }

  /** A read below `maxbit` neither grows the field nor changes a bit. */
  lemma ReadInside(f: Field, n: nat)
    requires f.Valid() && n < f.maxbit
    ensures Apply(Read, f, n) == f
  {
    assert f.box[ByteOf(n) := f.box[ByteOf(n)]] == f.box;
  }

  /** The operation applied to each index of `ns` in order (the Go `for _, val := range many`). */
  function ApplyAll(op: Op, f: Field, ns: seq<nat>): (g: Field)
    requires f.Valid()
    ensures g.Valid() && f.maxbit <= g.maxbit && |f.box| <= |g.box|
    decreases |ns|
  {
    if ns == [] then f
    else Apply(op, ApplyAll(op, f, ns[..|ns| - 1]), ns[|ns| - 1])
  }

  /** Reading a sequence of bits changes none of them. */
  lemma {:induction false} ReadAllAt(f: Field, ns: seq<nat>, k: nat)
    requires f.Valid()
    ensures BitAt(ApplyAll(Read, f, ns).box, k) == BitAt(f.box, k)
    decreases |ns|
  {
    if ns != [] {
      var init, last := ns[..|ns| - 1], ns[|ns| - 1];
      ReadAllAt(f, init, k);
      if k == last {
        ApplyAtTarget(Read, ApplyAll(Read, f, init), last);
      } else {
        ApplyAtOthers(Read, ApplyAll(Read, f, init), last, k);
      }
    }
  }

  /** Setting a sequence of bits sets exactly the listed ones. */
  lemma {:induction false} SetAllAt(f: Field, ns: seq<nat>, k: nat)
    requires f.Valid()
    ensures BitAt(ApplyAll(Set, f, ns).box, k) == (k in ns || BitAt(f.box, k))
    decreases |ns|
  {
    if ns != [] {
      var init, last := ns[..|ns| - 1], ns[|ns| - 1];
      SetAllAt(f, init, k);
      assert ns == init + [last];
      if k == last {
        ApplyAtTarget(Set, ApplyAll(Set, f, init), last);
      } else {
        ApplyAtOthers(Set, ApplyAll(Set, f, init), last, k);
      }
    }
  }

  /** Clearing a sequence of bits clears exactly the listed ones. */
  lemma {:induction false} ClrAllAt(f: Field, ns: seq<nat>, k: nat)
    requires f.Valid()
    ensures BitAt(ApplyAll(Clr, f, ns).box, k) == (k !in ns && BitAt(f.box, k))
    decreases |ns|
  {
    if ns != [] {
      var init, last := ns[..|ns| - 1], ns[|ns| - 1];
      ClrAllAt(f, init, k);
      assert ns == init + [last];
      if k == last {
        ApplyAtTarget(Clr, ApplyAll(Clr, f, init), last);
      } else {
        ApplyAtOthers(Clr, ApplyAll(Clr, f, init), last, k);
      }
    }
  }

  /** How often index `k` occurs in `ns`. */
  function Occurrences(ns: seq<nat>, k: nat): (c: nat)
    ensures c <= |ns|
    ensures c == 0 <==> k !in ns
    decreases |ns|
  {
    if ns == [] then 0
    else Occurrences(ns[..|ns| - 1], k) + if ns[|ns| - 1] == k then 1 else 0
  }

  /** One more occurrence flips the parity, and so the toggled bit. */
  lemma ParityStep(bf: bool, b0: bool, c0: nat, b1: bool, c1: nat)
    requires b0 == (bf != (c0 % 2 == 1))
    requires c1 == c0 + 1 && b1 == !b0
    ensures b1 == (bf != (c1 % 2 == 1))
  {
  }

  lemma OccurrencesAppend(ns: seq<nat>, x: nat, k: nat)
    ensures Occurrences(ns + [x], k) == Occurrences(ns, k) + if x == k then 1 else 0
  {
    assert (ns + [x])[..|ns|] == ns;
  }

  /** Toggling a sequence of bits flips each bit once per occurrence of its index, so a
      bit listed an even number of times ends where it started. */
  lemma {:induction false} TglAllAt(f: Field, ns: seq<nat>, k: nat)
    requires f.Valid()
    ensures BitAt(ApplyAll(Tgl, f, ns).box, k) == (BitAt(f.box, k) != (Occurrences(ns, k) % 2 == 1))
    decreases |ns|
  {
    if ns != [] {
      var init, last := ns[..|ns| - 1], ns[|ns| - 1];
      var before := ApplyAll(Tgl, f, init);
      TglAllAt(f, init, k);
      if k == last {
        ApplyAtTarget(Tgl, before, last);
        ParityStep(BitAt(f.box, k), BitAt(before.box, k), Occurrences(init, k),
                   BitAt(ApplyAll(Tgl, f, ns).box, k), Occurrences(ns, k));
      } else {
        ApplyAtOthers(Tgl, before, last, k);
        assert Occurrences(ns, k) == Occurrences(init, k);
      }
    }
  }

  /** Reading any sequence of bits only grows the storage: the old bytes stay and
      every new byte is zero. */
  lemma {:induction false} ReadsOnlyGrow(f: Field, ns: seq<nat>)
    requires f.Valid()
    ensures |f.box| <= |ApplyAll(Read, f, ns).box|
    ensures ApplyAll(Read, f, ns).box[..|f.box|] == f.box
    ensures forall i | |f.box| <= i < |ApplyAll(Read, f, ns).box| :: ApplyAll(Read, f, ns).box[i] == 0
    decreases |ns|
  {
    if ns != [] {
      ReadsOnlyGrow(f, ns[..|ns| - 1]);
    }
  }

  /** `SetMaxBitNdx(n)`: the storage is replaced by `n / 8 + 1` zero bytes and `maxbit`
      becomes `n` itself (bits.go:207-212). */
  function Reset(n: nat): (f: Field)
    ensures f.Valid() && f.maxbit == n && |f.box| == n / 8 + 1
    ensures forall k: nat :: !BitAt(f.box, k)
  {
    Field(n, Zeros(n / 8 + 1))
  }

  /** Toggling a bit twice leaves the field as growth alone would. */
  lemma ToggleTwice(f: Field, n: nat)
    requires f.Valid()
    ensures Apply(Tgl, Apply(Tgl, f, n), n) == Extend(f, n)
  {
    var e, g := Extend(f, n), Apply(Tgl, f, n);
    var h := Apply(Tgl, g, n);
    var i, m := ByteOf(n), Mask(OffsetOf(n));
    assert Extend(g, n) == g;
    forall j | 0 <= j < |e.box|
      ensures h.box[j] == e.box[j]
    {
      if j == i {
        assert (e.box[i] ^ m) ^ m == e.box[i];
      }
    }
    assert h.box == e.box;
  }
}
