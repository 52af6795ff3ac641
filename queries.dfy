/**
 The index lists the bulk operations walk (inclusive ranges), the two range queries
 `TrueBitsLoHi` and `FalseBitsLoHi`, and the AND/OR reducers with their one error,
 `errNonEmptySliceRequired`.
 */
module FieldQueries {
  import opened ByteOps
  import opened FieldModel

  /** The indices `lo, lo + 1, ..., hi` that the Go loop `for i := lo; i <= hi; i++` visits;
      empty when `lo > hi`. A negative `lo` is allowed only for an empty range. */
  function Range(lo: int, hi: int): (r: seq<nat>)
    requires 0 <= lo || hi < lo
    ensures |r| == if hi < lo then 0 else hi - lo + 1
    ensures forall i | 0 <= i < |r| :: r[i] == lo + i
  {
    var len := if hi < lo then 0 else hi - lo + 1;
    seq(len, i requires 0 <= i < len => lo + i)
  }

  /** The range up to `hi` is the range up to `hi - 1` followed by `hi`: one more loop turn. */
  lemma RangeSnoc(lo: int, hi: int)
    requires 0 <= lo <= hi
    ensures |Range(lo, hi)| == |Range(lo, hi - 1)| + 1
    ensures Range(lo, hi)[..|Range(lo, hi)| - 1] == Range(lo, hi - 1)
    ensures Range(lo, hi)[|Range(lo, hi)| - 1] == hi
  {
    assert Range(lo, hi) == Range(lo, hi - 1) + [hi];
  }

  /** Where a loop `for i := lo; i <= hi; i++` over a non-empty range stops, it has
      visited exactly `[lo, hi]`. */
  lemma LoopDone(box: seq<byte>, lo: nat, hi: int, i: int)
    requires lo <= hi && i == hi + 1
    ensures Range(lo, i - 1) == Range(lo, hi)
    ensures forall want: bool :: Select(box, lo, i - 1, want) == Select(box, lo, hi, want)
  {
  }

  /** An empty range changes nothing. */
  lemma ApplyEmptyRange(op: Op, f: Field, lo: int, hi: int)
    requires f.Valid() && hi < lo
    ensures ApplyAll(op, f, Range(lo, hi)) == f
  {
  }

  /** One more turn of a range loop applies the operation to `hi` last. */
  lemma ApplyRangeStep(op: Op, f: Field, lo: int, hi: int)
    requires f.Valid() && 0 <= lo <= hi
    ensures ApplyAll(op, f, Range(lo, hi)) == Apply(op, ApplyAll(op, f, Range(lo, hi - 1)), hi)
  {
    RangeSnoc(lo, hi);
  }

  /** One more read of a listed index: the bit it sees is the original one. */
  lemma ReadStep(f: Field, many: seq<nat>, i: nat)
    requires f.Valid() && i < |many|
    ensures ApplyAll(Read, f, many[..i + 1]) == Apply(Read, ApplyAll(Read, f, many[..i]), many[i])
    ensures BitAt(ApplyAll(Read, f, many[..i]).box, many[i]) == BitAt(f.box, many[i])
  {
    assert many[..i + 1][..i] == many[..i];
    ReadAllAt(f, many[..i], many[i]);
  }

  /** Every index of `[lo, hi]` occurs in the range exactly once, and no other index occurs. */
  lemma {:induction false} RangeOccurrences(lo: int, hi: int, k: nat)
    requires 0 <= lo || hi < lo
    ensures Occurrences(Range(lo, hi), k) == if lo <= k <= hi then 1 else 0
    decreases if hi < lo then 0 else hi - lo + 1
  {
    if lo <= hi {
      RangeOccurrences(lo, hi - 1, k);
      var below := Range(lo, hi - 1);
      assert Range(lo, hi) == below + [hi];
      OccurrencesAppend(below, hi, k);
    }
  }

  /** A range operation applies the single-bit operation once to every index of `[lo, hi]`
      and to no other (bits.go:96-101, 195-200, 253-258). */
  lemma RangeAt(op: Op, f: Field, lo: int, hi: int, k: nat)
    requires f.Valid()
    requires 0 <= lo || hi < lo
    ensures BitAt(ApplyAll(op, f, Range(lo, hi)).box, k)
         == if lo <= k <= hi then NewBit(op, BitAt(f.box, k)) else BitAt(f.box, k)
  {
    var r := Range(lo, hi);
    RangeOccurrences(lo, hi, k);
    assert k in r <==> lo <= k <= hi;
    match op
    case Read => ReadAllAt(f, r, k);
    case Set => SetAllAt(f, r, k);
    case Clr => ClrAllAt(f, r, k);
    case Tgl =>
      TglAllAt(f, r, k);
      OddAtMostOne(Occurrences(r, k));
  }

  /** A count of at most one is odd exactly when it is one. */
  lemma OddAtMostOne(c: nat)
    requires c <= 1
    ensures (c % 2 == 1) == (c == 1)
  {
  }

  /** The indices of `[lo, hi]` whose bit equals `want`, ascending: `TrueBitsLoHi` for
      `want` true and `FalseBitsLoHi` for `want` false (bits.go:132-140, 261-269). */
  function Select(box: seq<byte>, lo: int, hi: int, want: bool): (r: seq<nat>)
    requires 0 <= lo || hi < lo
    ensures forall i | 0 <= i < |r| :: lo <= r[i] <= hi
    ensures forall i, j | 0 <= i < j < |r| :: r[i] < r[j]
    decreases if hi < lo then 0 else hi - lo + 1
  {
    if hi < lo then []
    else Select(box, lo, hi - 1, want) + if BitAt(box, hi) == want then [hi] else []
  }

  /** One more turn of a query loop appends `hi` when its bit equals `want`. */
  lemma SelectSnoc(box: seq<byte>, lo: int, hi: int, want: bool)
    requires 0 <= lo <= hi
    ensures Select(box, lo, hi, want) == Select(box, lo, hi - 1, want) + if BitAt(box, hi) == want then [hi] else []
  {
  }

  /** An index is selected exactly when it lies in the range and its bit equals `want`. */
  lemma {:induction false} SelectMembers(box: seq<byte>, lo: int, hi: int, want: bool, k: nat)
    requires 0 <= lo || hi < lo
    ensures k in Select(box, lo, hi, want) <==> lo <= k <= hi && BitAt(box, k) == want
    decreases if hi < lo then 0 else hi - lo + 1
  {
    if lo <= hi {
      SelectMembers(box, lo, hi - 1, want, k);
      var below := Select(box, lo, hi - 1, want);
      var top: seq<nat> := if BitAt(box, hi) == want then [hi] else [];
      assert Select(box, lo, hi, want) == below + top;
      assert k in below + top <==> k in below || k in top;
    }
  }

  /** The true and the false indices of a range split it: every index of the range is in
      exactly one of them, so their lengths add up to the length of the range. */
  lemma SelectPartition(box: seq<byte>, lo: int, hi: int)
    requires 0 <= lo || hi < lo
    ensures forall k: nat :: k in Select(box, lo, hi, true) || k in Select(box, lo, hi, false) <==> lo <= k <= hi
    ensures forall k: nat :: !(k in Select(box, lo, hi, true) && k in Select(box, lo, hi, false))
    ensures |Select(box, lo, hi, true)| + |Select(box, lo, hi, false)| == |Range(lo, hi)|
  {
    forall k: nat
      ensures k in Select(box, lo, hi, true) <==> lo <= k <= hi && BitAt(box, k)
      ensures k in Select(box, lo, hi, false) <==> lo <= k <= hi && !BitAt(box, k)
    {
      SelectMembers(box, lo, hi, true, k);
      SelectMembers(box, lo, hi, false, k);
    }
    SelectLengths(box, lo, hi);
  }

  lemma {:induction false} SelectLengths(box: seq<byte>, lo: int, hi: int)
    requires 0 <= lo || hi < lo
    ensures |Select(box, lo, hi, true)| + |Select(box, lo, hi, false)| == if hi < lo then 0 else hi - lo + 1
    decreases if hi < lo then 0 else hi - lo + 1
  {
    if lo <= hi {
      SelectLengths(box, lo, hi - 1);
      SelectStep(box, lo, hi);
    }
  }

  /** Extending a range by its top index adds that index to exactly one of the two selections. */
  lemma SelectStep(box: seq<byte>, lo: int, hi: int)
    requires 0 <= lo <= hi
    ensures |Select(box, lo, hi, true)| + |Select(box, lo, hi, false)|
         == |Select(box, lo, hi - 1, true)| + |Select(box, lo, hi - 1, false)| + 1
  {
  }

  /** The position in `many` of the first index whose bit equals `stopOn`, or `|many|` if
      there is none: where the reducer loops return early. */
  function Scan(box: seq<byte>, many: seq<nat>, stopOn: bool): (r: nat)
    ensures r <= |many|
    ensures forall i | 0 <= i < r :: BitAt(box, many[i]) != stopOn
    ensures r < |many| ==> BitAt(box, many[r]) == stopOn
  {
    if many == [] then 0
    else if BitAt(box, many[0]) == stopOn then 0
    else 1 + Scan(box, many[1..], stopOn)
  }

  /** A scan stops at the first index whose bit equals `stopOn`. */
  lemma ScanStops(box: seq<byte>, many: seq<nat>, stopOn: bool, i: nat)
    requires i <= |many|
    requires forall j | 0 <= j < i :: BitAt(box, many[j]) != stopOn
    requires i < |many| ==> BitAt(box, many[i]) == stopOn
    ensures Scan(box, many, stopOn) == i
  {
  }

  /** A scan that has not stopped before index `i` goes past it unless `many[i]` decides. */
  lemma ScanPast(box: seq<byte>, many: seq<nat>, stopOn: bool, i: nat)
    requires i < |many| && i <= Scan(box, many, stopOn)
    ensures BitAt(box, many[i]) != stopOn <==> i < Scan(box, many, stopOn)
  {
  }

  /** How many indices a reducer reads before it returns: up to and including the first
      deciding one; all of them if none decides. */
  function Probed(box: seq<byte>, many: seq<nat>, stopOn: bool): (r: nat)
    ensures r <= |many| && (|many| > 0 ==> r > 0)
    ensures forall i | 0 <= i < r - 1 :: BitAt(box, many[i]) != stopOn
    ensures r < |many| ==> BitAt(box, many[r - 1]) == stopOn
  {
    var s := Scan(box, many, stopOn);
    if s < |many| then s + 1 else |many|
  }

  /** A reducer that meets a deciding bit at `i` has read `i + 1` indices. */
  lemma ProbedStops(box: seq<byte>, many: seq<nat>, stopOn: bool, i: nat)
    requires i < |many| && i <= Scan(box, many, stopOn) && BitAt(box, many[i]) == stopOn
    ensures Probed(box, many, stopOn) == i + 1
  {
  }

  /** A reducer that meets no deciding bit has read all the indices. */
  lemma ProbedAll(box: seq<byte>, many: seq<nat>, stopOn: bool)
    requires |many| <= Scan(box, many, stopOn)
    ensures Probed(box, many, stopOn) == |many|
    ensures many[..Probed(box, many, stopOn)] == many
  {
  }

  /** The one error of the package (bits.go:28). */
  datatype Error = NonEmptySliceRequired

  datatype Option<T> = None | Some(value: T)

  /** `AndBitsByNdx`: an empty slice is an error; otherwise whether every listed bit is set
      (bits.go:32-43). */
  function AndResult(box: seq<byte>, many: seq<nat>): (r: (bool, Option<Error>))
    ensures |many| == 0 ==> r == (false, Some(NonEmptySliceRequired))
    ensures |many| > 0 ==> r.1 == None && (r.0 <==> forall i | 0 <= i < |many| :: BitAt(box, many[i]))
  {
    if |many| == 0 then (false, Some(NonEmptySliceRequired))
    else (Scan(box, many, false) == |many|, None)
  }

  /** `OrBitsByNdx`: an empty slice is an error; otherwise whether some listed bit is set
      (bits.go:154-165). */
  function OrResult(box: seq<byte>, many: seq<nat>): (r: (bool, Option<Error>))
    ensures |many| == 0 ==> r == (false, Some(NonEmptySliceRequired))
    ensures |many| > 0 ==> r.1 == None && (r.0 <==> exists i | 0 <= i < |many| :: BitAt(box, many[i]))
  {
    if |many| == 0 then (false, Some(NonEmptySliceRequired))
    else (Scan(box, many, true) < |many|, None)
  }
}
