# BitField: a verified model of a growable packed bit array

This project models `bits.go`, the Go package `bits`. A `BitField` is a logical bit count `maxbit` plus a byte slice `bitbox`. Bit `n` lives in byte `n >> 3` under the mask `1 << (7 - n % 8)`, so bit 0 is the most significant bit of byte 0.

Every bit access runs a growth loop first, and that includes the read `Bit`. The loop appends zero bytes until `maxbit`, recomputed as `8 * len(bitbox)`, exceeds the index. On top of the four single-bit operations the package offers:

- bulk operations over an index list and over inclusive ranges;
- ascending queries for the set bits and the clear bits of a range;
- AND and OR reducers that reject an empty index list;
- hexadecimal and binary printing.

The model has two layers:

- **Value layer.** `FieldModel.Field(maxbit, box)` is a value with the invariant `8 * (|box| - 1) <= maxbit <= 8 * |box|`. Over it are defined:
  - `Extend`, the growth loop;
  - `Apply`, one bit access;
  - `ApplyAll`, a sequence of accesses;
  - `Select`, the range queries;
  - `AndResult`, `OrResult` and `Probed`, the reducers;
  - `HexForm` and `BinForm`, the printers.
- **Object layer.** `Bits.BitField` is a class with the fields `maxbit` and `bitbox`. Its methods update them in place with the same loops as the Go code. Each method is proved to leave exactly the state, and return exactly the result, that the value layer prescribes.

The value-layer lemmas state what the package promises:

- growth keeps every bit;
- each operation changes only its target bit;
- toggling twice restores the bit;
- the two queries partition a range;
- the reducers decide "every" and "some";
- the hex form reads back to the bytes.

Modules: `ByteOps` (bytes.dfy), `FieldModel` (field.dfy), `FieldQueries` (queries.dfy), `FieldFormat` (format.dfy), `Bits` (bitfield.dfy). Two more modules state the package's tests as proved facts: `Scenarios` (scenarios.dfy) on the value layer, and `Usage` (usage.dfy) as calls on the class.

Two consequences of the code are easy to miss.

- `maxbit` need not be a multiple of 8. `SetMaxBitNdx(n)` sets it to `n` itself and allocates `n / 8 + 1` bytes (bits.go:208-209). Only growth sets `maxbit` to `8 * len(bitbox)`. The invariant above therefore allows any value inside the last byte (`FieldModel.ValidShapes`).
- `HexString` and `String` print only the first `maxbit / 8` bytes (bits.go:147, 219). Right after `SetMaxBitNdx(n)` the last byte is therefore never printed (`FieldFormat.ResetHidesLastByte`). Once a bit access has grown the field, all of the storage is printed (`FieldFormat.GrownIsShown`).

## Model

| member | source | states |
|---|---|---|
| ByteOps.ByteOf | bits.go:59 | bit `n` lies in byte `i` with `8i <= n < 8i + 8` |
| ByteOps.OffsetOf | bits.go:60 | the position of bit `n` inside its byte is below 8, and `n = 8 * byte + position` |
| ByteOps.Mask | bits.go:61-62 | the mask of a position is a single set bit |
| ByteOps.MaskTable | bits.go:61-62 | the masks of positions 0 to 7 are `0x80` down to `0x01`: bit 0 of a byte is its most significant bit |
| ByteOps.MaskFromTop | bits.go:61-62 | the mask of position `p` is `0x80` shifted right by `p` |
| ByteOps.MasksDisjoint | bits.go:61-62 | masks of two different positions share no bit |
| ByteOps.MaskUpdates | bits.go:86 | `|=`, `&^=` and `^=` under the mask of position `p` set, clear or flip position `p` and keep every other position |
| ByteOps.HexDigit | bits.go:148 | the digit `%x` prints for a nibble is a lower-case hex digit |
| ByteOps.DigitValue | bits.go:148 | the value read back from a hex digit is a nibble |
| ByteOps.DigitValueInverse | bits.go:148 | printing the value of a hex digit gives that digit back |
| ByteOps.DigitRoundTrip | bits.go:148 | reading back the digit printed for a nibble gives that nibble |
| ByteOps.Hex2 | bits.go:148 | `%02x` of a byte is two hex digits whose values, high nibble first, make up the byte |
| ByteOps.BinDigit | bits.go:220 | binary digit `p` of a byte is `'1'` exactly when the byte has position `p` set |
| ByteOps.Bin8 | bits.go:220 | `%08b` of a byte has 8 characters; character `p` is `'1'` exactly when position `p` is set |
| FieldModel.Field.Valid | bits.go:207-212 | the storage invariant: `maxbit` lies in the last byte of storage; it holds after `SetMaxBitNdx` (`Reset`), after growth (`Extend`) and after every access (`Apply`, `ApplyAll`) |
| FieldModel.ValidShapes | bits.go:47-58 | a field is valid exactly when it has `maxbit / 8 + 1` bytes, as `SetMaxBitNdx` allocates, or `maxbit / 8` bytes with `maxbit` a multiple of 8, as growth leaves it; every bit below `maxbit` then has a byte |
| FieldModel.BitAt | bits.go:63 | the bit test `bitbox[n >> 3] & mask != 0`; a bit beyond the storage reads false, the value growth zero-fills it with |
| FieldModel.BitAtShifted | bits.go:59-63 | the mask test agrees with shifting the byte right by `7 - n % 8` and testing its lowest bit |
| FieldModel.Empty | bits.go:19-26 | the zero value: no storage, `maxbit` 0, satisfies the invariant |
| FieldModel.Zeros | bits.go:49 | `k` zero bytes |
| FieldModel.GrownLength | bits.go:47-58 | the loop's final length is above the old one, its bit count exceeds `n`, and it is the first such length |
| FieldModel.Extend | bits.go:47-58 | growth keeps the invariant, ends with `maxbit > n`, keeps the old bytes as a prefix, appends only zeros, sets `maxbit = 8 * length`, and changes nothing when `n < maxbit` |
| FieldModel.ExtendKeepsBits | bits.go:47-58 | growth keeps the value of every bit |
| FieldModel.UpdateByte | bits.go:86 | the in-place byte update of each operation (`&^=` for clear, `|=` for set at bits.go:185, `^=` for toggle at bits.go:243) changes no bit outside the mask |
| FieldModel.UpdateByteAt | bits.go:59-63 | the byte update of an operation gives the target position its new value and keeps the others |
| FieldModel.Apply | bits.go:46-63 | one bit access: the state grows as `Extend` says, and only byte `n >> 3` differs, by that operation's update under the mask of `n` |
| FieldModel.ApplyAtTarget | bits.go:67-87 | after the access, bit `n` holds the operation's new value: read keeps it, set makes it true, clear false, toggle flips it |
| FieldModel.ApplyAtOthers | bits.go:168-186 | an access to bit `n` leaves every other bit as it was |
| FieldModel.ReadInside | bits.go:46-64 | a read below `maxbit` leaves the state unchanged |
| FieldModel.ApplyAll | bits.go:90-94 | the accesses of a list in order keep the invariant and never shrink the field |
| FieldModel.ReadAllAt | bits.go:37-41 | a run of reads changes no bit |
| FieldModel.SetAllAt | bits.go:189-193 | after setting a list, bit `k` is set exactly when `k` is listed or was set |
| FieldModel.ClrAllAt | bits.go:90-94 | after clearing a list, bit `k` is set exactly when `k` is unlisted and was set |
| FieldModel.TglAllAt | bits.go:247-251 | after toggling a list, bit `k` is flipped exactly when `k` is listed an odd number of times |
| FieldModel.Occurrences | bits.go:247-251 | the count of `k` in a list is zero exactly when `k` is not listed |
| FieldModel.ReadsOnlyGrow | bits.go:46-58 | a run of reads keeps the old bytes as a prefix and appends only zeros |
| FieldModel.Reset | bits.go:207-212 | `SetMaxBitNdx(n)`: `maxbit = n`, `n / 8 + 1` bytes, no bit set, invariant holds |
| FieldModel.ToggleTwice | bits.go:226-244 | toggling bit `n` twice leaves the grown field unchanged |
| FieldQueries.Range | bits.go:97-101 | the indices `lo, lo + 1, ..., hi` the range loops visit, empty when `hi < lo` |
| FieldQueries.ApplyEmptyRange | bits.go:196-200 | a range with `hi < lo` does nothing |
| FieldQueries.RangeOccurrences | bits.go:254-258 | every index of `[lo, hi]` is visited exactly once and no other index is visited |
| FieldQueries.RangeAt | bits.go:196-200 | after a range operation every bit in `[lo, hi]` holds the operation's new value and every bit outside keeps its value |
| FieldQueries.Select | bits.go:261-269 | the query result lies in `[lo, hi]` and is strictly ascending |
| FieldQueries.SelectMembers | bits.go:132-140 | `k` is in the query result exactly when `lo <= k <= hi` and bit `k` has the wanted value |
| FieldQueries.SelectPartition | bits.go:132-140 | true and false results are disjoint, together cover exactly `[lo, hi]`, and their lengths add up to the range length |
| FieldQueries.Scan | bits.go:37-41 | the first position of the list whose bit equals the stop value; all earlier ones differ |
| FieldQueries.ScanStops | bits.go:159-163 | the scan stops at the one position before which no bit decides and at which one does |
| FieldQueries.Probed | bits.go:37-41 | a reducer reads up to and including the first deciding index, or the whole list when none decides; at least one index for a non-empty list |
| FieldQueries.AndResult | bits.go:32-43 | an empty list gives `(false, NonEmptySliceRequired)`, the package's one error value `errNonEmptySliceRequired` (bits.go:28, `FieldQueries.Error`); otherwise no error, and true exactly when every listed bit is set |
| FieldQueries.OrResult | bits.go:154-165 | an empty list gives `(false, NonEmptySliceRequired)`; otherwise no error, and true exactly when some listed bit is set |
| FieldFormat.Shown | bits.go:145-151 | the printers walk `maxbit / 8` bytes: a prefix of the storage, the whole of it exactly when `maxbit = 8 * length`, otherwise one byte short |
| FieldFormat.ShownBits | bits.go:217-223 | the printed bytes carry the field's bits |
| FieldFormat.HexOf | bits.go:145-151 | `%02x` of each byte, concatenated: twice as many characters as bytes, all hex digits |
| FieldFormat.UnHex | bits.go:145-151 | reading back hex digit pairs gives half as many bytes as characters |
| FieldFormat.HexRoundTrip | bits.go:145-151 | reading back the hex form gives the bytes |
| FieldFormat.UnHexRoundTrip | bits.go:145-151 | every even-length string of lower-case hex digits is the hex form of the bytes it reads back to |
| FieldFormat.Hex2OfDigits | bits.go:148 | printing the byte of two hex digits gives those two digits |
| FieldFormat.BinOf | bits.go:217-223 | `%08b` of each byte, concatenated: character `k` is `'1'` exactly when bit `k` is set |
| FieldFormat.HexForm | bits.go:145-151 | `HexString` has `2 * (maxbit / 8)` hex digits and reads back to the printed bytes |
| FieldFormat.BinForm | bits.go:217-223 | `String` has `8 * (maxbit / 8)` characters; character `k` is `'1'` exactly when bit `k` is set |
| FieldFormat.ResetHidesLastByte | bits.go:207-223 | after `SetMaxBitNdx(n)` both printers show `n / 8` bytes, one fewer than the storage holds |
| FieldFormat.GrownIsShown | bits.go:47-58 | after an access that grew the field, the printers show all of the storage |
| Bits.BitField.constructor | bits.go:19-26 | a new field is the zero value |
| Bits.BitField.Grow | bits.go:47-58 | the in-place growth loop leaves the state `Extend(old state, n)` |
| Bits.BitField.Bit | bits.go:46-64 | returns bit `n` as it was, and leaves the grown state `Apply(Read, old state, n)` |
| Bits.BitField.ClrBit | bits.go:67-87 | leaves the state `Apply(Clr, old state, n)` |
| Bits.BitField.SetBit | bits.go:168-186 | leaves the state `Apply(Set, old state, n)` |
| Bits.BitField.TglBit | bits.go:226-244 | leaves the state `Apply(Tgl, old state, n)` |
| Bits.BitField.ClrBits | bits.go:90-94 | leaves the state `ApplyAll(Clr, old state, many)` |
| Bits.BitField.SetBits | bits.go:189-193 | leaves the state `ApplyAll(Set, old state, many)` |
| Bits.BitField.TglBits | bits.go:247-251 | leaves the state `ApplyAll(Tgl, old state, many)` |
| Bits.BitField.ClrLoHi | bits.go:97-101 | leaves the state `ApplyAll(Clr, old state, Range(lo, hi))` |
| Bits.BitField.SetLoHi | bits.go:196-200 | leaves the state `ApplyAll(Set, old state, Range(lo, hi))` |
| Bits.BitField.TglLoHi | bits.go:254-258 | leaves the state `ApplyAll(Tgl, old state, Range(lo, hi))` |
| Bits.BitField.TrueBitsLoHi | bits.go:261-269 | returns the set bits of `[lo, hi]` as they were, ascending, and leaves the state grown by reads of the range |
| Bits.BitField.FalseBitsLoHi | bits.go:132-140 | returns the clear bits of `[lo, hi]` as they were, ascending, and leaves the state grown by reads of the range |
| Bits.BitField.AndBitsByNdx | bits.go:32-43 | returns `AndResult` of the bits as they were, and leaves the state of reading only the probed prefix of the list |
| Bits.BitField.OrBitsByNdx | bits.go:154-165 | returns `OrResult` of the bits as they were, and leaves the state of reading only the probed prefix of the list |
| Bits.BitField.SetMaxBitNdx | bits.go:207-212 | leaves the state `Reset(n)` |
| Bits.BitField.HexString | bits.go:145-151 | returns `HexForm` of the state and changes nothing |
| Bits.BitField.String | bits.go:217-223 | returns `BinForm` of the state and changes nothing |
| Scenarios.SampleFieldState | bits_test.go:103-107 | `SetMaxBitNdx(10)` then setting 0, 2, 4 and 16 gives `maxbit` 24 and the bytes `a8 00 80` |
| Scenarios.SampleHex | bits_test.go:106-112 | that field's `HexString` is `"a80080"` |
| Scenarios.SampleBinary | bits_test.go:113-116 | that field's `String` is `"101010000000000010000000"` |
| Scenarios.SampleOr | bits_test.go:134-150 | `Or{3,7,5}` is false and `Or{3,7,5,2}` is true, without error |
| Scenarios.SampleAnd | bits_test.go:152-168 | `And{1,2,3}` is false and `And{2,4,0}` is true, without error |
| Scenarios.ClearedHasNoTrueBits | bits_test.go:91-97 | clearing the bits just set leaves `TrueBitsLoHi(0, 16)` empty |
| Scenarios.RangeSetClearToggle | bits_test.go:175-204 | after `SetMaxBitNdx(31)`, `SetLoHi(0, 31)` sets bits 0 to 31, `ClrLoHi` clears them, `TglLoHi` sets them again |
| Scenarios.Units | bits_test.go:222-225 | the storage the test expects for bit `k`: the least `u` with `k < 8u` |
| Scenarios.SelfExtending | bits_test.go:211-234 | setting bits 0 to `k` of an empty field leaves `ceil((k + 1) / 8)` bytes, all printed, so `HexString` has twice that many characters |
| Usage.SetAndClear | bits_test.go:18-49 | on the class: after `SetMaxBitNdx(10)` and `SetBit(0)`, bit 0 reads true, bit 1 false, bit 9 true after `SetBit(9)` and false after `ClrBit(9)` |
| Usage.SetToggleClear | bits_test.go:51-77 | on the class: after `SetBits({4, 12})`, bit 12 reads true, false after one `TglBit`, true after a second, false after `ClrBit` |

## Left out

- Console output: every `fmt.Printf` under the `verbose` flag, and `Dump` and `DumpLoHi` (bits.go:103-129), which only print. Their one effect on state, growth through `Bit`, is the modelled `Bit`.
- `SetName` and the `name` field (bits.go:203-205): only the dump routines use them.
- Negative indices and a negative `SetMaxBitNdx` argument: every index and bit count is a `nat`, and a range needs `0 <= lo` unless it is empty. In the source, a negative index that is actually read makes `n >> 3` address byte -1, and the program panics. A negative index the source never reads is excluded too. One example is an entry after the deciding one in `AndBitsByNdx` or `OrBitsByNdx`, which return at the first deciding index (bits.go:38-39, 160-161): `AndBitsByNdx({1, -5})` with bit 1 clear returns `(false, nil)` in Go but is outside the model's `seq<nat>`.
- Go's address arithmetic `byteNum := n >> 3; n -= byteNum << 3; bitPos <<= uint(7 - n)` on a 64-bit `int` (bits.go:59-62) is written on unbounded naturals as `ByteOf(n) = n / 8`, `OffsetOf(n) = n - 8 * ByteOf(n)` and `Mask`. The two agree for every non-negative `int`, but the model does not prove that agreement on 64-bit words.
- `fmt.Sprintf` is replaced by the digit functions `Hex2` and `Bin8`. A byte is a `bv8`, the Go `uint8`. Go `int` indices are unbounded integers here; the source's overflow of `len(bitbox) << 3` on huge indices is not modelled.
- The capacity hint of `make([]int, 0, b.maxbit)` (bits.go:133, 262), slice reallocation and aliasing of the returned slices, the `license` variable, and the benchmarks.
- The four copies of the growth loop (in `Bit`, `ClrBit`, `SetBit` and `TglBit`) are modelled once, as `Bits.BitField.Grow`. Each of the four methods calls it.
- The range loops and the two queries each split into an outer method and a `...Loop` method. The outer method handles the empty range; the `...Loop` method runs the same `for i := lo; i <= hi; i++` loop over a non-empty one.
- Usage.SetAndClear: the reads of bits 0 and 1 and the set-then-clear of bit 9 run in two helper methods, `ReadFirstTwo` and `SetThenClear`. Both act on the same field object, in the order of the test.
