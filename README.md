# struct-diff-iter, modelled in Dafny

A model of a field-level structural diff for Rust values. Two values of the
same struct or enum type are compared, and the diff yields one difference
record (`DiffData`) per leaf that differs. Each record holds a dotted path
(`field1.field2`, `field3.Three.field`) and the two values found at that path.

The model has eight modules, one of which (`Wrappers`, wrappers.dfy) only
holds the `Option` and `Result` datatypes:

- `FieldIdentifiers` (field_identifier.dfy): the path accumulator
  `FieldIdentifier`, a class over a `seq<string>` storage.
  - `Push` appends one label at the tail.
  - `Fmt` (`Debug::fmt`) and `ToString` (`to_string`) walk the storage
    backwards in a loop. They are proved to produce `Render(storage)`, the
    storage reversed and joined with `"."`.
  - The capacity arithmetic of `to_string` is modelled in `usize` terms,
    including its underflow on an empty identifier. Lengths count
    characters rather than bytes (see "Left out").
- `DiffProtocol` (diff_protocol.dfy): values (`u64` leaves, struct values and
  enum values) and the `DiffData` record.
  - `DiffData::push_field` is `PushField`; the `u64` base case is `U64Diff`.
  - The `.chain(..)` of per-field iterators is `Chain`.
  - A lazy iterator is modelled by the finite sequence of the records it yields, in order.
- `Derive` (derive.dfy): the meaning of the code `#[derive(LazyDiff)]`
  generates.
  - A type's shape is a `Ty` (built from `syn`'s `Fields`/`Variant`/`Data`).
  - Union rejection is `ImplStructDiffIter`.
  - The diff the generated impl computes is the recursive function `Diff`.
- `DeriveProperties` (derive_properties.dfy): the laws of `Diff`. These are:
  - empty exactly when the values are equal;
  - every record's path leads, in both values, to the two differing values it holds;
  - records come in field declaration order;
  - the outermost label is the field's label, or `"Variant.field"` for enums;
  - the unit-struct and unit-variant cases, and the variant-mismatch short-circuit.
- `DeriveCompleteness` (derive_completeness.dfy): the converse of soundness.
  Every leaf difference between the two values is reported, by exactly one
  record, and no two records share a path.
- `DeriveExamples` (derive_examples.dfy): the shapes and scenarios of
  tests/tests.rs. Each is proved for all values of the changed numbers, not
  only the ones the tests use.
- `HandWritten` (hand_written.dfy): the hand-written impls in src/lib.rs,
  which are `MyEnum` and the partial `MyOuterType`. Both are compared with
  the derive.

The two internal crates, lazy-struct-diff-internal and
struct-diff-iter-internal, hold the same `DiffData` record,
`FieldIdentifier::{new, push}`, `Debug::fmt` and `u64` impl. These are
modelled once, and the table cites one copy. The crates differ in three
ways:

- the trait method is named `lazy_diff_iter` in one and `struct_diff_iter`
  in the other;
- `DiffData::push_field` exists only in lazy-struct-diff-internal;
- `ToString` exists only in struct-diff-iter-internal.

## Model

| member | source | states |
|---|---|---|
| `FieldIdentifiers.FieldIdentifier.constructor` | lazy-struct-diff-internal/src/lib.rs:23-27 | `new()` has no labels and renders as the empty string |
| `FieldIdentifiers.FieldIdentifier.Push` | lazy-struct-diff-internal/src/lib.rs:29-31 | appends exactly one label at the tail; the earlier labels are unchanged; the new label is rendered first, followed by `"."` and the old rendering if the old storage was non-empty |
| `FieldIdentifiers.FieldIdentifier.Fmt` | lazy-struct-diff-internal/src/lib.rs:34-45 | the backwards loop with its `delimiter` appends to the formatter exactly the storage reversed and joined with `"."` (the copy in struct-diff-iter-internal/src/lib.rs:45-57 is identical) |
| `FieldIdentifiers.FieldIdentifier.WriteReversed` | struct-diff-iter-internal/src/lib.rs:34-41 | the loop of `to_string` builds exactly the reversed storage joined by `"."`, which is the same text `Fmt` writes |
| `FieldIdentifiers.FieldIdentifier.ToString` | struct-diff-iter-internal/src/lib.rs:31-43 | `to_string` as written: it panics exactly when the storage is empty; otherwise it returns the text `Fmt` writes, and the reserved capacity equals that text's length |
| `FieldIdentifiers.FieldIdentifier.ToStringCorrected` | struct-diff-iter-internal/src/lib.rs:31-43 | with the capacity guarded, `to_string` is total, equals the `Debug` rendering, and its length equals the reserved capacity |
| `FieldIdentifiers.Render` | lazy-struct-diff-internal/src/lib.rs:34-45 | the text of an identifier, its storage reversed and joined with `"."`; its laws are the `Render*` rows below |
| `FieldIdentifiers.RenderEmpty` | lazy-struct-diff-internal/src/lib.rs:34-45 | an empty identifier renders as the empty string |
| `FieldIdentifiers.RenderSingle` | lazy-struct-diff-internal/src/lib.rs:37-41 | a one-label identifier renders as that label, with no leading delimiter |
| `FieldIdentifiers.RenderPush` | lazy-struct-diff-internal/src/lib.rs:37-43 | after a push the last-pushed label is read first: push "b" then "a" renders "a.b" |
| `FieldIdentifiers.RenderLength` | struct-diff-iter-internal/src/lib.rs:32-41 | a non-empty identifier's text is as long as the sum of the label lengths plus one less than the label count |
| `FieldIdentifiers.ReservedCapacity` | struct-diff-iter-internal/src/lib.rs:32-33 | `len + storage.len() - 1` in `usize` underflows exactly on empty storage; otherwise it is the exact length of the rendered text |
| `FieldIdentifiers.Capacity` | struct-diff-iter-internal/src/lib.rs:32-33 | the guarded capacity is the exact length of the rendered text for every storage |
| `FieldIdentifiers.EmptyToStringPanics` | struct-diff-iter-internal/src/lib.rs:33 | the empty identifier, whose text is `""`, makes the capacity arithmetic underflow |
| `DiffProtocol.PushField` | lazy-struct-diff-internal/src/lib.rs:11-16 | `push_field` keeps both referenced values and appends the label to the record's path, which then renders with the label in front |
| `DiffProtocol.PushEach` | struct-diff-iter-derive/src/lib.rs:37 | `update(\|x\| x.field.push(label))` keeps the number and order of the records and pushes the label onto each one |
| `DiffProtocol.U64Diff` | lazy-struct-diff-internal/src/lib.rs:52-63 | the `u64` base case (also struct-diff-iter-internal/src/lib.rs:64-75) yields nothing exactly when the values are equal, and at most one record, with an empty path, referring to `self` and `other` |
| `DiffProtocol.Chain` | struct-diff-iter-derive/src/lib.rs:35-43 | the `.chain(..)` of the per-field iterators holds every record of every part |
| `DiffProtocol.ChainEmpty` | struct-diff-iter-derive/src/lib.rs:35-43 | a chain of field iterators is empty exactly when every part is |
| `Derive.ImplStructDiffIter` | struct-diff-iter-derive/src/lib.rs:166-176 | structs and enums get an impl of their own shape; a union, and only a union, is rejected with the source's panic message |
| `Derive.Decimal` | struct-diff-iter-derive/src/lib.rs:33 | `syn::Index::from(i)` prints a non-empty string of decimal digits, with no leading zero (0 prints as `"0"`), that reads back as `i` |
| `Derive.FieldLabel` | struct-diff-iter-derive/src/lib.rs:28-34 | a named field is labelled by its identifier; a tuple field by a string that reads back as its position |
| `Derive.Labels` | struct-diff-iter-derive/src/lib.rs:28-34 | one label per field, in order; a named field's label is its identifier, and a tuple field's label reads back as its position |
| `Derive.QualifiedLabel` | struct-diff-iter-derive/src/lib.rs:111 | `format!("{}.{}", ..)` gives the variant name, then `"."`, then the field label, and nothing else |
| `Derive.VariantLabels` | struct-diff-iter-derive/src/lib.rs:102-111 | one label per field of the variant; label `i` starts with the variant name and `"."` and continues with field `i`'s plain label |
| `Derive.FieldDiffs` | struct-diff-iter-derive/src/lib.rs:35-43 | part `j` is field `j`'s records with its label pushed, so every record of part `j` has that label outermost |
| `Derive.Diff` | struct-diff-iter-derive/src/lib.rs:11-164 | the generated `lazy_diff_iter`, as a recursive function with no contract of its own; its laws are the `DeriveProperties` and `DeriveCompleteness` rows |
| `DeriveProperties.LabelsDistinct` | struct-diff-iter-derive/src/lib.rs:28-34 | the labels of the fields of a well-formed struct or variant are pairwise different |
| `DeriveProperties.VariantLabelsDistinct` | struct-diff-iter-derive/src/lib.rs:102-111 | the `"Variant.field"` labels of one variant are pairwise different |
| `DeriveProperties.DiffLocates` | struct-diff-iter-derive/src/lib.rs:11-164 | every record of a derived diff is sound: its path, read outer-to-inner, leads in the left value and in the right value to exactly the two values it holds, and those are a leaf difference: two different `u64`s, or values of two different variants |
| `DeriveProperties.DiffEmptyIffEqual` | struct-diff-iter-derive/src/lib.rs:11-164 | a derived diff is empty exactly when the two values are equal |
| `DeriveProperties.DiffSelfEmpty` | struct-diff-iter-derive/src/lib.rs:11-164 | diffing a value against itself yields nothing |
| `DeriveProperties.StructDiffOrder` | struct-diff-iter-derive/src/lib.rs:35-51 | a struct's records are those of the fields before `k`, then field `k`'s own records each with field `k`'s label pushed, then those of the fields after `k` |
| `DeriveProperties.EnumDiffOrder` | struct-diff-iter-derive/src/lib.rs:111-119 | a same-variant diff's records are those of the fields before `k`, then field `k`'s own records each with its `"Variant.field"` label pushed, then those of the fields after `k` |
| `DeriveProperties.StructRecordPath` | struct-diff-iter-derive/src/lib.rs:28-43 | every record of a struct diff has one of the struct's field labels as its outermost label, so its path renders as that label, `"."`, then the inner path |
| `DeriveProperties.EnumRecordPath` | struct-diff-iter-derive/src/lib.rs:102-121 | every record of a same-variant diff has a single `"Variant.field"` label of that variant as its outermost label |
| `DeriveProperties.UnitVariantEmpty` | struct-diff-iter-derive/src/lib.rs:138-140 | two values of the same unit variant are equal and yield nothing |
| `DeriveProperties.VariantMismatch` | struct-diff-iter-derive/src/lib.rs:150-157 | different variants yield exactly one record, with an empty path, over the two whole values, whatever their fields hold |
| `DeriveProperties.UnitStructEmpty` | struct-diff-iter-derive/src/lib.rs:16-25 | a unit struct yields nothing, unconditionally |
| `DeriveCompleteness.SharedVariantLabel` | struct-diff-iter-derive/src/lib.rs:102-111 | two different variants never share a `"Variant.field"` label |
| `DeriveCompleteness.DiffComplete` | struct-diff-iter-derive/src/lib.rs:11-164 | completeness: wherever the two values hold a leaf difference, the diff has a record whose path is that position and which refers to the two values found there |
| `DeriveCompleteness.DiffPathsDistinct` | struct-diff-iter-derive/src/lib.rs:28-43 | no two records of a derived diff share a path |
| `DeriveCompleteness.DiffReportsLeafOnce` | struct-diff-iter-derive/src/lib.rs:11-164 | every leaf difference is reported by exactly one record |
| `DeriveCompleteness.DiffRecordAtLeaf` | struct-diff-iter-derive/src/lib.rs:11-164 | every record's path, read outer-to-inner, is the position of a leaf difference; with `DiffReportsLeafOnce`, records and leaf differences correspond one to one |
| `DeriveExamples.SimpleField2Differs` | tests/tests.rs:33-44 | `SimpleStruct`s that differ only in `field2` yield exactly one record, at path `["field2"]`, over the two `field2` values |
| `DeriveExamples.TestBasicStruct` | tests/tests.rs:32-45 | `test_basic_struct`: one record, rendered `"field2"` |
| `DeriveExamples.TupleField1Differs` | tests/tests.rs:19 | tuple structs that differ only in field 1 yield one record at path `"1"` |
| `DeriveExamples.DerivedThree` | struct-diff-iter-derive/src/lib.rs:111-119 | the derived arm for `Three { field }` is the `u64` diff of `field` labelled `"Three.field"` |
| `DeriveExamples.DerivedFour` | struct-diff-iter-derive/src/lib.rs:102-134 | the derived arm for `Four(_, _)` is field 0's records, labelled `"Four.0"`, followed by field 1's records, labelled `"Four.1"` |
| `DeriveExamples.ThreeFieldDiffers` | tests/tests.rs:24-30 | `Three { field: y }` against `Three { field: w }` with `y != w` yields one record at `"Three.field"` |
| `DeriveExamples.CombinedDiff` | tests/tests.rs:10-16 | a four-field struct's diff is its fields' diffs in order, with `field1`..`field4` pushed |
| `DeriveExamples.InnerRecords` | tests/tests.rs:47-67 | changing `field1.field2`, `field2.1` and the `Three` payload of `field3` yields exactly those three records, in that order, with the differing leaves |
| `DeriveExamples.InnerPaths` | tests/tests.rs:64-66 | the three storages render `"field1.field2"`, `"field2.1"` and `"field3.Three.field"` |
| `DeriveExamples.TestInnerStruct` | tests/tests.rs:48-66 | `test_inner_struct` for any changed numbers: three records rendering `"field1.field2"`, `"field2.1"`, `"field3.Three.field"` |
| `DeriveExamples.TestInnerStructConcrete` | tests/tests.rs:59-63 | with the test's own numbers the diff has three records |
| `HandWritten.FromValue` | src/lib.rs:9-15 | every value of the `MyEnum` shape is the image of a `MyEnum` |
| `HandWritten.ToValueRoundTrip` | src/lib.rs:9-15 | `MyEnum` values and shape values correspond one to one |
| `HandWritten.MyEnumDiff` | src/lib.rs:17-56 | the hand-written diff is empty exactly when the values are equal; different variants give one record over the whole values; every record holds two different values; two `Three`s give only records at `"Three.field"`, and two `Four`s give only records at `"Three.0"` or `"Three.1"` |
| `HandWritten.MyEnumDiffCorrected` | src/lib.rs:33-44 | the same laws, except that two `Four`s give only records at `"Four.0"` or `"Four.1"` |
| `HandWritten.DerivedMismatch` | src/lib.rs:45-52 | the catch-all arm is the derive's mismatch record |
| `HandWritten.HandWrittenAgreesWithDerive` | src/lib.rs:22-53 | for every pair except two `Four`s, the hand-written diff equals the derived one |
| `HandWritten.CorrectedAgreesWithDerive` | src/lib.rs:22-53 | the corrected diff equals the derived one for every pair |
| `HandWritten.HandWrittenFour` | src/lib.rs:33-44 | for any two `Four`s: field 0's record, present exactly when field 0 differs, at `"Three.0"` over the two field-0 values, then field 1's record, present exactly when field 1 differs, at `"Three.1"` over the two field-1 values |
| `HandWritten.FourLabelledThree` | src/lib.rs:33-44 | as written, two `Four`s differing in both fields give records labelled `"Three.0"` and `"Three.1"` (field 0 first), where the derive gives `"Four.0"` and `"Four.1"` |
| `HandWritten.LabelledU64Diff` | src/lib.rs:30 | one `u64` field's records with a label pushed: none exactly when the values are equal, otherwise one, at that label, over the two values |
| `HandWritten.LabelledPairDiff` | src/lib.rs:33-43 | the `Four` arm's chain of two labelled `u64` fields: empty exactly when both fields are equal; every record holds two different values and sits at one of the two labels |
| `HandWritten.OuterDiff` | src/lib.rs:71-84 | `MyOuterType`'s diff is empty exactly when `field1` is equal; it has at most one record, at `"field1"` over the two `field1` values |
| `HandWritten.OuterIgnoresOtherFields` | src/lib.rs:73-82 | `field2`..`field4` never influence `MyOuterType`'s diff |
| `HandWritten.OuterIsDerivedField1Only` | src/lib.rs:73-76 | the partial impl is the derive of a struct whose only field is `field1: u64` |
| `HandWritten.OuterMissesField2` | src/lib.rs:77-82 | outer values that differ only in `field2` yield nothing, even though their `MyEnum` diff is non-empty |

## Left out

- Laziness. The `itertools` `update`/`chain`/`filter` adapters and the
  `Box<dyn Iterator>` dispatch are modelled by the finite sequence of records
  they yield. Laziness is only observable through side effects, and no
  modelled operation has any.
- `&dyn Debug` references and the `'a`/`'b` lifetimes. A record holds copies
  of the compared values.
- The `SmallVec` inline capacity of 4. The storage is an unbounded sequence.
- `fmt::Formatter` errors (`?`) and `write_str(..).unwrap()`. Writing is
  modelled as total.
- Token construction in the derive: `syn::parse(..).unwrap()`, `quote!`,
  `format_ident!` and the `self_x`/`other_x` binding names. Only the behaviour
  of the generated impl is modelled.
- Structs and variants written with braces or parentheses but no fields (`S {}`,
  `S()`) are excluded by `Derive.WellFormed`. The generator emits an empty
  body for them, which does not compile. Named fields are required to have
  distinct names, and variants distinct names containing no `"."`, as the
  Rust compiler requires of identifiers.
- Field types other than `u64` and derived types. `Derive.Diff` covers
  fields of type `u64` or of a type whose impl is derived. A type with a
  hand-written impl, such as `MyEnum` (src/lib.rs:17-56), is modelled on its
  own in `HandWritten.MyEnumDiff`. `HandWritten.HandWrittenAgreesWithDerive`
  compares it with the derive. A derived struct with a field of such a type
  has no `Ty`. `String` and `MyInnerType` have no diff impl in the source,
  and appear only in the datatype `HandWritten.MyOuterType`.
- Byte lengths. `str::len` in the `fold` of `to_string`
  (struct-diff-iter-internal/src/lib.rs:32) counts UTF-8 bytes, but
  `FieldIdentifiers.TotalLength` counts characters. They differ for
  non-ASCII identifiers such as `café`. The laws of
  `FieldIdentifiers.ReservedCapacity` and `FieldIdentifiers.RenderLength`
  hold in either unit. The capacity equals the text length, and the
  subtraction underflows exactly on empty storage.
- Re-exports and crate wiring (src/lib.rs:1-5), and the test harness itself.
- In-place updates of a record. `DiffData::push_field(mut self)` and the
  `map(|x| x.push_field(..))` of src/lib.rs take the record by move. The
  `update(|x| x.field.push(..))` closures receive a `&mut` to a record that
  the iterator owns and has not yet handed out. In both cases nothing else
  observes the record while it changes. They are modelled as value updates
  (`DiffProtocol.PushField`, `DiffProtocol.PushEach`). The in-place `push`
  itself is `FieldIdentifiers.FieldIdentifier.Push`.

## Findings

| source | as written | input that shows it | evidently intended | confidence | as-written member | corrected member |
|---|---|---|---|---|---|---|
| struct-diff-iter-internal/src/lib.rs:33 | `String::with_capacity(len + self.storage.len() - 1)` subtracts 1 from an empty storage's length in `usize`. In a debug build the subtraction panics. In a release build it wraps, and the capacity overflow panics | `FieldIdentifier::new().to_string()`, or `to_string` on the path of a top-level `u64` or variant-mismatch record | capacity 0 and the text `""`, which `Debug::fmt` produces | high, not executed | `FieldIdentifiers.FieldIdentifier.ToString` (`FieldIdentifiers.EmptyToStringPanics`) | `FieldIdentifiers.FieldIdentifier.ToStringCorrected` |
| src/lib.rs:37-41 | the `Four` arm labels its fields `"Three.0"` and `"Three.1"` | `Four(1, 2)` against `Four(3, 4)` gives paths `"Three.0"` and `"Three.1"` | `"Four.0"` and `"Four.1"`, as the derive generates for the same enum | medium, not executed | `HandWritten.FourLabelledThree` (`HandWritten.HandWrittenFour`) | `HandWritten.MyEnumDiffCorrected` (`HandWritten.CorrectedAgreesWithDerive`) |
