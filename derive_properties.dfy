/**
 * What the derived diff guarantees: every record's path leads, in both
 * compared values, to the two values it reports and those values differ; a
 * diff is empty exactly when the values are equal; records come in field
 * declaration order; each record's outermost label is its field's label.
 */
module DeriveProperties {
  import opened Wrappers
  import opened FieldIdentifiers
  import opened DiffProtocol
  import opened Derive

  predicate Distinct(ls: seq<Label>)
  {
    forall i, j :: 0 <= i < j < |ls| ==> ls[i] != ls[j]
  }

  /** The labels the generator gives a well-formed field list are pairwise different. */
  lemma LabelsDistinct(fs: Fields)
    requires FieldsWellFormed(fs)
    ensures Distinct(Labels(FieldList(fs)))
  {
    var fields := FieldList(fs);
    var ls := Labels(fields);
    forall i, j | 0 <= i < j < |ls| ensures ls[i] != ls[j] {
      if fs.Named? {
        assert fields[i].ident != fields[j].ident;
      }
    }
  }

  /** So are the `"Variant.field"` labels of one variant. */
  lemma VariantLabelsDistinct(v: Variant)
    requires FieldsWellFormed(v.fields)
    ensures Distinct(VariantLabels(v))
  {
    LabelsDistinct(v.fields);
    var ls, qs := Labels(FieldList(v.fields)), VariantLabels(v);
    var p := v.ident + ".";
    forall i, j | 0 <= i < j < |qs| ensures qs[i] != qs[j] {
      assert qs[i][|p|..] == ls[i] && qs[j][|p|..] == ls[j];
    }
  }

  /** The position of the first `x` in `ls`, or `|ls|` if there is none. */
  function IndexOf(ls: seq<Label>, x: Label): (r: nat)
    ensures r <= |ls|
    ensures r < |ls| ==> ls[r] == x
    ensures forall i :: 0 <= i < r ==> ls[i] != x
  {
    if ls == [] then 0
    else if ls[0] == x then 0
    else 1 + IndexOf(ls[1..], x)
  }

  lemma IndexOfDistinct(ls: seq<Label>, j: nat)
    requires Distinct(ls) && j < |ls|
    ensures IndexOf(ls, ls[j]) == j
  {
  }

  /** The labels and fields one level down from `v` of type `t`. */
  function Frame(t: Ty, v: Value): (seq<Label>, seq<Field>)
  {
    match t
    case U64Ty => ([], [])
    case Struct(fs) => (Labels(FieldList(fs)), FieldList(fs))
    case Enum(vs) =>
      if v.Sum? && v.variant < |vs| then (VariantLabels(vs[v.variant]), FieldList(vs[v.variant].fields))
      else ([], [])
  }

  /**
   * The value reached from `v` by following a root-first list of labels,
   * as a reader of a rendered path would: a struct label picks that field, a
   * `"Variant.field"` label picks that field of the variant `v` holds.
   */
  function Lookup(t: Ty, v: Value, path: seq<Label>): Option<Value>
    decreases path
  {
    if path == [] then Some(v)
    else if v.Prim? then None
    else
      var (ls, fields) := Frame(t, v);
      var j := IndexOf(ls, path[0]);
      if j < |ls| && j < |fields| && j < |v.items| then Lookup(fields[j].ty, v.items[j], path[1..])
      else None
  }

  /** Every record of a chain of fields is a record of one field, with that field's label pushed. */
  lemma FieldOrigin(labels: seq<Label>, fields: seq<Field>, xs: seq<Value>, ys: seq<Value>, d: DiffData)
    returns (j: nat, e: DiffData)
    requires |labels| == |fields| && AllWellFormed(fields)
    requires AllHaveTypes(xs, fields) && AllHaveTypes(ys, fields)
    requires d in Chain(FieldDiffs(labels, fields, xs, ys))
    ensures j < |xs|
    ensures e in Diff(fields[j].ty, xs[j], ys[j])
    ensures d == PushField(e, labels[j])
  {
    j := ChainMember(FieldDiffs(labels, fields, xs, ys), d);
    e := PushEachMember(Diff(fields[j].ty, xs[j], ys[j]), labels[j], d);
  }

  /**
   * Two values that differ where the diff stops descending: two different
   * `u64`s, or two enum values of different variants.
   */
  predicate IsLeafDiff(x: Value, y: Value)
  {
    x != y && (x.Prim? || (x.Sum? && y.Sum? && x.variant != y.variant))
  }

  /** The two values hold, at path `p`, a difference the diff must report. */
  predicate LeafDiffAt(t: Ty, a: Value, b: Value, p: seq<Label>)
  {
    && Lookup(t, a, p).Some? && Lookup(t, b, p).Some?
    && IsLeafDiff(Lookup(t, a, p).value, Lookup(t, b, p).value)
  }

  /** Following one more label from the front of a path steps into that field. */
  lemma LookupStep(t: Ty, v: Value, j: nat, path: seq<Label>)
    requires !v.Prim?
    requires Distinct(Frame(t, v).0)
    requires j < |Frame(t, v).0| && j < |Frame(t, v).1| && j < |v.items|
    ensures Lookup(t, v, [Frame(t, v).0[j]] + path) == Lookup(Frame(t, v).1[j].ty, v.items[j], path)
  {
    var p := [Frame(t, v).0[j]] + path;
    IndexOfDistinct(Frame(t, v).0, j);
    assert p[1..] == path;
  }

  /**
   * Soundness of a diff: reading a record's path root first leads, in the
   * left and in the right value, to exactly the two values the record
   * refers to, and those two values differ as leaves: two `u64`s, or two
   * enum values of different variants.
   */
  lemma {:induction false} DiffLocates(t: Ty, a: Value, b: Value, d: DiffData)
    requires WellFormed(t) && HasType(a, t) && HasType(b, t)
    requires d in Diff(t, a, b)
    ensures Lookup(t, a, Reverse(d.field)) == Some(d.selfValue)
    ensures Lookup(t, b, Reverse(d.field)) == Some(d.otherValue)
    ensures d.selfValue != d.otherValue
    ensures IsLeafDiff(d.selfValue, d.otherValue)
    decreases a
  {
    match t
    case U64Ty =>
    case Struct(fs) =>
      FieldsOfWellFormed(fs);
      LabelsDistinct(fs);
      var labels, fields := Labels(FieldList(fs)), FieldList(fs);
      var j, e := FieldOrigin(labels, fields, a.items, b.items, d);
      DiffLocates(fields[j].ty, a.items[j], b.items[j], e);
      ReverseSnoc(e.field, labels[j]);
      LookupStep(t, a, j, Reverse(e.field));
      LookupStep(t, b, j, Reverse(e.field));
    case Enum(vs) =>
      if a.variant == b.variant {
        var v := vs[a.variant];
        FieldsOfWellFormed(v.fields);
        VariantLabelsDistinct(v);
        var labels, fields := VariantLabels(v), FieldList(v.fields);
        var j, e := FieldOrigin(labels, fields, a.items, b.items, d);
        DiffLocates(fields[j].ty, a.items[j], b.items[j], e);
        ReverseSnoc(e.field, labels[j]);
        LookupStep(t, a, j, Reverse(e.field));
        LookupStep(t, b, j, Reverse(e.field));
      }
  }

  /** A chain of fields is empty exactly when the two value lists are equal, given that this holds field by field. */
  lemma FieldsEmptyIffEqual(labels: seq<Label>, fields: seq<Field>, xs: seq<Value>, ys: seq<Value>)
    requires |labels| == |fields| && AllWellFormed(fields)
    requires AllHaveTypes(xs, fields) && AllHaveTypes(ys, fields)
    requires forall j :: 0 <= j < |xs| ==> (Diff(fields[j].ty, xs[j], ys[j]) == [] <==> xs[j] == ys[j])
    ensures Chain(FieldDiffs(labels, fields, xs, ys)) == [] <==> xs == ys
  {
    var parts := FieldDiffs(labels, fields, xs, ys);
    ChainEmpty(parts);
    assert (forall j :: 0 <= j < |parts| ==> parts[j] == []) <==> (forall j :: 0 <= j < |xs| ==> xs[j] == ys[j]);
  }

  /**
   * The equality law in both directions: a diff is empty exactly when the two
   * values are equal.
   */
  lemma {:induction false} DiffEmptyIffEqual(t: Ty, a: Value, b: Value)
    requires WellFormed(t) && HasType(a, t) && HasType(b, t)
    ensures Diff(t, a, b) == [] <==> a == b
    decreases a
  {
    match t
    case U64Ty =>
    case Struct(fs) =>
      FieldsOfWellFormed(fs);
      var fields := FieldList(fs);
      if !fs.Unit? {
        forall j | 0 <= j < |a.items|
          ensures Diff(fields[j].ty, a.items[j], b.items[j]) == [] <==> a.items[j] == b.items[j]
        {
          DiffEmptyIffEqual(fields[j].ty, a.items[j], b.items[j]);
        }
        FieldsEmptyIffEqual(Labels(fields), fields, a.items, b.items);
      }
      assert a == b <==> a.items == b.items;
    case Enum(vs) =>
      if a.variant == b.variant {
        var v := vs[a.variant];
        FieldsOfWellFormed(v.fields);
        var fields := FieldList(v.fields);
        if !v.fields.Unit? {
          forall j | 0 <= j < |a.items|
            ensures Diff(fields[j].ty, a.items[j], b.items[j]) == [] <==> a.items[j] == b.items[j]
          {
            DiffEmptyIffEqual(fields[j].ty, a.items[j], b.items[j]);
          }
          FieldsEmptyIffEqual(VariantLabels(v), fields, a.items, b.items);
        }
        assert a == b <==> a.items == b.items;
      }
  }

  /** Diffing a value against itself yields nothing. */
  lemma DiffSelfEmpty(t: Ty, a: Value)
    requires WellFormed(t) && HasType(a, t)
    ensures Diff(t, a, a) == []
  {
    DiffEmptyIffEqual(t, a, a);
  }
  /**
   * The product ordering law: a struct's records are those of its fields
   * before field `k`, then field `k`'s own records each with field `k`'s
   * label pushed, then those of the fields after it.
   */
  lemma StructDiffOrder(fs: Fields, a: Value, b: Value, k: nat)
    requires WellFormed(Struct(fs)) && HasType(a, Struct(fs)) && HasType(b, Struct(fs))
    requires k < |FieldList(fs)|
    ensures AllWellFormed(FieldList(fs))
    ensures
      var labels, fields := Labels(FieldList(fs)), FieldList(fs);
      var parts := FieldDiffs(labels, fields, a.items, b.items);
      Diff(Struct(fs), a, b) ==
        Chain(parts[..k]) + PushEach(Diff(fields[k].ty, a.items[k], b.items[k]), labels[k]) + Chain(parts[k + 1..])
  {
    var labels, fields := Labels(FieldList(fs)), FieldList(fs);
    FieldsOfWellFormed(fs);
    var parts := FieldDiffs(labels, fields, a.items, b.items);
    ChainAround(parts, k);
  }

  /**
   * The same-variant ordering law: the records of two values of one variant
   * with fields are those of the variant's fields before field `k`, then
   * field `k`'s own records each with its `"Variant.field"` label pushed,
   * then those of the fields after it.
   */
  lemma EnumDiffOrder(vs: seq<Variant>, a: Value, b: Value, k: nat)
    requires WellFormed(Enum(vs)) && HasType(a, Enum(vs)) && HasType(b, Enum(vs))
    requires a.variant == b.variant
    requires k < |FieldList(vs[a.variant].fields)|
    ensures AllWellFormed(FieldList(vs[a.variant].fields))
    ensures
      var v := vs[a.variant];
      var labels, fields := VariantLabels(v), FieldList(v.fields);
      var parts := FieldDiffs(labels, fields, a.items, b.items);
      Diff(Enum(vs), a, b) ==
        Chain(parts[..k]) + PushEach(Diff(fields[k].ty, a.items[k], b.items[k]), labels[k]) + Chain(parts[k + 1..])
  {
    var v := vs[a.variant];
    var labels, fields := VariantLabels(v), FieldList(v.fields);
    FieldsOfWellFormed(v.fields);
    var parts := FieldDiffs(labels, fields, a.items, b.items);
    ChainAround(parts, k);
  }

  /**
   * Every record of a struct's diff carries one of the struct's field labels
   * as its outermost (last pushed) label, so its path renders as that label,
   * then ".", then the path inside the field.
   */
  lemma StructRecordPath(fs: Fields, a: Value, b: Value, d: DiffData)
    requires WellFormed(Struct(fs)) && HasType(a, Struct(fs)) && HasType(b, Struct(fs))
    requires d in Diff(Struct(fs), a, b)
    ensures d.field != []
    ensures d.field[|d.field| - 1] in Labels(FieldList(fs))
    ensures Render(d.field) ==
      var outer, inner := d.field[|d.field| - 1], d.field[..|d.field| - 1];
      if inner == [] then outer else outer + "." + Render(inner)
  {
    FieldsOfWellFormed(fs);
    var labels, fields := Labels(FieldList(fs)), FieldList(fs);
    var j, e := FieldOrigin(labels, fields, a.items, b.items, d);
    assert d.field[..|d.field| - 1] == e.field;
  }

  /**
   * The same-variant law: every record of a diff between two values of one
   * variant carries a single `"Variant.field"` label as its outermost label.
   */
  lemma EnumRecordPath(vs: seq<Variant>, a: Value, b: Value, d: DiffData)
    requires WellFormed(Enum(vs)) && HasType(a, Enum(vs)) && HasType(b, Enum(vs))
    requires a.variant == b.variant
    requires d in Diff(Enum(vs), a, b)
    ensures d.field != []
    ensures
      var v := vs[a.variant];
      exists j :: 0 <= j < |FieldList(v.fields)| &&
        d.field[|d.field| - 1] == QualifiedLabel(v.ident, Labels(FieldList(v.fields))[j])
    ensures Render(d.field) ==
      var outer, inner := d.field[|d.field| - 1], d.field[..|d.field| - 1];
      if inner == [] then outer else outer + "." + Render(inner)
  {
    var v := vs[a.variant];
    FieldsOfWellFormed(v.fields);
    var labels, fields := VariantLabels(v), FieldList(v.fields);
    var j, e := FieldOrigin(labels, fields, a.items, b.items, d);
    assert d.field[..|d.field| - 1] == e.field;
  }

  /** The same-unit-variant law: two values of one unit variant have no differences. */
  lemma UnitVariantEmpty(vs: seq<Variant>, a: Value, b: Value)
    requires WellFormed(Enum(vs)) && HasType(a, Enum(vs)) && HasType(b, Enum(vs))
    requires a.variant == b.variant && vs[a.variant].fields.Unit?
    ensures Diff(Enum(vs), a, b) == [] && a == b
  {
  }

  /**
   * The cross-variant law: values of different variants yield exactly one
   * record, with an empty path, referring to the two whole values, whatever
   * their fields hold.
   */
  lemma VariantMismatch(vs: seq<Variant>, a: Value, b: Value)
    requires WellFormed(Enum(vs)) && HasType(a, Enum(vs)) && HasType(b, Enum(vs))
    requires a.variant != b.variant
    ensures Diff(Enum(vs), a, b) == [DiffData([], a, b)]
    ensures Render(Diff(Enum(vs), a, b)[0].field) == ""
  {
  }

  /** A unit struct yields nothing, whatever it is compared with. */
  lemma UnitStructEmpty(a: Value, b: Value)
    requires HasType(a, Struct(Unit)) && HasType(b, Struct(Unit))
    ensures Diff(Struct(Unit), a, b) == []
  {
  }
}
