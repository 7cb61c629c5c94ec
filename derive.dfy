/**
 * The meaning of the code that `#[derive(LazyDiff)]` generates
 * (struct-diff-iter-derive). The generator reads a type's shape and emits an
 * iterator chain; here the shape is a `Ty` and the emitted code's behaviour
 * is the function `Diff` over two values of that type.
 */
module Derive {
  import opened Wrappers
  import opened FieldIdentifiers
  import opened DiffProtocol

  /** A field as the generator sees it: a name for struct-like fields, none for tuple fields. */
  datatype Field = Field(ident: Option<string>, ty: Ty)

  /** `syn::Fields`: `S { a: T, .. }`, `S(T, ..)` or `S`. */
  datatype Fields = Named(named: seq<Field>) | Unnamed(unnamed: seq<Field>) | Unit

  datatype Variant = Variant(ident: string, fields: Fields)

  /** A type whose diff is available: `u64`, or a derived struct or enum. */
  datatype Ty = U64Ty | Struct(fields: Fields) | Enum(variants: seq<Variant>)

  /** `syn::Data`, the body of the item the derive is applied to. */
  datatype Data = DataStruct(fields: Fields) | DataEnum(variants: seq<Variant>) | DataUnion(unionFields: seq<Field>)

  const UnionMessage := "Unions are unsupported as they are generally unsafe to compare"

  /**
   * `impl_struct_diff_iter`: structs and enums get an implementation,
   * unions are rejected with a panic at expansion time.
   */
  function ImplStructDiffIter(data: Data): (r: Result<Ty>)
    ensures r.Err? <==> data.DataUnion?
    ensures r.Err? ==> r.message == UnionMessage
    ensures data.DataStruct? ==> r == Ok(Struct(data.fields))
    ensures data.DataEnum? ==> r == Ok(Enum(data.variants))
  {
    match data
    case DataStruct(fields) => Ok(Struct(fields))
    case DataEnum(variants) => Ok(Enum(variants))
    case DataUnion(_) => Err(UnionMessage)
  }

  /** The character of one decimal digit. */
  function DigitChar(d: nat): char
    requires d < 10
  {
    "0123456789"[d]
  }

  /** The number a string of decimal digits denotes. */
  function ParseDecimal(s: string): nat
  {
    if s == [] then 0
    else
      var c := s[|s| - 1];
      var d := if '0' <= c <= '9' then (c as int) - ('0' as int) else 0;
      ParseDecimal(s[..|s| - 1]) * 10 + d
  }

  /**
   * The decimal text of `n`, as `syn::Index::from(n)` prints: digits only,
   * no leading zero, and it reads back as `n`.
   */
  function Decimal(n: nat): (r: string)
    ensures |r| > 0
    ensures forall k :: 0 <= k < |r| ==> '0' <= r[k] <= '9'
    ensures r[0] == '0' ==> r == "0"
    ensures ParseDecimal(r) == n
    decreases n
  {
    if n < 10 then
      assert [DigitChar(n)][..0] == [];
      [DigitChar(n)]
    else
      var init := Decimal(n / 10);
      assert (init + [DigitChar(n % 10)])[..|init|] == init;
      init + [DigitChar(n % 10)]
  }

  /** The field list of a shape; a unit shape has none. */
  function FieldList(fs: Fields): seq<Field>
  {
    match fs
    case Named(named) => named
    case Unnamed(unnamed) => unnamed
    case Unit => []
  }

  /** The label of field number `i`: its identifier, or else its position in decimal. */
  function FieldLabel(f: Field, i: nat): (r: Label)
    ensures f.ident.Some? ==> r == f.ident.value
    ensures f.ident.None? ==> r == Decimal(i) && ParseDecimal(r) == i
  {
    match f.ident
    case Some(x) => x
    case None => Decimal(i)
  }

  /** The labels of a struct's fields, in declaration order. */
  function Labels(fields: seq<Field>): (r: seq<Label>)
    ensures |r| == |fields|
    ensures forall i :: 0 <= i < |fields| && fields[i].ident.Some? ==> r[i] == fields[i].ident.value
    ensures forall i :: 0 <= i < |fields| && fields[i].ident.None? ==> r[i] == Decimal(i) && ParseDecimal(r[i]) == i
  {
    seq(|fields|, i requires 0 <= i < |fields| => FieldLabel(fields[i], i))
  }

  /** The label an enum arm pushes for a field: `format!("{}.{}", variant, field)`. */
  function QualifiedLabel(variant: string, field: Label): (r: Label)
    ensures |r| == |variant| + 1 + |field|
    ensures r[..|variant| + 1] == variant + "." && r[|variant| + 1..] == field
  {
    variant + "." + field
  }

  /** The labels of a variant's fields: the variant's name, ".", then the field's own label. */
  function VariantLabels(v: Variant): (r: seq<Label>)
    ensures |r| == |FieldList(v.fields)|
    ensures forall i :: 0 <= i < |r| ==>
      && |r[i]| == |v.ident| + 1 + |Labels(FieldList(v.fields))[i]|
      && r[i][..|v.ident| + 1] == v.ident + "."
      && r[i][|v.ident| + 1..] == Labels(FieldList(v.fields))[i]
  {
    var ls := Labels(FieldList(v.fields));
    seq(|ls|, i requires 0 <= i < |ls| => QualifiedLabel(v.ident, ls[i]))
  }

  /** No two fields share a label. */
  predicate DistinctIdents(fields: seq<Field>)
  {
    forall i, j :: 0 <= i < j < |fields| ==> fields[i].ident != fields[j].ident
  }

  /**
   * The shapes for which the generated code compiles: named fields carry
   * distinct identifiers, tuple fields carry none, and a struct or variant
   * with braces or parentheses has at least one field (the generator emits
   * an empty body for `S {}` and `S()`). Variant names are distinct Rust
   * identifiers, so none contains ".".
   */
  predicate FieldsWellFormed(fs: Fields)
    decreases fs
  {
    match fs
    case Unit => true
    case Named(named) =>
      && |named| > 0
      && (forall i :: 0 <= i < |named| ==> named[i].ident.Some? && WellFormed(named[i].ty))
      && DistinctIdents(named)
    case Unnamed(unnamed) =>
      && |unnamed| > 0
      && (forall i :: 0 <= i < |unnamed| ==> unnamed[i].ident.None? && WellFormed(unnamed[i].ty))
  }

  predicate WellFormed(t: Ty)
    decreases t
  {
    match t
    case U64Ty => true
    case Struct(fs) => FieldsWellFormed(fs)
    case Enum(vs) =>
      && (forall k :: 0 <= k < |vs| ==> FieldsWellFormed(vs[k].fields) && '.' !in vs[k].ident)
      && DistinctVariants(vs)
  }

  /** No two variants share a name. */
  predicate DistinctVariants(vs: seq<Variant>)
  {
    forall i, j :: 0 <= i < j < |vs| ==> vs[i].ident != vs[j].ident
  }

  /** `v` is a value of type `t`. */
  predicate HasType(v: Value, t: Ty)
    decreases v
  {
    match t
    case U64Ty => v.Prim?
    case Struct(fs) => v.Product? && AllHaveTypes(v.items, FieldList(fs))
    case Enum(vs) => v.Sum? && v.variant < |vs| && AllHaveTypes(v.items, FieldList(vs[v.variant].fields))
  }

  /** The values fill the fields, one each, with values of the fields' types. */
  predicate AllHaveTypes(xs: seq<Value>, fields: seq<Field>)
    decreases xs
  {
    |xs| == |fields| && forall i :: 0 <= i < |xs| ==> HasType(xs[i], fields[i].ty)
  }

  /** Every field type is a well-formed one. */
  predicate AllWellFormed(fields: seq<Field>)
  {
    forall i :: 0 <= i < |fields| ==> WellFormed(fields[i].ty)
  }

  lemma FieldsOfWellFormed(fs: Fields)
    requires FieldsWellFormed(fs)
    ensures AllWellFormed(FieldList(fs))
  {
  }

  /**
   * The records the generated `lazy_diff_iter` yields for `a` against `b`.
   * A unit struct and a unit variant yield nothing; a struct and a matching
   * variant chain their fields; differing variants yield one record for the
   * two whole values, with an empty path.
   */
  function Diff(t: Ty, a: Value, b: Value): seq<DiffData>
    requires WellFormed(t) && HasType(a, t) && HasType(b, t)
    decreases a
  {
    match t
    case U64Ty => U64Diff(a.n, b.n)
    case Struct(fs) =>
      if fs.Unit? then []
      else
        FieldsOfWellFormed(fs);
        Chain(FieldDiffs(Labels(FieldList(fs)), FieldList(fs), a.items, b.items))
    case Enum(vs) =>
      if a.variant == b.variant then
        var v := vs[a.variant];
        if v.fields.Unit? then []
        else
          FieldsOfWellFormed(v.fields);
          Chain(FieldDiffs(VariantLabels(v), FieldList(v.fields), a.items, b.items))
      else
        [DiffData([], a, b)]
  }

  /**
   * The parts the generated chain is built from, one per field in
   * declaration order: `self.f.lazy_diff_iter(&other.f).update(|x| x.field.push(label))`.
   */
  function FieldDiffs(labels: seq<Label>, fields: seq<Field>, xs: seq<Value>, ys: seq<Value>): (r: seq<seq<DiffData>>)
    requires |labels| == |fields| && AllWellFormed(fields)
    requires AllHaveTypes(xs, fields) && AllHaveTypes(ys, fields)
    ensures |r| == |xs|
    ensures forall j :: 0 <= j < |xs| ==> r[j] == PushEach(Diff(fields[j].ty, xs[j], ys[j]), labels[j])
    ensures forall j, d :: 0 <= j < |xs| && d in r[j] ==> |d.field| > 0 && d.field[|d.field| - 1] == labels[j]
    decreases xs
  {
    seq(|xs|, j requires 0 <= j < |xs| => PushEach(Diff(fields[j].ty, xs[j], ys[j]), labels[j]))
  }
}
