/**
 * The impls written by hand in the top-level crate (src/lib.rs): the diff
 * of `MyEnum`, which the derive would generate, and the partial diff of
 * `MyOuterType`, which compares only its first field.
 */
module HandWritten {
  import opened DiffProtocol
  import opened Derive
  import opened DeriveExamples

  /** `enum MyEnum { One, Two, Three { field: u64 }, Four(u64, u64) }` */
  datatype MyEnum = One | Two | Three(field: U64) | Four(U64, U64)

  /** A `MyEnum` as a value: its variant position and its fields. */
  function ToValue(e: MyEnum): (v: Value)
    ensures v.Sum?
  {
    match e
    case One => Sum(0, [])
    case Two => Sum(1, [])
    case Three(x) => Sum(2, [Prim(x)])
    case Four(x0, x1) => Sum(3, [Prim(x0), Prim(x1)])
  }

  /** Every `MyEnum` is a value of the derive's shape `MyEnumTy`. */
  lemma ToValueTyped(e: MyEnum)
    ensures WellFormed(MyEnumTy) && HasType(ToValue(e), MyEnumTy)
  {
    match e
    case One => ThreeTyped(0);
    case Two => ThreeTyped(0);
    case Three(x) => ThreeTyped(x);
    case Four(x0, x1) => FourTyped(x0, x1);
  }

  /** The values of shape `MyEnumTy`: a variant position below 4 with that variant's number of `u64`s. */
  lemma MyEnumValues(v: Value)
    requires HasType(v, MyEnumTy)
    ensures v.Sum? && v.variant < 4
    ensures |v.items| == (if v.variant < 2 then 0 else v.variant - 1)
    ensures forall i :: 0 <= i < |v.items| ==> v.items[i].Prim?
  {
    var fields := FieldList(MyEnumTy.variants[v.variant].fields);
    assert AllHaveTypes(v.items, fields);
    assert |fields| == (if v.variant < 2 then 0 else v.variant - 1);
    forall i | 0 <= i < |v.items|
      ensures v.items[i].Prim?
    {
      assert fields[i].ty == U64Ty;
    }
  }

  /** The `MyEnum` a value of shape `MyEnumTy` stands for. */
  function FromValue(v: Value): (e: MyEnum)
    requires HasType(v, MyEnumTy)
    ensures ToValue(e) == v
  {
    MyEnumValues(v);
    if v.variant == 0 then One
    else if v.variant == 1 then Two
    else if v.variant == 2 then Three(v.items[0].n)
    else Four(v.items[0].n, v.items[1].n)
  }

  lemma ToValueRoundTrip(e: MyEnum)
    ensures HasType(ToValue(e), MyEnumTy)
    ensures FromValue(ToValue(e)) == e
  {
    ToValueTyped(e);
    match e
    case One =>
    case Two =>
    case Three(x) =>
      assert ToValue(e).items[0] == Prim(x);
    case Four(x0, x1) =>
      assert ToValue(e).items == [Prim(x0), Prim(x1)];
  }

  /** The one record of two different variants: an empty path over the whole values. */
  function Mismatch(a: MyEnum, b: MyEnum): seq<DiffData>
  {
    [DiffData([], ToValue(a), ToValue(b))]
  }

  /** The records of one `u64` field of a hand-written diff: at most one, labelled `name`. */
  function LabelledU64Diff(x: U64, y: U64, name: string): (r: seq<DiffData>)
    ensures r == [] <==> x == y
    ensures |r| <= 1
    ensures forall d :: d in r ==> d == DiffData([name], Prim(x), Prim(y))
  {
    PushEach(U64Diff(x, y), name)
  }

  /** Two labelled `u64` fields give no record exactly when both fields are equal. */
  lemma PairEmpty(x0: U64, x1: U64, y0: U64, y1: U64, name0: string, name1: string)
    ensures LabelledU64Diff(x0, y0, name0) + LabelledU64Diff(x1, y1, name1) == [] <==> x0 == y0 && x1 == y1
  {
    var r0, r1 := LabelledU64Diff(x0, y0, name0), LabelledU64Diff(x1, y1, name1);
    assert |r0 + r1| == |r0| + |r1|;
  }

  /** Every record of two labelled `u64` fields is at one of the two labels, over two different values. */
  lemma PairMembers(x0: U64, x1: U64, y0: U64, y1: U64, name0: string, name1: string)
    ensures forall d :: d in LabelledU64Diff(x0, y0, name0) + LabelledU64Diff(x1, y1, name1) ==>
      d.selfValue != d.otherValue && (d.field == [name0] || d.field == [name1])
  {
    var r0, r1 := LabelledU64Diff(x0, y0, name0), LabelledU64Diff(x1, y1, name1);
    forall d: DiffData | d in r0 + r1 ensures d.selfValue != d.otherValue && (d.field == [name0] || d.field == [name1]) {
      if d in r0 {
        assert d == DiffData([name0], Prim(x0), Prim(y0)) && x0 != y0;
      } else {
        assert d in r1;
        assert d == DiffData([name1], Prim(x1), Prim(y1)) && x1 != y1;
      }
    }
  }

  /** The records of two `u64` fields, field 0's labelled `name0` chained with field 1's labelled `name1`. */
  function LabelledPairDiff(x0: U64, x1: U64, y0: U64, y1: U64, name0: string, name1: string): (r: seq<DiffData>)
    ensures r == [] <==> x0 == y0 && x1 == y1
    ensures forall d :: d in r ==> d.selfValue != d.otherValue
    ensures forall d :: d in r ==> d.field == [name0] || d.field == [name1]
  {
    PairEmpty(x0, x1, y0, y1, name0, name1);
    PairMembers(x0, x1, y0, y1, name0, name1);
    LabelledU64Diff(x0, y0, name0) + LabelledU64Diff(x1, y1, name1)
  }

  /**
   * The hand-written diff of two `MyEnum`s, as written: equal unit variants
   * give nothing, `Three` gives its field's records labelled `Three.field`,
   * `Four` gives field 0's records then field 1's, labelled `Three.0` and
   * `Three.1`, and two different variants give one record over the whole
   * values with an empty path.
   */
  function MyEnumDiff(a: MyEnum, b: MyEnum): (r: seq<DiffData>)
    ensures r == [] <==> a == b
    ensures ToValue(a).variant != ToValue(b).variant ==> r == [DiffData([], ToValue(a), ToValue(b))]
    ensures forall d :: d in r ==> d.selfValue != d.otherValue
    ensures a.Three? && b.Three? ==> forall d :: d in r ==> d.field == ["Three.field"]
    ensures a.Four? && b.Four? ==> forall d :: d in r ==> d.field == ["Three.0"] || d.field == ["Three.1"]
  {
    match a
    case One => if b.One? then [] else Mismatch(a, b)
    case Two => if b.Two? then [] else Mismatch(a, b)
    case Three(x) => if b.Three? then LabelledU64Diff(x, b.field, "Three.field") else Mismatch(a, b)
    case Four(x0, x1) =>
      match b
      case Four(y0, y1) => LabelledPairDiff(x0, x1, y0, y1, "Three.0", "Three.1")
      case _ => Mismatch(a, b)
  }

  /** The diff of `MyEnum` with the labels the derive gives variant `Four`: `Four.0` and `Four.1`. */
  function MyEnumDiffCorrected(a: MyEnum, b: MyEnum): (r: seq<DiffData>)
    ensures r == [] <==> a == b
    ensures ToValue(a).variant != ToValue(b).variant ==> r == [DiffData([], ToValue(a), ToValue(b))]
    ensures forall d :: d in r ==> d.selfValue != d.otherValue
    ensures a.Three? && b.Three? ==> forall d :: d in r ==> d.field == ["Three.field"]
    ensures a.Four? && b.Four? ==> forall d :: d in r ==> d.field == ["Four.0"] || d.field == ["Four.1"]
  {
    match a
    case One => if b.One? then [] else Mismatch(a, b)
    case Two => if b.Two? then [] else Mismatch(a, b)
    case Three(x) => if b.Three? then LabelledU64Diff(x, b.field, "Three.field") else Mismatch(a, b)
    case Four(x0, x1) =>
      match b
      case Four(y0, y1) => LabelledPairDiff(x0, x1, y0, y1, "Four.0", "Four.1")
      case _ => Mismatch(a, b)
  }

  /** Two different variants of `MyEnumTy`: the derive gives one record over the whole values. */
  lemma DerivedMismatch(a: MyEnum, b: MyEnum)
    requires ToValue(a).variant != ToValue(b).variant
    ensures WellFormed(MyEnumTy) && HasType(ToValue(a), MyEnumTy) && HasType(ToValue(b), MyEnumTy)
    ensures Diff(MyEnumTy, ToValue(a), ToValue(b)) == [DiffData([], ToValue(a), ToValue(b))]
  {
    ToValueTyped(a);
    ToValueTyped(b);
  }

  /** Except for two `Four`s, the hand-written diff is the one the derive generates. */
  lemma HandWrittenAgreesWithDerive(a: MyEnum, b: MyEnum)
    requires !(a.Four? && b.Four?)
    ensures WellFormed(MyEnumTy) && HasType(ToValue(a), MyEnumTy) && HasType(ToValue(b), MyEnumTy)
    ensures MyEnumDiff(a, b) == Diff(MyEnumTy, ToValue(a), ToValue(b))
  {
    ToValueTyped(a);
    ToValueTyped(b);
    match (a, b)
    case (One, One) =>
    case (Two, Two) =>
    case (Three(x), Three(y)) => DerivedThree(x, y);
    case _ => DerivedMismatch(a, b);
  }

  /** The corrected diff is the one the derive generates, for every pair of values. */
  lemma CorrectedAgreesWithDerive(a: MyEnum, b: MyEnum)
    ensures WellFormed(MyEnumTy) && HasType(ToValue(a), MyEnumTy) && HasType(ToValue(b), MyEnumTy)
    ensures MyEnumDiffCorrected(a, b) == Diff(MyEnumTy, ToValue(a), ToValue(b))
  {
    ToValueTyped(a);
    ToValueTyped(b);
    match (a, b)
    case (One, One) =>
    case (Two, Two) =>
    case (Three(x), Three(y)) => DerivedThree(x, y);
    case (Four(x0, x1), Four(y0, y1)) => DerivedFour(x0, x1, y0, y1);
    case _ => DerivedMismatch(a, b);
  }

  /**
   * The hand-written records of two `Four`s: field 0's record, if it
   * differs, at `Three.0`, then field 1's record, if it differs, at `Three.1`.
   */
  lemma HandWrittenFour(x0: U64, x1: U64, y0: U64, y1: U64)
    ensures MyEnumDiff(Four(x0, x1), Four(y0, y1)) ==
      (if x0 == y0 then [] else [DiffData(["Three.0"], Prim(x0), Prim(y0))]) +
      (if x1 == y1 then [] else [DiffData(["Three.1"], Prim(x1), Prim(y1))])
  {
    PushOne(DiffData([], Prim(x0), Prim(y0)), "Three.0");
    PushOne(DiffData([], Prim(x1), Prim(y1)), "Three.1");
  }

  /** Two differing `u64` fields, labelled: one record each, in field order. */
  lemma BothLabelled(x0: U64, x1: U64, y0: U64, y1: U64, name0: string, name1: string)
    requires x0 != y0 && x1 != y1
    ensures LabelledU64Diff(x0, y0, name0) + LabelledU64Diff(x1, y1, name1) ==
      [DiffData([name0], Prim(x0), Prim(y0)), DiffData([name1], Prim(x1), Prim(y1))]
  {
    PushOne(DiffData([], Prim(x0), Prim(y0)), name0);
    PushOne(DiffData([], Prim(x1), Prim(y1)), name1);
  }

  /**
   * Two `Four`s that differ in both fields: the hand-written diff labels
   * the records `Three.0` and `Three.1`, where the derive labels them
   * `Four.0` and `Four.1`.
   */
  lemma FourLabelledThree(x0: U64, x1: U64, y0: U64, y1: U64)
    requires x0 != y0 && x1 != y1
    ensures WellFormed(MyEnumTy)
    ensures HasType(ToValue(Four(x0, x1)), MyEnumTy) && HasType(ToValue(Four(y0, y1)), MyEnumTy)
    ensures MyEnumDiff(Four(x0, x1), Four(y0, y1)) ==
      [DiffData(["Three.0"], Prim(x0), Prim(y0)), DiffData(["Three.1"], Prim(x1), Prim(y1))]
    ensures Diff(MyEnumTy, ToValue(Four(x0, x1)), ToValue(Four(y0, y1))) ==
      [DiffData(["Four.0"], Prim(x0), Prim(y0)), DiffData(["Four.1"], Prim(x1), Prim(y1))]
    ensures MyEnumDiff(Four(x0, x1), Four(y0, y1)) != Diff(MyEnumTy, ToValue(Four(x0, x1)), ToValue(Four(y0, y1)))
  {
    DerivedFour(x0, x1, y0, y1);
    BothLabelled(x0, x1, y0, y1, "Three.0", "Three.1");
    BothLabelled(x0, x1, y0, y1, "Four.0", "Four.1");
    assert "Three.0" != "Four.0" by {
      assert "Three.0"[0] != "Four.0"[0];
    }
  }

  /** `struct MyInnerType { field1: u64 }` */
  datatype MyInnerType = MyInnerType(field1: U64)

  /** `struct MyOuterType { field1: u64, field2: MyEnum, field3: String, field4: MyInnerType }` */
  datatype MyOuterType = MyOuterType(field1: U64, field2: MyEnum, field3: string, field4: MyInnerType)

  /**
   * The hand-written partial diff of `MyOuterType`: only `field1` is
   * compared, and its record, if any, is labelled `field1`.
   */
  function OuterDiff(a: MyOuterType, b: MyOuterType): (r: seq<DiffData>)
    ensures r == [] <==> a.field1 == b.field1
    ensures |r| <= 1
    ensures forall d :: d in r ==> d == DiffData(["field1"], Prim(a.field1), Prim(b.field1))
  {
    LabelledU64Diff(a.field1, b.field1, "field1")
  }

  /** `field2`, `field3` and `field4` never influence the diff of `MyOuterType`. */
  lemma OuterIgnoresOtherFields(a: MyOuterType, b: MyOuterType, c: MyOuterType, d: MyOuterType)
    requires a.field1 == c.field1 && b.field1 == d.field1
    ensures OuterDiff(a, b) == OuterDiff(c, d)
  {
  }

  /** A struct with `field1: u64` as its only field, the shape the partial impl behaves as. */
  const Field1OnlyTy: Ty := Struct(Named([U64Field("field1")]))

  lemma Field1OnlyTyped(x: U64)
    ensures WellFormed(Field1OnlyTy) && HasType(Product([Prim(x)]), Field1OnlyTy)
  {
    assert DistinctIdents(FieldList(Field1OnlyTy.fields));
  }

  /** The partial impl is the derive of a struct that has `field1` and nothing else. */
  lemma OuterIsDerivedField1Only(a: MyOuterType, b: MyOuterType)
    ensures WellFormed(Field1OnlyTy)
    ensures HasType(Product([Prim(a.field1)]), Field1OnlyTy) && HasType(Product([Prim(b.field1)]), Field1OnlyTy)
    ensures OuterDiff(a, b) == Diff(Field1OnlyTy, Product([Prim(a.field1)]), Product([Prim(b.field1)]))
  {
    Field1OnlyTyped(a.field1);
    Field1OnlyTyped(b.field1);
    var xs, ys := [Prim(a.field1)], [Prim(b.field1)];
    var fields := FieldList(Field1OnlyTy.fields);
    var labels := Labels(fields);
    assert labels == ["field1"];
    FieldsOfWellFormed(Field1OnlyTy.fields);
    var parts := FieldDiffs(labels, fields, xs, ys);
    assert parts[0] == PushEach(U64Diff(a.field1, b.field1), "field1");
    Chain1(parts);
    assert Diff(Field1OnlyTy, Product(xs), Product(ys)) == Chain(parts);
  }

  /** Two `MyOuterType`s that differ only in `field2`: the partial impl reports nothing. */
  lemma OuterMissesField2(x: U64, e1: MyEnum, e2: MyEnum, s: string, inner: MyInnerType)
    requires e1 != e2
    ensures MyOuterType(x, e1, s, inner) != MyOuterType(x, e2, s, inner)
    ensures OuterDiff(MyOuterType(x, e1, s, inner), MyOuterType(x, e2, s, inner)) == []
    ensures MyEnumDiff(e1, e2) != []
  {
  }
}
