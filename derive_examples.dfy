/**
 * The types and scenarios of the repository's integration tests
 * (tests/tests.rs), as shapes for the derive and values of those shapes.
 */
module DeriveExamples {
  import opened Wrappers
  import opened FieldIdentifiers
  import opened DiffProtocol
  import opened Derive

  function U64Field(name: string): Field
  {
    Field(Some(name), U64Ty)
  }

  /** `struct SimpleStruct { field1: u64, field2: u64, field3: u64 }` */
  const SimpleStructTy: Ty :=
    Struct(Named([U64Field("field1"), U64Field("field2"), U64Field("field3")]))

  /** `struct StructUnnamedFields(u64, u64);` */
  const StructUnnamedFieldsTy: Ty :=
    Struct(Unnamed([Field(None, U64Ty), Field(None, U64Ty)]))

  /** `struct DummyType3;` */
  const DummyType3Ty: Ty :=
    Struct(Unit)

  /** `enum MyEnum { One, Two, Three { field: u64 }, Four(u64, u64) }` */
  const MyEnumTy: Ty :=
    Enum([
      Variant("One", Unit),
      Variant("Two", Unit),
      Variant("Three", Named([U64Field("field")])),
      Variant("Four", Unnamed([Field(None, U64Ty), Field(None, U64Ty)]))
    ])

  function Simple(f1: U64, f2: U64, f3: U64): Value
  {
    Product([Prim(f1), Prim(f2), Prim(f3)])
  }

  lemma Chain1(parts: seq<seq<DiffData>>)
    requires |parts| == 1
    ensures Chain(parts) == parts[0]
  {
    assert parts[1..] == [];
  }

  lemma Chain2(parts: seq<seq<DiffData>>)
    requires |parts| == 2
    ensures Chain(parts) == parts[0] + parts[1]
  {
    Chain1(parts[1..]);
  }

  lemma Chain3(parts: seq<seq<DiffData>>)
    requires |parts| == 3
    ensures Chain(parts) == parts[0] + parts[1] + parts[2]
  {
    Chain2(parts[1..]);
  }

  lemma Chain4(parts: seq<seq<DiffData>>)
    requires |parts| == 4
    ensures Chain(parts) == parts[0] + parts[1] + parts[2] + parts[3]
  {
    Chain3(parts[1..]);
  }

  /** Pushing a label onto the records of a single difference. */
  lemma PushOne(d: DiffData, name: Label)
    ensures PushEach([d], name) == [DiffData(d.field + [name], d.selfValue, d.otherValue)]
  {
  }

  /** One record one level down, pushed once more: a path of two labels. */
  lemma PushPair(inner: Label, name: Label, x: Value, y: Value)
    ensures PushEach([DiffData([inner], x, y)], name) == [DiffData([inner, name], x, y)]
  {
    PushOne(DiffData([inner], x, y), name);
    assert [inner] + [name] == [inner, name];
  }

  lemma SimpleTyped(f1: U64, f2: U64, f3: U64)
    ensures WellFormed(SimpleStructTy) && HasType(Simple(f1, f2, f3), SimpleStructTy)
  {
    var fields := FieldList(SimpleStructTy.fields);
    assert DistinctIdents(fields);
  }

  lemma TupleTyped(f0: U64, f1: U64)
    ensures WellFormed(StructUnnamedFieldsTy) && HasType(Product([Prim(f0), Prim(f1)]), StructUnnamedFieldsTy)
  {
  }

  lemma ThreeTyped(f: U64)
    ensures WellFormed(MyEnumTy) && HasType(Sum(2, [Prim(f)]), MyEnumTy)
  {
  }

  /** `SimpleStruct`s that differ only in `field2` give one record, at `field2`. */
  lemma SimpleField2Differs(x: U64, y: U64, z: U64, w: U64)
    requires y != w
    ensures WellFormed(SimpleStructTy)
    ensures HasType(Simple(x, y, z), SimpleStructTy) && HasType(Simple(x, w, z), SimpleStructTy)
    ensures Diff(SimpleStructTy, Simple(x, y, z), Simple(x, w, z)) == [DiffData(["field2"], Prim(y), Prim(w))]
  {
    SimpleTyped(x, y, z);
    SimpleTyped(x, w, z);
    var a, b := Simple(x, y, z), Simple(x, w, z);
    var fields := FieldList(SimpleStructTy.fields);
    var labels := Labels(fields);
    assert labels == ["field1", "field2", "field3"];
    FieldsOfWellFormed(SimpleStructTy.fields);
    var parts := FieldDiffs(labels, fields, a.items, b.items);
    assert parts[0] == [] && parts[2] == [];
    assert parts[1] == [DiffData(["field2"], Prim(y), Prim(w))];
    Chain3(parts);
    assert Diff(SimpleStructTy, a, b) == Chain(parts);
  }

  /** `test_basic_struct`: only `field2` differs, so there is one record, with path "field2". */
  lemma TestBasicStruct()
    ensures WellFormed(SimpleStructTy)
    ensures HasType(Simple(1, 2, 3), SimpleStructTy) && HasType(Simple(1, 3, 3), SimpleStructTy)
    ensures
      var r := Diff(SimpleStructTy, Simple(1, 2, 3), Simple(1, 3, 3));
      |r| == 1 && Render(r[0].field) == "field2"
  {
    SimpleField2Differs(1, 2, 3, 3);
    RenderSingle("field2");
  }

  /** `StructUnnamedFields` values that differ only in field 1 give one record, at `1`. */
  lemma TupleField1Differs(x: U64, y: U64, w: U64)
    requires y != w
    ensures WellFormed(StructUnnamedFieldsTy)
    ensures HasType(Product([Prim(x), Prim(y)]), StructUnnamedFieldsTy)
    ensures HasType(Product([Prim(x), Prim(w)]), StructUnnamedFieldsTy)
    ensures Diff(StructUnnamedFieldsTy, Product([Prim(x), Prim(y)]), Product([Prim(x), Prim(w)])) ==
      [DiffData(["1"], Prim(y), Prim(w))]
  {
    TupleTyped(x, y);
    TupleTyped(x, w);
    var a, b := Product([Prim(x), Prim(y)]), Product([Prim(x), Prim(w)]);
    var fields := FieldList(StructUnnamedFieldsTy.fields);
    var labels := Labels(fields);
    assert labels == ["0", "1"];
    FieldsOfWellFormed(StructUnnamedFieldsTy.fields);
    var parts := FieldDiffs(labels, fields, a.items, b.items);
    assert parts[0] == [];
    assert parts[1] == [DiffData(["1"], Prim(y), Prim(w))];
    Chain2(parts);
    assert Diff(StructUnnamedFieldsTy, a, b) == Chain(parts);
  }

  lemma FourTyped(f0: U64, f1: U64)
    ensures WellFormed(MyEnumTy) && HasType(Sum(3, [Prim(f0), Prim(f1)]), MyEnumTy)
  {
    ThreeTyped(f0);
  }

  /** The derived diff of two `Three` values: the `u64` diff of `field`, labelled `Three.field`. */
  lemma DerivedThree(y: U64, w: U64)
    ensures WellFormed(MyEnumTy)
    ensures HasType(Sum(2, [Prim(y)]), MyEnumTy) && HasType(Sum(2, [Prim(w)]), MyEnumTy)
    ensures Diff(MyEnumTy, Sum(2, [Prim(y)]), Sum(2, [Prim(w)])) == PushEach(U64Diff(y, w), "Three.field")
  {
    ThreeTyped(y);
    ThreeTyped(w);
    var v := MyEnumTy.variants[2];
    var a, b := Sum(2, [Prim(y)]), Sum(2, [Prim(w)]);
    assert Labels(FieldList(v.fields)) == ["field"];
    assert QualifiedLabel("Three", "field") == "Three.field";
    var labels := VariantLabels(v);
    assert labels == ["Three.field"];
    FieldsOfWellFormed(v.fields);
    var parts := FieldDiffs(labels, FieldList(v.fields), a.items, b.items);
    assert parts[0] == PushEach(U64Diff(y, w), "Three.field");
    Chain1(parts);
    assert Diff(MyEnumTy, a, b) == Chain(parts);
  }

  /**
   * The derived diff of two `Four` values: the `u64` diffs of fields 0 and
   * 1, in that order, labelled `Four.0` and `Four.1`.
   */
  lemma DerivedFour(x0: U64, x1: U64, y0: U64, y1: U64)
    ensures WellFormed(MyEnumTy)
    ensures HasType(Sum(3, [Prim(x0), Prim(x1)]), MyEnumTy) && HasType(Sum(3, [Prim(y0), Prim(y1)]), MyEnumTy)
    ensures Diff(MyEnumTy, Sum(3, [Prim(x0), Prim(x1)]), Sum(3, [Prim(y0), Prim(y1)])) ==
      PushEach(U64Diff(x0, y0), "Four.0") + PushEach(U64Diff(x1, y1), "Four.1")
  {
    FourTyped(x0, x1);
    FourTyped(y0, y1);
    var v := MyEnumTy.variants[3];
    var a, b := Sum(3, [Prim(x0), Prim(x1)]), Sum(3, [Prim(y0), Prim(y1)]);
    assert Labels(FieldList(v.fields)) == ["0", "1"];
    assert QualifiedLabel("Four", "0") == "Four.0";
    assert QualifiedLabel("Four", "1") == "Four.1";
    var labels := VariantLabels(v);
    assert labels == ["Four.0", "Four.1"];
    FieldsOfWellFormed(v.fields);
    var parts := FieldDiffs(labels, FieldList(v.fields), a.items, b.items);
    assert parts[0] == PushEach(U64Diff(x0, y0), "Four.0");
    assert parts[1] == PushEach(U64Diff(x1, y1), "Four.1");
    Chain2(parts);
    assert Diff(MyEnumTy, a, b) == Chain(parts);
  }

  /** `Three { field: y }` against `Three { field: w }` with `y != w` gives one record, at `Three.field`. */
  lemma ThreeFieldDiffers(y: U64, w: U64)
    requires y != w
    ensures WellFormed(MyEnumTy)
    ensures HasType(Sum(2, [Prim(y)]), MyEnumTy) && HasType(Sum(2, [Prim(w)]), MyEnumTy)
    ensures Diff(MyEnumTy, Sum(2, [Prim(y)]), Sum(2, [Prim(w)])) == [DiffData(["Three.field"], Prim(y), Prim(w))]
  {
    DerivedThree(y, w);
    PushOne(DiffData([], Prim(y), Prim(w)), "Three.field");
  }

  /**
   * `struct CombinedStruct { field1: T1, field2: T2, field3: T3, field4: T4 }`,
   * with the field types left open.
   */
  function Combined(t1: Ty, t2: Ty, t3: Ty, t4: Ty): Ty
  {
    Struct(Named([
      Field(Some("field1"), t1),
      Field(Some("field2"), t2),
      Field(Some("field3"), t3),
      Field(Some("field4"), t4)
    ]))
  }

  /** The `CombinedStruct` of `test_inner_struct`. */
  const CombinedStructTy: Ty := Combined(SimpleStructTy, StructUnnamedFieldsTy, MyEnumTy, DummyType3Ty)

  /** A four-field struct is well formed when its field types are; its values are four-item products. */
  lemma CombinedTyped(t1: Ty, t2: Ty, t3: Ty, t4: Ty, a1: Value, a2: Value, a3: Value, a4: Value)
    requires WellFormed(t1) && HasType(a1, t1)
    requires WellFormed(t2) && HasType(a2, t2)
    requires WellFormed(t3) && HasType(a3, t3)
    requires WellFormed(t4) && HasType(a4, t4)
    ensures WellFormed(Combined(t1, t2, t3, t4))
    ensures HasType(Product([a1, a2, a3, a4]), Combined(t1, t2, t3, t4))
  {
    var fields := FieldList(Combined(t1, t2, t3, t4).fields);
    assert DistinctIdents(fields);
    assert AllHaveTypes([a1, a2, a3, a4], fields);
  }

  /** The four parts the derive chains for a four-field struct: each field's records with its name pushed. */
  lemma CombinedParts(t1: Ty, t2: Ty, t3: Ty, t4: Ty, a1: Value, a2: Value, a3: Value, a4: Value,
                      b1: Value, b2: Value, b3: Value, b4: Value) returns (parts: seq<seq<DiffData>>)
    requires WellFormed(t1) && HasType(a1, t1) && HasType(b1, t1)
    requires WellFormed(t2) && HasType(a2, t2) && HasType(b2, t2)
    requires WellFormed(t3) && HasType(a3, t3) && HasType(b3, t3)
    requires WellFormed(t4) && HasType(a4, t4) && HasType(b4, t4)
    ensures WellFormed(Combined(t1, t2, t3, t4))
    ensures HasType(Product([a1, a2, a3, a4]), Combined(t1, t2, t3, t4))
    ensures HasType(Product([b1, b2, b3, b4]), Combined(t1, t2, t3, t4))
    ensures Diff(Combined(t1, t2, t3, t4), Product([a1, a2, a3, a4]), Product([b1, b2, b3, b4])) == Chain(parts)
    ensures |parts| == 4
    ensures parts[0] == PushEach(Diff(t1, a1, b1), "field1") && parts[1] == PushEach(Diff(t2, a2, b2), "field2")
    ensures parts[2] == PushEach(Diff(t3, a3, b3), "field3") && parts[3] == PushEach(Diff(t4, a4, b4), "field4")
  {
    CombinedTyped(t1, t2, t3, t4, a1, a2, a3, a4);
    CombinedTyped(t1, t2, t3, t4, b1, b2, b3, b4);
    var t := Combined(t1, t2, t3, t4);
    var fields := FieldList(t.fields);
    var xs, ys := [a1, a2, a3, a4], [b1, b2, b3, b4];
    var labels := Labels(fields);
    assert labels == ["field1", "field2", "field3", "field4"];
    FieldsOfWellFormed(t.fields);
    assert fields == [Field(Some("field1"), t1), Field(Some("field2"), t2), Field(Some("field3"), t3), Field(Some("field4"), t4)];
    parts := FieldDiffs(labels, fields, xs, ys);
    assert Diff(t, Product(xs), Product(ys)) == Chain(parts);
    assert parts[0] == PushEach(Diff(fields[0].ty, xs[0], ys[0]), labels[0]);
    assert parts[1] == PushEach(Diff(fields[1].ty, xs[1], ys[1]), labels[1]);
    assert parts[2] == PushEach(Diff(fields[2].ty, xs[2], ys[2]), labels[2]);
    assert parts[3] == PushEach(Diff(fields[3].ty, xs[3], ys[3]), labels[3]);
  }

  /**
   * The records of a four-field struct are those of its fields, in field
   * order, each extended with the field's name.
   */
  lemma CombinedDiff(t1: Ty, t2: Ty, t3: Ty, t4: Ty, a1: Value, a2: Value, a3: Value, a4: Value,
                     b1: Value, b2: Value, b3: Value, b4: Value)
    requires WellFormed(t1) && HasType(a1, t1) && HasType(b1, t1)
    requires WellFormed(t2) && HasType(a2, t2) && HasType(b2, t2)
    requires WellFormed(t3) && HasType(a3, t3) && HasType(b3, t3)
    requires WellFormed(t4) && HasType(a4, t4) && HasType(b4, t4)
    ensures WellFormed(Combined(t1, t2, t3, t4))
    ensures HasType(Product([a1, a2, a3, a4]), Combined(t1, t2, t3, t4))
    ensures HasType(Product([b1, b2, b3, b4]), Combined(t1, t2, t3, t4))
    ensures Diff(Combined(t1, t2, t3, t4), Product([a1, a2, a3, a4]), Product([b1, b2, b3, b4])) ==
      PushEach(Diff(t1, a1, b1), "field1") + PushEach(Diff(t2, a2, b2), "field2") +
      PushEach(Diff(t3, a3, b3), "field3") + PushEach(Diff(t4, a4, b4), "field4")
  {
    var parts := CombinedParts(t1, t2, t3, t4, a1, a2, a3, a4, b1, b2, b3, b4);
    Chain4(parts);
  }

  /** A `CombinedStruct` value of `test_inner_struct`, with its three changing numbers left open. */
  function Inner(f12: U64, f21: U64, f3: U64): Value
  {
    Product([Simple(1, f12, 3), Product([Prim(1), Prim(f21)]), Sum(2, [Prim(f3)]), Product([])])
  }

  /** The four fields of `Inner(f12, f21, f3)` have the field types of `CombinedStruct`. */
  lemma InnerFieldsTyped(f12: U64, f21: U64, f3: U64)
    ensures WellFormed(SimpleStructTy) && HasType(Simple(1, f12, 3), SimpleStructTy)
    ensures WellFormed(StructUnnamedFieldsTy) && HasType(Product([Prim(1), Prim(f21)]), StructUnnamedFieldsTy)
    ensures WellFormed(MyEnumTy) && HasType(Sum(2, [Prim(f3)]), MyEnumTy)
    ensures WellFormed(DummyType3Ty) && HasType(Product([]), DummyType3Ty)
  {
    SimpleTyped(1, f12, 3);
    TupleTyped(1, f21);
    ThreeTyped(f3);
  }

  /** The records of two `Inner` values, field by field. */
  lemma InnerSplit(y1: U64, y2: U64, y3: U64, w1: U64, w2: U64, w3: U64)
    ensures (InnerFieldsTyped(y1, y2, y3); InnerFieldsTyped(w1, w2, w3);
      && WellFormed(CombinedStructTy)
      && HasType(Inner(y1, y2, y3), CombinedStructTy) && HasType(Inner(w1, w2, w3), CombinedStructTy)
      && Diff(CombinedStructTy, Inner(y1, y2, y3), Inner(w1, w2, w3)) ==
        PushEach(Diff(SimpleStructTy, Simple(1, y1, 3), Simple(1, w1, 3)), "field1") +
        PushEach(Diff(StructUnnamedFieldsTy, Product([Prim(1), Prim(y2)]), Product([Prim(1), Prim(w2)])), "field2") +
        PushEach(Diff(MyEnumTy, Sum(2, [Prim(y3)]), Sum(2, [Prim(w3)])), "field3") +
        PushEach(Diff(DummyType3Ty, Product([]), Product([])), "field4"))
  {
    InnerFieldsTyped(y1, y2, y3);
    InnerFieldsTyped(w1, w2, w3);
    CombinedDiff(SimpleStructTy, StructUnnamedFieldsTy, MyEnumTy, DummyType3Ty,
      Simple(1, y1, 3), Product([Prim(1), Prim(y2)]), Sum(2, [Prim(y3)]), Product([]),
      Simple(1, w1, 3), Product([Prim(1), Prim(w2)]), Sum(2, [Prim(w3)]), Product([]));
  }

  /** The records of each changed field of `Inner`, with the field's name pushed. */
  lemma InnerFieldRecords(y1: U64, y2: U64, y3: U64, w1: U64, w2: U64, w3: U64)
    requires y1 != w1 && y2 != w2 && y3 != w3
    ensures (InnerFieldsTyped(y1, y2, y3); InnerFieldsTyped(w1, w2, w3);
      && PushEach(Diff(SimpleStructTy, Simple(1, y1, 3), Simple(1, w1, 3)), "field1") ==
        [DiffData(["field2", "field1"], Prim(y1), Prim(w1))]
      && PushEach(Diff(StructUnnamedFieldsTy, Product([Prim(1), Prim(y2)]), Product([Prim(1), Prim(w2)])), "field2") ==
        [DiffData(["1", "field2"], Prim(y2), Prim(w2))]
      && PushEach(Diff(MyEnumTy, Sum(2, [Prim(y3)]), Sum(2, [Prim(w3)])), "field3") ==
        [DiffData(["Three.field", "field3"], Prim(y3), Prim(w3))]
      && PushEach(Diff(DummyType3Ty, Product([]), Product([])), "field4") == [])
  {
    InnerFieldsTyped(y1, y2, y3);
    InnerFieldsTyped(w1, w2, w3);
    SimpleField2Differs(1, y1, 3, w1);
    PushPair("field2", "field1", Prim(y1), Prim(w1));
    TupleField1Differs(1, y2, w2);
    PushPair("1", "field2", Prim(y2), Prim(w2));
    ThreeFieldDiffers(y3, w3);
    PushPair("Three.field", "field3", Prim(y3), Prim(w3));
  }

  /**
   * `CombinedStruct` values that differ in `field1.field2`, `field2.1` and
   * the `field` of variant `Three` of `field3` give exactly those three
   * records, in field order.
   */
  lemma InnerRecords(y1: U64, y2: U64, y3: U64, w1: U64, w2: U64, w3: U64)
    requires y1 != w1 && y2 != w2 && y3 != w3
    ensures WellFormed(CombinedStructTy)
    ensures HasType(Inner(y1, y2, y3), CombinedStructTy) && HasType(Inner(w1, w2, w3), CombinedStructTy)
    ensures Diff(CombinedStructTy, Inner(y1, y2, y3), Inner(w1, w2, w3)) == [
      DiffData(["field2", "field1"], Prim(y1), Prim(w1)),
      DiffData(["1", "field2"], Prim(y2), Prim(w2)),
      DiffData(["Three.field", "field3"], Prim(y3), Prim(w3))
    ]
  {
    InnerSplit(y1, y2, y3, w1, w2, w3);
    InnerFieldRecords(y1, y2, y3, w1, w2, w3);
  }

  /**
   * `test_inner_struct` (which changes 2 to 3, 2 to 3 and 1 to 2): whatever
   * the changed numbers, the differences inside a nested struct, a tuple
   * struct and an enum come out in field order, with paths
   * "field1.field2", "field2.1" and "field3.Three.field".
   */
  lemma TestInnerStruct(y1: U64, y2: U64, y3: U64, w1: U64, w2: U64, w3: U64)
    requires y1 != w1 && y2 != w2 && y3 != w3
    ensures WellFormed(CombinedStructTy)
    ensures HasType(Inner(y1, y2, y3), CombinedStructTy) && HasType(Inner(w1, w2, w3), CombinedStructTy)
    ensures
      var r := Diff(CombinedStructTy, Inner(y1, y2, y3), Inner(w1, w2, w3));
      && |r| == 3
      && Render(r[0].field) == "field1.field2"
      && Render(r[1].field) == "field2.1"
      && Render(r[2].field) == "field3.Three.field"
  {
    InnerRecords(y1, y2, y3, w1, w2, w3);
    InnerPaths();
  }

  /** A two-label storage, inner label pushed first, renders outer label first. */
  lemma RenderPair(inner: Label, outer: Label)
    ensures Render([inner, outer]) == outer + "." + inner
  {
    assert [inner, outer] == [inner] + [outer];
    RenderPush([inner], outer);
    RenderSingle(inner);
  }

  /** The rendered paths of the three records of `test_inner_struct`. */
  lemma InnerPaths()
    ensures Render(["field2", "field1"]) == "field1.field2"
    ensures Render(["1", "field2"]) == "field2.1"
    ensures Render(["Three.field", "field3"]) == "field3.Three.field"
  {
    RenderPair("field2", "field1");
    RenderPair("1", "field2");
    RenderPair("Three.field", "field3");
  }

  /** `test_inner_struct` with its own numbers. */
  lemma TestInnerStructConcrete()
    ensures WellFormed(CombinedStructTy)
    ensures HasType(Inner(2, 2, 1), CombinedStructTy) && HasType(Inner(3, 3, 2), CombinedStructTy)
    ensures |Diff(CombinedStructTy, Inner(2, 2, 1), Inner(3, 3, 2))| == 3
  {
    TestInnerStruct(2, 2, 1, 3, 3, 2);
  }
}
