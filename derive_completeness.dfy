/**
 * Completeness of the derived diff: every position where the two values
 * hold a leaf difference is reported, and by exactly one record. Together
 * with `DeriveProperties.DiffLocates` (every record sits at such a
 * position) this makes the records and the leaf differences correspond one
 * to one.
 */
module DeriveCompleteness {
  import opened FieldIdentifiers
  import opened DiffProtocol
  import opened Derive
  import opened DeriveProperties

  /** No two records share a path. */
  predicate DistinctPaths(rs: seq<DiffData>)
  {
    forall i, j :: 0 <= i < j < |rs| ==> rs[i].field != rs[j].field
  }

  lemma ReverseInjective(s: Storage, u: Storage)
    requires Reverse(s) == Reverse(u)
    ensures s == u
  {
    assert |s| == |u|;
    forall i | 0 <= i < |s| ensures s[i] == u[i] {
      assert Reverse(s)[|s| - 1 - i] == s[i];
      assert Reverse(u)[|u| - 1 - i] == u[i];
    }
  }

  /** The position of the first "." in `l`, or `|l|` if there is none. */
  function DotIndex(l: string): (r: nat)
    ensures r <= |l|
    ensures r < |l| ==> l[r] == '.'
    ensures forall i :: 0 <= i < r ==> l[i] != '.'
  {
    if l == [] then 0
    else if l[0] == '.' then 0
    else 1 + DotIndex(l[1..])
  }

  /** In a label `x + "." + ..` whose `x` contains no ".", the name `x` is what precedes the first ".". */
  lemma NameBeforeDot(l: Label, x: string)
    requires '.' !in x
    requires |l| > |x| && l[..|x| + 1] == x + "."
    ensures DotIndex(l) == |x| && l[..DotIndex(l)] == x
  {
    assert forall i :: 0 <= i < |x| ==> l[i] == x[i] && x[i] in x;
    assert l[|x|] == '.';
  }

  /**
   * A `"Variant.field"` label names its variant: two variants of a
   * well-formed enum that both have a field with label `l` are the same.
   */
  lemma SharedVariantLabel(vs: seq<Variant>, m: nat, n: nat, l: Label)
    requires WellFormed(Enum(vs)) && m < |vs| && n < |vs|
    requires l in VariantLabels(vs[m]) && l in VariantLabels(vs[n])
    ensures m == n
  {
    var i :| 0 <= i < |VariantLabels(vs[m])| && VariantLabels(vs[m])[i] == l;
    var j :| 0 <= j < |VariantLabels(vs[n])| && VariantLabels(vs[n])[j] == l;
    NameBeforeDot(l, vs[m].ident);
    NameBeforeDot(l, vs[n].ident);
    if m < n {
      assert false;
    } else if n < m {
      assert false;
    }
  }

  /** A record of field `j` of a chain of fields, with field `j`'s label pushed, is a record of the chain. */
  lemma FieldRecordInChain(labels: seq<Label>, fields: seq<Field>, xs: seq<Value>, ys: seq<Value>, j: nat, e: DiffData)
    requires |labels| == |fields| && AllWellFormed(fields)
    requires AllHaveTypes(xs, fields) && AllHaveTypes(ys, fields)
    requires j < |xs| && e in Diff(fields[j].ty, xs[j], ys[j])
    ensures PushField(e, labels[j]) in Chain(FieldDiffs(labels, fields, xs, ys))
  {
    var rs := Diff(fields[j].ty, xs[j], ys[j]);
    var i :| 0 <= i < |rs| && rs[i] == e;
    assert PushEach(rs, labels[j])[i] == PushField(e, labels[j]);
  }

  /** A leaf difference at the root is the record of the two whole values. */
  lemma DiffCompleteRoot(t: Ty, a: Value, b: Value)
    requires WellFormed(t) && HasType(a, t) && HasType(b, t)
    requires IsLeafDiff(a, b)
    ensures DiffData([], a, b) in Diff(t, a, b)
  {
    if t.Enum? {
      assert Diff(t, a, b) == [DiffData([], a, b)];
    }
  }

  /**
   * Two values of one struct type, or of one variant, that have at least one
   * field: both have the same frame, and their diff is the chain of their
   * fields.
   */
  lemma SameFrame(t: Ty, a: Value, b: Value)
    requires WellFormed(t) && HasType(a, t) && HasType(b, t)
    requires !t.U64Ty? && !(t.Enum? && a.variant != b.variant)
    requires |Frame(t, a).0| > 0
    ensures Frame(t, b) == Frame(t, a)
    ensures |Frame(t, a).0| == |Frame(t, a).1| == |a.items| == |b.items|
    ensures AllWellFormed(Frame(t, a).1)
    ensures AllHaveTypes(a.items, Frame(t, a).1) && AllHaveTypes(b.items, Frame(t, a).1)
    ensures Diff(t, a, b) == Chain(FieldDiffs(Frame(t, a).0, Frame(t, a).1, a.items, b.items))
  {
    var fs := if t.Struct? then t.fields else t.variants[a.variant].fields;
    FieldsOfWellFormed(fs);
  }

  /** Pushing the first label of a position onto a storage for the rest of it gives a storage for it. */
  lemma PushedPath(s: Storage, p: seq<Label>)
    requires p != [] && Reverse(s) == p[1..]
    ensures Reverse(s + [p[0]]) == p
  {
    ReverseSnoc(s, p[0]);
    assert [p[0]] + p[1..] == p;
  }

  /**
   * One step down a leaf difference below the root: its first label names
   * field `j`, of type `c`, of the common frame of the two values, and
   * looking the position up in the values is looking the rest of it up in
   * field `j`, where the two values hold a leaf difference too.
   */
  lemma Descend(t: Ty, a: Value, b: Value, p: seq<Label>) returns (j: nat, c: Ty)
    requires WellFormed(t) && HasType(a, t) && HasType(b, t)
    requires p != [] && LeafDiffAt(t, a, b, p)
    ensures !t.U64Ty? && !(t.Enum? && a.variant != b.variant)
    ensures j < |Frame(t, a).0| && j < |Frame(t, a).1| && j < |a.items| && j < |b.items|
    ensures Frame(t, a).0[j] == p[0] && Frame(t, a).1[j].ty == c
    ensures WellFormed(c) && HasType(a.items[j], c) && HasType(b.items[j], c)
    ensures LeafDiffAt(c, a.items[j], b.items[j], p[1..])
    ensures Lookup(t, a, p) == Lookup(c, a.items[j], p[1..])
    ensures Lookup(t, b, p) == Lookup(c, b.items[j], p[1..])
  {
    var (ls, fields) := Frame(t, a);
    j := IndexOf(ls, p[0]);
    assert j < |ls|;
    if t.Enum? && a.variant != b.variant {
      SharedVariantLabel(t.variants, a.variant, b.variant, p[0]);
      assert false;
    } else {
      SameFrame(t, a, b);
      c := fields[j].ty;
    }
  }

  /** One step up: a record of field `j`, of type `c`, at the rest of `p` becomes, labelled, a record of the whole diff at `p`. */
  lemma Ascend(t: Ty, a: Value, b: Value, p: seq<Label>, j: nat, c: Ty, e: DiffData) returns (d: DiffData)
    requires WellFormed(t) && HasType(a, t) && HasType(b, t)
    requires !t.U64Ty? && !(t.Enum? && a.variant != b.variant)
    requires j < |Frame(t, a).0| && j < |Frame(t, a).1| && j < |a.items| && j < |b.items|
    requires p != [] && Frame(t, a).0[j] == p[0] && Frame(t, a).1[j].ty == c
    requires WellFormed(c) && HasType(a.items[j], c) && HasType(b.items[j], c)
    requires e in Diff(c, a.items[j], b.items[j]) && Reverse(e.field) == p[1..]
    ensures d in Diff(t, a, b)
    ensures Reverse(d.field) == p
    ensures d.selfValue == e.selfValue && d.otherValue == e.otherValue
  {
    var (ls, fields) := Frame(t, a);
    SameFrame(t, a, b);
    FieldRecordInChain(ls, fields, a.items, b.items, j, e);
    d := PushField(e, ls[j]);
    PushedPath(e.field, p);
  }

  /**
   * Completeness: wherever the two values hold a leaf difference, the diff
   * has a record whose path, read outer-to-inner, is that position and
   * which refers to the two differing values found there.
   */
  lemma {:induction false} DiffComplete(t: Ty, a: Value, b: Value, p: seq<Label>) returns (d: DiffData)
    requires WellFormed(t) && HasType(a, t) && HasType(b, t)
    requires LeafDiffAt(t, a, b, p)
    ensures d in Diff(t, a, b)
    ensures Reverse(d.field) == p
    ensures d.selfValue == Lookup(t, a, p).value && d.otherValue == Lookup(t, b, p).value
    decreases a
  {
    if p == [] {
      DiffCompleteRoot(t, a, b);
      d := DiffData([], a, b);
    } else {
      var j, c := Descend(t, a, b, p);
      var e := DiffComplete(c, a.items[j], b.items[j], p[1..]);
      d := Ascend(t, a, b, p, j, c, e);
    }
  }

  lemma DistinctPathsConcat(x: seq<DiffData>, y: seq<DiffData>)
    requires DistinctPaths(x) && DistinctPaths(y)
    requires forall d, e :: d in x && e in y ==> d.field != e.field
    ensures DistinctPaths(x + y)
  {
    var z := x + y;
    forall i, j | 0 <= i < j < |z| ensures z[i].field != z[j].field {
      if j < |x| {
        assert z[i] == x[i] && z[j] == x[j];
      } else if i >= |x| {
        assert z[i] == y[i - |x|] && z[j] == y[j - |x|];
      } else {
        assert z[i] in x && z[j] in y;
      }
    }
  }

  lemma SnocInjective(s: Storage, u: Storage, x: Label)
    requires s + [x] == u + [x]
    ensures s == u
  {
    assert s == (s + [x])[..|s|];
    assert u == (u + [x])[..|u|];
  }

  /** Pushing one label onto every record keeps their paths pairwise different. */
  lemma PushEachDistinct(rs: seq<DiffData>, name: Label)
    requires DistinctPaths(rs)
    ensures DistinctPaths(PushEach(rs, name))
  {
    var r := PushEach(rs, name);
    forall i, j | 0 <= i < j < |r| ensures r[i].field != r[j].field {
      assert r[i].field == rs[i].field + [name] && r[j].field == rs[j].field + [name];
      if r[i].field == r[j].field {
        SnocInjective(rs[i].field, rs[j].field, name);
      }
    }
  }

  /**
   * A chain of parts with pairwise different paths inside each part, whose
   * records carry their part's label outermost, under pairwise different
   * labels, has pairwise different paths.
   */
  lemma {:induction false} ChainDistinct(parts: seq<seq<DiffData>>, labels: seq<Label>)
    requires |labels| == |parts| && Distinct(labels)
    requires forall k :: 0 <= k < |parts| ==> DistinctPaths(parts[k])
    requires forall k, d :: 0 <= k < |parts| && d in parts[k] ==> |d.field| > 0 && d.field[|d.field| - 1] == labels[k]
    ensures DistinctPaths(Chain(parts))
  {
    if parts != [] {
      ChainDistinct(parts[1..], labels[1..]);
      forall d, e | d in parts[0] && e in Chain(parts[1..]) ensures d.field != e.field {
        var j := ChainMember(parts[1..], e);
        assert e in parts[j + 1];
        assert labels[0] != labels[j + 1];
      }
      DistinctPathsConcat(parts[0], Chain(parts[1..]));
    }
  }

  /** No two records of a derived diff share a path. */
  lemma {:induction false} DiffPathsDistinct(t: Ty, a: Value, b: Value)
    requires WellFormed(t) && HasType(a, t) && HasType(b, t)
    ensures DistinctPaths(Diff(t, a, b))
    decreases a
  {
    match t
    case U64Ty =>
    case Struct(fs) =>
      if !fs.Unit? {
        FieldsOfWellFormed(fs);
        LabelsDistinct(fs);
        var labels, fields := Labels(FieldList(fs)), FieldList(fs);
        var parts := FieldDiffs(labels, fields, a.items, b.items);
        forall k | 0 <= k < |parts| ensures DistinctPaths(parts[k]) {
          DiffPathsDistinct(fields[k].ty, a.items[k], b.items[k]);
          PushEachDistinct(Diff(fields[k].ty, a.items[k], b.items[k]), labels[k]);
        }
        ChainDistinct(parts, labels);
      }
    case Enum(vs) =>
      var v := vs[a.variant];
      if a.variant == b.variant && !v.fields.Unit? {
        FieldsOfWellFormed(v.fields);
        VariantLabelsDistinct(v);
        var labels, fields := VariantLabels(v), FieldList(v.fields);
        var parts := FieldDiffs(labels, fields, a.items, b.items);
        forall k | 0 <= k < |parts| ensures DistinctPaths(parts[k]) {
          DiffPathsDistinct(fields[k].ty, a.items[k], b.items[k]);
          PushEachDistinct(Diff(fields[k].ty, a.items[k], b.items[k]), labels[k]);
        }
        ChainDistinct(parts, labels);
      }
  }

  /**
   * Exactly one record per leaf difference: at every position where the
   * values hold a leaf difference there is one record, and only one, whose
   * path is that position, and it refers to the two values found there.
   */
  lemma DiffReportsLeafOnce(t: Ty, a: Value, b: Value, p: seq<Label>) returns (i: nat)
    requires WellFormed(t) && HasType(a, t) && HasType(b, t)
    requires LeafDiffAt(t, a, b, p)
    ensures i < |Diff(t, a, b)|
    ensures Reverse(Diff(t, a, b)[i].field) == p
    ensures Diff(t, a, b)[i].selfValue == Lookup(t, a, p).value
    ensures Diff(t, a, b)[i].otherValue == Lookup(t, b, p).value
    ensures forall j :: 0 <= j < |Diff(t, a, b)| && Reverse(Diff(t, a, b)[j].field) == p ==> j == i
  {
    var d := DiffComplete(t, a, b, p);
    var r := Diff(t, a, b);
    i :| 0 <= i < |r| && r[i] == d;
    DiffPathsDistinct(t, a, b);
    forall j | 0 <= j < |r| && Reverse(r[j].field) == p ensures j == i {
      ReverseInjective(r[j].field, r[i].field);
    }
  }

  /** Conversely, every record sits at a leaf difference of the two values. */
  lemma DiffRecordAtLeaf(t: Ty, a: Value, b: Value, d: DiffData)
    requires WellFormed(t) && HasType(a, t) && HasType(b, t)
    requires d in Diff(t, a, b)
    ensures LeafDiffAt(t, a, b, Reverse(d.field))
  {
    DiffLocates(t, a, b, d);
  }
}
