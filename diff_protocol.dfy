/**
 * The diff protocol: a difference record (`DiffData`), `push_field`, and the
 * `u64` base case of the `LazyDiff` trait (`lazy_diff_iter` in
 * lazy-struct-diff-internal, `struct_diff_iter` in struct-diff-iter-internal;
 * the two bodies are the same).
 *
 * The lazy iterator a diff returns is modelled by the finite sequence of the
 * records it would yield, in order.
 */
module DiffProtocol {
  import opened FieldIdentifiers

  /** Rust's `u64`. */
  newtype U64 = x: int | 0 <= x < 0x1_0000_0000_0000_0000

  /**
   * A value of a type that implements the protocol: a `u64` leaf, a struct
   * (its field values in declaration order; none for a unit struct), or an
   * enum value (the index of its variant and that variant's field values).
   */
  datatype Value =
    | Prim(n: U64)
    | Product(items: seq<Value>)
    | Sum(variant: nat, items: seq<Value>)

  /**
   * One observed inequality: the path so far (storage of a
   * `FieldIdentifier`, innermost label first) and the two values found there.
   */
  datatype DiffData = DiffData(field: Storage, selfValue: Value, otherValue: Value)

  /** `DiffData::push_field`: the same record with one more label on its path. */
  function PushField(d: DiffData, name: Label): (r: DiffData)
    ensures r.selfValue == d.selfValue && r.otherValue == d.otherValue
    ensures r.field == d.field + [name]
    ensures Render(r.field) == if d.field == [] then name else name + "." + Render(d.field)
  {
    RenderPush(d.field, name);
    d.(field := d.field + [name])
  }

  /**
   * `update(|x| x.field.push(name))` (or `map(|x| x.push_field(name))`) over
   * a field's records: every record, in order, with `name` pushed.
   */
  function PushEach(rs: seq<DiffData>, name: Label): (r: seq<DiffData>)
    ensures |r| == |rs|
    ensures forall i :: 0 <= i < |rs| ==> r[i] == PushField(rs[i], name)
    ensures forall d :: d in r ==> |d.field| > 0 && d.field[|d.field| - 1] == name
  {
    if rs == [] then [] else [PushField(rs[0], name)] + PushEach(rs[1..], name)
  }

  /**
   * The `u64` base case: the one-record array filtered by `!is_eq`. Equal
   * leaves yield nothing; unequal leaves yield one record with an empty path
   * that refers to `self` and `other`.
   */
  function U64Diff(a: U64, b: U64): (r: seq<DiffData>)
    ensures r == [] <==> a == b
    ensures |r| <= 1
    ensures forall d :: d in r ==> d.field == [] && d.selfValue == Prim(a) && d.otherValue == Prim(b)
  {
    var isEq := a == b;
    var candidates := [DiffData([], Prim(a), Prim(b))];
    if isEq then [] else candidates
  }
  /**
   * `first.chain(second).chain(..)`: the records of each part in turn, in
   * the order of the parts.
   */
  function Chain(parts: seq<seq<DiffData>>): (r: seq<DiffData>)
    ensures forall k, d :: 0 <= k < |parts| && d in parts[k] ==> d in r
  {
    if parts == [] then [] else parts[0] + Chain(parts[1..])
  }

  /** Chaining the first `k` parts and then the rest gives the chain of all parts. */
  lemma {:induction false} ChainSplit(parts: seq<seq<DiffData>>, k: nat)
    requires k <= |parts|
    ensures Chain(parts) == Chain(parts[..k]) + Chain(parts[k..])
  {
    if k == 0 {
      assert parts[..0] == [] && parts[0..] == parts;
    } else {
      ChainSplit(parts[1..], k - 1);
      assert parts[..k][1..] == parts[1..][..k - 1];
      assert parts[1..][k - 1..] == parts[k..];
    }
  }

  /** The chain of all parts: those before part `k`, then part `k`, then those after it. */
  lemma ChainAround(parts: seq<seq<DiffData>>, k: nat)
    requires k < |parts|
    ensures Chain(parts) == Chain(parts[..k]) + parts[k] + Chain(parts[k + 1..])
  {
    ChainSplit(parts, k);
    var rest := parts[k..];
    assert rest[0] == parts[k] && rest[1..] == parts[k + 1..];
    assert Chain(rest) == parts[k] + Chain(parts[k + 1..]);
  }

  /** A record of a chain is a record of one of its parts. */
  lemma {:induction false} ChainMember(parts: seq<seq<DiffData>>, d: DiffData) returns (j: nat)
    requires d in Chain(parts)
    ensures j < |parts| && d in parts[j]
  {
    if d in parts[0] {
      j := 0;
    } else {
      var j' := ChainMember(parts[1..], d);
      j := j' + 1;
    }
  }

  /** A chain is empty exactly when all its parts are. */
  lemma {:induction false} ChainEmpty(parts: seq<seq<DiffData>>)
    ensures Chain(parts) == [] <==> forall j :: 0 <= j < |parts| ==> parts[j] == []
  {
    if parts != [] {
      ChainEmpty(parts[1..]);
      assert forall j :: 1 <= j < |parts| ==> parts[1..][j - 1] == parts[j];
    }
  }

  /** A record of a labelled part is one of the part's own records with the label pushed. */
  lemma PushEachMember(rs: seq<DiffData>, name: Label, d: DiffData) returns (e: DiffData)
    requires d in PushEach(rs, name)
    ensures e in rs && d == PushField(e, name)
  {
    var i :| 0 <= i < |rs| && PushEach(rs, name)[i] == d;
    e := rs[i];
  }
}
