/**
 * The path accumulator `FieldIdentifier` of both internal crates
 * (lazy-struct-diff-internal and struct-diff-iter-internal hold textually
 * identical copies of `new`, `push` and `Debug::fmt`; the second crate adds
 * `to_string`).
 *
 * Labels are stored in push order. Because every enclosing frame pushes its
 * own label after the inner frames have pushed theirs, storage order is
 * innermost-first, and rendering walks the storage backwards, joining the
 * labels with ".".
 */
module FieldIdentifiers {
  import opened Wrappers

  /** A static field label, such as "field1", "0" or "Three.field". */
  type Label = string

  /** The identifier's storage, innermost label first. */
  type Storage = seq<Label>

  /** `s` read back to front. */
  function Reverse<T>(s: seq<T>): (r: seq<T>)
    ensures |r| == |s|
    ensures forall i :: 0 <= i < |s| ==> r[i] == s[|s| - 1 - i]
  {
    if s == [] then [] else [s[|s| - 1]] + Reverse(s[..|s| - 1])
  }

  /** The parts separated by `sep`, with no separator before the first part. */
  function Join(parts: seq<string>, sep: string): string
  {
    if parts == [] then ""
    else if |parts| == 1 then parts[0]
    else parts[0] + sep + Join(parts[1..], sep)
  }

  /** The text of an identifier: its storage reversed and joined with ".". */
  function Render(storage: Storage): string
  {
    Join(Reverse(storage), ".")
  }

  /**
   * The sum of the label lengths, as the `fold` of `to_string` computes it,
   * counted in characters where Rust's `str::len` counts UTF-8 bytes.
   */
  function TotalLength(storage: Storage): nat
  {
    if storage == [] then 0
    else TotalLength(storage[..|storage| - 1]) + |storage[|storage| - 1]|
  }

  lemma {:induction false} JoinSnoc(parts: seq<string>, x: string, sep: string)
    ensures Join(parts + [x], sep) == if parts == [] then x else Join(parts, sep) + sep + x
  {
    if |parts| > 1 {
      assert (parts + [x])[1..] == parts[1..] + [x];
      JoinSnoc(parts[1..], x, sep);
    } else if |parts| == 1 {
      assert (parts + [x])[1..] == [x];
    }
  }

  lemma ReverseSnoc<T>(s: seq<T>, x: T)
    ensures Reverse(s + [x]) == [x] + Reverse(s)
  {
    assert (s + [x])[..|s|] == s;
  }

  lemma ReverseCons<T>(x: T, s: seq<T>)
    ensures Reverse([x] + s) == Reverse(s) + [x]
  {
    var l, r := Reverse([x] + s), Reverse(s) + [x];
    assert |l| == |r|;
    forall i | 0 <= i < |l| ensures l[i] == r[i] { }
  }

  /** The empty identifier renders as the empty string. */
  lemma RenderEmpty()
    ensures Render([]) == ""
  {
  }

  /** A single label renders as exactly that label, with no leading delimiter. */
  lemma RenderSingle(name: Label)
    ensures Render([name]) == name
  {
  }

  /**
   * Pushing a label puts it in front of the rendered text: the label pushed
   * last (the outermost frame) is read first.
   */
  lemma RenderPush(storage: Storage, name: Label)
    ensures Render(storage + [name]) ==
      if storage == [] then name else name + "." + Render(storage)
  {
    ReverseSnoc(storage, name);
    var rest := Reverse(storage);
    assert ([name] + rest)[1..] == rest;
  }

  /** Non-empty storage renders to the label lengths plus one "." between each pair. */
  lemma {:induction false} RenderLength(storage: Storage)
    requires storage != []
    ensures |Render(storage)| == TotalLength(storage) + |storage| - 1
  {
    var init, last := storage[..|storage| - 1], storage[|storage| - 1];
    assert storage == init + [last];
    RenderPush(init, last);
    if init != [] {
      RenderLength(init);
    }
  }

  /**
   * The capacity `to_string` reserves, `len + self.storage.len() - 1` in
   * `usize` arithmetic; `None` is the underflow panic on empty storage.
   */
  function ReservedCapacity(storage: Storage): (r: Option<nat>)
    ensures r.None? <==> storage == []
    ensures r.Some? ==> r.value == |Render(storage)|
  {
    if TotalLength(storage) + |storage| < 1 then None
    else
      RenderLength(storage);
      Some(TotalLength(storage) + |storage| - 1)
  }

  /** The capacity arithmetic with the empty case guarded. */
  function Capacity(storage: Storage): (r: nat)
    ensures r == |Render(storage)|
  {
    if storage == [] then 0
    else
      RenderLength(storage);
      TotalLength(storage) + |storage| - 1
  }

  /** The `std::fmt::Formatter` that `Debug::fmt` writes to; writing is total. */
  class Formatter {
    var written: string

    constructor ()
      ensures written == ""
    {
      written := "";
    }

    /** `write_str`: appends `s` to what was written. */
    method WriteStr(s: string)
      modifies this
      ensures written == old(written) + s
    {
      written := written + s;
    }
  }

  class FieldIdentifier {
    var storage: Storage

    /** `FieldIdentifier::new`: an identifier with no labels. */
    constructor ()
      ensures storage == []
      ensures Render(storage) == ""
    {
      storage := [];
    }

    /** `push`: appends one label at the tail; earlier labels stay as they were. */
    method Push(name: Label)
      modifies this
      ensures storage == old(storage) + [name]
      ensures |storage| == |old(storage)| + 1
      ensures storage[..|old(storage)|] == old(storage)
      ensures Render(storage) ==
        if old(storage) == [] then name else name + "." + Render(old(storage))
    {
      RenderPush(storage, name);
      storage := storage + [name];
    }

    /** `Debug::fmt`: writes the labels back to front, "." between each pair. */
    method Fmt(f: Formatter)
      modifies f
      ensures f.written == old(f.written) + Render(storage)
    {
      ghost var before := f.written;
      var delimiter := "";
      var i := |storage|;
      while i > 0
        invariant 0 <= i <= |storage|
        invariant delimiter == if i == |storage| then "" else "."
        invariant f.written == before + Join(Reverse(storage[i..]), ".")
      {
        ghost var done := Reverse(storage[i..]);
        f.WriteStr(delimiter);
        delimiter := ".";
        f.WriteStr(storage[i - 1]);
        assert f.written == before + (Join(done, ".") + (if i == |storage| then "" else ".") + storage[i - 1]);
        i := i - 1;
        assert storage[i..] == [storage[i]] + storage[i + 1..];
        ReverseCons(storage[i], storage[i + 1..]);
        JoinSnoc(done, storage[i], ".");
      }
      assert storage[0..] == storage;
    }

    /** The loop shared by `to_string` and `Debug::fmt`, building a `String`. */
    method WriteReversed() returns (result: string)
      ensures result == Render(storage)
    {
      var delimiter := "";
      result := "";
      var i := |storage|;
      while i > 0
        invariant 0 <= i <= |storage|
        invariant delimiter == if i == |storage| then "" else "."
        invariant result == Join(Reverse(storage[i..]), ".")
      {
        ghost var done := Reverse(storage[i..]);
        result := result + delimiter;
        delimiter := ".";
        result := result + storage[i - 1];
        i := i - 1;
        assert storage[i..] == [storage[i]] + storage[i + 1..];
        ReverseCons(storage[i], storage[i + 1..]);
        JoinSnoc(done, storage[i], ".");
      }
      assert storage[0..] == storage;
    }

    /**
     * `to_string` as written: reserves `len + count - 1` bytes first, which
     * panics (`None`) when the storage is empty, then renders; the reserved
     * capacity is exactly the length of the text.
     */
    method ToString() returns (r: Option<string>)
      ensures r.None? <==> storage == []
      ensures r.Some? ==> r.value == Render(storage)
      ensures r.Some? ==> ReservedCapacity(storage) == Some(|r.value|)
    {
      var capacity := ReservedCapacity(storage);
      if capacity.None? {
        return None;
      }
      var result := WriteReversed();
      return Some(result);
    }

    /** `to_string` with the capacity guarded: total, and equal to what `Fmt` writes. */
    method ToStringCorrected() returns (r: string)
      ensures r == Render(storage)
      ensures |r| == Capacity(storage)
    {
      ghost var capacity := Capacity(storage);
      r := WriteReversed();
      assert |r| == capacity;
    }
  }

  /** `FieldIdentifier::new().to_string()` panics, although the empty identifier has a text. */
  lemma EmptyToStringPanics()
    ensures ReservedCapacity([]) == None
    ensures Render([]) == "" && Capacity([]) == 0
  {
  }
}
