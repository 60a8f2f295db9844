/**
 * `typeFields` of jsonapi.go with Go's slice semantics written out. The
 * index path of a field is built by `append(idx, fd.Index...)` on the
 * caller's `idx`. When `idx` has spare capacity, `append` writes into the
 * backing array that `idx` shares with every other path built on it. So
 * the fields of one struct embedded deeply enough all end up showing the
 * index that was written last.
 *
 * Backing arrays live in a heap indexed by number; a slice is a header
 * pointing into it. `Metadata.TypeFieldsFrom` gives every field its own
 * path. Here it is the corrected reference, and the two agree on types
 * whose embedded structs do not nest too deeply.
 */
module Aliasing {
  import opened Wrappers
  import opened Metadata

  /** The backing arrays allocated so far; each keeps its length, its capacity, for ever. */
  type Heap = seq<seq<nat>>

  /** A slice header: its backing array, its length and its capacity. */
  datatype Slice = Slice(arr: nat, len: nat, cap: nat)

  /** What a run of the flattening leaves: the heap and the path slices listed. */
  datatype Run = Run(heap: Heap, paths: seq<Slice>)

  predicate Valid(h: Heap, s: Slice) {
    s.arr < |h| && |h[s.arr]| == s.cap && s.len <= s.cap
  }

  /** `h2` comes from `h` by allocating and writing: no array is lost or resized. */
  predicate Grows(h: Heap, h2: Heap) {
    |h| <= |h2| && forall a :: 0 <= a < |h| ==> |h2[a]| == |h[a]|
  }

  /** `h2` comes from `h` by allocating only: every existing array is untouched. */
  predicate OnlyAllocates(h: Heap, h2: Heap) {
    |h| <= |h2| && h2[..|h|] == h
  }

  /** The elements a slice shows. */
  function Elements(h: Heap, s: Slice): seq<nat>
    requires Valid(h, s)
  {
    h[s.arr][..s.len]
  }

  /**
   * The capacity `append` gives a fresh array for `needed` ints when the
   * old capacity was `cap`: double it, or exactly `needed` when doubling
   * is not enough. Here `append` adds one element at a time from capacity
   * 0, so every capacity reached is a power of two; below 256 elements
   * those are size classes of Go's allocator and no rounding applies.
   */
  function GrowCap(cap: nat, needed: nat): (c: nat)
    ensures c >= needed
  {
    if needed > 2 * cap then needed else 2 * cap
  }

  /** `append(s, x)`: in place when there is spare capacity, otherwise into a fresh, larger copy. */
  function Append(h: Heap, s: Slice, x: nat): (r: Run)
    requires Valid(h, s)
    ensures |r.paths| == 1 && Valid(r.heap, r.paths[0]) && Grows(h, r.heap)
    ensures Elements(r.heap, r.paths[0]) == Elements(h, s) + [x]
    ensures s.len < s.cap ==> r.paths[0].arr == s.arr
    ensures s.len == s.cap ==> OnlyAllocates(h, r.heap) && r.paths[0].arr == |h|
  {
    if s.len < s.cap then
      var a := h[s.arr][s.len := x];
      assert a[..s.len + 1] == h[s.arr][..s.len] + [x];
      Run(h[s.arr := a], [Slice(s.arr, s.len + 1, s.cap)])
    else
      var c := GrowCap(s.cap, s.len + 1);
      var grown := h[s.arr][..s.len] + [x] + seq(c - s.len - 1, _ => 0);
      assert grown[..s.len + 1] == h[s.arr][..s.len] + [x];
      Run(h + [grown], [Slice(|h|, s.len + 1, c)])
  }

  lemma ValidGrows(h: Heap, h2: Heap, s: Slice)
    requires Valid(h, s) && Grows(h, h2)
    ensures Valid(h2, s)
  {
  }

  /**
   * `typeFields(t, idx)` from field `i` on, as written: every listed
   * path is the slice `append` returned, and all of them are read from
   * the heap as it stands at the end.
   */
  function TypeFieldsGo(h: Heap, t: FieldType, idx: Slice, i: nat): (r: Run)
    requires t.StructType? && i <= |t.fields| && Valid(h, idx)
    ensures Grows(h, r.heap)
    ensures forall j :: 0 <= j < |r.paths| ==> Valid(r.heap, r.paths[j])
    decreases t, |t.fields| - i, 1
  {
    if i == |t.fields| then Run(h, [])
    else
      var fd := t.fields[i];
      if !fd.exported && !fd.embedded then TypeFieldsGo(h, t, idx, i + 1)
      else
        var here := FieldGo(h, t, idx, i);
        ValidGrows(h, here.heap, idx);
        var rest := TypeFieldsGo(here.heap, t, idx, i + 1);
        forall j | 0 <= j < |here.paths| ensures Valid(rest.heap, here.paths[j]) {
          ValidGrows(here.heap, rest.heap, here.paths[j]);
        }
        Run(rest.heap, here.paths + rest.paths)
  }

  /** One listed field: its path appended to `idx`, flattened further when it is an embedded struct. */
  function FieldGo(h: Heap, t: FieldType, idx: Slice, i: nat): (r: Run)
    requires t.StructType? && i < |t.fields| && Valid(h, idx)
    ensures Grows(h, r.heap)
    ensures forall j :: 0 <= j < |r.paths| ==> Valid(r.heap, r.paths[j])
    decreases t, |t.fields| - i, 0
  {
    var fd := t.fields[i];
    var step := Append(h, idx, i);
    if EmbeddedStruct(fd) then TypeFieldsGo(step.heap, fd.ftype, step.paths[0], 0) else step
  }

  /** The paths `typeFields(t, []int{})` returns, read once the flattening is over. */
  function TypeFieldsAsWritten(t: TypeDecl): seq<seq<nat>> {
    var r := TypeFieldsGo([[]], StructType(t.fields), Slice(0, 0, 0), 0);
    seq(|r.paths|, j requires 0 <= j < |r.paths| => Elements(r.heap, r.paths[j]))
  }

  // ---------------------------------------------------------------------
  // Where the two agree: embedding at most two levels deep
  // ---------------------------------------------------------------------

  /**
   * No embedded struct is met at `depth` 2 or deeper, counting the
   * enclosing structs below the outermost one: the paths handed down are
   * then always full, so every `append` copies.
   */
  predicate Shallow(t: FieldType, depth: nat)
    decreases t
  {
    t.StructType? ==>
      forall k :: 0 <= k < |t.fields| && EmbeddedStruct(t.fields[k]) ==>
        depth < 2 && Shallow(t.fields[k].ftype, depth + 1)
  }

  lemma ElementsKept(h: Heap, h2: Heap, s: Slice)
    requires Valid(h, s) && OnlyAllocates(h, h2)
    ensures Valid(h2, s) && Elements(h2, s) == Elements(h, s)
  {
    assert h2[s.arr] == h2[..|h|][s.arr];
  }

  lemma OnlyAllocatesTrans(h1: Heap, h2: Heap, h3: Heap)
    requires OnlyAllocates(h1, h2) && OnlyAllocates(h2, h3)
    ensures OnlyAllocates(h1, h3)
  {
    assert h3[..|h1|] == h3[..|h2|][..|h1|];
  }

  /**
   * On a full path and a shallow struct, the flattening as written only
   * allocates and lists exactly the corrected paths.
   */
  lemma {:induction false} GoAgrees(h: Heap, t: FieldType, idx: Slice, i: nat)
    requires t.StructType? && i <= |t.fields| && Valid(h, idx)
    requires idx.len == idx.cap && Shallow(t, idx.len)
    ensures var r := TypeFieldsGo(h, t, idx, i);
            var ls := TypeFieldsFrom(t, Elements(h, idx), i);
            OnlyAllocates(h, r.heap) && |r.paths| == |ls|
            && forall j :: 0 <= j < |ls| ==> Elements(r.heap, r.paths[j]) == ls[j].idx
    decreases t, |t.fields| - i, 1
  {
    var prefix := Elements(h, idx);
    if i < |t.fields| {
      var fd := t.fields[i];
      if !fd.exported && !fd.embedded {
        GoAgrees(h, t, idx, i + 1);
      } else {
        var here := FieldGo(h, t, idx, i);
        var hereL := if EmbeddedStruct(fd) then TypeFieldsFrom(fd.ftype, prefix + [i], 0) else [Located(prefix + [i], fd)];
        FieldAgrees(h, t, idx, i);
        ElementsKept(h, here.heap, idx);
        var rest := TypeFieldsGo(here.heap, t, idx, i + 1);
        GoAgrees(here.heap, t, idx, i + 1);
        OnlyAllocatesTrans(h, here.heap, rest.heap);
        forall j | 0 <= j < |hereL|
          ensures Elements(rest.heap, here.paths[j]) == hereL[j].idx
        {
          ElementsKept(here.heap, rest.heap, here.paths[j]);
        }
        UnfoldGo(h, t, idx, i);
        UnfoldFrom(t, prefix, i);
        JoinAgreement(rest.heap, here.paths, rest.paths, hereL, TypeFieldsFrom(t, prefix, i + 1));
      }
    }
  }

  lemma UnfoldGo(h: Heap, t: FieldType, idx: Slice, i: nat)
    requires t.StructType? && i < |t.fields| && Valid(h, idx)
    requires t.fields[i].exported || t.fields[i].embedded
    ensures Valid(FieldGo(h, t, idx, i).heap, idx)
    ensures var here := FieldGo(h, t, idx, i);
            var rest := TypeFieldsGo(here.heap, t, idx, i + 1);
            TypeFieldsGo(h, t, idx, i) == Run(rest.heap, here.paths + rest.paths)
  {
    ValidGrows(h, FieldGo(h, t, idx, i).heap, idx);
  }

  lemma UnfoldFrom(t: FieldType, prefix: seq<nat>, i: nat)
    requires t.StructType? && i < |t.fields|
    requires t.fields[i].exported || t.fields[i].embedded
    ensures var fd := t.fields[i];
            TypeFieldsFrom(t, prefix, i)
            == (if EmbeddedStruct(fd) then TypeFieldsFrom(fd.ftype, prefix + [i], 0) else [Located(prefix + [i], fd)])
               + TypeFieldsFrom(t, prefix, i + 1)
  {
  }

  /** Two runs that each read as their corrected lists read, one after the other, as the concatenation. */
  lemma JoinAgreement(h: Heap, a: seq<Slice>, b: seq<Slice>, la: seq<Located>, lb: seq<Located>)
    requires |a| == |la| && |b| == |lb|
    requires forall j :: 0 <= j < |a| ==> Valid(h, a[j]) && Elements(h, a[j]) == la[j].idx
    requires forall j :: 0 <= j < |b| ==> Valid(h, b[j]) && Elements(h, b[j]) == lb[j].idx
    ensures forall j :: 0 <= j < |la + lb| ==> Valid(h, (a + b)[j]) && Elements(h, (a + b)[j]) == (la + lb)[j].idx
  {
    forall j | 0 <= j < |la + lb|
      ensures Valid(h, (a + b)[j]) && Elements(h, (a + b)[j]) == (la + lb)[j].idx
    {
      if j >= |a| {
        assert (a + b)[j] == b[j - |a|] && (la + lb)[j] == lb[j - |a|];
      }
    }
  }

  lemma {:induction false} FieldAgrees(h: Heap, t: FieldType, idx: Slice, i: nat)
    requires t.StructType? && i < |t.fields| && Valid(h, idx)
    requires idx.len == idx.cap && Shallow(t, idx.len)
    ensures var r := FieldGo(h, t, idx, i);
            var fd := t.fields[i];
            var p := Elements(h, idx) + [i];
            var ls := if EmbeddedStruct(fd) then TypeFieldsFrom(fd.ftype, p, 0) else [Located(p, fd)];
            OnlyAllocates(h, r.heap) && |r.paths| == |ls|
            && forall j :: 0 <= j < |ls| ==> Elements(r.heap, r.paths[j]) == ls[j].idx
    decreases t, |t.fields| - i, 0
  {
    var fd := t.fields[i];
    var step := Append(h, idx, i);
    if EmbeddedStruct(fd) {
      var p0 := step.paths[0];
      assert p0.len == p0.cap;
      GoAgrees(step.heap, fd.ftype, p0, 0);
      OnlyAllocatesTrans(h, step.heap, FieldGo(h, t, idx, i).heap);
    }
  }

  /**
   * When no embedded struct sits two or more levels below the record
   * type, the flattening as written lists exactly the corrected paths.
   */
  lemma TypeFieldsShallowAgree(t: TypeDecl)
    requires Shallow(StructType(t.fields), 0)
    ensures TypeFieldsAsWritten(t) == PathsOf(TypeFields(t))
  {
    GoAgrees([[]], StructType(t.fields), Slice(0, 0, 0), 0);
    assert Elements([[]], Slice(0, 0, 0)) == [];
  }

  // ---------------------------------------------------------------------
  // The discrepancy: four levels of embedding
  // ---------------------------------------------------------------------

  const FieldX := FieldDecl("X", true, false, OtherType("string"), "attr,x", "")
  const FieldY := FieldDecl("Y", true, false, OtherType("string"), "attr,y", "")

  /** `D{X, Y}`, embedded in `C`, embedded in `B`, embedded in `A`. */
  const StructD := StructType([FieldX, FieldY])
  const StructC := StructType([FieldDecl("D", true, true, StructD, "", "")])
  const StructB := StructType([FieldDecl("C", true, true, StructC, "", "")])
  const Nested := TypeDecl("A", [FieldDecl("B", true, true, StructB, "", "")], None, None)

  /** The heap once `D`'s path is allocated, and once `X` and then `Y` are written into its spare slot. */
  const HeapD: Heap := [[], [0], [0, 0], [0, 0, 0, 0]]
  const HeapEnd: Heap := [[], [0], [0, 0], [0, 0, 0, 1]]
  const PathD := Slice(3, 3, 4)
  const PathXY := Slice(3, 4, 4)

  lemma FlattenD()
    ensures TypeFieldsGo(HeapD, StructD, PathD, 0) == Run(HeapEnd, [PathXY, PathXY])
  {
    var x := Append(HeapD, PathD, 0);
    assert HeapD[3][3 := 0] == HeapD[3];
    assert x == Run(HeapD, [PathXY]);
    var y := Append(HeapD, PathD, 1);
    assert HeapD[3][3 := 1] == [0, 0, 0, 1];
    assert HeapD[3 := [0, 0, 0, 1]] == HeapEnd;
    assert y == Run(HeapEnd, [PathXY]);
    assert TypeFieldsGo(HeapEnd, StructD, PathD, 2) == Run(HeapEnd, []);
    assert TypeFieldsGo(HeapD, StructD, PathD, 1) == Run(HeapEnd, [PathXY]);
  }

  lemma FlattenC()
    ensures TypeFieldsGo([[], [0], [0, 0]], StructC, Slice(2, 2, 2), 0) == Run(HeapEnd, [PathXY, PathXY])
  {
    var h: Heap := [[], [0], [0, 0]];
    var d := Append(h, Slice(2, 2, 2), 0);
    assert h[2][..2] + [0] + seq(1, _ => 0) == [0, 0, 0, 0];
    assert d == Run(HeapD, [PathD]);
    FlattenD();
    assert TypeFieldsGo(HeapEnd, StructC, Slice(2, 2, 2), 1) == Run(HeapEnd, []);
  }

  lemma FlattenB()
    ensures TypeFieldsGo([[], [0]], StructB, Slice(1, 1, 1), 0) == Run(HeapEnd, [PathXY, PathXY])
  {
    var h: Heap := [[], [0]];
    var c := Append(h, Slice(1, 1, 1), 0);
    assert h[1][..1] + [0] + seq(0, _ => 0) == [0, 0];
    assert c == Run([[], [0], [0, 0]], [Slice(2, 2, 2)]);
    FlattenC();
    assert TypeFieldsGo(HeapEnd, StructB, Slice(1, 1, 1), 1) == Run(HeapEnd, []);
  }

  lemma FlattenA()
    ensures TypeFieldsGo([[]], StructType(Nested.fields), Slice(0, 0, 0), 0) == Run(HeapEnd, [PathXY, PathXY])
  {
    var h: Heap := [[]];
    var b := Append(h, Slice(0, 0, 0), 0);
    assert h[0][..0] + [0] + seq(0, _ => 0) == [0];
    assert b == Run([[], [0]], [Slice(1, 1, 1)]);
    FlattenB();
    assert TypeFieldsGo(HeapEnd, StructType(Nested.fields), Slice(0, 0, 0), 1) == Run(HeapEnd, []);
  }

  /** The corrected flattening of the same type. */
  lemma FlattenCorrected()
    ensures PathsOf(TypeFields(Nested)) == [[0, 0, 0, 0], [0, 0, 0, 1]]
  {
    var d := TypeFieldsFrom(StructD, [0, 0, 0], 0);
    assert [0, 0, 0] + [0] == [0, 0, 0, 0] && [0, 0, 0] + [1] == [0, 0, 0, 1];
    assert [0, 0] + [0] == [0, 0, 0] && [0] + [0] == [0, 0] && [] + [0] == [0];
    assert !EmbeddedStruct(FieldX) && !EmbeddedStruct(FieldY);
    assert TypeFieldsFrom(StructD, [0, 0, 0], 2) == [];
    assert TypeFieldsFrom(StructD, [0, 0, 0], 1) == [Located([0, 0, 0, 1], FieldY)];
    assert d == [Located([0, 0, 0, 0], FieldX), Located([0, 0, 0, 1], FieldY)];
    assert TypeFieldsFrom(StructC, [0, 0], 1) == [];
    assert TypeFieldsFrom(StructC, [0, 0], 0) == d;
    assert TypeFieldsFrom(StructB, [0], 1) == [];
    assert TypeFieldsFrom(StructB, [0], 0) == d;
    assert TypeFieldsFrom(StructType(Nested.fields), [], 1) == [];
    assert TypeFields(Nested) == d;
  }

  /**
   * In `A{B}`, `B{C}`, `C{D}`, `D{X, Y}` the path of `D` has length 3 and
   * capacity 4, so `X` and `Y` are both appended into its spare slot: Go
   * lists `[0 0 0 1]` twice, and the attribute `x` is lost to a second `y`.
   * The corrected flattening lists `[0 0 0 0]` and `[0 0 0 1]`.
   */
  lemma TypeFieldsAliasing()
    ensures TypeFieldsAsWritten(Nested) == [[0, 0, 0, 1], [0, 0, 0, 1]]
    ensures PathsOf(TypeFields(Nested)) == [[0, 0, 0, 0], [0, 0, 0, 1]]
  {
    FlattenA();
    assert Elements(HeapEnd, PathXY) == [0, 0, 0, 1];
    FlattenCorrected();
  }
}
