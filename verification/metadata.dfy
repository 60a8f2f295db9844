/**
 * The type descriptor of jsonapi.go: flattening of a struct's fields
 * (`typeFields`), classification of `jsonapi:"role,name,mods"` tags
 * (`typesCache.get`), resource type and id resolution (`checkID`), the
 * API-shape test (`fields.api`) and scope gating (`field.inScope`). The cache
 * only memoises, so the descriptor is a pure function of the declaration.
 */
module Metadata {
  import opened Wrappers
  import opened Text
  import opened Naming

  /** A field's type, as far as flattening cares: a struct with its own fields, or anything else. */
  datatype FieldType = StructType(fields: seq<FieldDecl>) | OtherType(kind: string)

  /**
   * One struct field as reflection reports it: the declared name, whether it
   * is exported and whether it is embedded (anonymous), its type, and the
   * values of its `jsonapi` and `scope` tags (`""` when absent).
   */
  datatype FieldDecl = FieldDecl(
    name: string, exported: bool, embedded: bool, ftype: FieldType, tag: string, scopeTag: string)

  /**
   * A record type: its name, its fields in declaration order, and what the
   * optional `JSONType()` and `JSONID()` methods return when the type has them.
   */
  datatype TypeDecl = TypeDecl(name: string, fields: seq<FieldDecl>, jsonType: Option<string>, jsonId: Option<string>)

  /** A flattened field and its index path from the outermost struct. */
  datatype Located = Located(idx: seq<nat>, decl: FieldDecl)

  /** A field descriptor (`field` in jsonapi.go). */
  datatype Field = Field(idx: seq<nat>, name: string, scopes: seq<string>, readonly: bool, quote: bool, skipEmpty: bool)

  /** A type descriptor (`fields` in jsonapi.go). */
  datatype Descriptor = Descriptor(id: seq<nat>, stype: string, attrs: seq<Field>, links: seq<Field>, rels: seq<Field>)

  const Empty := Descriptor([], "", [], [], [])

  predicate IsPrefix(p: seq<nat>, s: seq<nat>) {
    |p| <= |s| && s[..|p|] == p
  }

  predicate EmbeddedStruct(d: FieldDecl) {
    d.embedded && d.ftype.StructType?
  }

  /**
   * `typeFields` from field `i` of struct type `t` on: unexported fields that
   * are not embedded are skipped, an embedded struct is replaced by its own
   * flattened fields under its index, and every other field is listed with
   * its index path.
   */
  function TypeFieldsFrom(t: FieldType, prefix: seq<nat>, i: nat): (r: seq<Located>)
    requires t.StructType? && i <= |t.fields|
    ensures forall j :: 0 <= j < |r| ==> Under(prefix, i, r[j])
    decreases t, |t.fields| - i
  {
    if i == |t.fields| then []
    else
      var fd := t.fields[i];
      var rest := TypeFieldsFrom(t, prefix, i + 1);
      if !fd.exported && !fd.embedded then rest
      else
        var here := if EmbeddedStruct(fd) then TypeFieldsFrom(fd.ftype, prefix + [i], 0) else [Located(prefix + [i], fd)];
        forall j | 0 <= j < |here| ensures Under(prefix, i, here[j]) && here[j].idx[|prefix|] == i {
          NarrowPrefix(prefix, i, here[j].idx);
        }
        here + rest
  }

  /** A flattened entry found under `prefix` at field `i` or later: what `typeFields` may list. */
  predicate Under(prefix: seq<nat>, i: nat, l: Located) {
    && |l.idx| > |prefix| && IsPrefix(prefix, l.idx) && l.idx[|prefix|] >= i
    && !EmbeddedStruct(l.decl) && (l.decl.exported || l.decl.embedded)
  }

  lemma NarrowPrefix(prefix: seq<nat>, i: nat, p: seq<nat>)
    requires IsPrefix(prefix + [i], p)
    ensures IsPrefix(prefix, p) && p[|prefix|] == i && |p| > |prefix|
  {
    assert p[..|prefix|] == p[..|prefix| + 1][..|prefix|];
    assert p[|prefix|] == p[..|prefix| + 1][|prefix|];
  }

  predicate DistinctPaths(ls: seq<Located>) {
    forall j, k :: 0 <= j < k < |ls| ==> ls[j].idx != ls[k].idx
  }

  /** `typeFields` never lists the same index path twice. */
  lemma {:induction false} TypeFieldsDistinct(t: FieldType, prefix: seq<nat>, i: nat)
    requires t.StructType? && i <= |t.fields|
    ensures DistinctPaths(TypeFieldsFrom(t, prefix, i))
    decreases t, |t.fields| - i
  {
    if i < |t.fields| {
      var fd := t.fields[i];
      TypeFieldsDistinct(t, prefix, i + 1);
      if fd.exported || fd.embedded {
        var rest := TypeFieldsFrom(t, prefix, i + 1);
        var here := if EmbeddedStruct(fd) then TypeFieldsFrom(fd.ftype, prefix + [i], 0) else [Located(prefix + [i], fd)];
        if EmbeddedStruct(fd) {
          TypeFieldsDistinct(fd.ftype, prefix + [i], 0);
        }
        forall j | 0 <= j < |here| ensures here[j].idx[|prefix|] == i {
          NarrowPrefix(prefix, i, here[j].idx);
        }
        var r := here + rest;
        assert r == TypeFieldsFrom(t, prefix, i);
        forall j, k | 0 <= j < k < |r| ensures r[j].idx != r[k].idx {
          if k < |here| {
            assert EmbeddedStruct(fd);
            assert here == TypeFieldsFrom(fd.ftype, prefix + [i], 0);
            assert r[j] == here[j] && r[k] == here[k];
            assert DistinctPaths(here);
            assert here[j].idx != here[k].idx;
          } else if j >= |here| {
            assert r[j] == rest[j - |here|] && r[k] == rest[k - |here|];
            assert DistinctPaths(rest);
            assert rest[j - |here|].idx != rest[k - |here|].idx;
          } else {
            assert r[j].idx[|prefix|] == i;
            assert r[k] == rest[k - |here|];
            assert Under(prefix, i + 1, rest[k - |here|]);
            assert r[k].idx[|prefix|] > i;
            assert r[j].idx[|prefix|] != r[k].idx[|prefix|];
          }
        }
      }
    }
  }

  /** `typeFields(t, []int{})`: every field reachable through embedding, in declaration order. */
  function TypeFields(t: TypeDecl): seq<Located> {
    TypeFieldsFrom(StructType(t.fields), [], 0)
  }

  /** A type without embedded fields flattens to its exported fields, each under its own index. */
  lemma {:induction false} TypeFieldsFlat(t: FieldType, prefix: seq<nat>, i: nat)
    requires t.StructType? && i <= |t.fields|
    requires forall j :: i <= j < |t.fields| ==> !t.fields[j].embedded
    ensures TypeFieldsFrom(t, prefix, i) == ExportedFrom(t.fields, prefix, i)
    decreases |t.fields| - i
  {
    if i < |t.fields| {
      TypeFieldsFlat(t, prefix, i + 1);
    }
  }

  function ExportedFrom(fields: seq<FieldDecl>, prefix: seq<nat>, i: nat): seq<Located>
    requires i <= |fields|
    decreases |fields| - i
  {
    if i == |fields| then []
    else (if fields[i].exported then [Located(prefix + [i], fields[i])] else []) + ExportedFrom(fields, prefix, i + 1)
  }

  /** The tag's comma-separated tokens; the first is the role. */
  function Keys(d: FieldDecl): (keys: seq<string>)
    ensures |keys| >= 1
  {
    Split(d.tag, ',')
  }

  function Role(d: FieldDecl): string {
    if d.tag == "" then "" else Keys(d)[0]
  }

  /** The wire name: the tag's second token when it is a valid key, else the declared field name. */
  function WireName(d: FieldDecl): (name: string)
    ensures ValidKey(name) || name == d.name
    ensures |Keys(d)| > 1 && ValidKey(Keys(d)[1]) ==> name == Keys(d)[1]
  {
    var keys := Keys(d);
    if |keys| > 1 && ValidKey(keys[1]) then keys[1] else d.name
  }

  /** The modifier loop over the tag's tokens from the third on; unknown tokens are ignored. */
  function ApplyModifiers(f: Field, mods: seq<string>): (r: Field)
    ensures r.idx == f.idx && r.name == f.name && r.scopes == f.scopes
    ensures r.readonly <==> f.readonly || "readonly" in mods
    ensures r.quote <==> f.quote || "string" in mods
    ensures r.skipEmpty <==> f.skipEmpty || "omitempty" in mods
    decreases |mods|
  {
    if mods == [] then f
    else
      var f' := if mods[0] == "readonly" then f.(readonly := true)
                else if mods[0] == "string" then f.(quote := true)
                else if mods[0] == "omitempty" then f.(skipEmpty := true)
                else f;
      assert mods == [mods[0]] + mods[1..];
      ApplyModifiers(f', mods[1..])
  }

  /** The attribute descriptor built for an `attr`-tagged field at `idx`. */
  function AttrField(l: Located): (f: Field)
    ensures f.idx == l.idx && f.name == WireName(l.decl)
    ensures f.readonly <==> exists j :: 2 <= j < |Keys(l.decl)| && Keys(l.decl)[j] == "readonly"
    ensures f.quote <==> exists j :: 2 <= j < |Keys(l.decl)| && Keys(l.decl)[j] == "string"
    ensures f.skipEmpty <==> exists j :: 2 <= j < |Keys(l.decl)| && Keys(l.decl)[j] == "omitempty"
    ensures f.scopes == if l.decl.scopeTag == "" then [] else Split(l.decl.scopeTag, ',')
  {
    var keys := Keys(l.decl);
    var scopes := if l.decl.scopeTag == "" then [] else Split(l.decl.scopeTag, ',');
    var base := Field(l.idx, WireName(l.decl), scopes, false, false, false);
    var mods := if |keys| > 2 then keys[2..] else [];
    var f := ApplyModifiers(base, mods);
    assert forall m :: m in mods <==> exists j :: 2 <= j < |keys| && keys[j] == m by {
      forall m ensures m in mods <==> exists j :: 2 <= j < |keys| && keys[j] == m {
        if m in mods {
          var k :| 0 <= k < |mods| && mods[k] == m;
          assert keys[k + 2] == m;
        }
        if exists j :: 2 <= j < |keys| && keys[j] == m {
          var j :| 2 <= j < |keys| && keys[j] == m;
          assert mods[j - 2] == m;
        }
      }
    }
    f
  }

  /** A link or relation descriptor: only the index and the wire name. */
  function NamedField(l: Located): Field {
    Field(l.idx, WireName(l.decl), [], false, false, false)
  }

  /** One iteration of the classification loop of `typesCache.get`. */
  function Step(d: Descriptor, l: Located): Descriptor {
    var role := Role(l.decl);
    if role == "id" then
      d.(id := l.idx, stype := if |Keys(l.decl)| > 1 then Keys(l.decl)[1] else d.stype)
    else if role == "attr" then d.(attrs := d.attrs + [AttrField(l)])
    else if role == "link" then d.(links := d.links + [NamedField(l)])
    else if role == "rel" then d.(rels := d.rels + [NamedField(l)])
    else d
  }

  /** The classification loop over the flattened fields, in order. */
  function ClassifyFrom(d: Descriptor, ls: seq<Located>): Descriptor
    decreases |ls|
  {
    if ls == [] then d else ClassifyFrom(Step(d, ls[0]), ls[1..])
  }

  /** The attribute descriptors of `ls`, one per `attr`-tagged field, in order. */
  function AttrsOf(ls: seq<Located>): seq<Field> {
    if ls == [] then []
    else (if Role(ls[0].decl) == "attr" then [AttrField(ls[0])] else []) + AttrsOf(ls[1..])
  }

  function LinksOf(ls: seq<Located>): seq<Field> {
    if ls == [] then []
    else (if Role(ls[0].decl) == "link" then [NamedField(ls[0])] else []) + LinksOf(ls[1..])
  }

  function RelsOf(ls: seq<Located>): seq<Field> {
    if ls == [] then []
    else (if Role(ls[0].decl) == "rel" then [NamedField(ls[0])] else []) + RelsOf(ls[1..])
  }

  predicate IdTagged(l: Located) {
    Role(l.decl) == "id"
  }

  /**
   * The classification loop appends exactly the `attr` fields to the
   * attribute list, in flattened declaration order; untagged fields and
   * other roles contribute nothing.
   */
  lemma {:induction false} ClassifyAttrs(d: Descriptor, ls: seq<Located>)
    ensures ClassifyFrom(d, ls).attrs == d.attrs + AttrsOf(ls)
    decreases |ls|
  {
    if ls != [] {
      var d' := Step(d, ls[0]);
      ClassifyAttrs(d', ls[1..]);
      assert d'.attrs == d.attrs + (if Role(ls[0].decl) == "attr" then [AttrField(ls[0])] else []);
    }
  }

  /** Likewise the `link` fields, in order. */
  lemma {:induction false} ClassifyLinks(d: Descriptor, ls: seq<Located>)
    ensures ClassifyFrom(d, ls).links == d.links + LinksOf(ls)
    decreases |ls|
  {
    if ls != [] {
      var d' := Step(d, ls[0]);
      ClassifyLinks(d', ls[1..]);
      assert d'.links == d.links + (if Role(ls[0].decl) == "link" then [NamedField(ls[0])] else []);
    }
  }

  /** Likewise the `rel` fields, in order. */
  lemma {:induction false} ClassifyRels(d: Descriptor, ls: seq<Located>)
    ensures ClassifyFrom(d, ls).rels == d.rels + RelsOf(ls)
    decreases |ls|
  {
    if ls != [] {
      var d' := Step(d, ls[0]);
      ClassifyRels(d', ls[1..]);
      assert d'.rels == d.rels + (if Role(ls[0].decl) == "rel" then [NamedField(ls[0])] else []);
    }
  }

  /** Without an `id` tag among `ls`, classification leaves the id path and resource type as they were. */
  lemma {:induction false} ClassifyKeepsId(d: Descriptor, ls: seq<Located>)
    requires forall j :: 0 <= j < |ls| ==> !IdTagged(ls[j])
    ensures ClassifyFrom(d, ls).id == d.id && ClassifyFrom(d, ls).stype == d.stype
    decreases |ls|
  {
    if ls != [] {
      assert !IdTagged(ls[0]);
      ClassifyKeepsId(Step(d, ls[0]), ls[1..]);
    }
  }

  lemma {:induction false} ClassifyAppend(d: Descriptor, a: seq<Located>, b: seq<Located>)
    ensures ClassifyFrom(d, a + b) == ClassifyFrom(ClassifyFrom(d, a), b)
    decreases |a|
  {
    if a == [] {
      assert a + b == b;
    } else {
      assert (a + b)[1..] == a[1..] + b;
      ClassifyAppend(Step(d, a[0]), a[1..], b);
    }
  }

  /** `fields.api`: a type is API-shaped when it has at least one attribute. */
  predicate Api(d: Descriptor) {
    |d.attrs| > 0
  }

  /** `t.FieldByName(name)` over the type's own fields: the index of the first field so named. */
  function FieldByName(fields: seq<FieldDecl>, name: string): (r: Option<nat>)
    ensures r.Some? ==> (r.value < |fields| && fields[r.value].name == name
                         && forall j :: 0 <= j < r.value ==> fields[j].name != name)
    ensures r.None? ==> forall j :: 0 <= j < |fields| ==> fields[j].name != name
  {
    if fields == [] then None
    else if fields[0].name == name then Some(0)
    else match FieldByName(fields[1..], name)
      case Some(k) => Some(k + 1)
      case None => None
  }

  /**
   * `checkID`: when no field carried an `id` tag, the resource type comes
   * from `JSONType()` or the kebab-cased type name, and the id is the field
   * named by `JSONID()` (default `"ID"`) when there is one.
   */
  function CheckID(d: Descriptor, t: TypeDecl): (r: Descriptor)
    ensures |d.id| > 0 ==> r == d
    ensures |d.id| == 0 ==> r.attrs == d.attrs && r.links == d.links && r.rels == d.rels
    ensures |d.id| == 0 ==> r.stype == (match t.jsonType case Some(s) => s case None => StringTransform(t.name, "-"))
  {
    if |d.id| > 0 then d
    else
      var idName := t.jsonId.GetOr("ID");
      var stype := match t.jsonType case Some(s) => s case None => StringTransform(t.name, "-");
      var found := if idName != "" then FieldByName(t.fields, idName) else None;
      d.(stype := stype, id := if found.Some? then [found.value] else d.id)
  }

  /** The descriptor `typesCache.get` builds for a record type. */
  function Describe(t: TypeDecl): Descriptor {
    CheckID(ClassifyFrom(Empty, TypeFields(t)), t)
  }

  /**
   * The attribute, link and relation lists of a type are its `attr`, `link`
   * and `rel` fields in flattened order, and it is API-shaped exactly when
   * one of its fields carries an `attr` tag.
   */
  lemma DescribeLists(t: TypeDecl)
    ensures Describe(t).attrs == AttrsOf(TypeFields(t))
    ensures Describe(t).links == LinksOf(TypeFields(t))
    ensures Describe(t).rels == RelsOf(TypeFields(t))
    ensures Api(Describe(t)) <==> exists j :: 0 <= j < |TypeFields(t)| && Role(TypeFields(t)[j].decl) == "attr"
  {
    ClassifyAttrs(Empty, TypeFields(t));
    ClassifyLinks(Empty, TypeFields(t));
    ClassifyRels(Empty, TypeFields(t));
    AttrsOfNonEmpty(TypeFields(t));
  }

  lemma {:induction false} AttrsOfNonEmpty(ls: seq<Located>)
    ensures |AttrsOf(ls)| > 0 <==> exists j :: 0 <= j < |ls| && Role(ls[j].decl) == "attr"
  {
    if ls != [] {
      AttrsOfNonEmpty(ls[1..]);
      if exists j :: 0 <= j < |ls| && Role(ls[j].decl) == "attr" {
        var j :| 0 <= j < |ls| && Role(ls[j].decl) == "attr";
        if j > 0 { assert ls[1..][j - 1] == ls[j]; }
      }
      if exists j :: 0 <= j < |ls[1..]| && Role(ls[1..][j].decl) == "attr" {
        var j :| 0 <= j < |ls[1..]| && Role(ls[1..][j].decl) == "attr";
        assert ls[j + 1] == ls[1..][j];
      }
    }
  }

  predicate DistinctFields(fs: seq<Field>) {
    forall j, k :: 0 <= j < k < |fs| ==> fs[j].idx != fs[k].idx
  }

  function PathsOf(ls: seq<Located>): (ps: seq<seq<nat>>)
    ensures |ps| == |ls|
    ensures forall m :: 0 <= m < |ls| ==> ps[m] == ls[m].idx
  {
    if ls == [] then [] else [ls[0].idx] + PathsOf(ls[1..])
  }

  /** Every attribute sits at the path of one of the fields it was classified from. */
  lemma {:induction false} AttrsOfPaths(ls: seq<Located>)
    ensures forall j :: 0 <= j < |AttrsOf(ls)| ==> AttrsOf(ls)[j].idx in PathsOf(ls)
  {
    if ls != [] {
      AttrsOfPaths(ls[1..]);
      assert PathsOf(ls) == [ls[0].idx] + PathsOf(ls[1..]);
    }
  }

  lemma DistinctCons(f: Field, rest: seq<Field>, paths: seq<seq<nat>>)
    requires DistinctFields(rest)
    requires forall j :: 0 <= j < |rest| ==> rest[j].idx in paths
    requires f.idx !in paths
    ensures DistinctFields([f] + rest)
  {
    var all := [f] + rest;
    forall j, k | 0 <= j < k < |all| ensures all[j].idx != all[k].idx {
      assert all[k] == rest[k - 1];
      if j > 0 {
        assert all[j] == rest[j - 1];
      }
    }
  }

  lemma {:induction false} AttrsOfDistinct(ls: seq<Located>)
    requires DistinctPaths(ls)
    ensures DistinctFields(AttrsOf(ls))
  {
    if ls != [] {
      var tail := ls[1..];
      assert DistinctPaths(tail) by {
        forall j, k | 0 <= j < k < |tail| ensures tail[j].idx != tail[k].idx {
          assert tail[j] == ls[j + 1] && tail[k] == ls[k + 1];
        }
      }
      AttrsOfDistinct(tail);
      AttrsOfPaths(tail);
      var rest := AttrsOf(tail);
      if Role(ls[0].decl) == "attr" {
        assert ls[0].idx !in PathsOf(tail) by {
          forall m | 0 <= m < |tail| ensures PathsOf(tail)[m] != ls[0].idx {
            assert tail[m] == ls[m + 1];
          }
        }
        DistinctCons(AttrField(ls[0]), rest, PathsOf(tail));
        assert AttrsOf(ls) == [AttrField(ls[0])] + rest;
      } else {
        assert AttrsOf(ls) == rest;
      }
    }
  }

  /** No two attributes of a type share a field path. */
  lemma DescribeAttrsDistinct(t: TypeDecl)
    ensures DistinctFields(Describe(t).attrs)
  {
    DescribeLists(t);
    TypeFieldsDistinct(StructType(t.fields), [], 0);
    AttrsOfDistinct(TypeFields(t));
  }

  /**
   * With no `id` tag anywhere, the resource type is `JSONType()` or the
   * kebab-cased type name, and the id path is the field named by `JSONID()`
   * (or `"ID"`), or empty when no such field exists.
   */
  lemma DescribeWithoutIdTag(t: TypeDecl)
    requires forall j :: 0 <= j < |TypeFields(t)| ==> !IdTagged(TypeFields(t)[j])
    ensures Describe(t).stype == (match t.jsonType case Some(s) => s case None => StringTransform(t.name, "-"))
    ensures var name := t.jsonId.GetOr("ID");
      Describe(t).id == (if name != "" && FieldByName(t.fields, name).Some? then [FieldByName(t.fields, name).value] else [])
  {
    ClassifyKeepsId(Empty, TypeFields(t));
  }

  /**
   * With exactly one `id`-tagged field, that field is the id and the resource
   * type is the tag's second token; a bare `jsonapi:"id"` leaves it empty,
   * because `checkID` then changes nothing.
   */
  lemma DescribeWithIdTag(t: TypeDecl, k: nat)
    requires k < |TypeFields(t)| && IdTagged(TypeFields(t)[k])
    requires forall j :: 0 <= j < |TypeFields(t)| && j != k ==> !IdTagged(TypeFields(t)[j])
    ensures Describe(t).id == TypeFields(t)[k].idx
    ensures Describe(t).stype == (if |Keys(TypeFields(t)[k].decl)| > 1 then Keys(TypeFields(t)[k].decl)[1] else "")
  {
    var ls := TypeFields(t);
    var l := ls[k];
    var after := ClassifyOneId(Empty, ls, k);
    assert |l.idx| > 0 by { assert Under([], 0, l); }
    assert ClassifyFrom(Empty, ls) == after;
  }

  /** Classifying a list whose only `id`-tagged entry is `ls[k]` leaves that entry's id and type token. */
  lemma ClassifyOneId(d: Descriptor, ls: seq<Located>, k: nat) returns (r: Descriptor)
    requires k < |ls| && IdTagged(ls[k])
    requires forall j :: 0 <= j < |ls| && j != k ==> !IdTagged(ls[j])
    ensures r == ClassifyFrom(d, ls)
    ensures r.id == ls[k].idx
    ensures r.stype == (if |Keys(ls[k].decl)| > 1 then Keys(ls[k].decl)[1] else d.stype)
  {
    var pre, post := ls[..k], ls[k + 1..];
    assert ls == pre + ([ls[k]] + post);
    ClassifyAppend(d, pre, [ls[k]] + post);
    var before := ClassifyFrom(d, pre);
    assert before.stype == d.stype by {
      assert forall j :: 0 <= j < |pre| ==> pre[j] == ls[j];
      ClassifyKeepsId(d, pre);
    }
    assert ClassifyFrom(before, [ls[k]] + post) == ClassifyFrom(Step(before, ls[k]), post) by {
      assert ([ls[k]] + post)[1..] == post;
    }
    var mid := Step(before, ls[k]);
    assert forall j :: 0 <= j < |post| ==> post[j] == ls[k + 1 + j];
    ClassifyKeepsId(mid, post);
    r := ClassifyFrom(mid, post);
  }

  /** `field.inScope`: visible when the field has no scopes, the request has none, or the request's is listed. */
  function InScope(f: Field, s: string): (b: bool)
    ensures b <==> |f.scopes| == 0 || s == "" || s in f.scopes
  {
    if |f.scopes| == 0 || s == "" then true else ScopeListed(f.scopes, s)
  }

  function ScopeListed(scopes: seq<string>, s: string): (b: bool)
    ensures b <==> s in scopes
  {
    if scopes == [] then false
    else if scopes[0] == s then true
    else
      assert scopes == [scopes[0]] + scopes[1..];
      ScopeListed(scopes[1..], s)
  }
}
