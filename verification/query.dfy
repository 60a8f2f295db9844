/**
 * query.go: `QueryParams`, which reads `sort`, `limit`, `offset`,
 * `format`, `filter[x]` and `query[x]` from the URL parameters, and the
 * two defaults. The parameters are a sequence; the source ranges over a
 * Go map, whose order is unspecified, so any order is one the source
 * may take.
 */
module Query {
  import opened Wrappers
  import opened Text
  import opened Decimal

  /** `Keymap`: a key and its value, read back by `Key()` and `Value()`. */
  datatype Keymap = Keymap(key: string, value: string)

  datatype Query = Query(limit: int, offset: int, format: string, sort: seq<string>, filters: seq<Keymap>, queries: seq<Keymap>)

  /** The query `QueryParams` starts from: zero numbers, no format, empty lists. */
  const Blank := Query(0, 0, "", [], [], [])

  /** One URL parameter and its values; the source reads only the first. */
  datatype Param = Param(key: string, values: seq<string>)

  /**
   * A sort value the loop can split: no comma opens it and no comma
   * follows another, except as its last character. Anything else makes
   * the source read the first byte of an empty segment, which panics.
   */
  predicate SortWellFormed(s: string) {
    (|s| > 1 ==> s[0] != ',') && forall i :: 0 < i < |s| - 1 ==> !DoubleComma(s, i)
  }

  /** Position `i` holds a comma that directly follows another. */
  predicate DoubleComma(s: string, i: int)
    requires 0 < i < |s|
  {
    s[i - 1] == ',' && s[i] == ','
  }

  /**
   * The segments the sort loop cuts, as a reference: the comma-separated
   * parts of everything but the last character, that character then
   * added to the last part (so a trailing comma stays in it); none for
   * an empty value.
   */
  function SortSegments(s: string): seq<string> {
    if s == "" then []
    else
      var p := Split(s[..|s| - 1], ',');
      p[..|p| - 1] + [p[|p| - 1] + [s[|s| - 1]]]
  }

  /** The segments cover the value: joined with commas again, they give it back. */
  lemma SegmentsCover(s: string)
    ensures Join(SortSegments(s), ",") == s
  {
    if s != "" {
      var n := |s| - 1;
      var p := Split(s[..n], ',');
      JoinSplit(s[..n], ',');
      var k := |p| - 1;
      assert p == p[..k] + [p[k]];
      JoinSnoc(p[..k], p[k], ",");
      JoinSnoc(p[..k], p[k] + [s[n]], ",");
      assert s == s[..n] + [s[n]];
    }
  }

  /** A sort entry: `-column` becomes `column DESC`, anything else stays as it is. */
  function SortEntry(w: string): string
    requires w != ""
  {
    if w[0] == '-' then w[1..] + " DESC" else w
  }

  /**
   * The entries of a list of segments. An empty segment has no entry
   * (the source panics on one); `SegmentsNonEmpty` shows that a
   * well-formed value never has one.
   */
  function SortEntries(ws: seq<string>): (r: seq<string>)
    ensures |r| == |ws|
  {
    seq(|ws|, j requires 0 <= j < |ws| => if ws[j] == "" then "" else SortEntry(ws[j]))
  }

  /** The comma-separated pieces of the first `i` characters of `s`. */
  function Pieces(s: string, i: nat): (p: seq<string>)
    requires i <= |s|
    ensures |p| > 0
  {
    Split(s[..i], ',')
  }

  /**
   * While the loop is at position `i` (before the last character) of a
   * well-formed value, every piece already closed by a comma is
   * non-empty, and so is the open one unless a comma just closed the
   * previous piece.
   */
  lemma {:induction false} PiecesNonEmpty(s: string, i: nat)
    requires SortWellFormed(s) && i < |s|
    ensures forall j :: 0 <= j < |Pieces(s, i)| - 1 ==> Pieces(s, i)[j] != ""
    ensures i > 0 && s[i - 1] != ',' ==> Pieces(s, i)[|Pieces(s, i)| - 1] != ""
  {
    if i > 0 {
      PiecesNonEmpty(s, i - 1);
      var p := Pieces(s, i - 1);
      assert s[..i] == s[..i - 1] + [s[i - 1]];
      if s[i - 1] == ',' {
        SplitSnocSep(s[..i - 1], ',');
        assert Pieces(s, i) == p + [""];
        assert i - 1 > 0 && !DoubleComma(s, i - 1);
      } else {
        SplitSnocOther(s[..i - 1], s[i - 1], ',');
        assert Pieces(s, i) == p[..|p| - 1] + [p[|p| - 1] + [s[i - 1]]];
      }
    }
  }

  /** Every segment of a well-formed sort value is non-empty. */
  lemma SegmentsNonEmpty(s: string)
    requires SortWellFormed(s)
    ensures forall j :: 0 <= j < |SortSegments(s)| ==> SortSegments(s)[j] != ""
  {
    if s != "" {
      PiecesNonEmpty(s, |s| - 1);
      var p := Pieces(s, |s| - 1);
      var segs := SortSegments(s);
      assert segs == p[..|p| - 1] + [p[|p| - 1] + [s[|s| - 1]]];
      forall j | 0 <= j < |segs|
        ensures segs[j] != ""
      {
        if j < |p| - 1 {
          assert segs[j] == p[j];
          assert p[j] != "";
        } else {
          assert segs[j] == p[|p| - 1] + [s[|s| - 1]];
        }
      }
    }
  }

  lemma SortEntriesSnoc(ws: seq<string>, w: string)
    requires w != ""
    ensures SortEntries(ws + [w]) == SortEntries(ws) + [SortEntry(w)]
  {
  }

  /** The entries a well-formed sort value contributes. */
  function SortValue(s: string): (r: seq<string>)
    requires SortWellFormed(s)
    ensures |s| > 0 ==> |r| == Count(s[..|s| - 1], ',') + 1
    ensures |s| == 0 ==> r == []
  {
    SortEntries(SortSegments(s))
  }

  /**
   * The state of the sort loop before position `i` (not past the last
   * character): `p` holds the pieces cut so far, all closed ones
   * non-empty, `sort` holds their entries, and the open piece starts at
   * `idx`.
   */
  predicate LoopState(s: string, i: nat, idx: nat, p: seq<string>, sort: seq<string>) {
    && idx <= i < |s|
    && p == Pieces(s, i)
    && (forall j :: 0 <= j < |p| - 1 ==> p[j] != "")
    && sort == SortEntries(p[..|p| - 1])
    && s[idx..i] == p[|p| - 1]
  }

  lemma LoopStart(s: string)
    requires s != ""
    ensures LoopState(s, 0, 0, [""], [])
  {
    assert s[..0] == "";
  }

  /** A comma before the last character closes a non-empty piece and opens an empty one. */
  lemma StepComma(s: string, i: nat, idx: nat, p: seq<string>, sort: seq<string>)
    requires SortWellFormed(s) && LoopState(s, i, idx, p, sort) && s[i] == ',' && i < |s| - 1
    ensures s[idx..i] != ""
    ensures LoopState(s, i + 1, i + 1, p + [""], sort + [SortEntry(s[idx..i])])
  {
    PiecesNonEmpty(s, i);
    assert i > 0 && !DoubleComma(s, i);
    var w := s[idx..i];
    assert s[..i + 1] == s[..i] + [s[i]];
    SplitSnocSep(s[..i], ',');
    SortEntriesSnoc(p[..|p| - 1], w);
    assert (p + [""])[..|p|] == p[..|p| - 1] + [w];
  }

  /** Any other character before the last one extends the open piece. */
  lemma StepOther(s: string, i: nat, idx: nat, p: seq<string>, sort: seq<string>)
    requires LoopState(s, i, idx, p, sort) && s[i] != ',' && i < |s| - 1
    ensures LoopState(s, i + 1, idx, p[..|p| - 1] + [p[|p| - 1] + [s[i]]], sort)
  {
    assert s[..i + 1] == s[..i] + [s[i]];
    SplitSnocOther(s[..i], s[i], ',');
    var q := p[..|p| - 1] + [p[|p| - 1] + [s[i]]];
    assert q[..|q| - 1] == p[..|p| - 1];
  }

  /** The last character closes the open piece, with that character in it, and completes the entries. */
  lemma StepLast(s: string, i: nat, idx: nat, p: seq<string>, sort: seq<string>)
    requires SortWellFormed(s) && LoopState(s, i, idx, p, sort) && i == |s| - 1
    ensures s[idx..] != ""
    ensures sort + [SortEntry(s[idx..])] == SortValue(s)
  {
    var w := s[idx..];
    assert w == p[|p| - 1] + [s[i]];
    assert s[..|s| - 1] == s[..i];
    assert SortSegments(s) == p[..|p| - 1] + [w];
    SortEntriesSnoc(p[..|p| - 1], w);
  }

  /**
   * The sort loop of `QueryParams` as the source writes it: a cut at each
   * comma and at the last character, the segment since the previous cut
   * turned into an entry; it produces the reference segments' entries.
   */
  method SortLoop(s: string) returns (sort: seq<string>)
    requires SortWellFormed(s)
    ensures sort == SortValue(s)
  {
    var ln := |s|;
    sort := [];
    var idx := 0;
    var i := 0;
    ghost var p: seq<string> := [""];
    if ln > 0 {
      LoopStart(s);
    }
    while i < ln
      invariant 0 <= idx <= i <= ln
      invariant i < ln ==> LoopState(s, i, idx, p, sort)
      invariant i == ln ==> sort == SortValue(s)
    {
      if s[i] == ',' || i == ln - 1 {
        var w;
        if i == ln - 1 {
          StepLast(s, i, idx, p, sort);
          w := s[idx..];
        } else {
          StepComma(s, i, idx, p, sort);
          w := s[idx..i];
        }
        if w[0] == '-' {
          sort := sort + [w[1..] + " DESC"];
        } else {
          sort := sort + [w];
        }
        idx := i + 1;
        if i < ln - 1 {
          p := p + [""];
        }
      } else {
        StepOther(s, i, idx, p, sort);
        p := p[..|p| - 1] + [p[|p| - 1] + [s[i]]];
      }
      i := i + 1;
    }
  }

  /** A parameter the source cannot read: no value at all, or a sort value the loop panics on. */
  predicate Panics(p: Param) {
    !Readable(p)
  }

  /** A parameter the source reads without panicking. */
  predicate Readable(p: Param) {
    |p.values| > 0 && (p.key == "sort" ==> SortWellFormed(p.values[0]))
  }

  /** The name inside `prefix…]`: the prefix cut off, then one closing bracket if there is one. */
  function Bracketed(key: string, prefix: string): string {
    TrimSuffix(TrimPrefix(key, prefix), "]")
  }

  /** One round of the `QueryParams` loop; `None` where the source panics. */
  function Apply(q: Query, p: Param): (r: Option<Query>)
    ensures r.None? <==> Panics(p)
  {
    if |p.values| == 0 then None
    else
      var v := p.values[0];
      if p.key == "sort" then
        if SortWellFormed(v) then Some(q.(sort := q.sort + SortValue(v))) else None
      else if p.key == "limit" then Some(q.(limit := StrToInt(v)))
      else if p.key == "offset" then Some(q.(offset := StrToInt(v)))
      else if p.key == "format" then Some(q.(format := v))
      else if HasPrefix(p.key, "filter[") then Some(q.(filters := q.filters + [Keymap(Bracketed(p.key, "filter["), v)]))
      else if HasPrefix(p.key, "query[") then Some(q.(queries := q.queries + [Keymap(Bracketed(p.key, "query["), v)]))
      else Some(q)
  }

  /** The rounds of the loop one after another, stopping at the first panic. */
  function Fold(step: (Query, Param) -> Option<Query>, q: Query, ps: seq<Param>): Option<Query>
    decreases |ps|
  {
    if ps == [] then Some(q)
    else
      match step(q, ps[0])
      case None => None
      case Some(q') => Fold(step, q', ps[1..])
  }

  /** `QueryParams`; `None` where the source panics. */
  function QueryParams(ps: seq<Param>): Option<Query> {
    Fold(Apply, Blank, ps)
  }

  // ---------------------------------------------------------------------
  // Independent descriptions of each field of the result
  // ---------------------------------------------------------------------

  /** The contributions of the parameters to a list field, one after another. */
  function Gather<T>(f: Param -> seq<T>, ps: seq<Param>): seq<T>
    decreases |ps|
  {
    if ps == [] then [] else f(ps[0]) + Gather(f, ps[1..])
  }

  /** The setting given by the last parameter that gives one, if any. */
  function LastOf<T>(f: Param -> Option<T>, ps: seq<Param>): (r: Option<T>)
    ensures r.Some? <==> exists i :: 0 <= i < |ps| && f(ps[i]).Some?
    ensures r.Some? ==> exists i :: 0 <= i < |ps| && f(ps[i]) == r && forall j :: i < j < |ps| ==> f(ps[j]).None?
    decreases |ps|
  {
    if ps == [] then None
    else if f(ps[|ps| - 1]).Some? then f(ps[|ps| - 1])
    else
      var r := LastOf(f, ps[..|ps| - 1]);
      assert forall i :: 0 <= i < |ps| - 1 ==> ps[..|ps| - 1][i] == ps[i];
      r
  }

  /** A field after a setting: the value set, or the one before when nothing is set. */
  function Override<T>(v: Option<T>, otherwise: T): T {
    v.GetOr(otherwise)
  }

  /** The keymap a `filter[` parameter adds. */
  function FilterOf(p: Param): seq<Keymap> {
    if Readable(p) && HasPrefix(p.key, "filter[") then [Keymap(Bracketed(p.key, "filter["), p.values[0])] else []
  }

  /** The keymap a `query[` parameter adds. */
  function QueryOf(p: Param): seq<Keymap> {
    if Readable(p) && HasPrefix(p.key, "query[") then [Keymap(Bracketed(p.key, "query["), p.values[0])] else []
  }

  /** The entries a `sort` parameter adds. */
  function SortOf(p: Param): seq<string> {
    if Readable(p) && p.key == "sort" then SortValue(p.values[0]) else []
  }

  /** The limit a `limit` parameter sets. */
  function LimitOf(p: Param): Option<int> {
    if Readable(p) && p.key == "limit" then Some(StrToInt(p.values[0])) else None
  }

  /** The offset an `offset` parameter sets. */
  function OffsetOf(p: Param): Option<int> {
    if Readable(p) && p.key == "offset" then Some(StrToInt(p.values[0])) else None
  }

  /** The format a `format` parameter sets. */
  function FormatOf(p: Param): Option<string> {
    if Readable(p) && p.key == "format" then Some(p.values[0]) else None
  }

  /** One readable parameter changes each field by its own contribution and nothing else. */
  lemma ApplyFields(q: Query, p: Param)
    requires Readable(p)
    ensures Apply(q, p) == Some(Query(
      Override(LimitOf(p), q.limit), Override(OffsetOf(p), q.offset), Override(FormatOf(p), q.format),
      q.sort + SortOf(p), q.filters + FilterOf(p), q.queries + QueryOf(p)))
  {
    var v := p.values[0];
    if HasPrefix(p.key, "filter[") {
      assert p.key[0] == p.key[..7][0] == 'f';
    }
    if HasPrefix(p.key, "query[") {
      assert p.key[0] == p.key[..6][0] == 'q';
    }
    var r := Query(
      Override(LimitOf(p), q.limit), Override(OffsetOf(p), q.offset), Override(FormatOf(p), q.format),
      q.sort + SortOf(p), q.filters + FilterOf(p), q.queries + QueryOf(p));
    assert FilterOf(p) == [] ==> q.filters + FilterOf(p) == q.filters;
    assert QueryOf(p) == [] ==> q.queries + QueryOf(p) == q.queries;
    assert SortOf(p) == [] ==> q.sort + SortOf(p) == q.sort;
    if p.key == "sort" {
      assert r == q.(sort := q.sort + SortValue(v));
    } else if p.key == "limit" {
      assert r == q.(limit := StrToInt(v));
    } else if p.key == "offset" {
      assert r == q.(offset := StrToInt(v));
    } else if p.key == "format" {
      assert r == q.(format := v);
    } else if HasPrefix(p.key, "filter[") {
      assert r == q.(filters := q.filters + FilterOf(p));
    } else if HasPrefix(p.key, "query[") {
      assert r == q.(queries := q.queries + QueryOf(p));
    } else {
      assert r == q;
    }
  }

  /** Rounds run one after another panic exactly when one of the parameters is unreadable. */
  lemma {:induction false} FoldPanics(step: (Query, Param) -> Option<Query>, q: Query, ps: seq<Param>)
    requires forall q: Query, p: Param :: step(q, p).None? <==> Panics(p)
    ensures Fold(step, q, ps).None? <==> exists i :: 0 <= i < |ps| && Panics(ps[i])
    decreases |ps|
  {
    if ps != [] && !Panics(ps[0]) {
      FoldPanics(step, step(q, ps[0]).value, ps[1..]);
      assert forall i :: 1 <= i < |ps| ==> ps[i] == ps[1..][i - 1];
    }
  }

  /** When every round appends a parameter's contribution to a list field, the run appends all of them in order. */
  lemma {:induction false} FoldGather<T>(step: (Query, Param) -> Option<Query>, field: Query -> seq<T>, f: Param -> seq<T>, q: Query, ps: seq<Param>)
    requires forall q: Query, p: Param :: Readable(p) ==> step(q, p).Some? && field(step(q, p).value) == field(q) + f(p)
    requires forall i :: 0 <= i < |ps| ==> Readable(ps[i])
    ensures Fold(step, q, ps).Some?
    ensures field(Fold(step, q, ps).value) == field(q) + Gather(f, ps)
    decreases |ps|
  {
    if ps != [] {
      assert Readable(ps[0]);
      var q' := step(q, ps[0]).value;
      assert forall i :: 0 <= i < |ps[1..]| ==> Readable(ps[1..][i]);
      FoldGather(step, field, f, q', ps[1..]);
      assert field(q) + f(ps[0]) + Gather(f, ps[1..]) == field(q) + (f(ps[0]) + Gather(f, ps[1..]));
    }
  }

  lemma {:induction false} LastOfCons<T>(f: Param -> Option<T>, ps: seq<Param>)
    requires ps != []
    ensures LastOf(f, ps) == (if LastOf(f, ps[1..]).Some? then LastOf(f, ps[1..]) else f(ps[0]))
    decreases |ps|
  {
    if |ps| > 1 && f(ps[|ps| - 1]).None? {
      LastOfCons(f, ps[..|ps| - 1]);
      assert ps[..|ps| - 1][1..] == ps[1..][..|ps[1..]| - 1];
    }
  }

  /** When every round overrides a field with a parameter's setting, the run leaves the last setting given. */
  lemma {:induction false} FoldLast<T>(step: (Query, Param) -> Option<Query>, field: Query -> T, f: Param -> Option<T>, q: Query, ps: seq<Param>)
    requires forall q: Query, p: Param :: Readable(p) ==> step(q, p).Some? && field(step(q, p).value) == Override(f(p), field(q))
    requires forall i :: 0 <= i < |ps| ==> Readable(ps[i])
    ensures Fold(step, q, ps).Some?
    ensures field(Fold(step, q, ps).value) == Override(LastOf(f, ps), field(q))
    decreases |ps|
  {
    if ps != [] {
      assert Readable(ps[0]);
      var q' := step(q, ps[0]).value;
      assert forall i :: 0 <= i < |ps[1..]| ==> Readable(ps[1..][i]);
      FoldLast(step, field, f, q', ps[1..]);
      LastOfCons(f, ps);
    }
  }

  /** `QueryParams` panics exactly when a parameter has no value or its sort value cannot be split. */
  lemma QueryParamsPanics(ps: seq<Param>)
    ensures QueryParams(ps).None? <==> exists i :: 0 <= i < |ps| && Panics(ps[i])
  {
    FoldPanics(Apply, Blank, ps);
  }

  /**
   * Otherwise each field of the query is what the parameters with its
   * key say, independently of the others: the keymaps and sort entries
   * in the order given, and the last `limit`, `offset` and `format`.
   */
  lemma QueryParamsFields(ps: seq<Param>)
    requires forall i :: 0 <= i < |ps| ==> Readable(ps[i])
    ensures QueryParams(ps) == Some(Query(
      Override(LastOf(LimitOf, ps), 0), Override(LastOf(OffsetOf, ps), 0), Override(LastOf(FormatOf, ps), ""),
      Gather(SortOf, ps), Gather(FilterOf, ps), Gather(QueryOf, ps)))
  {
    assert Fold(Apply, Blank, ps).Some? && Fold(Apply, Blank, ps).value.limit == Override(LastOf(LimitOf, ps), 0) by {
      var field := (q: Query) => q.limit;
      forall q: Query, p: Param | Readable(p)
        ensures Apply(q, p).Some? && field(Apply(q, p).value) == Override(LimitOf(p), field(q))
      {
        ApplyFields(q, p);
      }
      FoldLast(Apply, field, LimitOf, Blank, ps);
    }
    assert Fold(Apply, Blank, ps).Some? && Fold(Apply, Blank, ps).value.offset == Override(LastOf(OffsetOf, ps), 0) by {
      var field := (q: Query) => q.offset;
      forall q: Query, p: Param | Readable(p)
        ensures Apply(q, p).Some? && field(Apply(q, p).value) == Override(OffsetOf(p), field(q))
      {
        ApplyFields(q, p);
      }
      FoldLast(Apply, field, OffsetOf, Blank, ps);
    }
    assert Fold(Apply, Blank, ps).Some? && Fold(Apply, Blank, ps).value.format == Override(LastOf(FormatOf, ps), "") by {
      var field := (q: Query) => q.format;
      forall q: Query, p: Param | Readable(p)
        ensures Apply(q, p).Some? && field(Apply(q, p).value) == Override(FormatOf(p), field(q))
      {
        ApplyFields(q, p);
      }
      FoldLast(Apply, field, FormatOf, Blank, ps);
    }
    assert Fold(Apply, Blank, ps).Some? && Fold(Apply, Blank, ps).value.sort == Gather(SortOf, ps) by {
      var field := (q: Query) => q.sort;
      forall q: Query, p: Param | Readable(p)
        ensures Apply(q, p).Some? && field(Apply(q, p).value) == field(q) + SortOf(p)
      {
        ApplyFields(q, p);
      }
      FoldGather(Apply, field, SortOf, Blank, ps);
    }
    assert Fold(Apply, Blank, ps).Some? && Fold(Apply, Blank, ps).value.filters == Gather(FilterOf, ps) by {
      var field := (q: Query) => q.filters;
      forall q: Query, p: Param | Readable(p)
        ensures Apply(q, p).Some? && field(Apply(q, p).value) == field(q) + FilterOf(p)
      {
        ApplyFields(q, p);
      }
      FoldGather(Apply, field, FilterOf, Blank, ps);
    }
    assert Fold(Apply, Blank, ps).Some? && Fold(Apply, Blank, ps).value.queries == Gather(QueryOf, ps) by {
      var field := (q: Query) => q.queries;
      forall q: Query, p: Param | Readable(p)
        ensures Apply(q, p).Some? && field(Apply(q, p).value) == field(q) + QueryOf(p)
      {
        ApplyFields(q, p);
      }
      FoldGather(Apply, field, QueryOf, Blank, ps);
    }
  }

  /** A `filter[x]` or `query[x]` key gives back `x`, whatever `x` holds. */
  lemma BracketedRoundTrip(x: string, prefix: string)
    ensures HasPrefix(prefix + x + "]", prefix)
    ensures Bracketed(prefix + x + "]", prefix) == x
  {
    assert (prefix + x + "]")[..|prefix|] == prefix;
    assert (prefix + x + "]")[|prefix|..] == x + "]";
    assert (x + "]")[|x + "]"| - 1..] == "]";
    assert (x + "]")[..|x + "]"| - 1] == x;
  }

  /**
   * The sort value of the request in query_test.go: the source turns
   * `-name` into `name DESC`, where the test expects `-name` unchanged.
   */
  lemma ExampleSort()
    ensures SortWellFormed("-name,id")
    ensures SortValue("-name,id") == ["name DESC", "id"]
  {
    var s := "-name,id";
    assert SortWellFormed(s) by {
      forall i | 0 < i < |s| - 1
        ensures !DoubleComma(s, i)
      {
      }
    }
    assert SortSegments(s) == ["-name", "id"] by {
      assert s[..|s| - 1] == "-name,i";
      assert Split("i", ',') == ["i"] by {
        assert "i"[1..] == "";
        assert ['i'] + "" == "i";
      }
      assert Split(",i", ',') == ["", "i"] by {
        assert ",i"[1..] == "i";
      }
      assert Split("e,i", ',') == ["e", "i"] by {
        assert "e,i"[1..] == ",i";
        assert ['e'] + "" == "e";
      }
      assert Split("me,i", ',') == ["me", "i"] by {
        assert "me,i"[1..] == "e,i";
        assert ['m'] + "e" == "me";
      }
      assert Split("ame,i", ',') == ["ame", "i"] by {
        assert "ame,i"[1..] == "me,i";
        assert ['a'] + "me" == "ame";
      }
      assert Split("name,i", ',') == ["name", "i"] by {
        assert "name,i"[1..] == "ame,i";
        assert ['n'] + "ame" == "name";
      }
      assert Split("-name,i", ',') == ["-name", "i"] by {
        assert "-name,i"[1..] == "name,i";
        assert ['-'] + "name" == "-name";
      }
      assert s[|s| - 1] == 'd' && "i" + ['d'] == "id";
    }
    assert SortEntry("-name") == "name DESC" by {
      assert "-name"[1..] == "name";
    }
  }

  // ---------------------------------------------------------------------
  // Defaults
  // ---------------------------------------------------------------------

  /** `DefaultSort`: an empty sort list gets the one column `s`, unless `s` is empty. */
  function DefaultSort(q: Query, s: string): (r: Query)
    ensures r.sort == (if q.sort == [] && s != "" then [s] else q.sort)
    ensures r.(sort := q.sort) == q
  {
    if s != "" && |q.sort| == 0 then q.(sort := [s]) else q
  }

  /** Applying a default sort twice, with any second column, is applying it once. */
  lemma DefaultSortIdempotent(q: Query, s: string, t: string)
    ensures DefaultSort(DefaultSort(q, s), t) == DefaultSort(q, s) || s == ""
    ensures s != "" ==> DefaultSort(q, s).sort != []
  {
  }

  /** `DefaultLimit` as written: a zero limit becomes 30; the argument is not read. */
  function DefaultLimit(q: Query, n: int): (r: Query)
    ensures q.limit == 0 ==> r.limit == 30
    ensures q.limit != 0 ==> r == q
    ensures r.(limit := q.limit) == q
  {
    if q.limit == 0 then q.(limit := 30) else q
  }

  /** Whatever limit is asked for, `DefaultLimit` sets the same one. */
  lemma DefaultLimitIgnoresArgument(q: Query, n: int, m: int)
    ensures DefaultLimit(q, n) == DefaultLimit(q, m)
    ensures q.limit == 0 && n != 30 ==> DefaultLimit(q, n) != DefaultLimitTo(q, n)
  {
  }

  /** `DefaultLimit` as its name and parameter promise: a zero limit becomes `n`. */
  function DefaultLimitTo(q: Query, n: int): (r: Query)
    ensures q.limit == 0 ==> r.limit == n
    ensures q.limit != 0 ==> r == q
    ensures r.(limit := q.limit) == q
  {
    if q.limit == 0 then q.(limit := n) else q
  }
}
