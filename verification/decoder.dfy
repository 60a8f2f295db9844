/**
 * `decoder.unmarshal` of unmarshal.go: the checks on the target, the
 * type comparison with the request envelope, the attribute loop that
 * decodes each present, writable attribute into a fresh value and then
 * commits it, the change log, and the two hooks.
 *
 * The record is a map from field index paths to values; parsing the
 * envelope and decoding one attribute are code outside this model, given
 * as the envelope's outcome and as a `decode` function of the field path
 * and the raw attribute text.
 */
module Decoder {
  import opened Wrappers
  import opened Metadata
  import opened Values
  import opened ChangeLog

  /** `unquote`: strips one pair of surrounding double quotes, when there are two distinct ends to strip. */
  function Unquote(b: string): (r: string)
    ensures |b| > 1 && b[0] == '"' && b[|b| - 1] == '"' ==> b == "\"" + r + "\""
    ensures !(|b| > 1 && b[0] == '"' && b[|b| - 1] == '"') ==> r == b
  {
    var l := |b|;
    if l > 1 && b[0] == '"' && b[l - 1] == '"' then b[1..l - 1] else b
  }

  /** Quoting any text and unquoting it gives the text back; `""` becomes empty and `"qwe"` becomes `qwe`. */
  lemma UnquoteQuoted(s: string)
    ensures Unquote("\"" + s + "\"") == s
    ensures Unquote("\"\"") == ""
    ensures Unquote("\"qwe\"") == "qwe"
  {
    assert ("\"" + s + "\"")[1..|s| + 1] == s;
    assert "\"\""[1..1] == "";
    var q := "qwe";
    assert ("\"" + q + "\"")[1..|q| + 1] == q;
    assert "\"" + q + "\"" == "\"qwe\"";
  }

  /** The `data` member of a request envelope. */
  datatype Request = Request(id: string, rtype: string, attributes: map<string, string>)

  datatype DecodeError =
    | InvalidData                            // the target is not a struct
    | Incompatible(typeName: string)         // the struct has no attributes
    | TypeMismatch(got: string, want: string)
    | Foreign(message: string)               // from the JSON parser or a hook

  /** What a hook method leaves behind: the record as it wrote it, and the error it returned. */
  datatype HookResult = HookResult(record: Record, err: Option<string>)

  /**
   * What the decoder is given: the target's type (`None` when it is not a
   * struct), its current record, its `UnmarshalJSONAPI` method when the
   * type has one (already applied to the document's bytes, so a function
   * of the record it starts from), and its `AfterUnmarshalJSONAPI` method
   * when the type has one. Both hooks have pointer receivers and may write
   * any field of the record.
   */
  datatype Target = Target(
    decl: Option<TypeDecl>,
    record: Record,
    unmarshaler: Option<Record -> HookResult>,
    after: Option<Record -> HookResult>)

  /** A hook's error as a decoding error. */
  function HookError(err: Option<string>): Option<DecodeError> {
    if err.Some? then Some(Foreign(err.value)) else None
  }

  /** The record, the change log and the error after decoding; `Panicked` where the source panics. */
  datatype Outcome = Outcome(record: Record, changes: seq<Change>, err: Option<DecodeError>) | Panicked

  /** The loop has stopped: a panic or an error leaves the rest of the attributes alone. */
  predicate Stopped(o: Outcome) {
    o.Panicked? || o.err.Some?
  }

  /** An attribute the loop writes: not read-only and present in the request. */
  predicate Writable(a: Field, raw: map<string, string>) {
    !a.readonly && a.name in raw
  }

  /** The text handed to the JSON decoder for an attribute: unquoted when the `string` modifier is set. */
  function RawText(a: Field, raw: map<string, string>): string
    requires a.name in raw
  {
    if a.quote then Unquote(raw[a.name]) else raw[a.name]
  }

  /**
   * One iteration of the attribute loop: skip read-only and absent
   * attributes; otherwise decode into a fresh value, record the changes
   * against the current value when asked to, and commit.
   */
  function Step(o: Outcome, a: Field, raw: map<string, string>, decode: (seq<nat>, string) -> Result<Value, string>,
                withChanges: bool, fmtV: Value -> string): Outcome
  {
    if Stopped(o) || !Writable(a, raw) then o
    else
      match decode(a.idx, RawText(a, raw))
      case Failure(e) => o.(err := Some(Foreign(e)))
      case Success(nv) =>
        if !withChanges then o.(record := o.record[a.idx := nv])
        else
          match Diff(Read(o.record, a.idx), nv, a.name, fmtV)
          case None => Panicked
          case Some(cs) => Outcome(o.record[a.idx := nv], o.changes + cs, None)
  }

  /** The attribute loop, in descriptor order. */
  function Commit(attrs: seq<Field>, o: Outcome, raw: map<string, string>, decode: (seq<nat>, string) -> Result<Value, string>,
                  withChanges: bool, fmtV: Value -> string): Outcome
    decreases |attrs|
  {
    if attrs == [] then o else Commit(attrs[1..], Step(o, attrs[0], raw, decode, withChanges, fmtV), raw, decode, withChanges, fmtV)
  }

  /**
   * `decoder.unmarshal`. The `UnmarshalJSONAPI` hook replaces everything;
   * a non-struct target, a type without attributes, an envelope that does
   * not parse and a type name that differs from the resource type are
   * errors that leave the record as it was and log no change; otherwise
   * the attribute loop runs, and `AfterUnmarshalJSONAPI`, when present,
   * runs on the result of a loop that succeeded and gives the error.
   */
  function Unmarshal(t: Target, req: Result<Request, string>, decode: (seq<nat>, string) -> Result<Value, string>,
                     withChanges: bool, fmtV: Value -> string): (r: Outcome)
    ensures t.unmarshaler.Some? ==>
      r == Outcome(t.unmarshaler.value(t.record).record, [], HookError(t.unmarshaler.value(t.record).err))
    ensures t.unmarshaler.None? && t.decl.None? ==> r == Outcome(t.record, [], Some(InvalidData))
    ensures t.unmarshaler.None? && t.decl.Some? && !Api(Describe(t.decl.value)) ==>
      r == Outcome(t.record, [], Some(Incompatible(t.decl.value.name)))
    ensures t.unmarshaler.None? && t.decl.Some? && Api(Describe(t.decl.value)) && req.Failure? ==>
      r == Outcome(t.record, [], Some(Foreign(req.error)))
    ensures (t.unmarshaler.None? && t.decl.Some? && Api(Describe(t.decl.value)) && req.Success?
             && req.value.rtype != Describe(t.decl.value).stype) ==>
      r == Outcome(t.record, [], Some(TypeMismatch(req.value.rtype, Describe(t.decl.value).stype)))
  {
    if t.unmarshaler.Some? then
      var h := t.unmarshaler.value(t.record);
      Outcome(h.record, [], HookError(h.err))
    else if t.decl.None? then Outcome(t.record, [], Some(InvalidData))
    else
      var f := Describe(t.decl.value);
      if !Api(f) then Outcome(t.record, [], Some(Incompatible(t.decl.value.name)))
      else if req.Failure? then Outcome(t.record, [], Some(Foreign(req.error)))
      else if req.value.rtype != f.stype then Outcome(t.record, [], Some(TypeMismatch(req.value.rtype, f.stype)))
      else
        var o := Commit(f.attrs, Outcome(t.record, [], None), req.value.attributes, decode, withChanges, fmtV);
        if !Stopped(o) && t.after.Some? then
          var h := t.after.value(o.record);
          o.(record := h.record, err := HookError(h.err))
        else o
  }

  /** Without a change log the loop never panics and logs nothing. */
  lemma {:induction false} CommitNoLog(attrs: seq<Field>, o: Outcome, raw: map<string, string>,
                                       decode: (seq<nat>, string) -> Result<Value, string>, withChanges: bool, fmtV: Value -> string)
    requires o.Outcome? && o.changes == [] && !withChanges
    ensures Commit(attrs, o, raw, decode, withChanges, fmtV).Outcome?
    ensures Commit(attrs, o, raw, decode, withChanges, fmtV).changes == []
    decreases |attrs|
  {
    if attrs != [] {
      CommitNoLog(attrs[1..], Step(o, attrs[0], raw, decode, withChanges, fmtV), raw, decode, withChanges, fmtV);
    }
  }

  /** Once stopped, the loop changes nothing more. */
  lemma {:induction false} CommitStopped(attrs: seq<Field>, o: Outcome, raw: map<string, string>,
                                         decode: (seq<nat>, string) -> Result<Value, string>, withChanges: bool, fmtV: Value -> string)
    requires Stopped(o)
    ensures Commit(attrs, o, raw, decode, withChanges, fmtV) == o
    decreases |attrs|
  {
    if attrs != [] {
      CommitStopped(attrs[1..], o, raw, decode, withChanges, fmtV);
    }
  }

  /** Running the loop over two lists in turn is running it over their concatenation. */
  lemma {:induction false} CommitAppend(a: seq<Field>, b: seq<Field>, o: Outcome, raw: map<string, string>,
                                        decode: (seq<nat>, string) -> Result<Value, string>, withChanges: bool, fmtV: Value -> string)
    ensures Commit(a + b, o, raw, decode, withChanges, fmtV)
         == Commit(b, Commit(a, o, raw, decode, withChanges, fmtV), raw, decode, withChanges, fmtV)
    decreases |a|
  {
    if a == [] {
      assert a + b == b;
    } else {
      assert (a + b)[0] == a[0] && (a + b)[1..] == a[1..] + b;
      CommitAppend(a[1..], b, Step(o, a[0], raw, decode, withChanges, fmtV), raw, decode, withChanges, fmtV);
    }
  }

  /**
   * A path that no writable attribute occupies keeps its value: read-only
   * attributes, attributes absent from the request and fields that are not
   * attributes are never written.
   */
  lemma {:induction false} CommitFrame(attrs: seq<Field>, o: Outcome, raw: map<string, string>,
                                       decode: (seq<nat>, string) -> Result<Value, string>, withChanges: bool, fmtV: Value -> string,
                                       p: seq<nat>)
    requires o.Outcome?
    requires forall j :: 0 <= j < |attrs| && attrs[j].idx == p ==> !Writable(attrs[j], raw)
    ensures var r := Commit(attrs, o, raw, decode, withChanges, fmtV);
            r.Outcome? ==> Read(r.record, p) == Read(o.record, p)
    decreases |attrs|
  {
    if attrs != [] {
      var next := Step(o, attrs[0], raw, decode, withChanges, fmtV);
      forall j | 0 <= j < |attrs[1..]| && attrs[1..][j].idx == p ensures !Writable(attrs[1..][j], raw) {
        assert attrs[1..][j] == attrs[j + 1];
      }
      if next.Panicked? {
        CommitStopped(attrs[1..], next, raw, decode, withChanges, fmtV);
      } else {
        CommitFrame(attrs[1..], next, raw, decode, withChanges, fmtV, p);
      }
    }
  }

  /**
   * When the loop completes without an error, every writable attribute
   * holds what `decode` made of its raw text, unquoted under the `string`
   * modifier: a fresh value that does not depend on what the field held
   * before.
   */
  lemma {:induction false} CommitValue(attrs: seq<Field>, o: Outcome, raw: map<string, string>,
                                       decode: (seq<nat>, string) -> Result<Value, string>, withChanges: bool, fmtV: Value -> string,
                                       k: nat)
    requires o.Outcome? && DistinctFields(attrs)
    requires k < |attrs| && Writable(attrs[k], raw)
    requires !Stopped(Commit(attrs, o, raw, decode, withChanges, fmtV))
    ensures decode(attrs[k].idx, RawText(attrs[k], raw))
         == Success(Read(Commit(attrs, o, raw, decode, withChanges, fmtV).record, attrs[k].idx))
    decreases |attrs|
  {
    var next := Step(o, attrs[0], raw, decode, withChanges, fmtV);
    if Stopped(next) {
      CommitStopped(attrs[1..], next, raw, decode, withChanges, fmtV);
      assert false;
    }
    var rest := attrs[1..];
    assert DistinctFields(rest) by {
      forall i, j | 0 <= i < j < |rest| ensures rest[i].idx != rest[j].idx {
        assert rest[i] == attrs[i + 1] && rest[j] == attrs[j + 1];
      }
    }
    if k == 0 {
      forall j | 0 <= j < |rest| ensures rest[j].idx != attrs[0].idx {
        assert rest[j] == attrs[j + 1];
      }
      CommitFrame(rest, next, raw, decode, withChanges, fmtV, attrs[0].idx);
    } else {
      assert rest[k - 1] == attrs[k];
      CommitValue(rest, next, raw, decode, withChanges, fmtV, k - 1);
    }
  }

  /**
   * When attribute `k` is the first to fail decoding, the attributes
   * before it stay committed, the ones from `k` on are untouched, and the
   * decoding error is the result.
   */
  lemma CommitStopsAt(attrs: seq<Field>, o: Outcome, raw: map<string, string>,
                      decode: (seq<nat>, string) -> Result<Value, string>, withChanges: bool, fmtV: Value -> string,
                      k: nat)
    requires k < |attrs| && Writable(attrs[k], raw)
    requires !Stopped(Commit(attrs[..k], o, raw, decode, withChanges, fmtV))
    requires decode(attrs[k].idx, RawText(attrs[k], raw)).Failure?
    ensures var before := Commit(attrs[..k], o, raw, decode, withChanges, fmtV);
            Commit(attrs, o, raw, decode, withChanges, fmtV)
            == before.(err := Some(Foreign(decode(attrs[k].idx, RawText(attrs[k], raw)).error)))
  {
    var before := Commit(attrs[..k], o, raw, decode, withChanges, fmtV);
    assert attrs == attrs[..k] + attrs[k..];
    CommitAppend(attrs[..k], attrs[k..], o, raw, decode, withChanges, fmtV);
    var failed := Step(before, attrs[k], raw, decode, withChanges, fmtV);
    assert attrs[k..][0] == attrs[k] && attrs[k..][1..] == attrs[k + 1..];
    CommitStopped(attrs[k + 1..], failed, raw, decode, withChanges, fmtV);
  }

  /** A change path lies under the name of one of the attributes. */
  predicate UnderSome(path: string, attrs: seq<Field>) {
    attrs != [] && (Extends(path, attrs[0].name) || UnderSome(path, attrs[1..]))
  }

  /**
   * The loop only appends to the change log, and everything it appends is
   * a real difference at a path under the name of one of the attributes.
   */
  lemma {:induction false} CommitLog(attrs: seq<Field>, o: Outcome, raw: map<string, string>,
                                     decode: (seq<nat>, string) -> Result<Value, string>, withChanges: bool, fmtV: Value -> string)
    requires o.Outcome?
    ensures var r := Commit(attrs, o, raw, decode, withChanges, fmtV);
            r.Outcome? ==>
              |r.changes| >= |o.changes| && r.changes[..|o.changes|] == o.changes
              && forall i :: |o.changes| <= i < |r.changes| ==>
                   !Unchanged(r.changes[i]) && UnderSome(r.changes[i].field, attrs)
    decreases |attrs|
  {
    if attrs != [] {
      var next := Step(o, attrs[0], raw, decode, withChanges, fmtV);
      var r := Commit(attrs, o, raw, decode, withChanges, fmtV);
      if next.Panicked? {
        CommitStopped(attrs[1..], next, raw, decode, withChanges, fmtV);
      } else {
        CommitLog(attrs[1..], next, raw, decode, withChanges, fmtV);
        if r.Outcome? {
          assert |next.changes| >= |o.changes| && next.changes[..|o.changes|] == o.changes;
          assert r.changes[..|o.changes|] == r.changes[..|next.changes|][..|o.changes|];
          forall i | |o.changes| <= i < |r.changes|
            ensures !Unchanged(r.changes[i]) && UnderSome(r.changes[i].field, attrs)
          {
            if i < |next.changes| {
              assert r.changes[i] == next.changes[i];
              assert Sound(next.changes[|o.changes|..], attrs[0].name);
              assert next.changes[|o.changes|..][i - |o.changes|] == next.changes[i];
            }
          }
        }
      }
    }
  }

  /** The target and request pass every check before the attribute loop. */
  predicate Accepted(t: Target, req: Result<Request, string>) {
    t.unmarshaler.None? && t.decl.Some? && Api(Describe(t.decl.value))
    && req.Success? && req.value.rtype == Describe(t.decl.value).stype
  }

  /** The attribute loop of an accepted target. */
  function Loop(t: Target, req: Result<Request, string>, decode: (seq<nat>, string) -> Result<Value, string>,
                withChanges: bool, fmtV: Value -> string): Outcome
    requires Accepted(t, req)
  {
    Commit(Describe(t.decl.value).attrs, Outcome(t.record, [], None), req.value.attributes, decode, withChanges, fmtV)
  }

  /**
   * `AfterUnmarshalJSONAPI` runs only after every attribute succeeded, on
   * the committed record, and its error is the result; when the loop
   * fails the hook is not consulted at all.
   */
  lemma UnmarshalAfterHook(t: Target, req: Result<Request, string>, decode: (seq<nat>, string) -> Result<Value, string>,
                           withChanges: bool, fmtV: Value -> string)
    requires Accepted(t, req)
    ensures var o := Loop(t, req, decode, withChanges, fmtV);
            var r := Unmarshal(t, req, decode, withChanges, fmtV);
            (Stopped(o) ==> r == o && r == Unmarshal(t.(after := None), req, decode, withChanges, fmtV))
            && (!Stopped(o) && t.after.Some? ==>
                  r.Outcome? && r.record == t.after.value(o.record).record && r.changes == o.changes
                  && (r.err.None? <==> t.after.value(o.record).err.None?))
            && (!Stopped(o) && t.after.None? ==> r == o && r.err.None?)
  {
  }

  /**
   * A field that no writable attribute of the type occupies keeps its
   * value through the attribute loop, whatever its outcome; without hooks,
   * which may write any field, it keeps it through the whole call.
   */
  lemma UnmarshalFrame(t: Target, req: Result<Request, string>, decode: (seq<nat>, string) -> Result<Value, string>,
                       withChanges: bool, fmtV: Value -> string, p: seq<nat>)
    requires t.decl.Some? && req.Success?
    requires var attrs := Describe(t.decl.value).attrs;
      forall j :: 0 <= j < |attrs| && attrs[j].idx == p ==> !Writable(attrs[j], req.value.attributes)
    ensures Accepted(t, req) && Loop(t, req, decode, withChanges, fmtV).Outcome? ==>
            Read(Loop(t, req, decode, withChanges, fmtV).record, p) == Read(t.record, p)
    ensures var r := Unmarshal(t, req, decode, withChanges, fmtV);
            r.Outcome? && t.unmarshaler.None? && t.after.None? ==> Read(r.record, p) == Read(t.record, p)
  {
    if Accepted(t, req) {
      CommitFrame(Describe(t.decl.value).attrs, Outcome(t.record, [], None), req.value.attributes, decode, withChanges, fmtV, p);
    }
  }

  /**
   * An attribute loop that gets through leaves every writable attribute
   * holding what `decode` made of its raw text, even when an
   * after-unmarshal hook then fails; without that hook the call returns
   * that record.
   */
  lemma UnmarshalCommits(t: Target, req: Result<Request, string>, decode: (seq<nat>, string) -> Result<Value, string>,
                         withChanges: bool, fmtV: Value -> string, k: nat)
    requires Accepted(t, req)
    requires var attrs := Describe(t.decl.value).attrs; k < |attrs| && Writable(attrs[k], req.value.attributes)
    requires !Stopped(Loop(t, req, decode, withChanges, fmtV))
    ensures var a := Describe(t.decl.value).attrs[k];
            decode(a.idx, RawText(a, req.value.attributes))
            == Success(Read(Loop(t, req, decode, withChanges, fmtV).record, a.idx))
    ensures var a := Describe(t.decl.value).attrs[k];
            t.after.None? ==>
              decode(a.idx, RawText(a, req.value.attributes))
              == Success(Read(Unmarshal(t, req, decode, withChanges, fmtV).record, a.idx))
  {
    DescribeAttrsDistinct(t.decl.value);
    CommitValue(Describe(t.decl.value).attrs, Outcome(t.record, [], None), req.value.attributes, decode, withChanges, fmtV, k);
  }

  /**
   * `Unmarshal` keeps no change log and so never panics; with a log,
   * every entry is a real difference under the name of one of the type's
   * attributes.
   */
  lemma UnmarshalLog(t: Target, req: Result<Request, string>, decode: (seq<nat>, string) -> Result<Value, string>,
                     withChanges: bool, fmtV: Value -> string)
    ensures var r := Unmarshal(t, req, decode, withChanges, fmtV);
            (!withChanges ==> r.Outcome? && r.changes == [])
            && (r.Outcome? && Accepted(t, req) ==>
                  forall i :: 0 <= i < |r.changes| ==>
                    !Unchanged(r.changes[i]) && UnderSome(r.changes[i].field, Describe(t.decl.value).attrs))
  {
    if Accepted(t, req) {
      var attrs := Describe(t.decl.value).attrs;
      var o := Outcome(t.record, [], None);
      if !withChanges {
        CommitNoLog(attrs, o, req.value.attributes, decode, withChanges, fmtV);
      }
      CommitLog(attrs, o, req.value.attributes, decode, withChanges, fmtV);
    }
  }
}
