/**
 * The hand-written JSON assembly of jsonapi.go: `Relation.MarshalJSON`
 * (a relationship's `links`/`data` object) and `Response.MarshalJSON` (the
 * top-level document with `data`, `included`, `meta` and `errors`). The
 * encodings of the nested payloads come from code outside this model and are
 * given as their outcome.
 */
module Envelope {
  import opened Wrappers
  import opened Text
  import opened Errors

  /** What the generic JSON encoder produced for a payload: its text or its error message. */
  type Encoding = Result<string, string>

  /** Bytes written so far and the error that stopped the writer, if any. */
  datatype Written = Written(bytes: string, err: Option<string>)

  datatype Links = Links(self: string, related: string)

  /** A relationship; `data` is `None` for a nil payload, otherwise the payload's encoding. */
  datatype Relation = Relation(links: Links, data: Option<Encoding>)

  function Quoted(s: string): string {
    "\"" + s + "\""
  }

  /** The `links` object as the source writes it: `self`, a comma only when `related` follows, then `related`. */
  function LinksObject(l: Links): string {
    "\"links\":{"
    + (if l.self != "" then "\"self\":" + Quoted(l.self) + (if l.related != "" then "," else "") else "")
    + (if l.related != "" then "\"related\":" + Quoted(l.related) else "")
    + "}"
  }

  /** `Relation.MarshalJSON`, following the writes of the source one by one. */
  function RelationJson(r: Relation): Result<string, string> {
    var hasLinks := r.links.self != "" || r.links.related != "";
    var linksPart := if hasLinks then LinksObject(r.links) + (if r.data.Some? then "," else "") else "";
    match r.data
    case Some(Failure(e)) => Failure(e)
    case Some(Success(d)) => Success("{" + linksPart + "\"data\":" + d + "}")
    case None => Success("{" + linksPart + "}")
  }

  /** The link entries of a relationship: `self` then `related`, each only when set. */
  function LinkEntries(l: Links): seq<string> {
    (if l.self != "" then ["\"self\":" + Quoted(l.self)] else [])
    + (if l.related != "" then ["\"related\":" + Quoted(l.related)] else [])
  }

  /** The members of a relationship object: `links` when any link is set, then `data` when present. */
  function RelationMembers(l: Links, data: Option<string>): seq<string> {
    (if LinkEntries(l) != [] then ["\"links\":{" + Join(LinkEntries(l), ",") + "}"] else [])
    + (if data.Some? then ["\"data\":" + data.value] else [])
  }

  /**
   * A relationship is an object of its members separated by commas: `{}`
   * without links or data, `links` before `data`, `self` before `related`,
   * and a failing payload encoding fails the whole object.
   */
  lemma RelationLayout(r: Relation)
    ensures r.data.Some? && r.data.value.Failure? ==> RelationJson(r) == Failure(r.data.value.error)
    ensures r.data.None? ==> RelationJson(r) == Success("{" + Join(RelationMembers(r.links, None), ",") + "}")
    ensures r.data.Some? && r.data.value.Success? ==>
      RelationJson(r) == Success("{" + Join(RelationMembers(r.links, Some(r.data.value.value)), ",") + "}")
    ensures r.links == Links("", "") && r.data.None? ==> RelationJson(r) == Success("{}")
  {
    var l := r.links;
    var e := LinkEntries(l);
    assert LinksObject(l) == "\"links\":{" + Join(e, ",") + "}" by {
      if l.self != "" && l.related != "" {
        assert e == ["\"self\":" + Quoted(l.self), "\"related\":" + Quoted(l.related)];
      } else if l.self != "" {
        assert e == ["\"self\":" + Quoted(l.self)];
      } else if l.related != "" {
        assert e == ["\"related\":" + Quoted(l.related)];
      }
    }
    assert (e != []) == (l.self != "" || l.related != "");
    var hasLinks := l.self != "" || l.related != "";
    var linksPart := if hasLinks then LinksObject(l) + (if r.data.Some? then "," else "") else "";
    match r.data {
      case Some(Failure(_)) =>
      case Some(Success(d)) =>
        assert RelationJson(r) == Success("{" + linksPart + "\"data\":" + d + "}");
        var ms := RelationMembers(l, Some(d));
        if e != [] {
          assert ms == [LinksObject(l), "\"data\":" + d];
          assert Join(ms, ",") == LinksObject(l) + "," + ("\"data\":" + d);
          assert linksPart == LinksObject(l) + ",";
          assert "{" + linksPart + "\"data\":" + d + "}" == "{" + Join(ms, ",") + "}";
        } else {
          assert ms == ["\"data\":" + d];
          assert linksPart == "";
          assert "{" + linksPart + "\"data\":" + d + "}" == "{" + Join(ms, ",") + "}";
        }
      case None =>
        assert RelationJson(r) == Success("{" + linksPart + "}");
        var ms := RelationMembers(l, None);
        if e != [] {
          assert ms == [LinksObject(l)];
          assert linksPart == LinksObject(l);
        } else {
          assert ms == [];
          assert linksPart == "";
          assert "{" + linksPart + "}" == "{}";
        }
    }
  }

  /**
   * A response document; each optional part is `None` when the source's
   * field is nil, otherwise the outcome of encoding it. `data` and
   * `included` are encoded by `MarshalWithScope`, which is not part of this
   * model, so only their outcome is given.
   */
  datatype Response = Response(data: Option<Encoding>, included: Option<Encoding>, meta: Option<Encoding>, errors: ErrorSet)

  /** Appends one member, with a comma when something besides the opening brace is already written. */
  function AddMember(buf: string, member: string): string {
    buf + (if |buf| > 2 then "," else "") + member
  }

  /** The member `"name":text` a present, successfully encoded part contributes, none otherwise. */
  function MemberOf(name: string, part: Option<string>): seq<string> {
    if part.Some? then ["\"" + name + "\":" + part.value] else []
  }

  /** Writes one optional part after the members already written, stopping at the first failure. */
  function Append(w: Written, name: string, part: Option<Encoding>): Written {
    if w.err.Some? then w
    else match part
      case None => w
      case Some(Failure(e)) => Written(w.bytes, Some(e))
      case Some(Success(v)) => Written(AddMember(w.bytes, "\"" + name + "\":" + v), None)
  }

  /** The error list as the source treats it: nil when empty, otherwise its encoding. */
  function ErrorsPart(errors: ErrorSet, encodeErrors: ErrorSet -> Encoding): Option<Encoding> {
    if HasErrors(errors) then Some(encodeErrors(errors)) else None
  }

  /**
   * `Response.MarshalJSON`. `encodeErrors` stands for `json.Marshal` of the
   * error list. On a failure the bytes written so far are returned with the
   * error, as the source does.
   */
  function ResponseJson(r: Response, encodeErrors: ErrorSet -> Encoding): Written {
    if r.data.Some? && r.data.value.Failure? then Written("", Some(r.data.value.error))
    else
      var data := if r.data.Some? then r.data.value.value else "";
      var w0 := Written("{" + (if |data| > 0 then "\"data\":" + data else ""), None);
      var w := Append(Append(Append(w0, "included", r.included), "meta", r.meta), "errors", ErrorsPart(r.errors, encodeErrors));
      if w.err.Some? then w else Written(w.bytes + "}", None)
  }

  /** The payload of a part that encoded, `None` for an absent part. */
  function Encoded(part: Option<Encoding>): Option<string>
    requires part.Some? ==> part.value.Success?
  {
    if part.Some? then Some(part.value.value) else None
  }

  /** The members of a successfully encoded response, in document order, each only when present. */
  function ResponseMembers(data: string, included: Option<string>, meta: Option<string>, errors: Option<string>): seq<string> {
    (if |data| > 0 then ["\"data\":" + data] else [])
    + MemberOf("included", included) + MemberOf("meta", meta) + MemberOf("errors", errors)
  }

  /** Every member is at least two characters long, so the brace alone never looks like content. */
  predicate Substantial(ms: seq<string>) {
    forall i :: 0 <= i < |ms| ==> |ms[i]| >= 2
  }

  lemma AddMemberJoin(ms: seq<string>, m: string)
    requires Substantial(ms)
    ensures AddMember("{" + Join(ms, ","), m) == "{" + Join(ms + [m], ",")
  {
    JoinSnoc(ms, m, ",");
    if ms != [] {
      JoinLength(ms, ",", 2);
    }
  }

  /** Appending a part that encodes extends the joined member list by that part's member. */
  lemma AppendJoin(w: Written, ms: seq<string>, name: string, part: Option<Encoding>)
    requires w == Written("{" + Join(ms, ","), None) && Substantial(ms)
    requires part.Some? ==> part.value.Success?
    ensures Append(w, name, part) == Written("{" + Join(ms + MemberOf(name, Encoded(part)), ","), None)
    ensures Substantial(ms + MemberOf(name, Encoded(part)))
  {
    if part.Some? {
      AddMemberJoin(ms, "\"" + name + "\":" + part.value.value);
    } else {
      assert ms + [] == ms;
    }
  }

  /**
   * When every part encodes, a response is `{` + its present members joined
   * by commas + `}`: data, included, meta and errors in that order, an empty
   * error set leaving no `errors` member at all.
   */
  lemma ResponseLayout(r: Response, encodeErrors: ErrorSet -> Encoding)
    requires r.data.Some? ==> r.data.value.Success?
    requires r.included.Some? ==> r.included.value.Success?
    requires r.meta.Some? ==> r.meta.value.Success?
    requires HasErrors(r.errors) ==> encodeErrors(r.errors).Success?
    ensures ResponseJson(r, encodeErrors) == Written("{" + Join(ResponseMembers(
      if r.data.Some? then r.data.value.value else "",
      Encoded(r.included), Encoded(r.meta), Encoded(ErrorsPart(r.errors, encodeErrors))), ",") + "}", None)
  {
    var data := if r.data.Some? then r.data.value.value else "";
    var m0: seq<string> := if |data| > 0 then ["\"data\":" + data] else [];
    var w0 := Written("{" + (if |data| > 0 then "\"data\":" + data else ""), None);
    assert w0 == Written("{" + Join(m0, ","), None);
    var ep := ErrorsPart(r.errors, encodeErrors);
    AppendJoin(w0, m0, "included", r.included);
    var m1 := m0 + MemberOf("included", Encoded(r.included));
    AppendJoin(Append(w0, "included", r.included), m1, "meta", r.meta);
    var m2 := m1 + MemberOf("meta", Encoded(r.meta));
    AppendJoin(Append(Append(w0, "included", r.included), "meta", r.meta), m2, "errors", ep);
  }

  /** The `data` payload as written: its encoding when it encoded, empty otherwise. */
  function DataPayload(r: Response): string {
    if r.data.Some? && r.data.value.Success? then r.data.value.value else ""
  }

  /** A part that is absent or encoded. */
  predicate Fine(part: Option<Encoding>) {
    part.Some? ==> part.value.Success?
  }

  /**
   * A failing part stops the document: a failing `data` leaves nothing
   * written; a later failure returns its error with exactly the opening
   * brace and the members written before it, and no closing brace.
   */
  lemma ResponseFailure(r: Response, encodeErrors: ErrorSet -> Encoding)
    ensures r.data.Some? && r.data.value.Failure? ==>
      ResponseJson(r, encodeErrors) == Written("", Some(r.data.value.error))
    ensures Fine(r.data) && r.included.Some? && r.included.value.Failure? ==>
      ResponseJson(r, encodeErrors)
      == Written("{" + Join(ResponseMembers(DataPayload(r), None, None, None), ","), Some(r.included.value.error))
    ensures Fine(r.data) && Fine(r.included) && r.meta.Some? && r.meta.value.Failure? ==>
      ResponseJson(r, encodeErrors)
      == Written("{" + Join(ResponseMembers(DataPayload(r), Encoded(r.included), None, None), ","), Some(r.meta.value.error))
    ensures Fine(r.data) && Fine(r.included) && Fine(r.meta) && HasErrors(r.errors) && encodeErrors(r.errors).Failure? ==>
      ResponseJson(r, encodeErrors)
      == Written("{" + Join(ResponseMembers(DataPayload(r), Encoded(r.included), Encoded(r.meta), None), ","),
                 Some(encodeErrors(r.errors).error))
  {
    if Fine(r.data) {
      var data := DataPayload(r);
      var m0: seq<string> := if |data| > 0 then ["\"data\":" + data] else [];
      var w0 := Written("{" + (if |data| > 0 then "\"data\":" + data else ""), None);
      assert w0 == Written("{" + Join(m0, ","), None);
      assert m0 == ResponseMembers(data, None, None, None);
      if Fine(r.included) {
        AppendJoin(w0, m0, "included", r.included);
        var m1 := m0 + MemberOf("included", Encoded(r.included));
        assert m1 == ResponseMembers(data, Encoded(r.included), None, None);
        if Fine(r.meta) {
          AppendJoin(Append(w0, "included", r.included), m1, "meta", r.meta);
          var m2 := m1 + MemberOf("meta", Encoded(r.meta));
          assert m2 == ResponseMembers(data, Encoded(r.included), Encoded(r.meta), None);
        }
      }
    }
  }
}
