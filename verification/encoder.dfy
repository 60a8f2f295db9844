/**
 * marshal.go: `encoder.marshal`, which writes one record as
 * `{"id":"…","type":"…","attributes":{…}}`, and the `Marshal` and
 * `MarshalSlice` entry points. Encoding an attribute value and the
 * generic encoding of a type that is not API-shaped are code outside this
 * model, given as the functions `encode` and `encodeGeneric`.
 */
module Encoder {
  import opened Wrappers
  import opened Text
  import opened Decimal
  import opened Metadata
  import opened Values

  /** A value handed to the encoder: its type (`None` when it is not a struct) and its record. */
  datatype Item = Item(decl: Option<TypeDecl>, record: Record)

  /** The bytes an entry point returns and its error; every error comes with empty bytes. */
  datatype Output = Output(bytes: string, err: Option<string>)

  const NotStruct := "jsonapi: only struct allowed for parsing"
  const NotSlice := "jsonapi: only slice allowed for parsing"

  /**
   * The id text: unsigned and int/int16/int32/int64 values in decimal,
   * strings verbatim, nothing for any other kind (`int8`, pointers,
   * booleans, containers).
   */
  function IdText(v: Value): string {
    match v
    case Unsigned(_, n) => FormatNat(n)
    case Signed(k, i) => if k == Int8 then "" else FormatInt(i)
    case Str(s) => s
    case _ => ""
  }

  /**
   * A numeric id reads back, through the query-string integer parser, to
   * the number it holds; a string id is written as it is; any other kind
   * writes an empty id.
   */
  lemma IdTextReadsBack(v: Value)
    ensures v.Unsigned? ==> StrToInt(IdText(v)) == v.n && AllDigits(IdText(v)) && IdText(v) != ""
    ensures v.Signed? && v.ikind != Int8 ==> StrToInt(IdText(v)) == v.i
    ensures v.Str? ==> IdText(v) == v.s
    ensures !v.Unsigned? && !v.Str? && !(v.Signed? && v.ikind != Int8) ==> IdText(v) == ""
  {
    if v.Unsigned? {
      ParseFormat(v.n);
      assert FormatInt(v.n) == FormatNat(v.n);
    } else if v.Signed? {
      ParseFormat(v.i);
    }
  }

  /** The value of the id field; an empty id path reads the struct itself, which writes no id. */
  function IdValue(f: Descriptor, rec: Record): Value {
    if f.id == [] then StructVal([]) else Read(rec, f.id)
  }

  /** One attribute entry: `"name":` and the attribute's encoding. */
  function AttrEntry(a: Field, json: string): string {
    "\"" + a.name + "\":" + json
  }

  /**
   * The attribute loop from attribute `k` on: each entry followed by a
   * comma unless it is the last; the first encoding error aborts.
   */
  function AttrLoop(attrs: seq<Field>, rec: Record, encode: Value -> Result<string, string>, k: nat): Result<string, string>
    requires k <= |attrs|
    decreases |attrs| - k
  {
    if k == |attrs| then Success("")
    else
      match encode(Read(rec, attrs[k].idx))
      case Failure(e) => Failure(e)
      case Success(json) =>
        match AttrLoop(attrs, rec, encode, k + 1)
        case Failure(e) => Failure(e)
        case Success(rest) => Success(AttrEntry(attrs[k], json) + (if k < |attrs| - 1 then "," else "") + rest)
  }

  /** `encoder.marshal`: the text written for one value, or the error that stopped it. */
  function MarshalOne(item: Item, encode: Value -> Result<string, string>, encodeGeneric: Record -> Result<string, string>): Result<string, string> {
    if item.decl.None? then Failure(NotStruct)
    else
      var f := Describe(item.decl.value);
      if !Api(f) then
        match encodeGeneric(item.record)
        case Failure(e) => Failure(e)
        case Success(s) => Success(s + "\n")
      else WriteResource(f, item.record, encode)
  }

  /** The resource object `encoder.marshal` writes for an API-shaped type, field by field. */
  function WriteResource(f: Descriptor, rec: Record, encode: Value -> Result<string, string>): Result<string, string> {
    var head := "{" + "\"id\":\"" + IdText(IdValue(f, rec)) + "\",\"type\":\"" + f.stype;
    if |f.attrs| > 0 then
      match AttrLoop(f.attrs, rec, encode, 0)
      case Failure(e) => Failure(e)
      case Success(entries) => Success(head + "\",\"attributes\":{" + entries + "}" + "}")
    else Success(head + "}")
  }

  /** `Marshal`: a nil input or a failing encoder gives empty bytes and the error. */
  function Marshal(input: Option<Item>, encode: Value -> Result<string, string>, encodeGeneric: Record -> Result<string, string>): (r: Output)
    ensures r.err.Some? ==> r.bytes == ""
    ensures input.None? ==> r == Output("", Some(NotStruct))
    ensures input.Some? && input.value.decl.None? ==> r == Output("", Some(NotStruct))
  {
    if input.None? then Output("", Some(NotStruct))
    else
      match MarshalOne(input.value, encode, encodeGeneric)
      case Failure(e) => Output("", Some(e))
      case Success(s) => Output(s, None)
  }

  /** The slice loop from element `i` on: elements separated by commas, the first failure aborting. */
  function SliceLoop(items: seq<Item>, encode: Value -> Result<string, string>, encodeGeneric: Record -> Result<string, string>, i: nat): Result<string, string>
    requires i <= |items|
    decreases |items| - i
  {
    if i == |items| then Success("")
    else
      match MarshalOne(items[i], encode, encodeGeneric)
      case Failure(e) => Failure(e)
      case Success(s) =>
        match SliceLoop(items, encode, encodeGeneric, i + 1)
        case Failure(e) => Failure(e)
        case Success(rest) => Success(s + (if i < |items| - 1 then "," else "") + rest)
  }

  /** `MarshalSlice`: a non-slice input or any failing element gives empty bytes and the error. */
  function MarshalSlice(input: Option<seq<Item>>, encode: Value -> Result<string, string>, encodeGeneric: Record -> Result<string, string>): (r: Output)
    ensures r.err.Some? ==> r.bytes == ""
    ensures input.None? ==> r == Output("", Some(NotSlice))
    ensures r.err.None? ==> HasPrefix(r.bytes, "[") && HasSuffix(r.bytes, "]")
  {
    if input.None? then Output("", Some(NotSlice))
    else
      match SliceLoop(input.value, encode, encodeGeneric, 0)
      case Failure(e) => Output("", Some(e))
      case Success(s) => Output("[" + s + "]", None)
  }

  /** Every attribute from `k` on encodes. */
  predicate AllEncode(attrs: seq<Field>, rec: Record, encode: Value -> Result<string, string>) {
    forall k :: 0 <= k < |attrs| ==> encode(Read(rec, attrs[k].idx)).Success?
  }

  /** The attribute entries of a record whose attributes all encode, in descriptor order. */
  function Entries(attrs: seq<Field>, rec: Record, encode: Value -> Result<string, string>): (es: seq<string>)
    requires AllEncode(attrs, rec, encode)
    ensures |es| == |attrs|
    ensures forall k :: 0 <= k < |attrs| ==> es[k] == AttrEntry(attrs[k], encode(Read(rec, attrs[k].idx)).value)
  {
    seq(|attrs|, k requires 0 <= k < |attrs| => AttrEntry(attrs[k], encode(Read(rec, attrs[k].idx)).value))
  }

  /** The loop writes exactly one entry per attribute, in order, with commas only between entries. */
  lemma {:induction false} AttrLoopJoin(attrs: seq<Field>, rec: Record, encode: Value -> Result<string, string>, k: nat)
    requires k <= |attrs| && AllEncode(attrs, rec, encode)
    ensures AttrLoop(attrs, rec, encode, k) == Success(Join(Entries(attrs, rec, encode)[k..], ","))
    decreases |attrs| - k
  {
    var es := Entries(attrs, rec, encode);
    if k < |attrs| {
      AttrLoopJoin(attrs, rec, encode, k + 1);
      assert es[k..][0] == es[k] && es[k..][1..] == es[k + 1..];
      if k == |attrs| - 1 {
        assert es[k + 1..] == [];
        assert AttrLoop(attrs, rec, encode, k) == Success(es[k] + "" + "");
        assert es[k] + "" + "" == es[k];
      }
    }
  }

  /** The first attribute that fails to encode aborts the loop with its error. */
  lemma {:induction false} AttrLoopFails(attrs: seq<Field>, rec: Record, encode: Value -> Result<string, string>, k: nat, j: nat)
    requires k <= j < |attrs|
    requires forall i :: k <= i < j ==> encode(Read(rec, attrs[i].idx)).Success?
    requires encode(Read(rec, attrs[j].idx)).Failure?
    ensures AttrLoop(attrs, rec, encode, k) == Failure(encode(Read(rec, attrs[j].idx)).error)
    decreases j - k
  {
    if k < j {
      AttrLoopFails(attrs, rec, encode, k + 1, j);
    }
  }

  /**
   * An API-shaped record whose attributes all encode is written as
   * `{"id":"<id>","type":"<type>","attributes":{<entries>}}`, the entries
   * one per attribute in descriptor order, joined by commas.
   */
  lemma MarshalLayout(item: Item, encode: Value -> Result<string, string>, encodeGeneric: Record -> Result<string, string>)
    requires item.decl.Some? && Api(Describe(item.decl.value))
    requires AllEncode(Describe(item.decl.value).attrs, item.record, encode)
    ensures var f := Describe(item.decl.value);
            Marshal(Some(item), encode, encodeGeneric)
            == Output(ResourceText(f, item.record, Join(Entries(f.attrs, item.record, encode), ",")), None)
  {
    WriteResourceLayout(Describe(item.decl.value), item.record, encode);
  }

  /** `{"id":"<id>","type":"<type>","attributes":{<entries>}}`. */
  function ResourceText(f: Descriptor, rec: Record, entries: string): string {
    "{\"id\":\"" + IdText(IdValue(f, rec)) + "\",\"type\":\"" + f.stype + "\",\"attributes\":{" + entries + "}}"
  }

  lemma WriteResourceLayout(f: Descriptor, rec: Record, encode: Value -> Result<string, string>)
    requires |f.attrs| > 0 && AllEncode(f.attrs, rec, encode)
    ensures WriteResource(f, rec, encode) == Success(ResourceText(f, rec, Join(Entries(f.attrs, rec, encode), ",")))
  {
    AttrLoopJoin(f.attrs, rec, encode, 0);
    var es := Entries(f.attrs, rec, encode);
    assert es[0..] == es;
    var entries := Join(es, ",");
    var head := "{" + "\"id\":\"" + IdText(IdValue(f, rec)) + "\",\"type\":\"" + f.stype;
    assert WriteResource(f, rec, encode) == Success(head + "\",\"attributes\":{" + entries + "}" + "}");
    assert head + "\",\"attributes\":{" + entries + "}" + "}" == ResourceText(f, rec, entries);
  }

  /** A struct that is not API-shaped is handed to the generic encoder, whose output gets a trailing newline. */
  lemma MarshalGeneric(item: Item, encode: Value -> Result<string, string>, encodeGeneric: Record -> Result<string, string>)
    requires item.decl.Some? && !Api(Describe(item.decl.value))
    ensures encodeGeneric(item.record).Success? ==>
      Marshal(Some(item), encode, encodeGeneric) == Output(encodeGeneric(item.record).value + "\n", None)
    ensures encodeGeneric(item.record).Failure? ==>
      Marshal(Some(item), encode, encodeGeneric) == Output("", Some(encodeGeneric(item.record).error))
  {
  }

  /** An attribute that fails to encode leaves `Marshal` with empty bytes and the first such error. */
  lemma MarshalAttrFailure(item: Item, encode: Value -> Result<string, string>, encodeGeneric: Record -> Result<string, string>, j: nat)
    requires item.decl.Some? && Api(Describe(item.decl.value))
    requires var attrs := Describe(item.decl.value).attrs;
      j < |attrs| && encode(Read(item.record, attrs[j].idx)).Failure?
      && forall i :: 0 <= i < j ==> encode(Read(item.record, attrs[i].idx)).Success?
    ensures var a := Describe(item.decl.value).attrs[j];
            Marshal(Some(item), encode, encodeGeneric) == Output("", Some(encode(Read(item.record, a.idx)).error))
  {
    AttrLoopFails(Describe(item.decl.value).attrs, item.record, encode, 0, j);
  }

  /** Every element of the slice encodes. */
  predicate AllMarshal(items: seq<Item>, encode: Value -> Result<string, string>, encodeGeneric: Record -> Result<string, string>) {
    forall i :: 0 <= i < |items| ==> MarshalOne(items[i], encode, encodeGeneric).Success?
  }

  function Encodings(items: seq<Item>, encode: Value -> Result<string, string>, encodeGeneric: Record -> Result<string, string>): (es: seq<string>)
    requires AllMarshal(items, encode, encodeGeneric)
    ensures |es| == |items|
    ensures forall i :: 0 <= i < |items| ==> es[i] == MarshalOne(items[i], encode, encodeGeneric).value
  {
    seq(|items|, i requires 0 <= i < |items| => MarshalOne(items[i], encode, encodeGeneric).value)
  }

  lemma {:induction false} SliceLoopJoin(items: seq<Item>, encode: Value -> Result<string, string>, encodeGeneric: Record -> Result<string, string>, i: nat)
    requires i <= |items| && AllMarshal(items, encode, encodeGeneric)
    ensures SliceLoop(items, encode, encodeGeneric, i) == Success(Join(Encodings(items, encode, encodeGeneric)[i..], ","))
    decreases |items| - i
  {
    var es := Encodings(items, encode, encodeGeneric);
    if i < |items| {
      SliceLoopJoin(items, encode, encodeGeneric, i + 1);
      assert es[i..][0] == es[i] && es[i..][1..] == es[i + 1..];
      if i == |items| - 1 {
        assert es[i + 1..] == [];
        assert SliceLoop(items, encode, encodeGeneric, i) == Success(es[i] + "" + "");
        assert es[i] + "" + "" == es[i];
      }
    }
  }

  lemma {:induction false} SliceLoopFails(items: seq<Item>, encode: Value -> Result<string, string>, encodeGeneric: Record -> Result<string, string>, i: nat, j: nat)
    requires i <= j < |items|
    requires forall m :: i <= m < j ==> MarshalOne(items[m], encode, encodeGeneric).Success?
    requires MarshalOne(items[j], encode, encodeGeneric).Failure?
    ensures SliceLoop(items, encode, encodeGeneric, i) == Failure(MarshalOne(items[j], encode, encodeGeneric).error)
    decreases j - i
  {
    if i < j {
      SliceLoopFails(items, encode, encodeGeneric, i + 1, j);
    }
  }

  /**
   * A slice is `[` + its elements' encodings joined by commas + `]`, with
   * no trailing comma (`[]` when empty); the first element that fails
   * leaves empty bytes and its error.
   */
  lemma MarshalSliceLayout(items: seq<Item>, encode: Value -> Result<string, string>, encodeGeneric: Record -> Result<string, string>)
    ensures AllMarshal(items, encode, encodeGeneric) ==>
      MarshalSlice(Some(items), encode, encodeGeneric) == Output("[" + Join(Encodings(items, encode, encodeGeneric), ",") + "]", None)
    ensures forall j :: 0 <= j < |items| && MarshalOne(items[j], encode, encodeGeneric).Failure?
                        && (forall m :: 0 <= m < j ==> MarshalOne(items[m], encode, encodeGeneric).Success?) ==>
      MarshalSlice(Some(items), encode, encodeGeneric) == Output("", Some(MarshalOne(items[j], encode, encodeGeneric).error))
  {
    if AllMarshal(items, encode, encodeGeneric) {
      SliceLoopJoin(items, encode, encodeGeneric, 0);
      assert Encodings(items, encode, encodeGeneric)[0..] == Encodings(items, encode, encodeGeneric);
    }
    forall j | 0 <= j < |items| && MarshalOne(items[j], encode, encodeGeneric).Failure?
               && (forall m :: 0 <= m < j ==> MarshalOne(items[m], encode, encodeGeneric).Success?)
      ensures MarshalSlice(Some(items), encode, encodeGeneric) == Output("", Some(MarshalOne(items[j], encode, encodeGeneric).error))
    {
      SliceLoopFails(items, encode, encodeGeneric, 0, j);
    }
  }
}
