# jsonapi in Dafny

A model of the core of the Go package `jsonapi`. The package reads and writes
JSON API documents for Go structs that are described by struct tags. The
model covers these parts:

- **Naming** (`naming.dfy`): `stringTransform`, the kebab/snake-case
  conversion of Go names, and `columnName`, its `_` variant without the
  empty-string guard. Also `validKey`, the check on tag keys.
- **Metadata** (`metadata.dfy`): how `typesCache.get` builds a type's
  descriptor.
  - `typeFields` flattens embedded structs. `metadata.dfy` gives each
    field its own index path. **Aliasing** (`aliasing.dfy`) models the
    Go code as written, with slice headers that share backing arrays.
  - Each field's `jsonapi` tag is split into its role (`id`, `attr`,
    `link`, `rel`), its wire name and its modifiers (`readonly`, `string`,
    `omitempty`). The `scope` tag is split into scopes.
  - `checkID` falls back to `JSONType()`/`JSONID()` or to the type name.
  - `api` and `inScope`.
- **Errors** (`errors.dfy`): the error constructors and `Errors.StatusCode`.
- **Envelope** (`envelope.dfy`): the hand-written JSON of
  `Relation.MarshalJSON` and `Response.MarshalJSON`.
- **ChangeLog** (`changes.dfy`): `Change` and the `Changes` helpers
  (`String`, `Empty`, `Find`).
- **Values** (`values.dfy`): the value trees `diff` walks, and the `diff`,
  `getElement`, `stringVal`, `boolString` and `mapKeys.add` functions.
- **Decoder** (`decoder.dfy`): `unquote` and `decoder.unmarshal`, with and
  without a change log.
- **Encoder** (`encoder.dfy`): `encoder.marshal`, `Marshal` and
  `MarshalSlice`.
- **Query** (`query.dfy`): `QueryParams` and its comma-separated `sort`
  loop, `DefaultSort`, `DefaultLimit` and `strToInt`.
- **Validator** (`validator.dfy`): `Present`, `StringLength`, `Int`,
  `Int64`, `Uint64` and `Verify`.
- **Supporting modules**: `Text` holds string helpers (split, join, trim,
  lower-case). `Decimal` holds decimal formatting and parsing, used for
  `strconv` and `strconv.Atoi`. `Wrappers` holds `Option` and `Result`.

Reflection is replaced by data:

- A struct type is a `TypeDecl`. It lists its fields with their tags, their
  embedded flag and their type.
- A live record is a map from field index paths to `Value`s.
- A Go value seen through reflection is a `Value` tree.

Code outside the package is passed to the operations as function
parameters:

- `encoding/json` encoding and decoding;
- the `%v` rendering of `fmt`;
- the `Unmarshaler`/`AfterUnmarshaler` hooks.

A Go panic that the model represents is a `None` (or `Stopped`) outcome.
The inputs listed under "Left out" also panic in Go, and the model does not
represent those panics.

## Model

| member | source | states |
|---|---|---|
| Naming.StringTransform | jsonapi.go:381-409 | the empty name maps to the empty string; any other name maps to its reference separation `Separated`: a separator before a capital that follows a lower-case letter or ends an acronym run, with everything lower-cased |
| Naming.TransformShape | jsonapi.go:381-409 | for ASCII names and a non-letter separator that the name does not contain, the result has no upper-case letter, and removing the separator gives back exactly the lower-cased name |
| Naming.TransformExamples | jsonapi.go:381-409 | worked cases: `HTTPServer` gives `http-server`, `UserID` gives `user-id`, `aB` gives `ab`, and the column names of the package's own test table (`SomeJSON` gives `some_json`, `Some123Number` gives `some123_number`, ...) |
| Naming.ColumnName | postgres.go:156-180 | the same transformation with `_`; because there is no empty-string guard, the empty name gives the single zero rune |
| Naming.ValidKey | jsonapi.go:329-343 | a key is valid exactly when it is non-empty and every character is a letter, a digit or one of the allowed punctuation characters |
| Naming.ValidKeyRejectsQuoting | jsonapi.go:329-343 | a valid key contains no double quote, single quote, backslash or comma |
| Metadata.TypeFieldsDistinct | jsonapi.go:360-379 | corrected flattening: the field index paths are pairwise distinct |
| Aliasing.Append | jsonapi.go:368 | Go's `append` on an `[]int` adds the element; it writes into the existing backing array when there is spare capacity, and otherwise allocates a new array and changes nothing else |
| Aliasing.TypeFieldsShallowAgree | jsonapi.go:360-379 | when embedded structs are nested fewer than two levels deep, the flattening as written gives the same paths as the corrected one |
| Aliasing.TypeFieldsAliasing | jsonapi.go:360-379 | as written, four nested embedded structs whose innermost struct has two attributes flatten to the second attribute's path twice; the corrected flattening gives both paths |
| Metadata.TypeFieldsFlat | jsonapi.go:360-379 | a struct with no embedded fields flattens to its exported fields, in declaration order |
| Metadata.WireName | jsonapi.go:286-289 | the wire name is the tag's second key when that key is valid; in every case it is a valid key or the Go field name |
| Metadata.ApplyModifiers | jsonapi.go:290-301 | `readonly`, `string` and `omitempty` each set exactly their own flag; other modifiers are ignored |
| Metadata.AttrField | jsonapi.go:285-304 | an attribute's flags hold exactly when the modifier appears from the third key on; its scopes are the comma-split `scope` tag, or none when that tag is empty |
| Metadata.DescribeLists | jsonapi.go:199-201 | the attribute, link and relation lists are the `attr`, `link` and `rel` fields in flattened order; a type is API-shaped exactly when some field is an `attr` |
| Metadata.DescribeAttrsDistinct | jsonapi.go:271-305 | corrected flattening: no two attributes of a type share an index path (as written, they can; see Findings) |
| Metadata.DescribeWithIdTag | jsonapi.go:280-284 | with exactly one `id`-tagged field, that field is the id, and the resource type is the tag's second key (empty when there is none) |
| Metadata.DescribeWithoutIdTag | jsonapi.go:203-228 | with no `id` tag (looked up among direct fields only), the resource type is `JSONType()` or the kebab-cased type name, and the id is the field named by `JSONID()` (default `ID`), or empty when no field has that name |
| Metadata.ClassifyOneId | jsonapi.go:271-319 | classifying the fields in order leaves the id at the `id`-tagged field, with its type key |
| Metadata.CheckID | jsonapi.go:203-228 | a descriptor that already has an id is unchanged; otherwise the lists are kept and the resource type comes from `JSONType()` or the type name |
| Metadata.FieldByName | jsonapi.go:223-226 | finds the first direct field with that name, or reports that no field has it |
| Metadata.InScope | jsonapi.go:240-250 | a field is in scope exactly when it has no scopes, the scope asked for is empty, or the scope is listed |
| Errors.StatusCode | jsonapi.go:136-141 | an empty error set gives 200; otherwise the code is the first error's status read as a decimal |
| Errors.ConstructorStatusCodes | errors.go:26-78 | whatever follows it, a set that starts with a given constructor's error has status 404, 404, 500, 422, 400 or 401 |
| Errors.ConstructorShapes | errors.go:18-60 | only an invalid-attribute error carries a source pointer; `Error()` returns the detail |
| Envelope.RelationLayout | jsonapi.go:156-189 | a relationship is `{` + its present members (`links` before `data`, `self` before `related`) joined by commas + `}`; it is `{}` without links or data, and a failing payload fails the whole relationship |
| Envelope.ResponseLayout | jsonapi.go:83-133 | when every part encodes, a response is `{` + its present members (data, included, meta, errors, in that order) joined by commas + `}`, and an empty error set writes no `errors` member |
| Envelope.ResponseFailure | jsonapi.go:83-133 | a failing `data` writes nothing; a failing `included` leaves exactly `{` and the `data` member, if any; a failing `meta` leaves `{` and the members before it; a failing error encoding leaves `{` and the data, included and meta members; each gives that part's error |
| ChangeLog.Lines | unmarshal.go:32-34 | one `field: cur -> new` line per change, in order |
| ChangeLog.ChangesLines | unmarshal.go:63-84 | an empty list prints as nothing; otherwise splitting the printed text at newlines gives back the change lines, one newline between each pair |
| ChangeLog.Find | unmarshal.go:68-75 | returns the first change recorded for the path, or the zero change when there is none |
| Values.GetElement | unmarshal.go:229-240 | follows pointers and interfaces to a value that is neither, and no larger than the start; a value that is already neither is returned as is; a nil pointer or an invalid value gives the empty string, and a non-nil pointer gives its target's element |
| Values.NilReadsEmpty | unmarshal.go:229-240 | a nil pointer, a pointer to nothing, or the zero value reads as `""` |
| Values.BoolString | unmarshal.go:185-190 | the result is `"true"` exactly for true, and otherwise `"false"` |
| Values.StringValReadsBack | unmarshal.go:242-254 | a string reads as itself; unsigned and (non-int8) signed integers read back, through decimal parsing, as their value |
| Values.AddKeysUnion | unmarshal.go:175-183 | adding keys keeps the earlier keys first and in order, adds no duplicate, and gives exactly the union |
| Values.MapDiffVisits | unmarshal.go:198-208 | a map comparison visits the old map's keys first, then the new map's other keys, each exactly once |
| Values.Diff | unmarshal.go:192-227 | every recorded change is a real difference under the field's path; an old map against a new non-map panics, and so does an old struct whose read field has no counterpart in the new value (a non-struct or a struct with too few fields) |
| Values.DiffLeaves | unmarshal.go:219-226 | two leaves give one change exactly when their string forms differ, recorded under the field name itself |
| Values.DiffSelf | unmarshal.go:192-227 | a value compared with itself gives no change and does not reach the map-against-non-map panic |
| Values.DiffSkipsHidden | unmarshal.go:209-218 | structs that agree on every field except the unexported, non-embedded ones give no change |
| Values.MissingKeyReadsEmpty | unmarshal.go:200-207 | a key the map does not hold reads as `""` |
| Decoder.Unquote | unmarshal.go:163-169 | a text wrapped in double quotes loses exactly those two quotes; any other text is unchanged |
| Decoder.UnquoteQuoted | unmarshal.go:163-169 | unquoting a quoted string gives the string back |
| Decoder.Unmarshal | unmarshal.go:92-130 | a target with an `Unmarshaler` hook gets exactly the record the hook writes and the hook's error; the non-struct, non-API-type, bad-request and wrong-resource-type cases each give their own error and leave the record unchanged |
| Decoder.UnmarshalAfterHook | unmarshal.go:156-160 | the after-unmarshal hook runs only when decoding got through; the result is the record the hook writes over the decoded one, with the decoded change log, and it fails exactly when the hook does |
| Decoder.UnmarshalFrame | unmarshal.go:131-154 | a field that no writable, supplied attribute occupies keeps its value through the attribute loop, and through the whole call when the target has no hooks |
| Decoder.UnmarshalCommits | unmarshal.go:131-154 | after a successful attribute loop, every writable, supplied attribute holds what the JSON decoder made of its raw text, even when the after-unmarshal hook then fails; without an after-unmarshal hook, so does the returned record |
| Decoder.CommitStopsAt | unmarshal.go:143-146 | the first attribute that fails to decode stops the loop with that error, keeping the earlier writes |
| Decoder.UnmarshalLog | unmarshal.go:37-57 | plain `Unmarshal` logs nothing and never reaches a panic the model represents; with a change log, every entry is a real difference under one of the type's attribute names |
| Encoder.IdTextReadsBack | marshal.go:69-77 | an unsigned or signed id reads back as its value, a string id is written as is, and any other kind writes nothing |
| Encoder.MarshalLayout | marshal.go:55-102 | an API-shaped struct encodes as `{"id":..,"type":..,"attributes":{..}}`, with one `"name":json` entry per attribute in descriptor order, joined by commas |
| Encoder.MarshalGeneric | marshal.go:61-64 | a struct that is not API-shaped is handed to the generic encoder, whose output gets a trailing newline |
| Encoder.MarshalAttrFailure | marshal.go:88-91 | the first attribute that fails to encode makes `Marshal` return empty bytes and that error |
| Encoder.Marshal | marshal.go:12-26 | a failure gives empty bytes; a nil or non-struct input is rejected |
| Encoder.MarshalSlice | marshal.go:29-49 | a failure gives empty bytes; a non-slice is rejected; a success is bracketed |
| Encoder.MarshalSliceLayout | marshal.go:29-49 | a slice encodes as `[` + its elements' encodings joined by commas + `]`; the first element that fails gives empty bytes and its error |
| Decimal.ParseFormat | query.go:96-99 | decimal formatting and `strconv.Atoi` parsing are inverse on every integer |
| Query.SortLoop | query.go:55-72 | the byte loop over the sort value produces the reference split: one entry per comma-separated segment, where the segment before the last character absorbs that character, and `-x` becomes `x DESC` |
| Query.SegmentsCover | query.go:55-72 | the sort segments joined with commas give back the sort value, so no character is lost or added |
| Query.SortValue | query.go:55-72 | a non-empty sort value has one entry more than it has commas before its last character; an empty one gives no entry |
| Query.SegmentsNonEmpty | query.go:58-65 | in a sort value that does not panic, no segment is empty, so `w[0]` is always defined |
| Query.ExampleSort | query.go:55-72 | `-name,id` sorts as `name DESC`, `id` |
| Query.Apply | query.go:51-90 | one parameter panics exactly when it has no value, or when it is `sort` with a segment that would be empty |
| Query.QueryParamsPanics | query.go:46-94 | parsing panics exactly when some parameter panics |
| Query.QueryParamsFields | query.go:46-94 | limit, offset and format are the last value given (zero or empty otherwise); sort entries, filters and queries are gathered from every parameter in order |
| Query.ApplyFields | query.go:51-90 | each parameter touches only its own field: `sort` appends its entries, `limit`/`offset` set the parsed number, `format` sets the text, `filter[k]`/`query[k]` append `(k, value)`, and anything else changes nothing |
| Query.BracketedRoundTrip | query.go:81-89 | the key read from `prefix + k + "]"` is `k` |
| Query.LastOf | query.go:73-78 | the last parameter that sets a field decides it |
| Query.DefaultSort | query.go:32-36 | the default sort is installed exactly when none is set and the default is non-empty; nothing else changes |
| Query.DefaultSortIdempotent | query.go:32-36 | once a non-empty default is set, a second default changes nothing |
| Query.DefaultLimit | query.go:39-43 | as written: a zero limit becomes 30, a non-zero one is kept, and nothing else changes |
| Query.DefaultLimitIgnoresArgument | query.go:39-43 | as written, the argument is ignored: any two arguments give the same query, and for a zero limit and any argument other than 30 the result differs from the corrected one |
| Query.DefaultLimitTo | query.go:39-43 | corrected: a zero limit becomes the argument, a non-zero one is kept, and nothing else changes |
| Validator.Present | validator.go:24-28 | a blank value adds exactly one `can't be blank` error about the field; earlier errors are kept in order |
| Validator.Bounds | validator.go:32-72 | a positive minimum that is not met adds the minimum error first, then a positive maximum that is exceeded adds the maximum error; each names the bound in decimal |
| Validator.StringLength | validator.go:32-39 | no error is added exactly when the rune count is within the positive bounds; every added error is about the field |
| Validator.Int | validator.go:43-50 | no error is added exactly when the value is within the positive bounds |
| Validator.Int64 | validator.go:54-61 | the same, for 64-bit values |
| Validator.Uint64 | validator.go:65-72 | the same, for unsigned values against converted positive bounds |
| Validator.Verify | validator.go:15-20 | returns nothing exactly when there is no error, and otherwise the error set |
| Validator.AppendedTrans | validator.go:24-72 | checks run one after another keep every earlier error, in order |
| Validator.StringLengthAtMostOne | validator.go:32-39 | with bounds `0 < min <= max`, a length check adds at most one error |
| Validator.FailedValidationIs422 | validator.go:15-28 | a failed presence check makes the verified set answer 422, whatever later checks add |
| Validator.ExampleStringLength | validator.go:32-39 | `"abc"` against 6..18 gives one error, `min length is6`, because `fmt.Sprint` puts no space between a string and a number |

## Left out

- Concurrency: the `typesCache` lock and memoisation. A descriptor is
  recomputed each time, which gives the same result.
- Reflection and `encoding/json`. Struct types, values and the JSON codec
  are data or function parameters. JSON syntax errors are the decoder
  parameter's failures.
- Character width. Strings are sequences of characters. `stringTransform`
  and `columnName` use the byte index `i` of `range`. The model uses the
  character index, which is the same for ASCII names. `Naming.TransformShape`
  is stated for ASCII names only.
- Naming.StringTransform and Naming.ColumnName follow Go only on ASCII
  names. `unicode.IsUpper`/`IsLower` and `ToLower` also classify and map
  other letters: Go turns `Über` into `-über`, and the model, whose case
  tests are ASCII-only, gives `Über` unchanged.
- Decimal.ParseFormat: `strconv.Atoi` range errors (values beyond 64 bits)
  are not modelled. Every decimal is parsed exactly.
- `PostgresJSON` and the SQL builder of postgres.go: only `columnName` is
  part of the model.
- Floating point values: these are `Other` values, and their string form
  is the `%v` parameter.
- Go map iteration order: `QueryParams` and `diff` visit map entries in the
  order of the entry sequence. In Go that order is unspecified, so the
  proved facts hold for every order.
- Map keys are strings only.
- Naming.ValidKey: letters and digits are the ASCII ones. Go's `unicode.IsLetter`
  and `unicode.IsDigit` also accept other scripts.
- Metadata.FieldByName: searches only the type's direct fields. Go's
  `FieldByName` also finds promoted fields of embedded structs.
- Not part of this model: `MarshalWithScope`, `ptrValue`, the
  `Validator.AddError` and `Errors.HasErrors` declarations and other files
  not shown. Their behaviour is taken from their use: append one error;
  the set is non-empty.
- Encoder.MarshalLayout: an attribute whose own field is unexported
  (`typeFields` keeps such a field only when it is embedded, such as an
  embedded `nick` of type `string` tagged `attr`) panics in Go. Reflection
  marks the field read-only, and `.Interface()` at marshal.go:88 panics.
  The model encodes that attribute like any other.
- Decoder.UnmarshalCommits: the same attribute panics on decoding at
  `newVal.Addr().Interface()` (unmarshal.go:143). The model decodes and
  writes it like any other.
- Encoder.Marshal: `ptrValue` (marshal.go:13, 30) is assumed to give an
  invalid value exactly for nil, and otherwise a pointer whose `Elem()` is
  the item. The `Option<Item>` input encodes that assumption. A struct
  passed by value, whose `Elem()` would panic at marshal.go:18 unless
  `ptrValue` wraps it, is not represented.
- `Validator.Format` (validator.go:96-103): regular-expression matching is
  out of scope, so the format check is not modelled.
- `Validator.Float32` and `Validator.Float64` (validator.go:74-94): they
  compare floating point values, which the model does not represent.
- Encoder.MarshalLayout: the encoder does not quote, skip empty values,
  filter by scope, write links or relationships, or run hooks, because
  `encoder.marshal` as written does none of these.
- Decoder.Unmarshal: the decoder has no scope parameter. The
  `Unmarshaler` hook is given the record and already applied to the
  document's bytes; the model does not show those bytes to it.
- Decoder.UnmarshalLog: a typed nil pointer target panics at
  unmarshal.go:105, and a struct passed by value panics at the
  `curVal.Set` of unmarshal.go:152. The model's target is always an
  addressable struct, so neither panic is represented.
- Values.DiffSelf: an unexported embedded field whose kind falls through
  to `%v` panics in `v.Interface()` (unmarshal.go:253). The model renders
  every leaf through the `%v` parameter and does not represent that panic.
- Metadata.DescribeWithoutIdTag: the `JSONID()` field is looked up among
  the type's direct fields. Go's `FieldByName` also finds an `ID` promoted
  from an embedded struct (`User{Base}` with `Base{ID}`), which the model
  misses and reports as no id.
- Aliasing.GrowCap: doubling is Go's growth rule below 256 elements. Above
  that Go grows by about a quarter and rounds to size classes, so the
  aliasing model is exact only for index paths shorter than 256.
- `Keymap.Key`/`Keymap.Value` are the two fields of the `Keymap` datatype.
- Query.SortValue: stated only for sort values where no segment is empty.
  For those values `QueryParams` does not panic, and `Query.Apply` gives
  `None` for all the others.
- Disagreements between the code and its tests, where the code is followed:
  - query_test.go:32 expects `-name` in the sort list; the code writes
    `name DESC`.
  - query_test.go:34 calls `Filters.Get`, which the code does not define.
  - unmarshal_test.go calls `UnmarshalWithScope`, which the code does not
    define.
  - marshal_test.go:158-162 expects `Marshal` of a non-API struct to give
    the JSON with no trailing newline; the generic path of marshal.go:61-64
    uses `json.Encoder.Encode`, which appends a newline.
  - errors.go:23 declares `Errors` as `[]Errors`; the model uses a
    sequence of `Error`, as every use of the type requires.
- The source as shown does not compile: `typesCache.get` takes a
  `reflect.Value` (jsonapi.go:257, with `el.Type()` at 259), but
  marshal.go:61 and unmarshal.go:110 pass it a `reflect.Type`. The model's
  `Describe` takes the type, which is what both callers evidently mean.

## Findings

| source | as written | input that shows it | evidently intended | confidence | as-written member | corrected member |
|---|---|---|---|---|---|---|
| query.go:39-43 | `DefaultLimit(n)` sets a zero limit to the constant 30 and never reads `n` | a query with limit 0 and `n = 10` gets limit 30 | a zero limit becomes `n`, as `DefaultSort(s)` installs `s` | medium; not executed | Query.DefaultLimitIgnoresArgument | Query.DefaultLimitTo |
| jsonapi.go:368 | `idx1 := append(idx, fd.Index...)` can write into spare capacity of `idx` that a sibling field's path already shares | `A{B}`, `B{C}`, `C{D}`, `D{X, Y}` with `X` tagged `attr,x` and `Y` tagged `attr,y`, all embedded or exported: both attributes get path `[0,0,0,1]`, so `y` is listed twice and `x` is lost | each field gets its own copy of the prefix path | medium; not executed | Aliasing.TypeFieldsAliasing | Metadata.TypeFieldsDistinct |
