/**
 * The value trees `diff` of unmarshal.go walks, and `diff` itself, with
 * its helpers `getElement`, `stringVal`, `boolString` and `mapKeys.add`.
 * Reflection is replaced by an explicit datatype of the value shapes the
 * source distinguishes; Go map iteration order is the order of a map's
 * entry sequence.
 */
module Values {
  import opened Wrappers
  import opened Text
  import opened Decimal
  import opened ChangeLog

  datatype IntKind = Int | Int8 | Int16 | Int32 | Int64
  datatype UintKind = Uint | Uint8 | Uint16 | Uint32 | Uint64 | Uintptr

  /** One entry of a map value. */
  datatype Entry = Entry(key: string, value: Value)

  /** One field of a struct value: its Go name, whether it is exported or embedded, and its value. */
  datatype Member = Member(name: string, exported: bool, embedded: bool, value: Value)

  /**
   * A Go value as `diff` sees it. `Invalid` is the zero `reflect.Value`
   * (a missing map entry, the target of a nil pointer); `Indirect` is a
   * pointer or interface, `None` when nil; `Other` is any further kind
   * (floats, slices, ...), identified by a tag for its `%v` rendering.
   * Map keys are strings.
   */
  datatype Value =
    | Invalid
    | Str(s: string)
    | Signed(ikind: IntKind, i: int)
    | Unsigned(ukind: UintKind, n: nat)
    | Boolean(b: bool)
    | MapVal(entries: seq<Entry>)
    | StructVal(members: seq<Member>)
    | Indirect(target: Option<Value>)
    | Other(tag: string)

  /** A record: the value of each field, by its index path. */
  type Record = map<seq<nat>, Value>

  /** `FieldByIndex`: a path the record does not hold reads as the zero value. */
  function Read(rec: Record, idx: seq<nat>): Value {
    if idx in rec then rec[idx] else Invalid
  }

  /** The number of container nodes in a value: what `diff`'s recursion consumes. */
  function Size(v: Value): nat
    decreases v, 1
  {
    match v
    case MapVal(es) => 1 + EntriesSize(es)
    case StructVal(ms) => 1 + MembersSize(ms)
    case Indirect(Some(t)) => 1 + Size(t)
    case _ => 0
  }

  function EntriesSize(es: seq<Entry>): nat
    decreases es, 0
  {
    if es == [] then 0 else Size(es[0].value) + EntriesSize(es[1..])
  }

  function MembersSize(ms: seq<Member>): nat
    decreases ms, 0
  {
    if ms == [] then 0 else Size(ms[0].value) + MembersSize(ms[1..])
  }

  /** A value `getElement` can return: neither the zero value nor a pointer or interface. */
  predicate Resolved(v: Value) {
    !v.Invalid? && !v.Indirect?
  }

  /**
   * `getElement`: follows pointers and interfaces to the value they hold;
   * a nil pointer or a missing value reads as the empty string.
   */
  function GetElement(v: Value): (r: Value)
    ensures Resolved(r)
    ensures Size(r) <= Size(v)
    ensures Resolved(v) ==> r == v
    ensures v.Invalid? || v == Indirect(None) ==> r == Str("")
    ensures v.Indirect? && v.target.Some? ==> r == GetElement(v.target.value)
  {
    match v
    case Invalid => Str("")
    case Indirect(None) => Str("")
    case Indirect(Some(t)) => GetElement(t)
    case _ => v
  }

  /** The values that render the same as the empty string after `getElement`. */
  lemma NilReadsEmpty(v: Value)
    requires v.Invalid? || v == Indirect(None) || v == Indirect(Some(Invalid))
    ensures GetElement(v) == Str("")
  {
  }

  /** `boolString`. */
  function BoolString(b: bool): (s: string)
    ensures s == "true" || s == "false"
    ensures (s == "true") <==> b
  {
    if b then "true" else "false"
  }

  /**
   * `stringVal`: strings verbatim, unsigned and int/int16/int32/int64
   * values in decimal, booleans as words; every other kind, `int8`
   * included, goes to `fmt`'s `%v`, given here as `fmtV`.
   */
  function StringVal(v: Value, fmtV: Value -> string): string
    requires Resolved(v)
  {
    match v
    case Str(s) => s
    case Unsigned(_, n) => FormatNat(n)
    case Signed(k, i) => if k == Int8 then fmtV(v) else FormatInt(i)
    case Boolean(b) => BoolString(b)
    case _ => fmtV(v)
  }

  /**
   * The integer leaves `stringVal` renders itself read back, through the
   * query-string integer parser, to the number they hold; strings come
   * back verbatim.
   */
  lemma StringValReadsBack(v: Value, fmtV: Value -> string)
    requires v.Str? || v.Unsigned? || (v.Signed? && v.ikind != Int8)
    ensures v.Str? ==> StringVal(v, fmtV) == v.s
    ensures v.Unsigned? ==> StrToInt(StringVal(v, fmtV)) == v.n
    ensures v.Signed? ==> StrToInt(StringVal(v, fmtV)) == v.i
  {
    if v.Unsigned? {
      ParseFormat(v.n);
      assert FormatInt(v.n) == FormatNat(v.n);
    } else if v.Signed? {
      ParseFormat(v.i);
    }
  }

  /** `reflect.Value.MapIndex`: the value stored under `k`, or the zero value when there is none. */
  function MapIndex(es: seq<Entry>, k: string): (r: Value)
    ensures Size(r) <= EntriesSize(es)
    ensures (forall j :: 0 <= j < |es| ==> es[j].key != k) ==> r == Invalid
  {
    if es == [] then Invalid
    else if es[0].key == k then es[0].value
    else MapIndex(es[1..], k)
  }

  function KeysOf(es: seq<Entry>): (ks: seq<string>)
    ensures |ks| == |es|
    ensures forall j :: 0 <= j < |es| ==> ks[j] == es[j].key
  {
    if es == [] then [] else [es[0].key] + KeysOf(es[1..])
  }

  /** The field `i` of a struct's member list, as `FieldByIndex([]int{i})` reads it. */
  function FieldAt(ms: seq<Member>, i: nat): (r: Value)
    requires i < |ms|
    ensures Size(r) <= MembersSize(ms)
    ensures r == ms[i].value
  {
    if i == 0 then ms[0].value else FieldAt(ms[1..], i - 1)
  }

  /** The key scan of `mapKeys.add`, from position `j` on. */
  function Seen(keys: seq<string>, k: string, j: nat): (b: bool)
    requires j <= |keys|
    ensures b <==> k in keys[j..]
    decreases |keys| - j
  {
    if j == |keys| then false
    else keys[j] == k || Seen(keys, k, j + 1)
  }

  /** `mapKeys.add`: appends a key unless one with the same string is already listed. */
  function AddKey(keys: seq<string>, k: string): seq<string> {
    if Seen(keys, k, 0) then keys else keys + [k]
  }

  /** Adds each key of `ks` in turn. */
  function AddKeys(keys: seq<string>, ks: seq<string>): seq<string>
    decreases |ks|
  {
    if ks == [] then keys else AddKeys(AddKey(keys, ks[0]), ks[1..])
  }

  predicate NoDuplicates(ks: seq<string>) {
    forall i, j :: 0 <= i < j < |ks| ==> ks[i] != ks[j]
  }

  /**
   * Adding keys keeps what was listed, in place, never lists a key twice,
   * and ends with exactly the keys of both lists.
   */
  lemma {:induction false} AddKeysUnion(keys: seq<string>, ks: seq<string>)
    requires NoDuplicates(keys)
    ensures NoDuplicates(AddKeys(keys, ks))
    ensures |AddKeys(keys, ks)| >= |keys| && AddKeys(keys, ks)[..|keys|] == keys
    ensures forall k :: k in AddKeys(keys, ks) <==> k in keys || k in ks
    decreases |ks|
  {
    if ks != [] {
      var next := AddKey(keys, ks[0]);
      assert Seen(keys, ks[0], 0) <==> ks[0] in keys by {
        assert keys[0..] == keys;
      }
      AddKeysUnion(next, ks[1..]);
      var r := AddKeys(next, ks[1..]);
      assert r[..|next|] == next;
      assert r[..|keys|] == next[..|keys|];
      forall k ensures k in r <==> k in keys || k in ks {
        assert k in ks <==> k == ks[0] || k in ks[1..];
      }
    }
  }

  /**
   * The keys a map diff visits: the old map's keys in its order, then the
   * new map's keys the old one lacks, each once.
   */
  function DiffKeys(es1: seq<Entry>, es2: seq<Entry>): seq<string> {
    AddKeys(AddKeys([], KeysOf(es1)), KeysOf(es2))
  }

  /** A change path below `field`: the field itself or `field.` followed by more. */
  predicate Extends(path: string, field: string) {
    |path| >= |field| && path[..|field|] == field && (|path| == |field| || path[|field|] == '.')
  }

  lemma ExtendsStep(path: string, field: string, k: string)
    requires Extends(path, field + "." + k)
    ensures Extends(path, field)
  {
    assert path[..|field + "." + k|] == field + "." + k;
    assert path[..|field|] == (field + "." + k)[..|field|];
    assert path[|field|] == (field + "." + k)[|field|];
  }

  /** Every change is a real difference, recorded at a path below `field`. */
  predicate Sound(cs: seq<Change>, field: string) {
    forall i :: 0 <= i < |cs| ==> !Unchanged(cs[i]) && Extends(cs[i].field, field)
  }

  lemma SoundBelow(cs: seq<Change>, field: string, k: string)
    requires Sound(cs, field + "." + k)
    ensures Sound(cs, field)
  {
    forall i | 0 <= i < |cs| ensures Extends(cs[i].field, field) {
      ExtendsStep(cs[i].field, field, k);
    }
  }

  /**
   * `decoder.diff(v1, v2, field)`: the changes between an old and a new
   * value, `None` where the source panics (an old map against a new
   * non-map, an old struct against a new value without the field).
   * Containers recurse and record nothing themselves; leaves record one
   * change when their string forms differ.
   */
  function Diff(v1: Value, v2: Value, field: string, fmtV: Value -> string): (r: Option<seq<Change>>)
    ensures r.Some? ==> Sound(r.value, field)
    ensures GetElement(v1).MapVal? && !GetElement(v2).MapVal? ==> r.None?
    ensures GetElement(v1).StructVal? && Unmatched(GetElement(v1).members, GetElement(v2), 0) ==> r.None?
    decreases Size(v1) + Size(v2), 0, 0
  {
    var a := GetElement(v1);
    var b := GetElement(v2);
    if a.MapVal? then
      if !b.MapVal? then None
      else DiffEntries(a.entries, b.entries, DiffKeys(a.entries, b.entries), field, fmtV)
    else if a.StructVal? then
      DiffMembers(a.members, b, 0, field, fmtV)
    else
      var c := Change(field, StringVal(a, fmtV), StringVal(b, fmtV));
      Some(if Unchanged(c) then [] else [c])
  }

  /** The map branch of `diff`: each listed key in turn, under `field.key`. */
  function DiffEntries(es1: seq<Entry>, es2: seq<Entry>, keys: seq<string>,
                       field: string, fmtV: Value -> string): (r: Option<seq<Change>>)
    ensures r.Some? ==> Sound(r.value, field)
    decreases EntriesSize(es1) + EntriesSize(es2), 1, |keys|
  {
    if keys == [] then Some([])
    else
      match Diff(MapIndex(es1, keys[0]), MapIndex(es2, keys[0]), field + "." + keys[0], fmtV)
      case None => None
      case Some(head) =>
        SoundBelow(head, field, keys[0]);
        match DiffEntries(es1, es2, keys[1..], field, fmtV)
        case None => None
        case Some(tail) => Some(head + tail)
  }

  /**
   * The struct branch of `diff` from field `i` on (`ms` is the old
   * struct's members from `i`): unexported fields that are not embedded
   * are skipped, the others are compared with the new value's field of
   * the same index under `field.Name`.
   */
  function DiffMembers(ms: seq<Member>, b: Value, i: nat, field: string, fmtV: Value -> string): (r: Option<seq<Change>>)
    ensures r.Some? ==> Sound(r.value, field)
    ensures Unmatched(ms, b, i) ==> r.None?
    decreases MembersSize(ms) + Size(b), 1, |ms|
  {
    if ms == [] then Some([])
    else if !ms[0].exported && !ms[0].embedded then
      NoCounterpartTail(ms, b, i);
      DiffMembers(ms[1..], b, i + 1, field, fmtV)
    else if !b.StructVal? || i >= |b.members| then None
    else
      NoCounterpartTail(ms, b, i);
      match Diff(ms[0].value, FieldAt(b.members, i), field + "." + ms[0].name, fmtV)
      case None => None
      case Some(head) =>
        SoundBelow(head, field, ms[0].name);
        match DiffMembers(ms[1..], b, i + 1, field, fmtV)
        case None => None
        case Some(tail) => Some(head + tail)
  }

  /** Listing keys that are all new and distinct simply appends them. */
  lemma {:induction false} AddKeysFresh(keys: seq<string>, ks: seq<string>)
    requires NoDuplicates(keys + ks)
    ensures AddKeys(keys, ks) == keys + ks
    decreases |ks|
  {
    if ks != [] {
      assert (keys + ks)[|keys|] == ks[0];
      forall j | 0 <= j < |keys| ensures keys[j] != ks[0] {
        assert (keys + ks)[j] == keys[j];
      }
      assert !Seen(keys, ks[0], 0) by {
        assert keys[0..] == keys;
      }
      assert keys + [ks[0]] + ks[1..] == keys + ks;
      AddKeysFresh(keys + [ks[0]], ks[1..]);
    }
  }

  /**
   * A map diff visits the union of both maps' keys once each: the old
   * map's keys first, in its order, then the keys only the new map has.
   */
  lemma MapDiffVisits(es1: seq<Entry>, es2: seq<Entry>)
    requires NoDuplicates(KeysOf(es1))
    ensures NoDuplicates(DiffKeys(es1, es2))
    ensures |DiffKeys(es1, es2)| >= |es1| && DiffKeys(es1, es2)[..|es1|] == KeysOf(es1)
    ensures forall k :: k in DiffKeys(es1, es2) <==> k in KeysOf(es1) || k in KeysOf(es2)
  {
    assert [] + KeysOf(es1) == KeysOf(es1);
    AddKeysFresh([], KeysOf(es1));
    AddKeysUnion(KeysOf(es1), KeysOf(es2));
  }

  /** A key one side lacks is compared as the empty string on that side. */
  lemma MissingKeyReadsEmpty(es: seq<Entry>, k: string)
    requires k !in KeysOf(es)
    ensures GetElement(MapIndex(es, k)) == Str("")
  {
    assert forall j :: 0 <= j < |es| ==> es[j].key != k by {
      forall j | 0 <= j < |es| ensures es[j].key != k {
        assert KeysOf(es)[j] == es[j].key;
      }
    }
  }

  /**
   * Two leaves give one change exactly when their string forms differ,
   * recorded under `field` itself.
   */
  lemma DiffLeaves(v1: Value, v2: Value, field: string, fmtV: Value -> string)
    requires !GetElement(v1).MapVal? && !GetElement(v1).StructVal?
    ensures Diff(v1, v2, field, fmtV).Some?
    ensures var s1 := StringVal(GetElement(v1), fmtV);
            var s2 := StringVal(GetElement(v2), fmtV);
            Diff(v1, v2, field, fmtV).value == (if s1 == s2 then [] else [Change(field, s1, s2)])
  {
  }

  const NoChanges: seq<Change> := []

  /** A value compared with itself yields no change and never panics. */
  lemma {:induction false} DiffSelf(v: Value, field: string, fmtV: Value -> string)
    ensures Diff(v, v, field, fmtV) == Some([])
    decreases Size(v), 0, 0
  {
    var a := GetElement(v);
    if a.MapVal? {
      DiffEntriesSelf(a.entries, DiffKeys(a.entries, a.entries), field, fmtV);
    } else if a.StructVal? {
      assert a.members[0..] == a.members;
      DiffMembersAgree(a.members, a.members, 0, field, fmtV);
    }
  }

  lemma {:induction false} DiffEntriesSelf(es: seq<Entry>, keys: seq<string>, field: string, fmtV: Value -> string)
    ensures DiffEntries(es, es, keys, field, fmtV) == Some([])
    decreases EntriesSize(es), 1, |keys|
  {
    if keys != [] {
      DiffSelf(MapIndex(es, keys[0]), field + "." + keys[0], fmtV);
      DiffEntriesSelf(es, keys[1..], field, fmtV);
      assert DiffEntries(es, es, keys, field, fmtV) == Some(NoChanges + NoChanges);
      assert NoChanges + NoChanges == NoChanges;
    }
  }

  /** A struct field `diff` never looks at: unexported and not embedded. */
  predicate Hidden(m: Member) {
    !m.exported && !m.embedded
  }

  /**
   * Member `j` of `ms`, field `i + j` of the old struct, is one `diff`
   * reads, and the new value has no field at that index, so
   * `FieldByIndex` panics.
   */
  predicate NoCounterpart(ms: seq<Member>, b: Value, i: nat, j: nat) {
    j < |ms| && !Hidden(ms[j]) && (!b.StructVal? || i + j >= |b.members|)
  }

  /** Some member of `ms` that `diff` reads has no counterpart in `b`. */
  predicate Unmatched(ms: seq<Member>, b: Value, i: nat) {
    exists j :: 0 <= j < |ms| && NoCounterpart(ms, b, i, j)
  }

  /** A missing counterpart past the first member is one of the rest. */
  lemma NoCounterpartTail(ms: seq<Member>, b: Value, i: nat)
    requires ms != []
    requires Hidden(ms[0]) || (b.StructVal? && i < |b.members|)
    ensures Unmatched(ms, b, i) ==> Unmatched(ms[1..], b, i + 1)
  {
    if Unmatched(ms, b, i) {
      var j: nat :| j < |ms| && NoCounterpart(ms, b, i, j);
      assert j > 0;
      assert ms[1..][j - 1] == ms[j];
      assert NoCounterpart(ms[1..], b, i + 1, j - 1);
    }
  }

  /** Two member lists that agree on every field `diff` looks at. */
  predicate AgreeVisible(ms1: seq<Member>, ms2: seq<Member>) {
    |ms1| == |ms2| && forall j :: 0 <= j < |ms1| ==> Hidden(ms1[j]) || ms1[j].value == ms2[j].value
  }

  lemma {:induction false} DiffMembersAgree(all1: seq<Member>, all2: seq<Member>, i: nat, field: string, fmtV: Value -> string)
    requires i <= |all1| && AgreeVisible(all1, all2)
    ensures DiffMembers(all1[i..], StructVal(all2), i, field, fmtV) == Some([])
    decreases MembersSize(all1), 1, |all1| - i
  {
    if i < |all1| {
      var ms := all1[i..];
      assert ms[0] == all1[i] && ms[1..] == all1[i + 1..];
      if !Hidden(ms[0]) {
        assert Size(FieldAt(all1, i)) <= MembersSize(all1);
        assert FieldAt(all2, i) == FieldAt(all1, i);
        DiffSelf(FieldAt(all1, i), field + "." + all1[i].name, fmtV);
        DiffMembersAgree(all1, all2, i + 1, field, fmtV);
        assert DiffMembers(ms, StructVal(all2), i, field, fmtV) == Some(NoChanges + NoChanges);
        assert NoChanges + NoChanges == NoChanges;
      } else {
        DiffMembersAgree(all1, all2, i + 1, field, fmtV);
      }
    }
  }

  /**
   * Structs that differ only in unexported, non-embedded fields give no
   * change: `diff` skips those fields.
   */
  lemma DiffSkipsHidden(ms1: seq<Member>, ms2: seq<Member>, field: string, fmtV: Value -> string)
    requires AgreeVisible(ms1, ms2)
    ensures Diff(StructVal(ms1), StructVal(ms2), field, fmtV) == Some([])
  {
    assert ms1[0..] == ms1;
    DiffMembersAgree(ms1, ms2, 0, field, fmtV);
  }
}
