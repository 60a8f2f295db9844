/**
 * The CamelCase-to-separated transform shared by `stringTransform`
 * (jsonapi.go) and `columnName` (postgres.go), and the wire-name whitelist
 * `validKey` (jsonapi.go).
 */
module Naming {
  import opened Text

  /**
   * The loop's one-byte state: `Low` after a character that is not upper
   * case, `Up1` after an upper-case character that starts a run, `UpRun`
   * after an upper-case character that continues a run.
   */
  datatype Mode = Low | Up1 | UpRun

  /**
   * One pass of the shared loop from position `i` on. `pending` is the
   * character read at `i - 1`, already lower-cased, which is written only
   * once the character after it has been seen; the final one is flushed at
   * the end. Position counts characters, which equals Go's byte index on
   * ASCII input.
   */
  function Walk(s: string, sep: string, i: nat, mode: Mode, pending: char): string
    requires i <= |s|
    decreases |s| - i
  {
    if i == |s| then [pending]
    else
      var v := s[i];
      var emitSep := (i > 1 && mode == Up1) || (mode == UpRun && IsLower(v));
      var out := (if emitSep then sep else "") + (if i > 0 then [pending] else "");
      var mode' := if IsUpper(v) then (if mode == Low then Up1 else UpRun) else Low;
      out + Walk(s, sep, i + 1, mode', Lower(v))
  }

  /**
   * Where a separator goes, stated directly: before character `k` when `k`
   * is neither the first nor the last character, `s[k]` is upper case, and
   * it starts a capital run or is the last capital of a run followed by a
   * lower-case letter (`HTTPServer` splits before `S`, `UserID` before `I`).
   */
  predicate SepBefore(s: string, k: int) {
    1 <= k <= |s| - 2 && IsUpper(s[k]) && (!IsUpper(s[k - 1]) || IsLower(s[k + 1]))
  }

  /** The reference output from position `k` on: for each character, maybe a separator, then the character lower-cased. */
  function Separated(s: string, sep: string, k: nat): string
    requires k <= |s|
    decreases |s| - k
  {
    if k == |s| then ""
    else (if SepBefore(s, k) then sep else "") + [Lower(s[k])] + Separated(s, sep, k + 1)
  }

  /** The loop state after reading `s[..i]`, with `i >= 1`. */
  predicate StateAfter(s: string, i: nat, mode: Mode, pending: char)
    requires 1 <= i <= |s|
  {
    && pending == Lower(s[i - 1])
    && (mode == Low <==> !IsUpper(s[i - 1]))
    && (mode == Up1 <==> IsUpper(s[i - 1]) && (i == 1 || !IsUpper(s[i - 2])))
    && (mode == UpRun <==> IsUpper(s[i - 1]) && i >= 2 && IsUpper(s[i - 2]))
  }

  lemma {:induction false} WalkSeparates(s: string, sep: string, i: nat, mode: Mode, pending: char)
    requires 1 <= i <= |s|
    requires StateAfter(s, i, mode, pending)
    ensures Walk(s, sep, i, mode, pending) == Separated(s, sep, i - 1)
    decreases |s| - i
  {
    if i < |s| {
      var v := s[i];
      var mode' := if IsUpper(v) then (if mode == Low then Up1 else UpRun) else Low;
      WalkSeparates(s, sep, i + 1, mode', Lower(v));
      var emitSep := (i > 1 && mode == Up1) || (mode == UpRun && IsLower(v));
      assert emitSep <==> SepBefore(s, i - 1);
      assert Walk(s, sep, i, mode, pending)
          == (if emitSep then sep else "") + [pending] + Walk(s, sep, i + 1, mode', Lower(v));
    } else {
      assert !SepBefore(s, i - 1);
    }
  }

  /** `stringTransform` (jsonapi.go): CamelCase to lower case with `sep` at word boundaries. */
  function StringTransform(s: string, sep: string): (r: string)
    ensures s == "" ==> r == ""
    ensures s != "" ==> r == Separated(s, sep, 0)
  {
    if s == "" then ""
    else
      var r := Walk(s, sep, 0, Low, 0 as char);
      assert r == Walk(s, sep, 1, if IsUpper(s[0]) then Up1 else Low, Lower(s[0]));
      WalkSeparates(s, sep, 1, if IsUpper(s[0]) then Up1 else Low, Lower(s[0]));
      r
  }

  /**
   * `columnName` (postgres.go): the same loop with `_`, but with no guard for
   * the empty string, so the zero rune that `pending` starts as is flushed.
   */
  function ColumnName(s: string): (r: string)
    ensures s == "" ==> r == [0 as char]
    ensures s != "" ==> r == StringTransform(s, "_")
  {
    Walk(s, "_", 0, Low, 0 as char)
  }

  lemma {:induction false} SeparatedNoUpper(s: string, sep: string, k: nat)
    requires k <= |s|
    requires forall j :: 0 <= j < |sep| ==> !IsUpper(sep[j])
    ensures forall j :: 0 <= j < |Separated(s, sep, k)| ==> !IsUpper(Separated(s, sep, k)[j])
    decreases |s| - k
  {
    if k < |s| {
      SeparatedNoUpper(s, sep, k + 1);
    }
  }

  lemma {:induction false} SeparatedRemove(s: string, c: char, k: nat)
    requires k <= |s|
    requires !IsLetter(c) && c !in s
    ensures Remove(Separated(s, [c], k), c) == LowerString(s[k..])
    decreases |s| - k
  {
    if k < |s| {
      SeparatedRemove(s, c, k + 1);
      var head := (if SepBefore(s, k) then [c] else "") + [Lower(s[k])];
      RemoveAppend(head, Separated(s, [c], k + 1), c);
      assert Lower(s[k]) != c by { assert s[k] != c; }
      if SepBefore(s, k) {
        RemoveAppend([c], [Lower(s[k])], c);
      }
      assert Remove(head, c) == [Lower(s[k])];
      assert s[k..] == [s[k]] + s[k + 1..];
    }
  }

  /**
   * On ASCII input, the transform contains no upper-case letter, and deleting
   * the separator gives back the input lower-cased: the transform only
   * lower-cases and inserts separators.
   */
  lemma TransformShape(s: string, c: char)
    requires IsAscii(s) && !IsLetter(c) && c !in s
    ensures forall j :: 0 <= j < |StringTransform(s, [c])| ==> !IsUpper(StringTransform(s, [c])[j])
    ensures Remove(StringTransform(s, [c]), c) == LowerString(s)
  {
    if s != "" {
      SeparatedNoUpper(s, [c], 0);
      SeparatedRemove(s, c, 0);
      assert s[0..] == s;
    }
  }

  /** The column-name cases of postgres_test.go, and the separator rule's edge cases. */

  // Worked cases of the transform: the column-name table of postgres_test.go
  // and the separator rule's edge cases, each followed through the loop one
  // character at a time from the end.

  lemma ColumnNameId(s: string)
    requires s == "Id"
    ensures ColumnName(s) == "id"
  {
    assert Walk(s, "_", 2, Low, 'd') == "d";
    assert Walk(s, "_", 1, Up1, 'i') == "id";
    assert Walk(s, "_", 0, Low, 0 as char) == "id";
  }

  lemma ColumnNameIDUpper(s: string)
    requires s == "ID"
    ensures ColumnName(s) == "id"
  {
    assert Walk(s, "_", 2, UpRun, 'd') == "d";
    assert Walk(s, "_", 1, Up1, 'i') == "id";
    assert Walk(s, "_", 0, Low, 0 as char) == "id";
  }

  lemma ColumnNameName(s: string)
    requires s == "Name"
    ensures ColumnName(s) == "name"
  {
    assert Walk(s, "_", 4, Low, 'e') == "e";
    assert Walk(s, "_", 3, Low, 'm') == "me";
    assert Walk(s, "_", 2, Low, 'a') == "ame";
    assert Walk(s, "_", 1, Up1, 'n') == "name";
    assert Walk(s, "_", 0, Low, 0 as char) == "name";
  }

  lemma ColumnNameNameId(s: string)
    requires s == "NameId"
    ensures ColumnName(s) == "name_id"
  {
    assert Walk(s, "_", 6, Low, 'd') == "d";
    assert Walk(s, "_", 5, Up1, 'i') == "_id";
    assert Walk(s, "_", 4, Low, 'e') == "e_id";
    assert Walk(s, "_", 3, Low, 'm') == "me_id";
    assert Walk(s, "_", 2, Low, 'a') == "ame_id";
    assert Walk(s, "_", 1, Up1, 'n') == "name_id";
    assert Walk(s, "_", 0, Low, 0 as char) == "name_id";
  }

  lemma ColumnNameNameID(s: string)
    requires s == "NameID"
    ensures ColumnName(s) == "name_id"
  {
    assert Walk(s, "_", 6, UpRun, 'd') == "d";
    assert Walk(s, "_", 5, Up1, 'i') == "_id";
    assert Walk(s, "_", 4, Low, 'e') == "e_id";
    assert Walk(s, "_", 3, Low, 'm') == "me_id";
    assert Walk(s, "_", 2, Low, 'a') == "ame_id";
    assert Walk(s, "_", 1, Up1, 'n') == "name_id";
    assert Walk(s, "_", 0, Low, 0 as char) == "name_id";
  }

  lemma ColumnNameJson(s: string)
    requires s == "JSON"
    ensures ColumnName(s) == "json"
  {
    assert Walk(s, "_", 4, UpRun, 'n') == "n";
    assert Walk(s, "_", 3, UpRun, 'o') == "on";
    assert Walk(s, "_", 2, UpRun, 's') == "son";
    assert Walk(s, "_", 1, Up1, 'j') == "json";
    assert Walk(s, "_", 0, Low, 0 as char) == "json";
  }

  lemma ColumnNameSomeJsonPart0(s: string)
    requires s == "SomeJSON"
    ensures Walk(s, "_", 2, Low, 'o') == "ome_json"
  {
    assert Walk(s, "_", 8, UpRun, 'n') == "n";
    assert Walk(s, "_", 7, UpRun, 'o') == "on";
    assert Walk(s, "_", 6, UpRun, 's') == "son";
    assert Walk(s, "_", 5, Up1, 'j') == "_json";
    assert Walk(s, "_", 4, Low, 'e') == "e_json";
    assert Walk(s, "_", 3, Low, 'm') == "me_json";
  }

  lemma ColumnNameSomeJson(s: string)
    requires s == "SomeJSON"
    ensures ColumnName(s) == "some_json"
  {
    ColumnNameSomeJsonPart0(s);
    assert Walk(s, "_", 1, Up1, 's') == "some_json";
    assert Walk(s, "_", 0, Low, 0 as char) == "some_json";
  }

  lemma ColumnNameCamelCasePart0(s: string)
    requires s == "CamelCase"
    ensures Walk(s, "_", 3, Low, 'm') == "mel_case"
  {
    assert Walk(s, "_", 9, Low, 'e') == "e";
    assert Walk(s, "_", 8, Low, 's') == "se";
    assert Walk(s, "_", 7, Low, 'a') == "ase";
    assert Walk(s, "_", 6, Up1, 'c') == "_case";
    assert Walk(s, "_", 5, Low, 'l') == "l_case";
    assert Walk(s, "_", 4, Low, 'e') == "el_case";
  }

  lemma ColumnNameCamelCase(s: string)
    requires s == "CamelCase"
    ensures ColumnName(s) == "camel_case"
  {
    ColumnNameCamelCasePart0(s);
    assert Walk(s, "_", 2, Low, 'a') == "amel_case";
    assert Walk(s, "_", 1, Up1, 'c') == "camel_case";
    assert Walk(s, "_", 0, Low, 0 as char) == "camel_case";
  }

  lemma ColumnNameDigitsPart0(s: string)
    requires s == "Some123Number"
    ensures Walk(s, "_", 10, Low, 'm') == "mber"
  {
    assert Walk(s, "_", 13, Low, 'r') == "r";
    assert Walk(s, "_", 12, Low, 'e') == "er";
    assert Walk(s, "_", 11, Low, 'b') == "ber";
  }

  lemma ColumnNameDigitsPart1(s: string)
    requires s == "Some123Number"
    ensures Walk(s, "_", 6, Low, '2') == "23_number"
  {
    ColumnNameDigitsPart0(s);
    assert Walk(s, "_", 9, Low, 'u') == "umber";
    assert Walk(s, "_", 8, Up1, 'n') == "_number";
    assert Walk(s, "_", 7, Low, '3') == "3_number";
  }

  lemma ColumnNameDigitsPart2(s: string)
    requires s == "Some123Number"
    ensures Walk(s, "_", 2, Low, 'o') == "ome123_number"
  {
    ColumnNameDigitsPart1(s);
    assert Walk(s, "_", 5, Low, '1') == "123_number";
    assert Walk(s, "_", 4, Low, 'e') == "e123_number";
    assert Walk(s, "_", 3, Low, 'm') == "me123_number";
  }

  lemma ColumnNameDigits(s: string)
    requires s == "Some123Number"
    ensures ColumnName(s) == "some123_number"
  {
    ColumnNameDigitsPart2(s);
    assert Walk(s, "_", 1, Up1, 's') == "some123_number";
    assert Walk(s, "_", 0, Low, 0 as char) == "some123_number";
  }

  lemma TransformAcronymRunPart0(s: string)
    requires s == "HTTPServer"
    ensures Walk(s, "-", 4, UpRun, 'p') == "p-server"
  {
    assert Walk(s, "-", 10, Low, 'r') == "r";
    assert Walk(s, "-", 9, Low, 'e') == "er";
    assert Walk(s, "-", 8, Low, 'v') == "ver";
    assert Walk(s, "-", 7, Low, 'r') == "rver";
    assert Walk(s, "-", 6, Low, 'e') == "erver";
    assert Walk(s, "-", 5, UpRun, 's') == "-server";
  }

  lemma TransformAcronymRun(s: string)
    requires s == "HTTPServer"
    ensures StringTransform(s, "-") == "http-server"
  {
    TransformAcronymRunPart0(s);
    assert Walk(s, "-", 3, UpRun, 't') == "tp-server";
    assert Walk(s, "-", 2, UpRun, 't') == "ttp-server";
    assert Walk(s, "-", 1, Up1, 'h') == "http-server";
    assert Walk(s, "-", 0, Low, 0 as char) == "http-server";
  }

  lemma TransformTrailingAcronym(s: string)
    requires s == "UserID"
    ensures StringTransform(s, "-") == "user-id"
  {
    assert Walk(s, "-", 6, UpRun, 'd') == "d";
    assert Walk(s, "-", 5, Up1, 'i') == "-id";
    assert Walk(s, "-", 4, Low, 'r') == "r-id";
    assert Walk(s, "-", 3, Low, 'e') == "er-id";
    assert Walk(s, "-", 2, Low, 's') == "ser-id";
    assert Walk(s, "-", 1, Up1, 'u') == "user-id";
    assert Walk(s, "-", 0, Low, 0 as char) == "user-id";
  }

  lemma TransformLastCapital(s: string)
    requires s == "aB"
    ensures StringTransform(s, "-") == "ab"
  {
    assert Walk(s, "-", 2, Up1, 'b') == "b";
    assert Walk(s, "-", 1, Low, 'a') == "ab";
    assert Walk(s, "-", 0, Low, 0 as char) == "ab";
  }

  /** The column-name table of postgres_test.go (all but its 24-character entry) and the edge cases `HTTPServer`, `UserID` and `aB`. */
  lemma TransformExamples()
    ensures ColumnName("Id") == "id" && ColumnName("ID") == "id" && ColumnName("Name") == "name"
    ensures ColumnName("NameId") == "name_id" && ColumnName("NameID") == "name_id"
    ensures ColumnName("JSON") == "json" && ColumnName("SomeJSON") == "some_json"
    ensures ColumnName("CamelCase") == "camel_case" && ColumnName("Some123Number") == "some123_number"
    ensures StringTransform("HTTPServer", "-") == "http-server"
    ensures StringTransform("UserID", "-") == "user-id" && StringTransform("aB", "-") == "ab"
  {
    ColumnNameId("Id");
    ColumnNameIDUpper("ID");
    ColumnNameName("Name");
    ColumnNameNameId("NameId");
    ColumnNameNameID("NameID");
    ColumnNameJson("JSON");
    ColumnNameSomeJson("SomeJSON");
    ColumnNameCamelCase("CamelCase");
    ColumnNameDigits("Some123Number");
    TransformAcronymRun("HTTPServer");
    TransformTrailingAcronym("UserID");
    TransformLastCapital("aB");
  }

  /** The characters `validKey` accepts besides letters and digits. */
  const KeyPunctuation: string := "!#$%&()*+-./:<=>?@[]^_{|}~ "

  predicate KeyChar(c: char) {
    c in KeyPunctuation || IsLetter(c) || IsDigit(c)
  }

  /** The scan of `validKey` from position `i`: false at the first character outside the whitelist. */
  function ScanKey(s: string, i: nat): (ok: bool)
    requires i <= |s|
    ensures ok <==> forall j :: i <= j < |s| ==> KeyChar(s[j])
    decreases |s| - i
  {
    if i == |s| then true
    else if s[i] in KeyPunctuation then ScanKey(s, i + 1)
    else if !IsLetter(s[i]) && !IsDigit(s[i]) then false
    else ScanKey(s, i + 1)
  }

  /** `validKey` (jsonapi.go): a non-empty string of letters, digits and whitelisted punctuation. */
  function ValidKey(s: string): (ok: bool)
    ensures ok <==> s != "" && forall j :: 0 <= j < |s| ==> KeyChar(s[j])
  {
    if s == "" then false else ScanKey(s, 0)
  }

  lemma KeyCharNotQuoting(c: char)
    requires KeyChar(c)
    ensures c != '"' && c != '\'' && c != '\\' && c != ','
  {
    if c in KeyPunctuation {
      var k :| 0 <= k < |KeyPunctuation| && KeyPunctuation[k] == c;
      assert KeyPunctuation[k] != '"' && KeyPunctuation[k] != '\'';
      assert KeyPunctuation[k] != '\\' && KeyPunctuation[k] != ',';
    }
  }

  /** The JSON-significant characters `"`, `'`, `\` and `,` can never occur in a valid key. */
  lemma ValidKeyRejectsQuoting(s: string)
    requires ValidKey(s)
    ensures '"' !in s && '\'' !in s && '\\' !in s && ',' !in s
  {
    forall j | 0 <= j < |s|
      ensures s[j] != '"' && s[j] != '\'' && s[j] != '\\' && s[j] != ','
    {
      KeyCharNotQuoting(s[j]);
    }
  }
}
