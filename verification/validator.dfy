/**
 * validator.go: a `Validator` accumulates invalid-attribute errors from
 * presence, length and range checks, and `Verify` hands them back when
 * there are any. A validator is its error set; each check returns the
 * set it leaves behind.
 */
module Validator {
  import opened Wrappers
  import opened Decimal
  import opened Errors

  /** An error a check reports about the field at `pointer`. */
  predicate AboutField(e: Error, pointer: string) {
    e.status == "422" && e.title == "Invalid Attribute" && e.source == Some(ErrorSource(pointer))
  }

  /** `r` is `v` with errors about the field at `pointer` appended, earlier errors untouched and in order. */
  predicate Appended(v: ErrorSet, r: ErrorSet, pointer: string) {
    |v| <= |r| && r[..|v|] == v && forall i :: |v| <= i < |r| ==> AboutField(r[i], pointer)
  }

  /** The error a failed bound check adds: `what` with the bound written right after it, as `fmt.Sprint` joins a string and a number. */
  function BoundError(pointer: string, what: string, bound: int): Error {
    InvalidAttribute(pointer, what + FormatInt(bound))
  }

  /** `Present`: a blank value adds one error saying so. */
  function Present(v: ErrorSet, value: string, pointer: string): (r: ErrorSet)
    ensures Appended(v, r, pointer)
    ensures |r| == |v| + (if value == "" then 1 else 0)
    ensures value == "" ==> r[|v|].detail == pointer + " can't be blank"
  {
    if value == "" then v + [InvalidAttribute(pointer, pointer + " can't be blank")] else v
  }

  /**
   * The bound checks shared by `StringLength`, `Int`, `Int64` and
   * `Uint64`: a bound of zero or less is not checked; a value below the
   * minimum adds the minimum error, then a value above the maximum adds
   * the maximum error.
   */
  function Bounds(v: ErrorSet, value: int, pointer: string, min: int, max: int, minText: string, maxText: string): (r: ErrorSet)
    ensures Appended(v, r, pointer)
    ensures |r| == |v| + (if min > 0 && value < min then 1 else 0) + (if max > 0 && value > max then 1 else 0)
    ensures min > 0 && value < min ==> r[|v|] == BoundError(pointer, minText, min)
    ensures max > 0 && value > max ==> r[|r| - 1] == BoundError(pointer, maxText, max)
  {
    var low := if min > 0 && value < min then [BoundError(pointer, minText, min)] else [];
    var high := if max > 0 && value > max then [BoundError(pointer, maxText, max)] else [];
    assert (v + low + high)[..|v|] == v;
    v + low + high
  }

  /** `StringLength`: the bounds applied to the number of characters (runes) of the value. */
  function StringLength(v: ErrorSet, value: string, pointer: string, min: int, max: int): (r: ErrorSet)
    ensures Appended(v, r, pointer)
    ensures |r| == |v| <==> (min <= 0 || |value| >= min) && (max <= 0 || |value| <= max)
  {
    Bounds(v, |value|, pointer, min, max, "min length is", "max length is")
  }

  /** `Int`: the bounds applied to a value. */
  function Int(v: ErrorSet, value: int, pointer: string, min: int, max: int): (r: ErrorSet)
    ensures Appended(v, r, pointer)
    ensures |r| == |v| <==> (min <= 0 || value >= min) && (max <= 0 || value <= max)
  {
    Bounds(v, value, pointer, min, max, "min value is", "max value is")
  }

  /** `Int64`: the same checks on a 64-bit value; nothing is computed, so the width does not matter. */
  function Int64(v: ErrorSet, value: int, pointer: string, min: int, max: int): (r: ErrorSet)
    requires -0x8000_0000_0000_0000 <= value < 0x8000_0000_0000_0000
    ensures Appended(v, r, pointer)
    ensures |r| == |v| <==> (min <= 0 || value >= min) && (max <= 0 || value <= max)
  {
    Bounds(v, value, pointer, min, max, "min value is", "max value is")
  }

  /**
   * `Uint64`: an unsigned value against signed bounds; a positive bound
   * converts to the same unsigned number, so the comparison is exact.
   */
  function Uint64(v: ErrorSet, value: nat, pointer: string, min: int, max: int): (r: ErrorSet)
    requires value < 0x1_0000_0000_0000_0000
    ensures Appended(v, r, pointer)
    ensures |r| == |v| <==> (min <= 0 || value >= min) && (max <= 0 || value <= max)
  {
    Bounds(v, value, pointer, min, max, "min value is", "max value is")
  }

  /** `Verify`: nothing when no check failed, otherwise the error set. */
  function Verify(v: ErrorSet): (r: Option<ErrorSet>)
    ensures r.None? <==> !HasErrors(v)
    ensures r.Some? ==> r.value == v
  {
    if HasErrors(v) then Some(v) else None
  }

  /** Checks made one after another keep every earlier error, in order. */
  lemma AppendedTrans(a: ErrorSet, b: ErrorSet, c: ErrorSet, p: string, p': string)
    requires Appended(a, b, p) && Appended(b, c, p')
    ensures |a| <= |c| && c[..|a|] == a
  {
    assert c[..|a|] == c[..|b|][..|a|];
  }

  /**
   * Within bounds that leave room for a value (0 < min <= max), a length
   * check adds at most one error: no length is both too short and too long.
   */
  lemma StringLengthAtMostOne(v: ErrorSet, value: string, pointer: string, min: int, max: int)
    requires 0 < min <= max
    ensures |StringLength(v, value, pointer, min, max)| <= |v| + 1
  {
  }

  /**
   * A request whose validation fails answers 422: starting from no errors,
   * a failed presence check makes `Verify` report a set whose status code
   * is 422 whatever the later checks add.
   */
  lemma {:induction false} FailedValidationIs422(value: string, pointer: string, later: ErrorSet)
    requires value == ""
    ensures Verify(Present([], value, pointer) + later).Some?
    ensures StatusCode(Verify(Present([], value, pointer) + later).value) == 422
  {
    var v := Present([], value, pointer);
    ConstructorStatusCodes(later, pointer, pointer + " can't be blank");
    assert v == [InvalidAttribute(pointer, pointer + " can't be blank")];
  }

  /** The error of a failed length check names the bound, in decimal, right after the text. */
  lemma ExampleStringLength()
    ensures StringLength([], "abc", "password", 6, 18) == [InvalidAttribute("password", "min length is6")]
  {
    assert FormatInt(6) == "6";
    assert "min length is" + "6" == "min length is6";
    var e := BoundError("password", "min length is", 6);
    assert e == InvalidAttribute("password", "min length is6");
    assert StringLength([], "abc", "password", 6, 18) == [] + [e] + [];
  }
}
