/**
 * The API error values of errors.go: `Error` with its constructors, the
 * error message (`Error.Error()`), and the error set with its status code
 * (`Errors.StatusCode`, jsonapi.go).
 */
module Errors {
  import opened Wrappers
  import opened Decimal

  datatype ErrorSource = ErrorSource(pointer: string)

  /** One JSON:API error object; a nil `Source` is `None`. */
  datatype Error = Error(code: string, status: string, source: Option<ErrorSource>, title: string, detail: string)

  /**
   * The error set. errors.go declares `type Errors []Errors`, a slice of
   * itself; every use (`r.Errors[0].Status`, `AddError(Error)`) treats it as
   * a slice of `Error`, which is what is modelled.
   */
  type ErrorSet = seq<Error>

  function RecordNotFound(): Error {
    Error("", "404", None, "Record Not Found", "The record you are looking for does not exist")
  }

  function PageNotFound(): Error {
    Error("", "404", None, "Page Not Found", "The page you are looking for does not exist")
  }

  function Internal(details: string): Error {
    Error("", "500", None, "Internal Server Error", details)
  }

  function InvalidAttribute(pointer: string, details: string): Error {
    Error("", "422", Some(ErrorSource(pointer)), "Invalid Attribute", details)
  }

  function Inprocessible(details: string): Error {
    Error("", "400", None, "Inprocessible Entry", details)
  }

  function Unauthorized(): Error {
    Error("", "401", None, "Unauthorized Request", "You are forbidden from accessing this page")
  }

  /** `Error.Error()`: the message of an error value is its detail. */
  function Message(e: Error): string {
    e.detail
  }

  predicate HasErrors(errs: ErrorSet) {
    |errs| > 0
  }

  /** `Errors.StatusCode`: the first error's status read as a number, or 200 for an empty set. */
  function StatusCode(errs: ErrorSet): (code: int)
    ensures !HasErrors(errs) ==> code == 200
    ensures HasErrors(errs) ==> code == StrToInt(errs[0].status)
  {
    if HasErrors(errs) then StrToInt(errs[0].status) else 200
  }

  /**
   * Each constructor's status is an HTTP code that the status-code function
   * reads back when that error comes first in a set.
   */
  lemma ConstructorStatusCodes(rest: ErrorSet, p: string, d: string)
    ensures StatusCode([RecordNotFound()] + rest) == 404
    ensures StatusCode([PageNotFound()] + rest) == 404
    ensures StatusCode([Internal(d)] + rest) == 500
    ensures StatusCode([InvalidAttribute(p, d)] + rest) == 422
    ensures StatusCode([Inprocessible(d)] + rest) == 400
    ensures StatusCode([Unauthorized()] + rest) == 401
  {
    assert StatusCode([RecordNotFound()] + rest) == 404 by {
      StatusRead(RecordNotFound(), rest);
    }
    assert StatusCode([PageNotFound()] + rest) == 404 by {
      StatusRead(PageNotFound(), rest);
    }
    assert StatusCode([Internal(d)] + rest) == 500 by {
      StatusRead(Internal(d), rest);
    }
    assert StatusCode([InvalidAttribute(p, d)] + rest) == 422 by {
      StatusRead(InvalidAttribute(p, d), rest);
    }
    assert StatusCode([Inprocessible(d)] + rest) == 400 by {
      StatusRead(Inprocessible(d), rest);
    }
    assert StatusCode([Unauthorized()] + rest) == 401 by {
      StatusRead(Unauthorized(), rest);
    }
  }

  /** A set whose first error carries a three-digit status has that number as its status code. */
  lemma StatusRead(e: Error, rest: ErrorSet)
    requires |e.status| == 3 && AllDigits(e.status)
    ensures StatusCode([e] + rest) == 100 * DigitValue(e.status[0]) + 10 * DigitValue(e.status[1]) + DigitValue(e.status[2])
  {
    var s := e.status;
    assert ([e] + rest)[0] == e;
    assert s[..2][..1] == s[..1] && s[..1][..0] == [];
    assert DigitsValue(s[..1]) == DigitValue(s[0]);
    assert DigitsValue(s[..2]) == 10 * DigitValue(s[0]) + DigitValue(s[1]);
    assert s[..3] == s;
  }

  /**
   * The invalid-attribute error is the only constructor that points at a
   * source field, and every constructor that takes a detail reports it as
   * its message.
   */
  lemma ConstructorShapes(p: string, d: string)
    ensures InvalidAttribute(p, d).source == Some(ErrorSource(p))
    ensures RecordNotFound().source.None? && PageNotFound().source.None? && Internal(d).source.None?
    ensures Inprocessible(d).source.None? && Unauthorized().source.None?
    ensures Message(Internal(d)) == d && Message(InvalidAttribute(p, d)) == d && Message(Inprocessible(d)) == d
  {
  }
}
