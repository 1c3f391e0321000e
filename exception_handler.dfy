/** GlobalExceptionHandler: request-validation failures answered 400 with a
    fixed body. What failed is only written to the error log, which the model
    returns beside the response. */
module ExceptionHandling {
  import opened Responses

  const InvalidParamsText := "invalid params"

  /** A field error of a failed body validation (`FieldError`); only its
      default message is read. */
  datatype FieldError = FieldError(field: string, defaultMessage: string)

  /** A handled exception: the response, and the line written to the log. */
  datatype Handled = Handled(response: Response, logLine: string)

  /** `Collectors.joining(sep)`. */
  function Join(parts: seq<string>, sep: string): string
    decreases |parts|
  {
    if |parts| == 0 then ""
    else if |parts| == 1 then parts[0]
    else parts[0] + sep + Join(parts[1..], sep)
  }

  function DefaultMessages(errors: seq<FieldError>): (ms: seq<string>)
    ensures |ms| == |errors| && forall i :: 0 <= i < |ms| ==> ms[i] == errors[i].defaultMessage
  {
    seq(|errors|, i requires 0 <= i < |errors| => errors[i].defaultMessage)
  }

  /** `m` is found in `s` starting at position i. */
  predicate OccursAt(m: string, s: string, i: nat) {
    i + |m| <= |s| && s[i..i + |m|] == m
  }

  /** handleValidationExceptions (MethodArgumentNotValidException). */
  function HandleValidationExceptions(errors: seq<FieldError>): (h: Handled)
    ensures h.response == Response(BAD_REQUEST, Text(InvalidParamsText))
    ensures h.logLine == "Validation failed: " + Join(DefaultMessages(errors), ", ")
  {
    Handled(Response(BAD_REQUEST, Text(InvalidParamsText)),
            "Validation failed: " + Join(DefaultMessages(errors), ", "))
  }

  /** handleHandlerMethodValidationExceptions
      (HandlerMethodValidationException): `details` is the text the
      exception's detail-message arguments render to. */
  function HandleHandlerMethodValidation(details: string): (h: Handled)
    ensures h.response == Response(BAD_REQUEST, Text(InvalidParamsText))
    ensures h.logLine == "Handler method validation failed: " + details
  {
    Handled(Response(BAD_REQUEST, Text(InvalidParamsText)), "Handler method validation failed: " + details)
  }

  /** Every part is found in the joined text. */
  lemma {:induction false} JoinContainsEach(parts: seq<string>, sep: string, k: nat)
    requires k < |parts|
    ensures exists i: nat :: OccursAt(parts[k], Join(parts, sep), i)
    decreases |parts|
  {
    var s := Join(parts, sep);
    if k == 0 {
      assert s[0..|parts[0]|] == parts[0];
      assert OccursAt(parts[0], s, 0);
    } else {
      JoinContainsEach(parts[1..], sep, k - 1);
      var rest := Join(parts[1..], sep);
      var i: nat :| OccursAt(parts[1..][k - 1], rest, i);
      var head := parts[0] + sep;
      assert s == head + rest;
      assert s[|head| + i..|head| + i + |parts[k]|] == rest[i..i + |parts[k]|];
      assert OccursAt(parts[k], s, |head| + i);
    }
  }

  /** The response does not depend on which or how many fields failed, nor
      on the detail text; the log line names every field's message. */
  lemma ResponseIgnoresFailures(a: seq<FieldError>, b: seq<FieldError>, d1: string, d2: string, k: nat)
    requires k < |a|
    ensures HandleValidationExceptions(a).response == HandleValidationExceptions(b).response
    ensures HandleHandlerMethodValidation(d1).response == HandleHandlerMethodValidation(d2).response
    ensures HandleValidationExceptions(a).response == HandleHandlerMethodValidation(d1).response
    ensures exists i: nat :: OccursAt(a[k].defaultMessage, HandleValidationExceptions(a).logLine, i)
  {
    var ms := DefaultMessages(a);
    JoinContainsEach(ms, ", ", k);
    var i: nat :| OccursAt(ms[k], Join(ms, ", "), i);
    var prefix := "Validation failed: ";
    var line := HandleValidationExceptions(a).logLine;
    assert line == prefix + Join(ms, ", ");
    assert line[|prefix| + i..|prefix| + i + |ms[k]|] == Join(ms, ", ")[i..i + |ms[k]|];
    assert OccursAt(a[k].defaultMessage, line, |prefix| + i);
  }
}
