/**
 * `requireString` of backend/src/routes/helpers.js: the route handlers'
 * check on a required text field of a request body. The HTTP response is
 * part of the result instead of a side effect on `res`.
 */
module Helpers {
  import opened JsString

  /** A request-body field as the handler sees it. */
  datatype JsValue =
    | Missing       // `undefined` or `null`
    | Str(s: string)
    | NonString     // a number, boolean, object or array

  /** The `400` answer with the caller's message, or the trimmed value to use. */
  datatype Outcome =
    | Accepted(value: string)
    | Rejected(status: nat, error: string)

  /**
   * Missing, non-string and blank values are rejected with status 400 and
   * `errorMessage`; any other string is accepted trimmed, so the accepted
   * value is non-empty and starts and ends with a non-space character.
   */
  function RequireString(value: JsValue, errorMessage: string): (r: Outcome)
    ensures r.Rejected? <==> !value.Str? || AllSpace(value.s)
    ensures r.Rejected? ==> r.status == 400 && r.error == errorMessage
    ensures r.Accepted? ==> r.value == Trim(value.s)
    ensures r.Accepted? ==> |r.value| > 0 && !IsSpace(r.value[0]) && !IsSpace(r.value[|r.value| - 1])
  {
    TrimEmptyIffBlank(value);
    if !value.Str? || |value.s| == 0 || |Trim(value.s)| == 0 then Rejected(400, errorMessage)
    else Accepted(Trim(value.s))
  }

  lemma TrimEmptyIffBlank(value: JsValue)
    ensures value.Str? ==> (|Trim(value.s)| == 0 <==> AllSpace(value.s))
  {
    if value.Str? {
      TrimIsSlice(value.s);
    }
  }

  /** Feeding an accepted value back in accepts it unchanged. */
  lemma RequireStringIdempotent(value: JsValue, errorMessage: string)
    requires RequireString(value, errorMessage).Accepted?
    ensures RequireString(Str(RequireString(value, errorMessage).value), errorMessage)
      == RequireString(value, errorMessage)
  {
    TrimIdempotent(value.s);
  }

  /** A string that already has no blank ends and is not empty is accepted as it is. */
  lemma RequireStringKeepsTrimmed(s: string, errorMessage: string)
    requires |s| > 0 && !IsSpace(s[0]) && !IsSpace(s[|s| - 1])
    ensures RequireString(Str(s), errorMessage) == Accepted(s)
  {
    TrimOfTrimmed(s);
  }
}
