/** Values shared by every page and modal of the portal. */
module Common {

  /** A value that may be absent: JavaScript's `undefined`/`null` when a lookup finds nothing. */
  datatype Option<+T> = None | Some(value: T)

  /** Severity of a toast alert (the `type` passed to `showAlert`). */
  datatype Severity = Success | Warning | Error

  /** A toast alert as `showAlert(type, message)` opens it. */
  datatype Alert = Alert(severity: Severity, message: string)

  /** Theme palette colour names used by badges and buttons. */
  datatype Colour = SuccessColour | DangerColour | WarningColour | ErrorColour

  /**
   * What a request to the API came back with: either no response object at all
   * (a network-level failure) or an HTTP status together with the `message`
   * field of the response body.
   */
  datatype HttpResult = NoResponse | Responded(status: int, message: string)

  /**
   * The request client keeps the library default for `validateStatus`: the call
   * resolves for a 2xx status and throws (with `e.response` set) for any other.
   */
  predicate Resolves(r: HttpResult)
  {
    r.Responded? && 200 <= r.status < 300
  }

  /** `findIndex` for an element: the first position holding `x`, or -1 when none does. */
  function FirstIndexOf<T(==)>(xs: seq<T>, x: T): (k: int)
    ensures -1 <= k < |xs|
    ensures k == -1 <==> forall i :: 0 <= i < |xs| ==> xs[i] != x
    ensures k >= 0 ==> xs[k] == x && forall i :: 0 <= i < k ==> xs[i] != x
  {
    if |xs| == 0 then -1
    else if xs[0] == x then 0
    else
      var k := FirstIndexOf(xs[1..], x);
      if k < 0 then -1 else k + 1
  }
}
