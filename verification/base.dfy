/** Values shared by every component: optional values, JavaScript number
    results that may leave the reals, and the outcome of one network fetch. */
module Base {
  import opened JsStrings

  /** `T | undefined` / `T | null` in the components' props and state. */
  datatype Option<+T> = None | Some(value: T) {
    function GetOr(default: T): T {
      match this
      case Some(v) => v
      case None => default
    }
  }

  /** A JavaScript number result. Arithmetic on finite operands is modelled
      over the reals; only the non-finite outcomes of a division are kept. */
  datatype JsNumber = Finite(value: real) | NaN | PositiveInfinity | NegativeInfinity

  /** IEEE division `a / b` of two finite numbers. */
  function JsDivide(a: real, b: real): (r: JsNumber)
    ensures b != 0.0 ==> r == Finite(a / b)
    ensures b == 0.0 ==> (r == NaN <==> a == 0.0)
    ensures r.Finite? <==> b != 0.0
  {
    if b != 0.0 then Finite(a / b)
    else if a > 0.0 then PositiveInfinity
    else if a < 0.0 then NegativeInfinity
    else NaN
  }

  /** `(to / from - 1) * 100` is the change from `from` to `to` as a
      percentage of `from`. */
  lemma PercentOfStart(to: real, from: real)
    requires from != 0.0
    ensures (to / from - 1.0) * 100.0 * from == 100.0 * (to - from)
  {
    var q := to / from;
    assert q * from == to;
    calc {
      (q - 1.0) * 100.0 * from;
      100.0 * (q * from - from);
      100.0 * (to - from);
    }
  }

  /** What one `await fetch(...)` followed by `response.json()` can end in:
      parsed data, a response whose `ok` flag is false (the code then throws
      an Error carrying the status), an Error thrown by the transport or the
      parser, or a thrown value that is not an Error. */
  datatype FetchOutcome<+T> =
    | Loaded(data: T)
    | HttpFailure(status: nat)
    | Thrown(message: string)
    | ThrownNonError

  /** The text `"HTTP error! status: " + status` of the Error thrown for a
      response whose `ok` flag is false. */
  function HttpErrorMessage(status: nat): (r: string)
    ensures |r| > 20 && r[..20] == "HTTP error! status: "
    ensures AllDigits(r[20..]) && ParseDecimal(r[20..]) == status
  {
    var digits := DecimalString(status);
    DecimalRoundTrip(status);
    var r := "HTTP error! status: " + digits;
    assert r[20..] == digits;
    r
  }

  /** What `err instanceof Error ? err.message : fallback` stores as the
      error of a failed fetch. */
  function FailureMessage<T>(o: FetchOutcome<T>, fallback: string): (r: string)
    requires !o.Loaded?
    ensures o.HttpFailure? ==> r == HttpErrorMessage(o.status)
    ensures o.Thrown? ==> r == o.message
    ensures o.ThrownNonError? ==> r == fallback
  {
    match o
    case HttpFailure(status) => HttpErrorMessage(status)
    case Thrown(message) => message
    case ThrownNonError => fallback
  }

  /** JavaScript truthiness of a `string | null` error: `null` and the empty
      string are false. */
  predicate Truthy(error: Option<string>) {
    error.Some? && error.value != ""
  }
}
