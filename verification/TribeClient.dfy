/** The SDK's request loop: which error surfaces, how often it tries and how long it waits. */
module TribeClients {
  import opened Wrappers

  /** `detail` is the message found in the body, `retryAfter` the numeric header, if any. */
  datatype Response = Response(status: int, detail: Option<string>, retryAfter: Option<int>)

  datatype AxiosError = AxiosError(response: Option<Response>, code: Option<string>, message: string)

  datatype SdkError =
    | Authentication(message: string)
    | Authorization(message: string)
    | ServiceNotFound
    | RateLimit(retryAfterMs: Option<int>)
    | BadGateway(message: string)
    | ServiceUnavailable(message: string)
    | GatewayTimeout(message: string)
    | Network(message: string)
    | Gateway(message: string, status: int)

  const RETRYABLE_STATUS_CODES: set<int> := {502, 503, 504}

  const RETRYABLE_ERROR_CODES: set<string> :=
    {"ECONNABORTED", "ETIMEDOUT", "ECONNRESET", "ECONNREFUSED", "ENETUNREACH", "ERR_NETWORK"}

  const UNREACHABLE := "Network error — could not reach the gateway"

  predicate IsRetryable(e: AxiosError) {
    || (e.response.Some? && e.response.value.status in RETRYABLE_STATUS_CODES)
    || (e.code.Some? && e.code.value in RETRYABLE_ERROR_CODES)
  }

  function WrapAxiosError(e: AxiosError): SdkError {
    if e.response.None? then
      if e.code == Some("ECONNABORTED") || e.code == Some("ETIMEDOUT") then GatewayTimeout(e.message)
      else Network(e.message)
    else
      var detail := e.response.value.detail.GetOr(e.message);
      match e.response.value.status
      case 401 => Authentication(detail)
      case 403 => Authorization(detail)
      case 404 => ServiceNotFound
      case 429 =>
        var after := e.response.value.retryAfter;
        RateLimit(if after.Some? && after.value != 0 then Some(after.value * 1000) else None)
      case 502 => BadGateway(detail)
      case 503 => ServiceUnavailable(detail)
      case 504 => GatewayTimeout(detail)
      case status => Gateway(detail, status)
  }

  /** The `statusCode` each error class passes to its base class. */
  function StatusCode(e: SdkError): Option<int> {
    match e
    case Authentication(_) => Some(401)
    case Authorization(_) => Some(403)
    case ServiceNotFound => Some(404)
    case RateLimit(_) => Some(429)
    case BadGateway(_) => Some(502)
    case ServiceUnavailable(_) => Some(503)
    case GatewayTimeout(_) => Some(504)
    case Network(_) => None
    case Gateway(_, status) => Some(status)
  }

  /** The error that surfaces carries the status of the response; without a response it says
      whether the request timed out. */
  lemma ErrorKeepsStatus(e: AxiosError)
    ensures e.response.Some? ==> StatusCode(WrapAxiosError(e)) == Some(e.response.value.status)
    ensures e.response.None? ==>
              StatusCode(WrapAxiosError(e)) == if e.code in {Some("ECONNABORTED"), Some("ETIMEDOUT")} then Some(504) else None
  {
  }

  /** An error is retried exactly when its transport code says so or it surfaces as one of the
      three gateway failures, whatever code Axios gave it and with or without a response. */
  lemma RetriedErrorsAreGatewayFailures(e: AxiosError)
    ensures var s := WrapAxiosError(e);
            IsRetryable(e) <==>
              || (e.code.Some? && e.code.value in RETRYABLE_ERROR_CODES)
              || s.BadGateway? || s.ServiceUnavailable? || s.GatewayTimeout?
  {
  }

  /** Exactly six transport codes are retried. */
  lemma RetriedCodesExactly(code: string, message: string)
    ensures IsRetryable(AxiosError(None, Some(code), message)) <==>
              || code == "ECONNABORTED" || code == "ETIMEDOUT" || code == "ECONNRESET"
              || code == "ECONNREFUSED" || code == "ENETUNREACH" || code == "ERR_NETWORK"
    ensures !IsRetryable(AxiosError(None, None, message))
  {
  }

  /** The status of a response decides the class of the error; its message is the detail of the
      body, if there is one. */
  lemma ErrorClassesExactly(e: AxiosError)
    requires e.response.Some?
    ensures var s, status := WrapAxiosError(e), e.response.value.status;
            && (s.Authentication? <==> status == 401) && (s.Authorization? <==> status == 403)
            && (s.ServiceNotFound? <==> status == 404) && (s.RateLimit? <==> status == 429)
            && (s.BadGateway? <==> status == 502) && (s.ServiceUnavailable? <==> status == 503)
            && (s.GatewayTimeout? <==> status == 504)
            && (s.Gateway? <==> status !in {401, 403, 404, 429, 502, 503, 504}) && !s.Network?
            && (!s.ServiceNotFound? && !s.RateLimit? ==>
                  s.message == if e.response.value.detail.Some? then e.response.value.detail.value else e.message)
  {
  }

  /** A rate limit error carries the Retry-After seconds in milliseconds, unless there are none. */
  lemma RetryAfterInMilliseconds(e: AxiosError, seconds: int)
    requires e.response.Some? && e.response.value.status == 429
    ensures e.response.value.retryAfter == Some(seconds) && seconds != 0 ==>
              WrapAxiosError(e) == RateLimit(Some(1000 * seconds))
    ensures e.response.value.retryAfter in {None, Some(0)} ==> WrapAxiosError(e) == RateLimit(None)
  {
  }

  // -- Delays -----------------------------------------------------------------

  function Pow2(n: nat): nat {
    if n == 0 then 1 else 2 * Pow2(n - 1)
  }

  /** `Math.round`. */
  function Round(x: real): int {
    (x + 0.5).Floor
  }

  /** The delay before jitter: it doubles with every attempt. */
  function Step(base: real, attempt: nat): real {
    base * Pow2(attempt) as real
  }

  /** The delay after attempt number `attempt`, for a jitter draw from -1 up to 1. */
  function Delay(base: real, attempt: nat, jitter: real): int {
    Jittered(Step(base, attempt), jitter)
  }

  function Jittered(b: real, jitter: real): int {
    Max(0, Round(b + b * 0.25 * jitter))
  }

  /** The delay after each attempt, given the draws. */
  function DelayFor(base: real, jitter: nat -> real): nat -> int {
    (k: nat) => Delay(base, k, jitter(k))
  }

  /** The delays after the first n attempts. */
  function Delays(delay: nat -> int, n: nat): (delays: seq<int>)
    ensures |delays| == n
  {
    if n == 0 then [] else Delays(delay, n - 1) + [delay(n - 1)]
  }

  function Total(delays: seq<int>): int {
    if delays == [] then 0 else Total(delays[..|delays| - 1]) + delays[|delays| - 1]
  }

  ghost predicate Jitter(jitter: nat -> real) {
    forall k: nat :: -1.0 <= jitter(k) < 1.0
  }

  /** `total` lies within a quarter, and half a millisecond for each of k roundings, of `whole`. */
  ghost predicate Within(total: real, whole: real, k: nat) {
    0.75 * whole - k as real / 2.0 <= total <= 1.25 * whole + k as real / 2.0
  }

  lemma RealProduct(a: real, b: real)
    requires a >= 0.0 && b >= 0.0
    ensures a * b >= 0.0
  {
  }

  lemma Wobble(b: real, jitter: real)
    requires b >= 0.0 && -1.0 <= jitter < 1.0
    ensures -0.25 * b <= b * 0.25 * jitter <= 0.25 * b
  {
    RealProduct(b, 1.0 - jitter);
    RealProduct(b, 1.0 + jitter);
    assert b * 0.25 * jitter == 0.25 * (b * jitter);
    assert b * (1.0 - jitter) == b - b * jitter && b * (1.0 + jitter) == b + b * jitter;
  }

  lemma RoundBounds(x: real, low: real, high: real)
    requires 0.0 <= low <= x <= high
    ensures low - 0.5 <= Max(0, Round(x)) as real <= high + 0.5
  {
  }

  lemma DelayBounds(base: real, attempt: nat, jitter: real)
    requires base >= 0.0 && -1.0 <= jitter < 1.0
    ensures Within(Delay(base, attempt, jitter) as real, Step(base, attempt), 1)
  {
    var b := Step(base, attempt);
    assert b >= 0.0 by {
      RealProduct(base, Pow2(attempt) as real);
    }
    assert Delay(base, attempt, jitter) == Jittered(b, jitter);
    JitteredBounds(b, jitter);
  }

  /** One delay is the doubled base, off by the quarter share of the draw, to the nearest
      millisecond. */
  lemma DelayExactly(base: real, attempt: nat, jitter: real)
    requires base >= 0.0 && -1.0 <= jitter < 1.0
    ensures var whole := base * Pow2(attempt) as real;
            var d := Delay(base, attempt, jitter) as real;
            && d >= 0.0 && -0.5 < d - (whole + whole * jitter / 4.0) <= 0.5
  {
    var b := Step(base, attempt);
    RealProduct(base, Pow2(attempt) as real);
    Wobble(b, jitter);
    assert b * 0.25 * jitter == b * jitter / 4.0;
  }

  lemma {:induction false} Pow2Doubles(n: nat)
    ensures Pow2(0) == 1 && Pow2(n + 1) == 2 * Pow2(n)
  {
  }

  lemma JitteredBounds(b: real, jitter: real)
    requires b >= 0.0 && -1.0 <= jitter < 1.0
    ensures Within(Jittered(b, jitter) as real, b, 1)
  {
    Wobble(b, jitter);
    RoundBounds(b + b * 0.25 * jitter, 0.75 * b, 1.25 * b);
  }

  lemma Doubling(base: real, n: nat)
    ensures base * (Pow2(n + 1) - 1) as real == base * (Pow2(n) - 1) as real + base * Pow2(n) as real
  {
    var p := Pow2(n) as real;
    assert (Pow2(n + 1) - 1) as real == 2.0 * p - 1.0 && (Pow2(n) - 1) as real == p - 1.0;
    assert base * (2.0 * p - 1.0) == base * (p - 1.0) + base * p;
  }

  // -- The sum of the delays --------------------------------------------------

  function Sum(step: nat -> real, n: nat): real {
    if n == 0 then 0.0 else Sum(step, n - 1) + step(n - 1)
  }

  lemma {:induction false} SumWithin(delay: nat -> int, step: nat -> real, n: nat)
    requires forall k: nat :: Within(delay(k) as real, step(k), 1)
    ensures Within(Total(Delays(delay, n)) as real, Sum(step, n), n)
  {
    if n > 0 {
      SumWithin(delay, step, n - 1);
      assert Delays(delay, n)[..n - 1] == Delays(delay, n - 1);
      assert Within(delay(n - 1) as real, step(n - 1), 1);
    }
  }

  function StepFor(base: real): nat -> real {
    (k: nat) => Step(base, k)
  }

  lemma {:induction false} StepsClosed(base: real, n: nat)
    ensures Sum(StepFor(base), n) == base * (Pow2(n) - 1) as real
  {
    if n == 0 {
      RealProduct(0.0, 0.0);
    } else {
      StepsClosed(base, n - 1);
      Doubling(base, n - 1);
    }
  }

  lemma TotalWithinSum(base: real, k: nat, jitter: nat -> real)
    requires base >= 0.0 && Jitter(jitter)
    ensures Within(Total(Delays(DelayFor(base, jitter), k)) as real, Sum(StepFor(base), k), k)
  {
    forall i: nat ensures Within(DelayFor(base, jitter)(i) as real, StepFor(base)(i), 1) {
      DelayBounds(base, i, jitter(i));
    }
    SumWithin(DelayFor(base, jitter), StepFor(base), k);
  }

  /** k delays for base b add up to between 0.75 b (2^k - 1) - k/2 and 1.25 b (2^k - 1) + k/2
      milliseconds, whatever the jitter. */
  lemma TotalDelayBounds(base: real, k: nat, jitter: nat -> real)
    requires base >= 0.0 && Jitter(jitter)
    ensures Within(Total(Delays(DelayFor(base, jitter), k)) as real, base * (Pow2(k) - 1) as real, k)
  {
    TotalWithinSum(base, k, jitter);
    StepsClosed(base, k);
  }

  // -- The loop ---------------------------------------------------------------

  datatype Outcome = Data(value: string) | Axios(error: AxiosError) | Other(thrown: string)

  datatype Final = Returned(value: string) | Threw(error: SdkError) | Rethrew(thrown: string)

  predicate Transient(o: Outcome) {
    o.Axios? && IsRetryable(o.error)
  }

  /** How one outcome reaches the caller. */
  function Surface(o: Outcome): Final {
    match o
    case Data(v) => Returned(v)
    case Axios(e) => Threw(WrapAxiosError(e))
    case Other(t) => Rethrew(t)
  }

  /** `outcome` tells what attempt number k would meet, `jitter` what draw would follow it. The
      throw after the loop is reached only when no attempt is allowed at all. */
  method RequestWithRetry(maxRetries: int, base: real, outcome: nat -> Outcome, jitter: nat -> real)
    returns (r: Final, attempts: nat, delays: seq<int>)
    ensures attempts <= Max(0, maxRetries + 1)
    ensures maxRetries >= 0 ==>
              && attempts >= 1 && r == Surface(outcome(attempts - 1))
              && (forall k: nat :: k < attempts - 1 ==> Transient(outcome(k)))
              && (Transient(outcome(attempts - 1)) ==> attempts == maxRetries + 1)
    ensures maxRetries < 0 ==> attempts == 0 && r == Threw(Network(UNREACHABLE))
    ensures delays == Delays(DelayFor(base, jitter), Max(0, attempts - 1))
  {
    var lastError: Option<AxiosError> := None;
    attempts, delays := 0, [];
    while attempts <= maxRetries
      invariant maxRetries >= 0 ==> attempts <= maxRetries
      invariant maxRetries < 0 ==> attempts == 0 && lastError == None
      invariant forall k: nat :: k < attempts ==> Transient(outcome(k))
      invariant delays == Delays(DelayFor(base, jitter), attempts)
    {
      var attempt := attempts;
      var o := outcome(attempt);
      attempts := attempts + 1;
      if o.Data? {
        return Returned(o.value), attempts, delays;
      }
      if !o.Axios? {
        return Rethrew(o.thrown), attempts, delays;
      }
      lastError := Some(o.error);
      if !IsRetryable(o.error) || attempt == maxRetries {
        return Threw(WrapAxiosError(o.error)), attempts, delays;
      }
      delays := delays + [Delay(base, attempt, jitter(attempt))];
    }
    match lastError {
      case Some(e) => r := Threw(WrapAxiosError(e));
      case None => r := Threw(Network(UNREACHABLE));
    }
  }
}
