/** One logical request to the upstream API (`_fantrax_api_request`): header
    defaulting and the bounded retry loop. The network is replaced by the
    sequence of answers the server gives to successive attempts. */
module Transport {
  import opened JsonValue

  /** At most this many attempts are made for one request. */
  const MaxRetries: nat := 3

  /** What one attempt observed. */
  datatype Attempt =
    | TimedOut          // the client's timeout fired
    | Raised            // any other exception while sending or decoding
    | Decoded(body: Json)

  /** Why a request failed without exhausting its retries. */
  datatype Cause =
    | ApiError(detail: Json)  // a JSON object carrying an "error" key
    | BodyTypeError           // the "error" test or lookup raised TypeError
    | OtherException          // an exception raised by the attempt itself

  datatype Failure =
    | RequestFailed(cause: Cause)
    | TimedOutAfterRetries

  /** The outcome of one logical request: the body, or the exception raised. */
  datatype Response = Ok(body: Json) | Err(failure: Failure)

  /** A finished request: the headers sent, its outcome and how many
      attempts it made. */
  datatype Call = Call(headers: map<string, string>, response: Response, attempts: nat)

  const JsonHeaders: map<string, string> :=
    map["accept" := "application/json", "Content-Type" := "application/json"]

  /** The headers actually sent: the caller's, or the JSON defaults when the
      caller gave none. */
  function WithDefaultHeaders(headers: map<string, string>): (sent: map<string, string>)
    ensures |sent| > 0
    ensures forall k :: k in headers ==> k in sent && sent[k] == headers[k]
    ensures |headers| > 0 ==> sent == headers
    ensures |headers| == 0 ==> sent == JsonHeaders
  {
    if |headers| == 0 then JsonHeaders else headers
  }

  /** Defaulting twice is defaulting once. */
  lemma DefaultHeadersIdempotent(headers: map<string, string>)
    ensures WithDefaultHeaders(WithDefaultHeaders(headers)) == WithDefaultHeaders(headers)
  {
  }

  /** The outcome of an attempt that did not time out: the body is returned
      unless the "error" test accepts it or raises, and every failure is
      wrapped as a request failure. */
  function Settle(a: Attempt): (r: Response)
    requires !a.TimedOut?
    ensures r.Ok? <==> a.Decoded? && ErrorMembership(a.body) == NotMember
    ensures r.Ok? ==> r.body == a.body
    ensures r.Err? ==> r.failure.RequestFailed?
    ensures a.Decoded? && a.body.JObject? && ErrorKey in a.body.fields ==>
              r == Err(RequestFailed(ApiError(a.body.fields[ErrorKey])))
  {
    match a
    case Raised => Err(RequestFailed(OtherException))
    case Decoded(body) =>
      match ErrorMembership(body)
      case NotMember => Ok(body)
      case Member =>
        // Only an object can be indexed by the string "error".
        if body.JObject? then Err(RequestFailed(ApiError(body.fields[ErrorKey])))
        else Err(RequestFailed(BodyTypeError))
      case NotSearchable => Err(RequestFailed(BodyTypeError))
  }

  /** The `while retry_count < max_retries` loop entered with `retryCount`
      timeouts behind it. Only a timeout continues the loop, so attempt
      number `retryCount` reads answer `retryCount`. Returns the outcome and
      the number of attempts made in total. */
  function RetryLoop(answers: seq<Attempt>, retryCount: nat): (r: (Response, nat))
    requires retryCount <= MaxRetries <= |answers|
    decreases MaxRetries - retryCount
    ensures retryCount <= r.1 <= MaxRetries
    ensures retryCount < MaxRetries ==> retryCount < r.1
    ensures forall i :: retryCount <= i < r.1 - 1 ==> answers[i].TimedOut?
    ensures r.1 == retryCount ==> r.0 == Err(TimedOutAfterRetries)
    ensures retryCount < r.1 && !answers[r.1 - 1].TimedOut? ==> r.0 == Settle(answers[r.1 - 1])
    ensures retryCount < r.1 && answers[r.1 - 1].TimedOut? ==>
              r.1 == MaxRetries && r.0 == Err(TimedOutAfterRetries)
  {
    if retryCount >= MaxRetries then
      (Err(TimedOutAfterRetries), retryCount)
    else if answers[retryCount].TimedOut? then
      RetryLoop(answers, retryCount + 1)
    else
      (Settle(answers[retryCount]), retryCount + 1)
  }

  /** `_fantrax_api_request`: the server must be able to answer every
      attempt the loop can make. */
  function FantraxApiRequest(headers: map<string, string>, answers: seq<Attempt>): (c: Call)
    requires MaxRetries <= |answers|
    ensures c.headers == WithDefaultHeaders(headers)
    ensures 1 <= c.attempts <= MaxRetries
    ensures forall i :: 0 <= i < c.attempts - 1 ==> answers[i].TimedOut?
    ensures !answers[c.attempts - 1].TimedOut? ==> c.response == Settle(answers[c.attempts - 1])
    ensures answers[c.attempts - 1].TimedOut? ==>
              c.attempts == MaxRetries && c.response == Err(TimedOutAfterRetries)
    ensures c.response == Err(TimedOutAfterRetries) <==>
              forall i :: 0 <= i < MaxRetries ==> answers[i].TimedOut?
  {
    var (response, attempts) := RetryLoop(answers, 0);
    Call(WithDefaultHeaders(headers), response, attempts)
  }

  /** Number of timeouts among some answers. */
  function CountTimeouts(answers: seq<Attempt>): nat {
    if |answers| == 0 then 0
    else CountTimeouts(answers[..|answers| - 1]) + (if answers[|answers| - 1].TimedOut? then 1 else 0)
  }

  lemma {:induction false} CountAllTimeouts(answers: seq<Attempt>)
    requires forall i :: 0 <= i < |answers| ==> answers[i].TimedOut?
    ensures CountTimeouts(answers) == |answers|
  {
    if |answers| > 0 {
      CountAllTimeouts(answers[..|answers| - 1]);
    }
  }

  /** Three timeouts in a row end the request with the distinct
      "timed out after multiple retries" failure, after exactly three
      attempts. */
  lemma ThreeTimeoutsExhaust(headers: map<string, string>, answers: seq<Attempt>)
    requires MaxRetries <= |answers|
    requires answers[0] == TimedOut && answers[1] == TimedOut && answers[2] == TimedOut
    ensures FantraxApiRequest(headers, answers).response == Err(TimedOutAfterRetries)
    ensures FantraxApiRequest(headers, answers).attempts == MaxRetries
  {
  }

  /** An accepted body on attempt `k` is returned at once: attempt `k` is
      the last one made. */
  lemma SuccessStopsRetrying(headers: map<string, string>, answers: seq<Attempt>, k: nat, body: Json)
    requires MaxRetries <= |answers|
    requires 1 <= k <= MaxRetries
    requires forall i :: 0 <= i < k - 1 ==> answers[i].TimedOut?
    requires answers[k - 1] == Decoded(body) && ErrorMembership(body) == NotMember
    ensures FantraxApiRequest(headers, answers).response == Ok(body)
    ensures FantraxApiRequest(headers, answers).attempts == k
  {
  }

  /** A non-timeout exception, or a body the "error" test flags, ends the
      request on that attempt with a wrapped request failure: no retry. */
  lemma FailureIsNotRetried(headers: map<string, string>, answers: seq<Attempt>, k: nat)
    requires MaxRetries <= |answers|
    requires 1 <= k <= MaxRetries
    requires forall i :: 0 <= i < k - 1 ==> answers[i].TimedOut?
    requires answers[k - 1].Raised? || (answers[k - 1].Decoded? && ErrorMembership(answers[k - 1].body) != NotMember)
    ensures FantraxApiRequest(headers, answers).response.Err?
    ensures FantraxApiRequest(headers, answers).response.failure.RequestFailed?
    ensures FantraxApiRequest(headers, answers).attempts == k
  {
  }

  /** Only timeouts advance the counter: a request that did not exhaust its
      retries made one attempt more than the timeouts it saw. */
  lemma AttemptsAreTimeoutsPlusOne(headers: map<string, string>, answers: seq<Attempt>)
    requires MaxRetries <= |answers|
    ensures var c := FantraxApiRequest(headers, answers);
      if c.response == Err(TimedOutAfterRetries) then
        c.attempts == CountTimeouts(answers[..c.attempts]) == MaxRetries
      else
        c.attempts == CountTimeouts(answers[..c.attempts]) + 1
  {
    var c := FantraxApiRequest(headers, answers);
    var used := answers[..c.attempts];
    var before := used[..c.attempts - 1];
    CountAllTimeouts(before);
    if c.response == Err(TimedOutAfterRetries) {
      CountAllTimeouts(used);
    } else {
      assert !used[c.attempts - 1].TimedOut?;
    }
  }

  lemma {:induction false} RetryLoopReadsOnlyItsAnswers(a: seq<Attempt>, b: seq<Attempt>, retryCount: nat)
    requires retryCount <= MaxRetries <= |a| && MaxRetries <= |b|
    requires a[..RetryLoop(a, retryCount).1] == b[..RetryLoop(a, retryCount).1]
    ensures RetryLoop(b, retryCount) == RetryLoop(a, retryCount)
    decreases MaxRetries - retryCount
  {
    var n := RetryLoop(a, retryCount).1;
    if retryCount < MaxRetries {
      assert a[retryCount] == a[..n][retryCount] == b[..n][retryCount] == b[retryCount];
      if a[retryCount].TimedOut? {
        RetryLoopReadsOnlyItsAnswers(a, b, retryCount + 1);
      }
    }
  }

  /** Answers after the last attempt made are never consulted. */
  lemma UnusedAnswersIgnored(headers: map<string, string>, a: seq<Attempt>, b: seq<Attempt>)
    requires MaxRetries <= |a| && MaxRetries <= |b|
    requires a[..FantraxApiRequest(headers, a).attempts] == b[..FantraxApiRequest(headers, a).attempts]
    ensures FantraxApiRequest(headers, b) == FantraxApiRequest(headers, a)
  {
    RetryLoopReadsOnlyItsAnswers(a, b, 0);
  }
}
