/** `proxy_with_retry` and its composition with the circuit breaker
    (src/server/handlers.rs). */
module ProxyRetry {
  import opened Wrappers
  import opened Errors
  import opened Seqs
  import opened Machine
  import opened CircuitBreaker

  datatype Response = Response(status: nat)

  /** One pass of the retry loop: whether the request could be rebuilt, what the
      upstream answered and when the answer was recorded. */
  datatype Attempt = Attempt(rebuilt: Result<(), string>, answer: Result<Response, ProxyError>, at: nat)

  predicate Fails(a: Attempt) {
    a.rebuilt.Ok? && a.answer.Err?
  }

  /** The attempt that ends the loop, or the number of attempts. */
  function StopAt(attempts: seq<Attempt>): (k: nat)
    ensures k <= |attempts| && (k < |attempts| ==> !Fails(attempts[k]))
    ensures forall i :: 0 <= i < k ==> Fails(attempts[i])
  {
    if attempts == [] || !Fails(attempts[0]) then 0 else 1 + StopAt(attempts[1..])
  }

  function FailureEvents(upstream: string, attempts: seq<Attempt>): (es: seq<Event>)
    ensures |es| == |attempts|
    ensures forall i :: 0 <= i < |es| ==> es[i] == Event(upstream, Failure, attempts[i].at)
  {
    seq(|attempts|, i requires 0 <= i < |attempts| => Event(upstream, Failure, attempts[i].at))
  }

  function Verdict(upstream: string, a: Attempt): Event {
    Event(upstream, if a.answer.Ok? then Success else Failure, a.at)
  }

  /** What the call reports to the breaker: a failure for each failed attempt and
      a success for the one that got an answer.  Without retries the single
      attempt is reported as it is; a body that cannot be read up front and a
      request that cannot be rebuilt are not reported. */
  function Reported(upstream: string, body: Result<(), string>, attempts: seq<Attempt>): seq<Event>
    requires attempts != []
  {
    if |attempts| == 1 then [Verdict(upstream, attempts[0])]
    else if body.Err? then []
    else
      var k := StopAt(attempts);
      FailureEvents(upstream, attempts[..k])
      + (if k < |attempts| && attempts[k].rebuilt.Ok? then [Event(upstream, Success, attempts[k].at)] else [])
  }

  function Returned(body: Result<(), string>, attempts: seq<Attempt>): Result<Response, ProxyError>
    requires attempts != []
  {
    if |attempts| == 1 then attempts[0].answer
    else if body.Err? then Err(BodyRead(body.error))
    else
      var k := StopAt(attempts);
      if k == |attempts| then attempts[k - 1].answer
      else if attempts[k].rebuilt.Err? then Err(UpstreamConnection(attempts[k].rebuilt.error))
      else attempts[k].answer
  }

  /** `Reported` and `Returned`, case by case. */
  lemma WhatIsReported(upstream: string, body: Result<(), string>, attempts: seq<Attempt>)
    requires attempts != []
    ensures |attempts| == 1 ==>
              Reported(upstream, body, attempts) == [Verdict(upstream, attempts[0])]
              && Returned(body, attempts) == attempts[0].answer
    ensures |attempts| > 1 && body.Err? ==>
              Reported(upstream, body, attempts) == [] && Returned(body, attempts) == Err(BodyRead(body.error))
    ensures |attempts| > 1 && body.Ok? ==>
              var k := StopAt(attempts);
              var failures := FailureEvents(upstream, attempts[..k]);
              if k == |attempts| then
                Reported(upstream, body, attempts) == failures && Returned(body, attempts) == attempts[k - 1].answer
              else if attempts[k].rebuilt.Err? then
                Reported(upstream, body, attempts) == failures
                && Returned(body, attempts) == Err(UpstreamConnection(attempts[k].rebuilt.error))
              else
                Reported(upstream, body, attempts) == failures + [Event(upstream, Success, attempts[k].at)]
                && Returned(body, attempts) == attempts[k].answer
  {
  }

  method ProxyWithRetry(cb: CircuitBreakerMap, upstream: string, maxRetries: nat, body: Result<(), string>,
                        attempts: seq<Attempt>)
    returns (r: Result<Response, ProxyError>)
    requires cb.Valid() && |attempts| == maxRetries + 1
    modifies cb
    ensures cb.Valid() && cb.history == old(cb.history) + Reported(upstream, body, attempts)
    ensures r == Returned(body, attempts)
  {
    hide Returned, Reported, Reflects;
    WhatIsReported(upstream, body, attempts);
    if maxRetries == 0 {
      var result := attempts[0].answer;
      match result {
        case Ok(_) => cb.RecordSuccess(upstream, attempts[0].at);
        case Err(_) => cb.RecordFailure(upstream, attempts[0].at);
      }
      return result;
    }
    if body.Err? {
      return Err(BodyRead(body.error));
    }
    var lastErr: Option<ProxyError> := None;
    assert FailureEvents(upstream, attempts[..0]) == [];
    ghost var k := StopAt(attempts);
    for attempt := 0 to maxRetries + 1
      invariant attempt <= k && cb.Valid()
      invariant cb.history == old(cb.history) + FailureEvents(upstream, attempts[..attempt])
      invariant lastErr == if attempt == 0 then None else Some(attempts[attempt - 1].answer.error)
    {
      if attempts[attempt].rebuilt.Err? {
        return Err(UpstreamConnection(attempts[attempt].rebuilt.error));
      }
      match attempts[attempt].answer {
        case Ok(resp) =>
          cb.RecordSuccess(upstream, attempts[attempt].at);
          return Ok(resp);
        case Err(e) =>
          cb.RecordFailure(upstream, attempts[attempt].at);
          lastErr := Some(e);
          assert FailureEvents(upstream, attempts[..attempt + 1])
              == FailureEvents(upstream, attempts[..attempt]) + [Event(upstream, Failure, attempts[attempt].at)];
      }
    }
    assert attempts[..maxRetries + 1] == attempts;
    return Err(lastErr.value);
  }

  // ----- One call and the breaker -----

  predicate AllFail(body: Result<(), string>, attempts: seq<Attempt>) {
    && (|attempts| > 1 ==> body.Ok?)
    && forall i :: 0 <= i < |attempts| ==> Fails(attempts[i])
  }

  lemma {:induction false} RunAfterFailures(h: seq<Event>, upstream: string, attempts: seq<Attempt>)
    ensures Run(h + FailureEvents(upstream, attempts)) == Run(h) + |attempts|
  {
    var es := FailureEvents(upstream, attempts);
    if attempts == [] {
      assert h + es == h;
    } else {
      var n := |attempts| - 1;
      RunAfterFailures(h, upstream, attempts[..n]);
      assert es == FailureEvents(upstream, attempts[..n]) + [es[n]];
      assert h + es == (h + FailureEvents(upstream, attempts[..n])) + [es[n]];
      RunStep(h + FailureEvents(upstream, attempts[..n]), es[n]);
    }
  }

  lemma {:induction false} OfSame(h: seq<Event>, es: seq<Event>, u: string)
    requires forall k :: 0 <= k < |es| ==> es[k].upstream == u
    ensures Of(h + es, u) == Of(h, u) + es
  {
    if es == [] {
      assert h + es == h && Of(h, u) + es == Of(h, u);
    } else {
      var p, e := es[..|es| - 1], es[|es| - 1];
      assert es == p + [e];
      OfSame(h, p, u);
      OfAppend(h + p, e, u);
      Associate(h, p, [e]);
      Associate(Of(h, u), p, [e]);
    }
  }

  /** A call of which every attempt fails returns the last attempt's error and adds
      one failure for each of its attempts. */
  lemma FailedCall(h: seq<Event>, upstream: string, body: Result<(), string>, attempts: seq<Attempt>)
    requires attempts != [] && AllFail(body, attempts)
    ensures Returned(body, attempts) == attempts[|attempts| - 1].answer
    ensures Reported(upstream, body, attempts) == FailureEvents(upstream, attempts)
    ensures Run(Of(h + Reported(upstream, body, attempts), upstream)) == Run(Of(h, upstream)) + |attempts|
  {
    var es := FailureEvents(upstream, attempts);
    if |attempts| > 1 {
      assert StopAt(attempts) == |attempts| && attempts[..|attempts|] == attempts;
    }
    assert Reported(upstream, body, attempts) == es;
    OfSame(h, es, upstream);
    RunAfterFailures(Of(h, upstream), upstream, attempts);
  }

  /** A call that returns a response leaves the upstream with no failures. */
  lemma AnsweredCall(h: seq<Event>, upstream: string, body: Result<(), string>, attempts: seq<Attempt>)
    requires attempts != [] && Returned(body, attempts).Ok?
    ensures Run(Of(h + Reported(upstream, body, attempts), upstream)) == 0
  {
    var es := Reported(upstream, body, attempts);
    var n := |es| - 1;
    assert es[n].op.Success? && es[n].upstream == upstream;
    assert h + es == (h + es[..n]) + [es[n]];
    OfAppend(h + es[..n], es[n], upstream);
    RunStep(Of(h + es[..n], upstream), es[n]);
  }

  // ----- How many failing calls get through -----

  /** One call: when `allow` is asked, whether the body can be captured, and what
      the attempts meet if the call is admitted. */
  datatype Call = Call(askedAt: nat, body: Result<(), string>, attempts: seq<Attempt>)

  /** What an admitted call does to the breaker. */
  function CallEvents(upstream: string, c: Call): seq<Event>
    requires c.attempts != []
  {
    [Event(upstream, Operation.Allow, c.askedAt)] + Reported(upstream, c.body, c.attempts)
  }

  /** Calls that make `perCall` attempts, all of which fail. */
  predicate FailingCalls(calls: seq<Call>, perCall: nat) {
    forall k :: 0 <= k < |calls| ==> |calls[k].attempts| == perCall && AllFail(calls[k].body, calls[k].attempts)
  }

  /** The upstream's history after admitted calls that all fail. */
  function AfterCalls(h: seq<Event>, upstream: string, calls: seq<Call>, perCall: nat): seq<Event>
    requires perCall > 0 && FailingCalls(calls, perCall)
  {
    if calls == [] then h
    else AfterCalls(h, upstream, calls[..|calls| - 1], perCall) + CallEvents(upstream, calls[|calls| - 1])
  }

  lemma LatestFailure(h: seq<Event>, upstream: string, attempts: seq<Attempt>)
    requires attempts != []
    ensures LastFailure(h + FailureEvents(upstream, attempts)) == attempts[|attempts| - 1].at
  {
  }

  lemma CallAddsFailures(h: seq<Event>, upstream: string, c: Call)
    requires c.attempts != [] && AllFail(c.body, c.attempts)
    ensures Run(h + CallEvents(upstream, c)) == Run(h) + |c.attempts|
    ensures LastFailure(h + CallEvents(upstream, c)) == c.attempts[|c.attempts| - 1].at
  {
    hide Reported, Run, LastFailure, Of, Returned, AllFail;
    var ask := Event(upstream, Operation.Allow, c.askedAt);
    var es := FailureEvents(upstream, c.attempts);
    FailedCall(h, upstream, c.body, c.attempts);
    assert h + CallEvents(upstream, c) == (h + [ask]) + es;
    RunStep(h, ask);
    RunAfterFailures(h + [ask], upstream, c.attempts);
    LatestFailure(h + [ask], upstream, c.attempts);
  }

  lemma {:induction false} RunAfterCalls(h: seq<Event>, upstream: string, calls: seq<Call>, perCall: nat)
    requires perCall > 0 && FailingCalls(calls, perCall)
    ensures Run(AfterCalls(h, upstream, calls, perCall)) == Run(h) + |calls| * perCall
  {
    if calls != [] {
      var n := |calls| - 1;
      RunAfterCalls(h, upstream, calls[..n], perCall);
      CallAddsFailures(AfterCalls(h, upstream, calls[..n], perCall), upstream, calls[n]);
      MulMono(n, n, perCall);
    }
  }

  /** ceil(threshold / perCall). */
  function CallsToTrip(threshold: nat, perCall: nat): nat
    requires perCall > 0
  {
    (threshold + perCall - 1) / perCall
  }

  lemma CeilingBounds(threshold: nat, perCall: nat, k: nat)
    requires perCall > 0
    ensures k < CallsToTrip(threshold, perCall) <==> k * perCall < threshold
  {
    var m := CallsToTrip(threshold, perCall);
    var rest := (threshold + perCall - 1) % perCall;
    assert threshold + perCall - 1 == m * perCall + rest;
    if k < m {
      MulMono(k + 1, m, perCall);
    } else {
      MulMono(m, k, perCall);
    }
  }

  lemma MulMono(a: nat, b: nat, c: nat)
    requires a <= b
    ensures a * c <= b * c && (a + 1) * c == a * c + c
  {
  }

  /** From a breaker without failures: after calls whose attempts all fail, `allow`
      admits if and only if their failures, as a 32-bit count, are below the
      threshold, or the recovery time of the last attempt is over. */
  lemma AdmittedAfterCalls(h: seq<Event>, upstream: string, calls: seq<Call>, threshold: nat, retries: nat,
                           recoverySecs: nat, now: nat)
    requires threshold > 0 && Run(h) == 0 && FailingCalls(calls, retries + 1)
    ensures Admits(AfterCalls(h, upstream, calls, retries + 1), threshold, recoverySecs, now)
            <==> || (|calls| * (retries + 1)) % U32 < threshold
                 || !Recent(now, calls[|calls| - 1].attempts[retries].at, recoverySecs)
  {
    hide Reported, LastFailure, Run, Admits, AllFail;
    RunAfterCalls(h, upstream, calls, retries + 1);
    RefusesExactly(AfterCalls(h, upstream, calls, retries + 1), threshold, recoverySecs, now);
    if calls != [] {
      var n := |calls| - 1;
      CallAddsFailures(AfterCalls(h, upstream, calls[..n], retries + 1), upstream, calls[n]);
    }
  }

  /** How many of `limit` calls get through within the recovery time: up to the first
      that finds the 32-bit count at the threshold or above. */
  function Admitted(threshold: nat, perCall: nat, limit: nat, k: nat := 0): (n: nat)
    requires k <= limit
    ensures k <= n <= limit && (n < limit ==> (n * perCall) % U32 >= threshold)
    ensures forall j :: k <= j < n ==> (j * perCall) % U32 < threshold
    decreases limit - k
  {
    if k == limit || (k * perCall) % U32 >= threshold then k else Admitted(threshold, perCall, limit, k + 1)
  }

  lemma TripBounds(threshold: nat, perCall: nat)
    requires threshold > 0 && perCall > 0
    ensures var trip := CallsToTrip(threshold, perCall);
            && trip > 0 && threshold <= trip * perCall < threshold + perCall
            && forall j: nat :: j < trip ==> j * perCall < threshold
  {
    var trip := CallsToTrip(threshold, perCall);
    CeilingBounds(threshold, perCall, trip);
    forall j: nat
      ensures j < trip <==> j * perCall < threshold
    {
      CeilingBounds(threshold, perCall, j);
    }
    assert 0 * perCall < threshold;
    MulMono(trip - 1, trip - 1, perCall);
  }

  /** The first `trip` calls find the count below the threshold; the next one finds it
      at the threshold or above unless the count has wrapped. */
  lemma TripCounts(threshold: nat, perCall: nat, j: nat)
    requires 0 < threshold < U32 && 0 < perCall <= U32
    ensures var trip := CallsToTrip(threshold, perCall);
            && (j < trip ==> (j * perCall) % U32 < threshold)
            && (j == trip ==> ((j * perCall) % U32 >= threshold <==> trip * perCall < U32))
  {
    hide CallsToTrip;
    TripBounds(threshold, perCall);
    var failures := j * perCall;
    if j == CallsToTrip(threshold, perCall) && failures >= U32 {
      assert failures % U32 == failures - U32;
    }
  }

  lemma CeilingAtLimit(threshold: nat, perCall: nat, limit: nat)
    requires 0 < threshold < U32 && 0 < perCall <= U32
    ensures var trip := CallsToTrip(threshold, perCall);
            && (trip * perCall < U32 ==> Admitted(threshold, perCall, limit) == if limit < trip then limit else trip)
            && (trip * perCall >= U32 && limit > trip ==> Admitted(threshold, perCall, limit) > trip)
  {
    hide CallsToTrip;
    var trip, n := CallsToTrip(threshold, perCall), Admitted(threshold, perCall, limit);
    TripCounts(threshold, perCall, n);
    TripCounts(threshold, perCall, trip);
  }

  /** Exactly ceil(T / (r + 1)) failing calls get through, however many are made, if
      and only if their failures fit into 32 bits; otherwise the count wraps past
      the threshold and more get through. */
  lemma ExactlyCeilingCallsAdmitted(threshold: nat, perCall: nat)
    requires 0 < threshold < U32 && 0 < perCall <= U32
    ensures var trip := CallsToTrip(threshold, perCall);
            (forall limit: nat :: Admitted(threshold, perCall, limit) == if limit < trip then limit else trip)
            <==> trip * perCall < U32
  {
    hide CallsToTrip, Admitted;
    var trip := CallsToTrip(threshold, perCall);
    if trip * perCall < U32 {
      forall limit: nat
        ensures Admitted(threshold, perCall, limit) == if limit < trip then limit else trip
      {
        CeilingAtLimit(threshold, perCall, limit);
      }
    } else {
      CeilingAtLimit(threshold, perCall, trip + 1);
    }
  }

  // ----- The two together -----

  /** Each call is asked for within the recovery time of the call before it. */
  predicate WithinRecovery(calls: seq<Call>, retries: nat, recoverySecs: nat)
    requires FailingCalls(calls, retries + 1)
  {
    forall k :: 0 < k < |calls| ==> Recent(calls[k].askedAt, calls[k - 1].attempts[retries].at, recoverySecs)
  }

  lemma OneMoreCall(h: seq<Event>, upstream: string, calls: seq<Call>, n: nat, perCall: nat)
    requires perCall > 0 && FailingCalls(calls, perCall) && n < |calls|
    ensures FailingCalls(calls[..n], perCall) && FailingCalls(calls[..n + 1], perCall)
    ensures AfterCalls(h, upstream, calls[..n + 1], perCall)
            == AfterCalls(h, upstream, calls[..n], perCall) + CallEvents(upstream, calls[n])
  {
    assert calls[..n + 1][..n] == calls[..n];
  }

  lemma NoCalls(h: seq<Event>, upstream: string, calls: seq<Call>, perCall: nat)
    requires perCall > 0 && FailingCalls(calls, perCall)
    ensures AfterCalls(h, upstream, calls[..0], perCall) == h
  {
  }

  lemma OfMoreEvents(h: seq<Event>, upstream: string, c: Call)
    requires c.attempts != []
    ensures var ask := Event(upstream, Operation.Allow, c.askedAt);
            Of(h + [ask] + Reported(upstream, c.body, c.attempts), upstream)
            == Of(h, upstream) + CallEvents(upstream, c)
  {
    var ask := Event(upstream, Operation.Allow, c.askedAt);
    OfSame(h, CallEvents(upstream, c), upstream);
    Associate(h, [ask], Reported(upstream, c.body, c.attempts));
  }

  /** The next call is admitted if and only if it is among those that get through. */
  lemma NextIsAdmitted(h: seq<Event>, upstream: string, calls: seq<Call>, n: nat, threshold: nat, retries: nat,
                       recoverySecs: nat)
    requires threshold > 0 && Run(h) == 0 && n < |calls|
    requires FailingCalls(calls, retries + 1) && WithinRecovery(calls, retries, recoverySecs)
    requires n <= Admitted(threshold, retries + 1, |calls|)
    ensures FailingCalls(calls[..n], retries + 1)
    ensures Admits(AfterCalls(h, upstream, calls[..n], retries + 1), threshold, recoverySecs, calls[n].askedAt)
            <==> n < Admitted(threshold, retries + 1, |calls|)
  {
    hide Run, Admits, AllFail, AfterCalls;
    AdmittedAfterCalls(h, upstream, calls[..n], threshold, retries, recoverySecs, calls[n].askedAt);
    assert n > 0 ==> calls[..n][n - 1] == calls[n - 1];
  }

  /** Sends calls until the breaker refuses one, or all are through.  When every
      attempt fails, exactly the first `Admitted` ones get through, each with its own
      last error. */
  method CallUntilRefused(cb: CircuitBreakerMap, upstream: string, maxRetries: nat, calls: seq<Call>)
    returns (replies: seq<Result<Response, ProxyError>>)
    requires cb.Valid() && cb.threshold > 0 && Run(Of(cb.history, upstream)) == 0
    requires FailingCalls(calls, maxRetries + 1) && WithinRecovery(calls, maxRetries, cb.recoverySecs)
    modifies cb
    ensures cb.Valid()
    ensures |replies| == Admitted(cb.threshold, maxRetries + 1, |calls|)
    ensures forall k :: 0 <= k < |replies| ==> replies[k] == calls[k].attempts[maxRetries].answer && replies[k].Err?
    ensures Run(Of(cb.history, upstream)) == |replies| * (maxRetries + 1)
  {
    hide Reported, Run, Of, Admits, AllFail, Returned, Reflects, Admitted, AfterCalls, WithinRecovery;
    NoCalls(Of(cb.history, upstream), upstream, calls, maxRetries + 1);
    ghost var h := Of(cb.history, upstream);
    replies := [];
    while |replies| < |calls|
      invariant |replies| <= Admitted(cb.threshold, maxRetries + 1, |calls|) && cb.Valid()
      invariant forall k :: 0 <= k < |replies| ==> replies[k] == calls[k].attempts[maxRetries].answer && replies[k].Err?
      invariant Of(cb.history, upstream) == AfterCalls(h, upstream, calls[..|replies|], maxRetries + 1)
      decreases |calls| - |replies|
    {
      var n := |replies|;
      var c := calls[n];
      ghost var before := cb.history;
      NextIsAdmitted(h, upstream, calls, n, cb.threshold, maxRetries, cb.recoverySecs);
      var allowed := cb.Allow(upstream, c.askedAt);
      if !allowed {
        RunAfterCalls(h, upstream, calls[..n], maxRetries + 1);
        NoMoreFailures(before, upstream, c.askedAt);
        return;
      }
      FailedCall([], upstream, c.body, c.attempts);
      FailsWithError(c.body, c.attempts, maxRetries);
      var reply := ProxyWithRetry(cb, upstream, maxRetries, c.body, c.attempts);
      OfMoreEvents(before, upstream, c);
      OneMoreCall(h, upstream, calls, n, maxRetries + 1);
      replies := replies + [reply];
    }
    RunAfterCalls(h, upstream, calls[..|replies|], maxRetries + 1);
  }

  lemma NoMoreFailures(h: seq<Event>, upstream: string, now: nat)
    ensures Run(Of(h + [Event(upstream, Operation.Allow, now)], upstream)) == Run(Of(h, upstream))
  {
    var e := Event(upstream, Operation.Allow, now);
    OfAppend(h, e, upstream);
    RunStep(Of(h, upstream), e);
  }

  lemma FailsWithError(body: Result<(), string>, attempts: seq<Attempt>, k: nat)
    requires AllFail(body, attempts) && k < |attempts|
    ensures attempts[k].answer.Err?
  {
  }
}
