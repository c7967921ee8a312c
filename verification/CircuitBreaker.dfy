/** The per-upstream circuit breaker (src/server/circuit_breaker.rs).

    Each operation holds the entry's lock for its whole body, so it is one atomic
    step.  The breaker keeps two numbers per upstream; this module proves that
    they are a function of that upstream's own history of operations, and what
    the breaker therefore refuses.  The clock is an argument. */
module CircuitBreaker {
  import opened Wrappers
  import opened Machine

  datatype Operation = Allow | Success | Failure

  /** One breaker operation: what, for which upstream, at which second. */
  datatype Event = Event(upstream: string, op: Operation, now: nat)

  datatype BreakState = BreakState(consecutiveFailures: nat, openSince: nat)

  // ----- The history of one upstream -----

  function Of(history: seq<Event>, upstream: string): seq<Event> {
    if history == [] then []
    else
      var n := |history| - 1;
      Of(history[..n], upstream) + (if history[n].upstream == upstream then [history[n]] else [])
  }

  /** Failures since the last success. */
  function Run(h: seq<Event>): nat {
    if h == [] then 0
    else match h[|h| - 1].op
      case Allow => Run(h[..|h| - 1])
      case Success => 0
      case Failure => Run(h[..|h| - 1]) + 1
  }

  /** Time of the latest failure. */
  function LastFailure(h: seq<Event>): nat {
    if h == [] then 0
    else if h[|h| - 1].op.Failure? then h[|h| - 1].now
    else LastFailure(h[..|h| - 1])
  }

  /** Time of the latest failure since the last success at which the 32-bit count
      stood at the threshold or above; 0 if there is none. */
  function OpenStamp(h: seq<Event>, threshold: nat): nat {
    if h == [] then 0
    else match h[|h| - 1].op
      case Allow => OpenStamp(h[..|h| - 1], threshold)
      case Success => 0
      case Failure =>
        if Run(h) % U32 >= threshold then h[|h| - 1].now else OpenStamp(h[..|h| - 1], threshold)
  }

  /** An entry exists once the upstream was asked for or has failed. */
  predicate Touched(h: seq<Event>) {
    h != [] && (!h[|h| - 1].op.Success? || Touched(h[..|h| - 1]))
  }

  function Expected(h: seq<Event>, threshold: nat): Option<BreakState> {
    if threshold > 0 && Touched(h) then Some(BreakState(Run(h) % U32, OpenStamp(h, threshold))) else None
  }

  /** The verdict of `allow` after history `h`. */
  predicate Admits(h: seq<Event>, threshold: nat, recoverySecs: nat, now: nat) {
    || threshold == 0
    || Run(h) % U32 < threshold
    || SaturatingSub(now, OpenStamp(h, threshold)) >= recoverySecs
  }

  /** The state the entry of an upstream starts from. */
  function StateOr0(entry: Option<BreakState>): BreakState {
    match entry
    case Some(s) => s
    case None => BreakState(0, 0)
  }

  lemma UntouchedIsClosed(h: seq<Event>, threshold: nat)
    requires !Touched(h)
    ensures Run(h) == 0 && OpenStamp(h, threshold) == 0
  {
  }

  lemma RunStep(h: seq<Event>, e: Event)
    ensures Run(h + [e]) == match e.op
                            case Allow => Run(h)
                            case Success => 0
                            case Failure => Run(h) + 1
  {
    assert (h + [e])[..|h + [e]| - 1] == h;
  }

  /** How one more operation moves the expected state. */
  lemma ExpectedStep(h: seq<Event>, e: Event, threshold: nat)
    requires threshold > 0
    ensures var s := StateOr0(Expected(h, threshold));
            && s == BreakState(Run(h) % U32, OpenStamp(h, threshold))
            && Expected(h + [e], threshold) == match e.op
               case Allow => Some(s)
               case Success => (if Expected(h, threshold).Some? then Some(BreakState(0, 0)) else None)
               case Failure =>
                 var count := (s.consecutiveFailures + 1) % U32;
                 Some(BreakState(count, if count >= threshold then e.now else s.openSince))
  {
    assert (h + [e])[..|h + [e]| - 1] == h;
    RunStep(h, e);
    WrapSucc(Run(h));
    if !Touched(h) {
      UntouchedIsClosed(h, threshold);
    }
  }

  /** Every entry is determined by its own upstream's history. */
  ghost predicate Reflects(states: map<string, BreakState>, history: seq<Event>, threshold: nat) {
    forall u :: Find(states, u) == Expected(Of(history, u), threshold)
  }

  lemma OfAppend(history: seq<Event>, e: Event, u: string)
    ensures Of(history + [e], u) == if e.upstream == u then Of(history, u) + [e] else Of(history, u)
  {
    assert (history + [e])[..|history|] == history;
  }

  lemma ReflectsStep(states: map<string, BreakState>, after: map<string, BreakState>, history: seq<Event>, e: Event,
                     threshold: nat)
    requires Reflects(states, history, threshold)
    requires Find(after, e.upstream) == Expected(Of(history, e.upstream) + [e], threshold)
    requires forall u :: u != e.upstream ==> Find(after, u) == Find(states, u)
    ensures Reflects(after, history + [e], threshold)
  {
    forall u
      ensures Find(after, u) == Expected(Of(history + [e], u), threshold)
    {
      OfAppend(history, e, u);
      assert Find(states, u) == Expected(Of(history, u), threshold);
    }
  }

  // ----- The breaker -----

  class CircuitBreakerMap {
    var states: map<string, BreakState>
    const threshold: nat
    const recoverySecs: nat
    ghost var history: seq<Event>

    ghost predicate Valid()
      reads this
    {
      threshold < U32 && Reflects(states, history, threshold)
    }

    constructor (threshold: nat, recoverySecs: nat)
      requires threshold < U32
      ensures Valid() && history == [] && this.threshold == threshold && this.recoverySecs == recoverySecs
    {
      this.threshold, this.recoverySecs := threshold, recoverySecs;
      states, history := map[], [];
    }

    method Allow(upstream: string, now: nat) returns (allowed: bool)
      requires Valid()
      modifies this
      ensures Valid() && history == old(history) + [Event(upstream, Operation.Allow, now)]
      ensures allowed == Admits(Of(old(history), upstream), threshold, recoverySecs, now)
    {
      ghost var e, h := Event(upstream, Operation.Allow, now), Of(history, upstream);
      assert Find(states, upstream) == Expected(h, threshold);
      if threshold == 0 {
        ReflectsStep(states, states, history, e, threshold);
        history := history + [e];
        return true;
      }
      ExpectedStep(h, e, threshold);
      ghost var before := states;
      if upstream !in states {
        states := states[upstream := BreakState(0, 0)];
      }
      ReflectsStep(before, states, history, e, threshold);
      history := history + [e];
      var entry := states[upstream];
      if entry.consecutiveFailures < threshold {
        return true;
      }
      return SaturatingSub(now, entry.openSince) >= recoverySecs;
    }

    method RecordSuccess(upstream: string, now: nat)
      requires Valid()
      modifies this
      ensures Valid() && history == old(history) + [Event(upstream, Success, now)]
    {
      ghost var e, h := Event(upstream, Success, now), Of(history, upstream);
      assert Find(states, upstream) == Expected(h, threshold);
      ghost var before := states;
      if threshold != 0 {
        ExpectedStep(h, e, threshold);
        if upstream in states {
          states := states[upstream := BreakState(0, 0)];
        }
      }
      ReflectsStep(before, states, history, e, threshold);
      history := history + [e];
    }

    method RecordFailure(upstream: string, now: nat)
      requires Valid()
      modifies this
      ensures Valid() && history == old(history) + [Event(upstream, Failure, now)]
    {
      ghost var e, h := Event(upstream, Failure, now), Of(history, upstream);
      assert Find(states, upstream) == Expected(h, threshold);
      ghost var before := states;
      if threshold != 0 {
        ExpectedStep(h, e, threshold);
        if upstream !in states {
          states := states[upstream := BreakState(0, 0)];
        }
        var prev := states[upstream].consecutiveFailures;
        var count := (prev + 1) % U32;
        states := states[upstream := states[upstream].(consecutiveFailures := count)];
        if count >= threshold {
          states := states[upstream := states[upstream].(openSince := now)];
        }
      }
      ReflectsStep(before, states, history, e, threshold);
      history := history + [e];
    }
  }

  // ----- What the stored numbers mean -----

  /** Time of the `k`-th failure since the last success. */
  function FailureTime(h: seq<Event>, k: nat): nat
    requires 1 <= k <= Run(h)
  {
    var last := h[|h| - 1];
    if last.op.Failure? && k == Run(h) then last.now else FailureTime(h[..|h| - 1], k)
  }

  /** Of the first `n` failures, the last one at which the 32-bit count stood at the
      threshold or above; 0 if there is none. */
  function LastAtThreshold(n: nat, threshold: nat): (k: nat)
    requires 0 < threshold < U32
    ensures k <= n && (k > 0 ==> k % U32 >= threshold)
    ensures forall j :: k < j <= n ==> j % U32 < threshold
  {
    if n == 0 || n % U32 >= threshold then n else LastAtThreshold(n - 1, threshold)
  }

  /** The stamp is the time of that failure, or 0. */
  lemma {:induction false} StampClosedForm(h: seq<Event>, threshold: nat)
    requires 0 < threshold < U32
    ensures var k := LastAtThreshold(Run(h), threshold);
            OpenStamp(h, threshold) == if k == 0 then 0 else FailureTime(h, k)
  {
    if h != [] && !h[|h| - 1].op.Success? {
      StampClosedForm(h[..|h| - 1], threshold);
    }
  }

  /** While the count stands at the threshold the stamp is that of the latest failure. */
  lemma {:induction false} StampIsLatest(h: seq<Event>, threshold: nat)
    requires 0 < threshold <= Run(h) % U32
    ensures OpenStamp(h, threshold) == LastFailure(h)
  {
    if h[|h| - 1].op.Allow? {
      StampIsLatest(h[..|h| - 1], threshold);
    }
  }

  /** After any interleaving of the operations over many upstreams, an entry holds
      the number of failures since that upstream's last success, as 32 bits, and the
      time of the latest of them that left the count at the threshold or above, 0 if
      none did; an upstream without an entry has no failures. */
  lemma EntryIsHistory(cb: CircuitBreakerMap, upstream: string)
    requires cb.Valid() && cb.threshold > 0
    ensures var h := Of(cb.history, upstream);
            match Find(cb.states, upstream)
            case None => Run(h) == 0
            case Some(s) =>
              var k := LastAtThreshold(Run(h), cb.threshold);
              s.consecutiveFailures == Run(h) % U32 && s.openSince == if k == 0 then 0 else FailureTime(h, k)
  {
    hide Of, FailureTime, LastAtThreshold;
    var h := Of(cb.history, upstream);
    assert Find(cb.states, upstream) == Expected(h, cb.threshold);
    StampClosedForm(h, cb.threshold);
    if !Touched(h) {
      UntouchedIsClosed(h, cb.threshold);
    }
  }

  /** The recovery time that starts at `since` is not over at `now`.  A clock that
      was set back does not end it. */
  predicate Recent(now: nat, since: nat, recoverySecs: nat) {
    recoverySecs > 0 && now < since + recoverySecs
  }

  /** `allow` refuses exactly when the breaker is on, the 32-bit count of failures
      since the last success is at the threshold or above, and the latest of them is
      younger than the recovery time. */
  lemma RefusesExactly(h: seq<Event>, threshold: nat, recoverySecs: nat, now: nat)
    ensures !Admits(h, threshold, recoverySecs, now)
            <==> 0 < threshold <= Run(h) % U32 && Recent(now, LastFailure(h), recoverySecs)
  {
    if 0 < threshold <= Run(h) % U32 {
      StampIsLatest(h, threshold);
    }
  }

  /** What the breaker is documented to refuse: a request within the recovery time
      of the latest failure once the failures in a row reach the threshold. */
  predicate MustRefuse(h: seq<Event>, threshold: nat, recoverySecs: nat, now: nat) {
    0 < threshold <= Run(h) && Recent(now, LastFailure(h), recoverySecs)
  }

  /** The breaker refuses as documented at all times if and only if it is off, or the
      failures in a row stay below the threshold, or their 32-bit count has not
      wrapped to below it. */
  lemma RefusesAsDocumentedExactly(h: seq<Event>, threshold: nat, recoverySecs: nat)
    ensures (forall now: nat ::
               !Admits(h, threshold, recoverySecs, now) <==> MustRefuse(h, threshold, recoverySecs, now))
            <==> threshold == 0 || recoverySecs == 0 || Run(h) < threshold || threshold <= Run(h) % U32
  {
    forall now: nat
      ensures !Admits(h, threshold, recoverySecs, now)
              <==> 0 < threshold <= Run(h) % U32 && Recent(now, LastFailure(h), recoverySecs)
    {
      RefusesExactly(h, threshold, recoverySecs, now);
    }
    assert Run(h) % U32 <= Run(h);
    if Run(h) % U32 < threshold <= Run(h) && recoverySecs > 0 {
      CounterWrapCloses(h, threshold, recoverySecs);
    }
  }

  /** A count that has wrapped to below the threshold closes the breaker: it admits
      even in the second of the latest failure, where it must refuse. */
  lemma CounterWrapCloses(h: seq<Event>, threshold: nat, recoverySecs: nat)
    requires Run(h) % U32 < threshold <= Run(h) && recoverySecs > 0
    ensures forall now: nat :: Admits(h, threshold, recoverySecs, now)
    ensures MustRefuse(h, threshold, recoverySecs, LastFailure(h))
  {
  }

  /** A verdict leaves no mark: any number of calls to `allow` changes neither the
      count nor the stamp, so after the recovery time every caller is admitted
      until a failure is recorded, not a single probe. */
  lemma {:induction false} AllowLeavesNoMark(h: seq<Event>, asks: seq<Event>, threshold: nat, recoverySecs: nat,
                                             now: nat)
    requires forall k :: 0 <= k < |asks| ==> asks[k].op.Allow?
    ensures Run(h + asks) == Run(h) && OpenStamp(h + asks, threshold) == OpenStamp(h, threshold)
    ensures Admits(h + asks, threshold, recoverySecs, now) == Admits(h, threshold, recoverySecs, now)
  {
    if asks == [] {
      assert h + asks == h;
    } else {
      var n := |asks| - 1;
      AllowLeavesNoMark(h, asks[..n], threshold, recoverySecs, now);
      assert (h + asks)[..|h + asks| - 1] == h + asks[..n];
    }
  }
}
