/** Active health checks with hysteresis (src/server/health_checker.rs).

    The three maps are proved to be a function of each key's own probe history,
    and with fixed thresholds "unhealthy" is characterised by that history alone. */
module HealthChecker {
  import opened Wrappers
  import opened Machine

  /** One recorded probe, with the threshold that was passed along: the healthy
      threshold after a success, the unhealthy threshold after a failure. */
  datatype Probe = Probe(key: string, ok: bool, threshold: nat)

  function Of(history: seq<Probe>, key: string): seq<Probe> {
    if history == [] then []
    else
      var n := |history| - 1;
      Of(history[..n], key) + (if history[n].key == key then [history[n]] else [])
  }

  lemma OfAppend(history: seq<Probe>, p: Probe, key: string)
    ensures Of(history + [p], key) == if p.key == key then Of(history, key) + [p] else Of(history, key)
  {
    assert (history + [p])[..|history|] == history;
  }

  /** Length of the block of equal outcomes `ok` at the end of the history. */
  function TailRun(h: seq<Probe>, ok: bool): (n: nat)
    ensures n <= |h|
  {
    if h != [] && h[|h| - 1].ok == ok then TailRun(h[..|h| - 1], ok) + 1 else 0
  }

  function Counter(h: seq<Probe>, ok: bool): Option<nat> {
    if h != [] && h[|h| - 1].ok == ok then Some(TailRun(h, ok) % U32) else None
  }

  /** The mark after the history: the latest probe whose run reached its threshold
      decides. */
  predicate Unhealthy(h: seq<Probe>) {
    h != []
    && var last := h[|h| - 1];
       if TailRun(h, last.ok) % U32 >= last.threshold then !last.ok else Unhealthy(h[..|h| - 1])
  }

  function CountOf(counter: Option<nat>): nat {
    match counter
    case None => 0
    case Some(n) => n
  }

  /** A probe extends the run of its own outcome and ends the other. */
  lemma RunGrows(h: seq<Probe>, p: Probe)
    ensures var count := (CountOf(Counter(h, p.ok)) + 1) % U32;
            && Counter(h + [p], p.ok) == Some(count)
            && Counter(h + [p], !p.ok) == None
            && (Unhealthy(h + [p]) <==> if count >= p.threshold then !p.ok else Unhealthy(h))
  {
    assert (h + [p])[..|h + [p]| - 1] == h;
    WrapSucc(TailRun(h, p.ok));
  }

  /** The three maps say of `key` what its history `h` implies. */
  ghost predicate KeyReflects(unhealthy: set<string>, failCounts: map<string, nat>, okCounts: map<string, nat>,
                              key: string, h: seq<Probe>)
  {
    && (key in unhealthy <==> Unhealthy(h))
    && Find(failCounts, key) == Counter(h, false)
    && Find(okCounts, key) == Counter(h, true)
  }

  class HealthStatus {
    var unhealthy: set<string>
    var failCounts: map<string, nat>
    var okCounts: map<string, nat>
    ghost var history: seq<Probe>

    ghost predicate Valid()
      reads this
    {
      forall key :: KeyReflects(unhealthy, failCounts, okCounts, key, Of(history, key))
    }

    constructor ()
      ensures Valid() && history == []
    {
      unhealthy, failCounts, okCounts, history := {}, map[], map[], [];
    }

    predicate IsHealthy(key: string)
      reads this
    {
      key !in unhealthy
    }

    /** Appends a probe to the history once the maps hold its effect on its key
        and nothing else changed. */
    ghost method Record(p: Probe, unhealthy0: set<string>, fail0: map<string, nat>, ok0: map<string, nat>)
      requires forall k :: KeyReflects(unhealthy0, fail0, ok0, k, Of(history, k))
      requires KeyReflects(unhealthy, failCounts, okCounts, p.key, Of(history, p.key) + [p])
      requires forall k :: k != p.key ==> (k in unhealthy <==> k in unhealthy0)
      requires forall k :: k != p.key ==> Find(failCounts, k) == Find(fail0, k)
      requires forall k :: k != p.key ==> Find(okCounts, k) == Find(ok0, k)
      modifies this`history
      ensures Valid() && history == old(history) + [p]
    {
      history := history + [p];
      forall k
        ensures KeyReflects(unhealthy, failCounts, okCounts, k, Of(history, k))
      {
        OfAppend(old(history), p, k);
        assert KeyReflects(unhealthy0, fail0, ok0, k, Of(old(history), k));
      }
    }

    method RecordSuccess(key: string, healthyThreshold: nat)
      requires Valid()
      modifies this
      ensures Valid() && history == old(history) + [Probe(key, true, healthyThreshold)]
    {
      ghost var p := Probe(key, true, healthyThreshold);
      RunGrows(Of(history, key), p);
      assert KeyReflects(unhealthy, failCounts, okCounts, key, Of(history, key));
      failCounts := failCounts - {key};
      var count := (CountOf(Find(okCounts, key)) + 1) % U32;
      okCounts := okCounts[key := count];
      if count >= healthyThreshold {
        unhealthy := unhealthy - {key};
      }
      Record(p, old(unhealthy), old(failCounts), old(okCounts));
    }

    method RecordFailure(key: string, unhealthyThreshold: nat)
      requires Valid()
      modifies this
      ensures Valid() && history == old(history) + [Probe(key, false, unhealthyThreshold)]
    {
      ghost var p := Probe(key, false, unhealthyThreshold);
      RunGrows(Of(history, key), p);
      assert KeyReflects(unhealthy, failCounts, okCounts, key, Of(history, key));
      okCounts := okCounts - {key};
      var count := (CountOf(Find(failCounts, key)) + 1) % U32;
      failCounts := failCounts[key := count];
      if count >= unhealthyThreshold {
        unhealthy := unhealthy + {key};
      }
      Record(p, old(unhealthy), old(failCounts), old(okCounts));
    }
  }

  /** No key is ever in both counter maps. */
  lemma CountersExclusive(status: HealthStatus, key: string)
    requires status.Valid()
    ensures !(key in status.failCounts && key in status.okCounts)
  {
    assert KeyReflects(status.unhealthy, status.failCounts, status.okCounts, key, Of(status.history, key));
  }

  // ----- Hysteresis in terms of blocks -----

  ghost predicate Block(h: seq<Probe>, i: nat, n: nat, ok: bool) {
    i + n <= |h| && forall k :: i <= k < i + n ==> h[k].ok == ok
  }

  /** The thresholds of all probes are `healthy` and `unhealthy`. */
  ghost predicate FixedThresholds(h: seq<Probe>, healthy: nat, unhealthy: nat) {
    forall k :: 0 <= k < |h| ==> h[k].threshold == if h[k].ok then healthy else unhealthy
  }

  function AtLeastOne(n: nat): nat {
    if n == 0 then 1 else n
  }

  /** A block of `n` successes starts at or after `from`. */
  ghost predicate RecoversFrom(h: seq<Probe>, from: nat, n: nat) {
    exists j: nat :: from <= j && Block(h, j, n, true)
  }

  /** Some block of `u` failures has no block of `g` successes after it. */
  ghost predicate Tripped(h: seq<Probe>, g: nat, u: nat) {
    exists i: nat :: Block(h, i, u, false) && !RecoversFrom(h, i + u, g)
  }

  lemma {:induction false} TailRunExact(h: seq<Probe>, ok: bool, n: nat)
    requires n <= |h|
    ensures Block(h, |h| - n, n, ok) <==> TailRun(h, ok) >= n
  {
    if n > 0 {
      var init := h[..|h| - 1];
      TailRunExact(init, ok, n - 1);
      if Block(h, |h| - n, n, ok) {
        assert Block(init, |init| - (n - 1), n - 1, ok);
      }
      if TailRun(h, ok) >= n {
        assert Block(init, |init| - (n - 1), n - 1, ok);
        assert forall k :: |h| - n <= k < |h| - 1 ==> h[k] == init[k];
      }
    }
  }

  /** Blocks of the prefix are the blocks of the whole that end before it. */
  lemma BlockOfPrefix(h: seq<Probe>, i: nat, n: nat, ok: bool)
    requires h != [] && i + n <= |h| - 1
    ensures Block(h, i, n, ok) <==> Block(h[..|h| - 1], i, n, ok)
  {
    assert forall k :: 0 <= k < |h| - 1 ==> h[k] == h[..|h| - 1][k];
  }

  /** A block that the whole history holds is one of the prefix, unless it is the
      end of a run that is too short for it. */
  lemma ShortRunBlock(h: seq<Probe>, i: nat, n: nat, ok: bool)
    requires h != [] && n > 0 && TailRun(h, ok) < n
    ensures Block(h, i, n, ok) <==> Block(h[..|h| - 1], i, n, ok)
  {
    if i + n == |h| {
      TailRunExact(h, ok, n);
      assert |h| - n == i;
    } else if i + n < |h| {
      BlockOfPrefix(h, i, n, ok);
    }
  }

  lemma RecoversOfPrefix(h: seq<Probe>, init: seq<Probe>, from: nat, n: nat)
    requires h != [] && init == h[..|h| - 1] && n > 0 && TailRun(h, true) < n
    ensures RecoversFrom(h, from, n) <==> RecoversFrom(init, from, n)
  {
    if RecoversFrom(h, from, n) {
      var j: nat :| from <= j && Block(h, j, n, true);
      ShortRunBlock(h, j, n, true);
    }
    if RecoversFrom(init, from, n) {
      var j: nat :| from <= j && Block(init, j, n, true);
      ShortRunBlock(h, j, n, true);
    }
  }

  lemma TrippedOfPrefix(h: seq<Probe>, init: seq<Probe>, g: nat, u: nat)
    requires h != [] && init == h[..|h| - 1]
    requires g > 0 && u > 0 && TailRun(h, true) < g && TailRun(h, false) < u
    ensures Tripped(h, g, u) <==> Tripped(init, g, u)
  {
    if Tripped(h, g, u) {
      var i: nat :| Block(h, i, u, false) && !RecoversFrom(h, i + u, g);
      ShortRunBlock(h, i, u, false);
      RecoversOfPrefix(h, init, i + u, g);
    }
    if Tripped(init, g, u) {
      var i: nat :| Block(init, i, u, false) && !RecoversFrom(init, i + u, g);
      ShortRunBlock(h, i, u, false);
      RecoversOfPrefix(h, init, i + u, g);
    }
  }

  lemma LongFailureTrips(h: seq<Probe>, g: nat, u: nat)
    requires g > 0 && u > 0 && TailRun(h, false) >= u
    ensures Tripped(h, g, u)
  {
    TailRunExact(h, false, u);
    assert Block(h, |h| - u, u, false) && !RecoversFrom(h, |h|, g);
    assert |h| - u + u == |h|;
  }

  lemma LongSuccessRecovers(h: seq<Probe>, g: nat, u: nat)
    requires g > 0 && u > 0 && TailRun(h, true) >= g
    ensures !Tripped(h, g, u)
  {
    TailRunExact(h, true, g);
    forall i: nat | Block(h, i, u, false)
      ensures RecoversFrom(h, i + u, g)
    {
      assert h[i + u - 1].ok == false;
      assert i + u - 1 < |h| - g;
      assert Block(h, |h| - g, g, true);
    }
  }

  lemma NothingTripped(h: seq<Probe>, g: nat, u: nat)
    requires h == [] && u > 0
    ensures !Tripped(h, g, u)
  {
  }

  lemma TailRunStep(h: seq<Probe>)
    requires h != []
    ensures var (init, ok) := (h[..|h| - 1], h[|h| - 1].ok);
            TailRun(h, ok) == TailRun(init, ok) + 1 && TailRun(h, !ok) == 0
  {
  }

  /** With fixed thresholds below 2^32, where 0 acts as 1, a key is unhealthy after
      any run if and only if its history holds a block of enough failures that no
      block of enough successes follows.  Counter overflow does not matter. */
  lemma {:induction false} HysteresisIsHistory(h: seq<Probe>, healthy: nat, unhealthy: nat)
    requires FixedThresholds(h, healthy, unhealthy) && healthy < U32 && unhealthy < U32
    ensures Unhealthy(h) <==> Tripped(h, AtLeastOne(healthy), AtLeastOne(unhealthy))
  {
    hide Tripped, RecoversFrom, Block, TailRun;
    var g, u := AtLeastOne(healthy), AtLeastOne(unhealthy);
    if h == [] {
      NothingTripped(h, g, u);
    } else {
      var init, last := h[..|h| - 1], h[|h| - 1];
      HysteresisIsHistory(init, healthy, unhealthy);
      TailRunStep(h);
      if TailRun(h, false) >= u {
        LongFailureTrips(h, g, u);
        if TailRun(init, false) >= u {
          LongFailureTrips(init, g, u);
        } else {
          assert TailRun(h, false) % U32 == TailRun(h, false);
        }
      } else if TailRun(h, true) >= g {
        LongSuccessRecovers(h, g, u);
        if TailRun(init, true) >= g {
          LongSuccessRecovers(init, g, u);
        } else {
          assert TailRun(h, true) % U32 == TailRun(h, true);
        }
      } else {
        TrippedOfPrefix(h, init, g, u);
      }
    }
  }

  /** After any run of the checker, a key is reported healthy exactly when its own
      history is not tripped, whatever happened to other keys. */
  lemma HealthIsHistory(status: HealthStatus, key: string, healthy: nat, unhealthy: nat)
    requires status.Valid() && healthy < U32 && unhealthy < U32
    requires FixedThresholds(Of(status.history, key), healthy, unhealthy)
    ensures status.IsHealthy(key) <==> !Tripped(Of(status.history, key), AtLeastOne(healthy), AtLeastOne(unhealthy))
  {
    hide Tripped, Of;
    HysteresisIsHistory(Of(status.history, key), healthy, unhealthy);
    assert KeyReflects(status.unhealthy, status.failCounts, status.okCounts, key, Of(status.history, key));
  }
}
