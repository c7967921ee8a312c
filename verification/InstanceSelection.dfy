/** Choosing one instance of a service (src/server/handlers.rs):
    `select_service_instance` and `weighted_round_robin_pick`, and the fairness of
    the weighted rotation. */
module InstanceSelection {
  import opened Wrappers
  import opened Machine
  import opened Text
  import opened Instances
  import opened HealthChecker

  datatype Strategy = First | RoundRobin | Random | WeightedRoundRobin

  // ----- Weights -----

  /** `str::parse::<usize>`: an optional plus sign and digits, in range. */
  function ParseUsize(s: string): Option<nat> {
    var digits := if s != "" && s[0] == '+' then s[1..] else s;
    if digits == "" || !AllDigits(digits) || DecimalValue(digits) >= USIZE then None
    else Some(DecimalValue(digits))
  }

  function Weight(i: ServiceInstance): (w: nat)
    ensures w >= 1
  {
    var parsed := if "weight" in i.metadata then ParseUsize(i.metadata["weight"]) else None;
    var w := if parsed.Some? then parsed.value else 1;
    if w == 0 then 1 else w
  }

  /** The weight is 1 unless the metadata has a number that fits into 64 bits, written
      in digits after an optional plus sign; then it is that number, at least 1. */
  lemma WeightMeans(i: ServiceInstance, n: nat)
    ensures "weight" !in i.metadata ==> Weight(i) == 1
    ensures "weight" in i.metadata && n < USIZE && i.metadata["weight"] in {Decimal(n), "+" + Decimal(n)}
            ==> Weight(i) == if n == 0 then 1 else n
    ensures "weight" in i.metadata && n >= USIZE && i.metadata["weight"] in {Decimal(n), "+" + Decimal(n)}
            ==> Weight(i) == 1
    ensures "weight" in i.metadata && !IsNumber(i.metadata["weight"]) ==> Weight(i) == 1
  {
    DecimalRoundTrip(n);
    assert Decimal(n)[0] != '+';
    assert ("+" + Decimal(n))[1..] == Decimal(n);
  }

  /** Digits after an optional plus sign. */
  predicate IsNumber(s: string) {
    || (AllDigits(s) && s != "")
    || (s != "" && s[0] == '+' && AllDigits(s[1..]) && s[1..] != "")
  }

  function Weights(pool: seq<ServiceInstance>): (ws: seq<nat>)
    ensures |ws| == |pool| && forall k :: 0 <= k < |ws| ==> ws[k] == Weight(pool[k])
  {
    seq(|pool|, k requires 0 <= k < |pool| => Weight(pool[k]))
  }

  /** Sum of the first `n` weights. */
  function Cumulative(ws: seq<nat>, n: nat): nat
    requires n <= |ws|
  {
    if n == 0 then 0 else Cumulative(ws, n - 1) + ws[n - 1]
  }

  function Total(ws: seq<nat>): nat {
    Cumulative(ws, |ws|)
  }

  /** The position whose share of the cycle holds `c`. */
  predicate Owns(ws: seq<nat>, i: nat, c: nat) {
    i < |ws| && Cumulative(ws, i) <= c < Cumulative(ws, i + 1)
  }

  lemma {:induction false} CumulativeMonotone(ws: seq<nat>, a: nat, b: nat)
    requires a <= b <= |ws|
    ensures Cumulative(ws, a) <= Cumulative(ws, b)
  {
    if a < b {
      CumulativeMonotone(ws, a, b - 1);
    }
  }

  lemma OwnerUnique(ws: seq<nat>, i: nat, j: nat, c: nat)
    requires Owns(ws, i, c) && Owns(ws, j, c)
    ensures i == j
  {
    if i < j {
      CumulativeMonotone(ws, i + 1, j);
    } else if j < i {
      CumulativeMonotone(ws, j + 1, i);
    }
  }

  /** The owner of `c` among the positions up to `n`. */
  function OwnerBelow(ws: seq<nat>, n: nat, c: nat): (i: nat)
    requires n <= |ws| && c < Cumulative(ws, n)
    ensures i < n && Owns(ws, i, c)
  {
    if Cumulative(ws, n - 1) <= c then n - 1 else OwnerBelow(ws, n - 1, c)
  }

  function Owner(ws: seq<nat>, c: nat): (i: nat)
    requires c < Total(ws)
    ensures Owns(ws, i, c)
  {
    OwnerBelow(ws, |ws|, c)
  }

  lemma TotalPositive(pool: seq<ServiceInstance>)
    requires pool != []
    ensures Total(Weights(pool)) > 0
  {
    CumulativeMonotone(Weights(pool), 1, |pool|);
    assert Cumulative(Weights(pool), 1) == Cumulative(Weights(pool), 0) + Weights(pool)[0];
  }

  // ----- The scan -----

  /** The sum of the first `n` weights as the machine computes it. */
  function MachineSum(ws: seq<nat>, n: nat): nat
    requires n <= |ws|
  {
    Cumulative(ws, n) % USIZE
  }

  function MachineTotal(ws: seq<nat>): nat {
    MachineSum(ws, |ws|)
  }

  /** The first position from `i` on whose running sum exceeds `c`. */
  function ScanFrom(ws: seq<nat>, i: nat, c: nat): (r: nat)
    requires i < |ws| && c < MachineTotal(ws)
    ensures i <= r < |ws| && c < MachineSum(ws, r + 1)
    ensures forall j :: i < j <= r ==> MachineSum(ws, j) <= c
    decreases |ws| - i
  {
    if c < MachineSum(ws, i + 1) then i else ScanFrom(ws, i + 1, c)
  }

  lemma ScanStep(ws: seq<nat>, i: nat, c: nat)
    requires i < |ws| && c < MachineTotal(ws)
    ensures if c < MachineSum(ws, i + 1) then ScanFrom(ws, i, c) == i
            else i + 1 < |ws| && ScanFrom(ws, i, c) == ScanFrom(ws, i + 1, c)
  {
  }

  lemma WrapAdd(a: nat, b: nat)
    ensures (a % USIZE + b) % USIZE == (a + b) % USIZE
  {
    var x := a % USIZE + b;
    assert a + b == (a / USIZE + x / USIZE) * USIZE + x % USIZE;
    ModUnique(a + b, USIZE, a / USIZE + x / USIZE, x % USIZE);
  }

  lemma MachineSumStep(ws: seq<nat>, i: nat)
    requires i < |ws|
    ensures MachineSum(ws, 0) == 0
    ensures (MachineSum(ws, i) + ws[i]) % USIZE == MachineSum(ws, i + 1)
  {
    WrapAdd(Cumulative(ws, i), ws[i]);
  }

  lemma SomeWeight(ws: seq<nat>)
    requires Total(ws) > 0
    ensures ws != []
  {
  }

  lemma TotalIsLast(ws: seq<nat>)
    ensures MachineTotal(ws) == MachineSum(ws, |ws|)
  {
  }

  /** If the sum fits into the machine's integers, the scan finds the owner. */
  lemma ScanFindsOwner(ws: seq<nat>, c: nat)
    requires Total(ws) < USIZE && c < Total(ws)
    ensures MachineTotal(ws) == Total(ws) && ScanFrom(ws, 0, c) == Owner(ws, c)
  {
    hide Cumulative, Owner, ScanFrom;
    forall j: nat | j <= |ws|
      ensures MachineSum(ws, j) == Cumulative(ws, j)
    {
      CumulativeMonotone(ws, j, |ws|);
      SmallMod(Cumulative(ws, j), USIZE);
    }
    assert MachineSum(ws, |ws|) == Cumulative(ws, |ws|);
    SomeWeight(ws);
    var r := ScanFrom(ws, 0, c);
    assert MachineSum(ws, r) == Cumulative(ws, r) && MachineSum(ws, r + 1) == Cumulative(ws, r + 1);
    MachineSumStep(ws, 0);
    OwnerUnique(ws, r, Owner(ws, c), c);
  }

  // ----- The simple picker -----

  /** The healthy instances, in order. */
  function Healthy(instances: seq<ServiceInstance>, unhealthy: set<string>): (r: seq<ServiceInstance>)
    ensures |r| <= |instances|
    ensures |r| == |instances| ==> r == instances
    ensures forall x :: x in r <==> x in instances && HostPort(x.host, x.port) !in unhealthy
  {
    if instances == [] then []
    else
      var n := |instances| - 1;
      var before := Healthy(instances[..n], unhealthy);
      assert forall x :: x in instances <==> x in instances[..n] || x == instances[n];
      if HostPort(instances[n].host, instances[n].port) in unhealthy then before else before + [instances[n]]
  }

  /** The healthy instances if there are any, else all. */
  function Pool(instances: seq<ServiceInstance>, unhealthy: set<string>): (pool: seq<ServiceInstance>)
    ensures instances != [] ==> pool != []
  {
    var healthy := Healthy(instances, unhealthy);
    if healthy == [] then instances else healthy
  }

  /** The choice does not divide by zero: weights whose sum wraps around to 0 make the
      original panic. */
  predicate Selectable(pool: seq<ServiceInstance>, strategy: Strategy) {
    pool != [] && (strategy.WeightedRoundRobin? ==> MachineTotal(Weights(pool)) != 0)
  }

  /** One strategy on one pool, given the service's counter and a random word. */
  function Pick(pool: seq<ServiceInstance>, strategy: Strategy, counter: nat, word: nat): ServiceInstance
    requires Selectable(pool, strategy)
  {
    match strategy
    case First => pool[0]
    case RoundRobin => pool[counter % |pool|]
    case Random => pool[word % |pool|]
    case WeightedRoundRobin =>
      var ws := Weights(pool);
      pool[ScanFrom(ws, 0, counter % MachineTotal(ws))]
  }

  lemma PickCases(pool: seq<ServiceInstance>, strategy: Strategy, counter: nat, word: nat)
    requires Selectable(pool, strategy)
    ensures match strategy
            case First => Pick(pool, strategy, counter, word) == pool[0]
            case RoundRobin => Pick(pool, strategy, counter, word) == pool[counter % |pool|]
            case Random => Pick(pool, strategy, counter, word) == pool[word % |pool|]
            case WeightedRoundRobin =>
              var ws := Weights(pool);
              && MachineTotal(ws) > 0
              && Pick(pool, strategy, counter, word) == pool[ScanFrom(ws, 0, counter % MachineTotal(ws))]
  {
  }

  predicate Counts(strategy: Strategy) {
    strategy.RoundRobin? || strategy.WeightedRoundRobin?
  }

  // ----- The code -----

  /** The loop over the running sums; the last position is only its initial value. */
  method WeightedIndex(weights: seq<nat>, c: nat) returns (picked: nat)
    requires weights != [] && c < MachineTotal(weights)
    ensures picked == ScanFrom(weights, 0, c)
  {
    hide ScanFrom, MachineSum;
    var cum := 0;
    picked := |weights| - 1;
    var i := 0;
    MachineSumStep(weights, 0);
    while i < |weights|
      invariant i <= |weights| && cum == MachineSum(weights, i)
      invariant i < |weights| ==> ScanFrom(weights, i, c) == ScanFrom(weights, 0, c)
      invariant i == |weights| ==> cum <= c
    {
      MachineSumStep(weights, i);
      ScanStep(weights, i, c);
      cum := (cum + weights[i]) % USIZE;
      if c < cum {
        picked := i;
        break;
      }
      i := i + 1;
    }
    assert i < |weights|;
  }

  class Selector {
    /** Per-service counters; `fetch_add` wraps around. */
    var counters: map<string, nat>

    constructor ()
      ensures counters == map[]
    {
      counters := map[];
    }

    function Counter(service: string): nat
      reads this
    {
      if service in counters then counters[service] else 0
    }

    method FetchAdd(service: string) returns (c: nat)
      modifies this
      ensures c == old(Counter(service))
      ensures counters == old(counters)[service := (c + 1) % USIZE]
    {
      c := Counter(service);
      counters := counters[service := (c + 1) % USIZE];
    }

    method WeightedRoundRobinPick(instances: seq<ServiceInstance>, service: string) returns (r: ServiceInstance)
      requires Selectable(instances, WeightedRoundRobin)
      modifies this
      ensures r == Pick(instances, WeightedRoundRobin, old(Counter(service)), 0)
      ensures counters == old(counters)[service := (old(Counter(service)) + 1) % USIZE]
    {
      hide Weight, Weights, ScanFrom, MachineSum, MachineTotal, Pick;
      PickCases(instances, WeightedRoundRobin, Counter(service), 0);
      var weights := Weights(instances);
      var total := MachineTotal(weights);
      var c := FetchAdd(service);
      var idx := c % total;
      var cumulative := 0;
      r := instances[|instances| - 1];
      MachineSumStep(weights, 0);
      for i := 0 to |weights|
        invariant counters == old(counters)[service := (c + 1) % USIZE]
        invariant cumulative == MachineSum(weights, i)
        invariant i < |weights| ==> ScanFrom(weights, i, idx) == ScanFrom(weights, 0, idx)
        invariant i == |weights| ==> cumulative <= idx
      {
        MachineSumStep(weights, i);
        ScanStep(weights, i, idx);
        cumulative := (cumulative + weights[i]) % USIZE;
        if idx < cumulative {
          return instances[i];
        }
      }
      // The scan always stops before this point: the last sum is the total, which exceeds `idx`.
      TotalIsLast(weights);
      assert false;
    }

    /** The index computed by the branch for a partly healthy service. */
    method PickHealthyIndex(healthy: seq<ServiceInstance>, service: string, strategy: Strategy, word: nat)
      returns (idx: nat)
      requires Selectable(healthy, strategy)
      modifies this
      ensures idx < |healthy| && healthy[idx] == Pick(healthy, strategy, old(Counter(service)), word)
      ensures counters == if strategy.RoundRobin? || strategy.WeightedRoundRobin?
                          then old(counters)[service := (old(Counter(service)) + 1) % USIZE] else old(counters)
    {
      hide Weight, Weights, ScanFrom, MachineSum, MachineTotal, Pick, Counter;
      PickCases(healthy, strategy, Counter(service), word);
      match strategy {
        case First => idx := 0;
        case RoundRobin =>
          var c := FetchAdd(service);
          idx := c % |healthy|;
        case Random =>
          idx := word % |healthy|;
        case WeightedRoundRobin =>
          var weights := Weights(healthy);
          var total := MachineTotal(weights);
          var n := FetchAdd(service);
          var picked := WeightedIndex(weights, n % total);
          idx := picked;
      }
    }

    method SelectServiceInstance(instances: seq<ServiceInstance>, service: string, strategy: Strategy,
                                 health: HealthStatus, word: nat)
      returns (r: ServiceInstance)
      requires instances != [] && Selectable(Pool(instances, health.unhealthy), strategy)
      modifies this
      ensures r == Pick(Pool(instances, health.unhealthy), strategy, old(Counter(service)), word)
      ensures counters == if strategy.RoundRobin? || strategy.WeightedRoundRobin?
                          then old(counters)[service := (old(Counter(service)) + 1) % USIZE] else old(counters)
    {
      var healthy := Healthy(instances, health.unhealthy);
      if healthy != [] && |healthy| < |instances| {
        var idx := PickHealthyIndex(healthy, service, strategy, word);
        return healthy[idx];
      }
      assert Pool(instances, health.unhealthy) == instances;
      match strategy {
        case First => r := instances[0];
        case RoundRobin =>
          var c := FetchAdd(service);
          r := instances[c % |instances|];
        case Random => r := instances[word % |instances|];
        case WeightedRoundRobin => r := WeightedRoundRobinPick(instances, service);
      }
    }
  }

  /** An unhealthy instance is chosen only when no instance is healthy, and the
      choice is always one of the given instances. */
  lemma UnhealthyOnlyAsLastResort(instances: seq<ServiceInstance>, unhealthy: set<string>, strategy: Strategy,
                                  counter: nat, word: nat)
    requires instances != [] && Selectable(Pool(instances, unhealthy), strategy)
    ensures var r := Pick(Pool(instances, unhealthy), strategy, counter, word);
            && r in instances
            && (HostPort(r.host, r.port) in unhealthy
                ==> forall x :: x in instances ==> HostPort(x.host, x.port) in unhealthy)
  {
    var healthy := Healthy(instances, unhealthy);
    var r := Pick(Pool(instances, unhealthy), strategy, counter, word);
    assert r in Pool(instances, unhealthy);
    if healthy == [] {
      assert forall x :: x !in healthy;
    }
  }

  // ----- The choice in terms of the given list -----

  predicate HealthyAt(instances: seq<ServiceInstance>, unhealthy: set<string>, p: nat) {
    p < |instances| && HostPort(instances[p].host, instances[p].port) !in unhealthy
  }

  /** How many of the first `p` instances are healthy. */
  function HealthyBefore(instances: seq<ServiceInstance>, unhealthy: set<string>, p: nat): nat
    requires p <= |instances|
  {
    if p == 0 then 0
    else HealthyBefore(instances, unhealthy, p - 1) + (if HealthyAt(instances, unhealthy, p - 1) then 1 else 0)
  }

  lemma {:induction false} HealthyBeforePrefix(instances: seq<ServiceInstance>, unhealthy: set<string>, n: nat, p: nat)
    requires p <= n <= |instances|
    ensures HealthyBefore(instances[..n], unhealthy, p) == HealthyBefore(instances, unhealthy, p)
  {
    if p > 0 {
      HealthyBeforePrefix(instances, unhealthy, n, p - 1);
    }
  }

  lemma HealthyLast(instances: seq<ServiceInstance>, unhealthy: set<string>)
    requires instances != []
    ensures var n := |instances| - 1;
            Healthy(instances, unhealthy)
            == Healthy(instances[..n], unhealthy) + (if HealthyAt(instances, unhealthy, n) then [instances[n]] else [])
  {
  }

  lemma NoneHealthy(unhealthy: set<string>)
    ensures Healthy([], unhealthy) == []
  {
  }

  /** The `j`-th healthy instance is the one with `j` healthy ones before it. */
  lemma {:induction false} HealthyPosition(instances: seq<ServiceInstance>, unhealthy: set<string>, j: nat)
    returns (p: nat)
    requires j < |Healthy(instances, unhealthy)|
    ensures HealthyAt(instances, unhealthy, p) && HealthyBefore(instances, unhealthy, p) == j
    ensures Healthy(instances, unhealthy)[j] == instances[p]
  {
    hide Healthy, HostPort, HealthyBefore;
    NoneHealthy(unhealthy);
    var n := |instances| - 1;
    HealthyLast(instances, unhealthy);
    HealthyCount(instances[..n], unhealthy);
    if j < |Healthy(instances[..n], unhealthy)| {
      p := HealthyPosition(instances[..n], unhealthy, j);
    } else {
      p := n;
      assert HealthyAt(instances, unhealthy, n);
    }
    HealthyBeforePrefix(instances, unhealthy, n, p);
  }

  lemma {:induction false} HealthyCount(instances: seq<ServiceInstance>, unhealthy: set<string>)
    ensures |Healthy(instances, unhealthy)| == HealthyBefore(instances, unhealthy, |instances|)
  {
    if instances != [] {
      var n := |instances| - 1;
      HealthyCount(instances[..n], unhealthy);
      HealthyBeforePrefix(instances, unhealthy, n, n);
    }
  }

  /** Position `p` of the pool's `j`-th instance, in the given list: the healthy one
      with `j` healthy ones before it, or the `j`-th of all if none is healthy. */
  predicate StandsAt(instances: seq<ServiceInstance>, unhealthy: set<string>, j: nat, p: nat) {
    && p < |instances|
    && if HealthyBefore(instances, unhealthy, |instances|) == 0 then p == j
       else HealthyAt(instances, unhealthy, p) && HealthyBefore(instances, unhealthy, p) == j
  }

  lemma PoolPosition(instances: seq<ServiceInstance>, unhealthy: set<string>, j: nat) returns (p: nat)
    requires j < |Pool(instances, unhealthy)|
    ensures StandsAt(instances, unhealthy, j, p) && Pool(instances, unhealthy)[j] == instances[p]
  {
    HealthyCount(instances, unhealthy);
    if Healthy(instances, unhealthy) == [] {
      p := j;
    } else {
      p := HealthyPosition(instances, unhealthy, j);
    }
  }

  /** How many instances the choice is between. */
  function Candidates(instances: seq<ServiceInstance>, unhealthy: set<string>): nat {
    var healthy := HealthyBefore(instances, unhealthy, |instances|);
    if healthy == 0 then |instances| else healthy
  }

  /** Which instance each strategy chooses: the first candidate; the one whose number
      is the counter's remainder; a random one; or, in the weighted rotation, the one
      in whose share of the cycle the counter stands. */
  lemma ChosenPosition(instances: seq<ServiceInstance>, unhealthy: set<string>, strategy: Strategy, counter: nat,
                       word: nat)
    returns (j: nat, p: nat)
    requires instances != [] && Selectable(Pool(instances, unhealthy), strategy)
    ensures Candidates(instances, unhealthy) == |Pool(instances, unhealthy)| > 0
    ensures StandsAt(instances, unhealthy, j, p)
    ensures Pick(Pool(instances, unhealthy), strategy, counter, word) == instances[p]
    ensures match strategy
            case First => j == 0
            case RoundRobin => j == counter % Candidates(instances, unhealthy)
            case Random => j == word % Candidates(instances, unhealthy)
            case WeightedRoundRobin =>
              var ws := Weights(Pool(instances, unhealthy));
              0 < Total(ws) < USIZE ==> Owns(ws, j, counter % Total(ws))
  {
    hide Weights, Weight, Healthy, HealthyBefore, ScanFrom, Owner, Owns, Cumulative, MachineSum;
    var pool := Pool(instances, unhealthy);
    HealthyCount(instances, unhealthy);
    PickCases(pool, strategy, counter, word);
    match strategy {
      case First => j := 0;
      case RoundRobin => j := counter % |pool|;
      case Random => j := word % |pool|;
      case WeightedRoundRobin =>
        var ws := Weights(pool);
        j := ScanFrom(ws, 0, counter % MachineTotal(ws));
        if 0 < Total(ws) < USIZE {
          ScanFindsOwner(ws, 0);
          ScanFindsOwner(ws, counter % Total(ws));
        }
    }
    p := PoolPosition(instances, unhealthy, j);
  }

  // ----- Fairness -----

  /** Whether the weighted rotation picks position `i` at counter value `c`. */
  predicate Hit(ws: seq<nat>, i: nat, c: nat)
    requires Total(ws) > 0
  {
    Owns(ws, i, c % Total(ws))
  }

  /** How often position `i` is picked at the counter values `c` .. `c + n - 1`. */
  function Hits(ws: seq<nat>, i: nat, c: nat, n: nat): nat
    requires Total(ws) > 0
  {
    if n == 0 then 0 else Hits(ws, i, c, n - 1) + (if Hit(ws, i, c + n - 1) then 1 else 0)
  }

  lemma {:induction false} HitsSplit(ws: seq<nat>, i: nat, c: nat, m: nat, n: nat)
    requires Total(ws) > 0
    ensures Hits(ws, i, c, m + n) == Hits(ws, i, c, m) + Hits(ws, i, c + m, n)
  {
    if n > 0 {
      HitsSplit(ws, i, c, m, n - 1);
      assert c + (m + n) - 1 == (c + m) + n - 1;
    }
  }

  lemma {:induction false} HitsAtMost(ws: seq<nat>, i: nat, c: nat, n: nat)
    requires Total(ws) > 0
    ensures Hits(ws, i, c, n) <= n
  {
    if n > 0 {
      HitsAtMost(ws, i, c, n - 1);
    }
  }

  function Min(a: nat, b: nat): nat {
    if a < b then a else b
  }

  /** Within the first cycle the hits of `i` are its share of the positions. */
  lemma {:induction false} HitsFromZero(ws: seq<nat>, i: nat, n: nat)
    requires i < |ws| && n <= Total(ws) && Total(ws) > 0
    ensures Hits(ws, i, 0, n) == Min(n, Cumulative(ws, i + 1)) - Min(n, Cumulative(ws, i))
  {
    if n > 0 {
      HitsFromZero(ws, i, n - 1);
      SmallMod(n - 1, Total(ws));
    }
  }

  lemma SmallMod(c: nat, t: nat)
    requires c < t
    ensures c % t == c
  {
  }

  lemma ShiftMod(c: nat, t: nat)
    requires t > 0
    ensures (c + t) % t == c % t
  {
    var q, r := c / t, c % t;
    assert c + t == (q + 1) * t + r;
    ModUnique(c + t, t, q + 1, r);
  }

  lemma ModUnique(x: nat, t: nat, q: nat, r: nat)
    requires t > 0 && r < t && x == q * t + r
    ensures x % t == r
  {
    var q', r' := x / t, x % t;
    assert (q - q') * t == r' - r;
    if q > q' {
      MulAtLeast(q - q', t);
    } else if q < q' {
      assert (q' - q) * t == r - r';
      MulAtLeast(q' - q, t);
    }
  }

  lemma MulAtLeast(a: nat, t: nat)
    requires a >= 1
    ensures a * t >= t
  {
    assert a * t == t + (a - 1) * t;
  }

  /** Any window of one cycle holds each position exactly its weight. */
  lemma {:induction false} HitsOneCycle(ws: seq<nat>, i: nat, c: nat)
    requires i < |ws| && Total(ws) > 0
    ensures Hits(ws, i, c, Total(ws)) == ws[i]
  {
    var t := Total(ws);
    if c == 0 {
      HitsFromZero(ws, i, t);
      CumulativeMonotone(ws, i + 1, |ws|);
      CumulativeMonotone(ws, i, |ws|);
    } else {
      HitsOneCycle(ws, i, c - 1);
      HitsSplit(ws, i, c - 1, 1, t);
      HitsSplit(ws, i, c - 1, t, 1);
      ShiftMod(c - 1, t);
      assert Hits(ws, i, c - 1, 1) == Hits(ws, i, c - 1 + t, 1);
      assert 1 + t == t + 1;
    }
  }

  lemma {:induction false} HitsWholeCycles(ws: seq<nat>, i: nat, c: nat, k: nat)
    requires i < |ws| && Total(ws) > 0
    ensures Hits(ws, i, c, k * Total(ws)) == k * ws[i]
  {
    var t := Total(ws);
    if k > 0 {
      HitsWholeCycles(ws, i, c, k - 1);
      HitsOneCycle(ws, i, c + (k - 1) * t);
      assert k * t == (k - 1) * t + t;
      HitsSplit(ws, i, c, (k - 1) * t, t);
      assert k * ws[i] == (k - 1) * ws[i] + ws[i];
    }
  }

  /** How often `i` is picked by `n` calls that find the wrapping counter at `c`. */
  function Picked(ws: seq<nat>, i: nat, c: nat, n: nat): nat
    requires Total(ws) > 0
  {
    if n == 0 then 0 else Picked(ws, i, c, n - 1) + (if Hit(ws, i, (c + n - 1) % USIZE) then 1 else 0)
  }

  lemma {:induction false} PickedWithoutWrap(ws: seq<nat>, i: nat, c: nat, n: nat)
    requires Total(ws) > 0 && c + n <= USIZE
    ensures Picked(ws, i, c, n) == Hits(ws, i, c, n)
  {
    if n > 0 {
      PickedWithoutWrap(ws, i, c, n - 1);
      SmallMod(c + n - 1, USIZE);
    }
  }

  lemma HitsPartialCycle(ws: seq<nat>, i: nat, c: nat, n: nat)
    requires i < |ws| && n < Total(ws)
    ensures Hits(ws, i, c, n) <= Min(ws[i], n)
  {
    HitsAtMost(ws, i, c, n);
    HitsOneCycle(ws, i, c);
    HitsSplit(ws, i, c, n, Total(ws) - n);
  }

  /** The rotation is exactly fair.  Over N = k * T + rest calls between two
      wrap-arounds of the counter, with T the total weight and rest < T, an
      instance of weight w is picked at least k * w times and at most min(w, rest)
      times more; so exactly its share when N is a multiple of T. */
  lemma WeightedRoundRobinIsFair(ws: seq<nat>, i: nat, c: nat, cycles: nat, rest: nat)
    requires i < |ws| && rest < Total(ws) && c + cycles * Total(ws) + rest <= USIZE
    ensures var n := cycles * Total(ws) + rest;
            cycles * ws[i] <= Picked(ws, i, c, n) <= cycles * ws[i] + Min(ws[i], rest)
  {
    PickedWithoutWrap(ws, i, c, cycles * Total(ws) + rest);
    HitsSplit(ws, i, c, cycles * Total(ws), rest);
    HitsWholeCycles(ws, i, c, cycles);
    HitsPartialCycle(ws, i, c + cycles * Total(ws), rest);
  }

  /** `n` calls give position `i` its share: its weight in each whole cycle, and in the
      rest at most its weight and at most one each call. */
  predicate FairShare(ws: seq<nat>, i: nat, n: nat, times: nat)
    requires i < |ws| && Total(ws) > 0
  {
    n / Total(ws) * ws[i] <= times <= n / Total(ws) * ws[i] + Min(ws[i], n % Total(ws))
  }

  lemma HitsAreFair(ws: seq<nat>, i: nat, c: nat, n: nat)
    requires i < |ws| && Total(ws) > 0
    ensures FairShare(ws, i, n, Hits(ws, i, c, n))
  {
    hide Total, Hits;
    var cycles, rest := n / Total(ws), n % Total(ws);
    assert n == cycles * Total(ws) + rest;
    HitsSplit(ws, i, c, cycles * Total(ws), rest);
    HitsWholeCycles(ws, i, c, cycles);
    HitsPartialCycle(ws, i, c + cycles * Total(ws), rest);
  }

  // ----- Across the wrap-around of the counter -----

  lemma {:induction false} ShiftModBy(c: nat, t: nat, k: nat)
    requires t > 0
    ensures (c + k * t) % t == c % t
  {
    if k > 0 {
      ShiftModBy(c, t, k - 1);
      assert c + k * t == (c + (k - 1) * t) + t;
      ShiftMod(c + (k - 1) * t, t);
    }
  }

  lemma ModAcross(x: nat, t: nat)
    requires t > 0 && USIZE % t == 0
    ensures (x % USIZE) % t == x % t
  {
    var q, k := x / USIZE, USIZE / t;
    assert USIZE == k * t;
    Regroup(q, k, t);
    assert x == x % USIZE + (q * k) * t;
    ShiftModBy(x % USIZE, t, q * k);
  }

  lemma Regroup(a: nat, b: nat, c: nat)
    ensures a * (b * c) == (a * b) * c
  {
  }

  /** Where the total divides the range of the counter, a wrap-around is no jump. */
  lemma {:induction false} PickedAcrossWrap(ws: seq<nat>, i: nat, c: nat, n: nat)
    requires Total(ws) > 0 && USIZE % Total(ws) == 0
    ensures Picked(ws, i, c, n) == Hits(ws, i, c, n)
  {
    hide Total;
    if n > 0 {
      PickedAcrossWrap(ws, i, c, n - 1);
      ModAcross(c + n - 1, Total(ws));
    }
  }

  lemma {:induction false} OnlyPosition(ws: seq<nat>, c: nat, n: nat)
    requires |ws| == 1 && ws[0] > 0
    ensures Total(ws) == ws[0] && Picked(ws, 0, c, n) == n == Hits(ws, 0, c, n)
  {
    assert Cumulative(ws, 1) == Cumulative(ws, 0) + ws[0];
    if n > 0 {
      OnlyPosition(ws, c, n - 1);
    }
  }

  /** A window whose picks are fair, wherever the counter stands. */
  predicate WrapSafe(ws: seq<nat>)
    requires Total(ws) > 0
  {
    |ws| == 1 || USIZE % Total(ws) == 0
  }

  lemma PickedIsFair(ws: seq<nat>, i: nat, c: nat, n: nat)
    requires i < |ws| && (forall k :: 0 <= k < |ws| ==> ws[k] > 0) && Total(ws) > 0
    requires c + n <= USIZE || WrapSafe(ws)
    ensures FairShare(ws, i, n, Picked(ws, i, c, n))
  {
    hide Total, Picked, Hits, FairShare;
    HitsAreFair(ws, i, c, n);
    if c + n <= USIZE {
      PickedWithoutWrap(ws, i, c, n);
    } else if |ws| == 1 {
      OnlyPosition(ws, c, n);
    } else {
      PickedAcrossWrap(ws, i, c, n);
    }
  }

  lemma {:induction false} PickedSplit(ws: seq<nat>, i: nat, c: nat, m: nat, n: nat)
    requires Total(ws) > 0
    ensures Picked(ws, i, c, m + n) == Picked(ws, i, c, m) + Picked(ws, i, c + m, n)
  {
    if n > 0 {
      PickedSplit(ws, i, c, m, n - 1);
      assert c + (m + n) - 1 == (c + m) + n - 1;
    }
  }

  /** From the wrap-around on the counter counts from zero. */
  lemma {:induction false} PickedAfterWrap(ws: seq<nat>, i: nat, n: nat)
    requires Total(ws) > 0 && n <= USIZE
    ensures Picked(ws, i, USIZE, n) == Hits(ws, i, 0, n)
  {
    if n > 0 {
      PickedAfterWrap(ws, i, n - 1);
      ModUnique(USIZE + n - 1, USIZE, 1, n - 1);
    }
  }

  lemma {:induction false} HitsShift(ws: seq<nat>, i: nat, c: nat, k: nat, n: nat)
    requires Total(ws) > 0
    ensures Hits(ws, i, c + k * Total(ws), n) == Hits(ws, i, c, n)
  {
    if n > 0 {
      HitsShift(ws, i, c, k, n - 1);
      ShiftModBy(c + n - 1, Total(ws), k);
      assert c + k * Total(ws) + n - 1 == (c + n - 1) + k * Total(ws);
    }
  }

  /** The picks of a window of one cycle that crosses the wrap-around: the last `a`
      of a broken cycle of `m`, then the first of a new one. */
  lemma BrokenCycle(ws: seq<nat>, i: nat, a: nat)
    requires i < |ws| && 0 < Total(ws) <= USIZE && a <= USIZE % Total(ws)
    ensures var (t, m) := (Total(ws), USIZE % Total(ws));
            Picked(ws, i, USIZE - a, t) == Hits(ws, i, 0, m) - Hits(ws, i, 0, m - a) + Hits(ws, i, 0, t - a)
  {
    hide Hits, Picked;
    var t, m, k := Total(ws), USIZE % Total(ws), USIZE / Total(ws);
    assert USIZE == m + k * t;
    assert a + (t - a) == t && USIZE - a + a == USIZE;
    PickedSplit(ws, i, USIZE - a, a, t - a);
    PickedAfterWrap(ws, i, t - a);
    PickedWithoutWrap(ws, i, USIZE - a, a);
    HitsShift(ws, i, m - a, k, a);
    assert m - a + k * t == USIZE - a;
    HitsSplit(ws, i, 0, m - a, a);
  }

  /** If the total does not divide the range of the counter, some window of one cycle
      picks the last position less often than its weight. */
  lemma WrapIsUnfair(ws: seq<nat>) returns (c: nat)
    requires |ws| > 1 && (forall k :: 0 <= k < |ws| ==> ws[k] > 0) && 0 < Total(ws) <= USIZE
    requires USIZE % Total(ws) != 0
    ensures c < USIZE && !FairShare(ws, |ws| - 1, Total(ws), Picked(ws, |ws| - 1, c, Total(ws)))
  {
    hide Hits, Picked;
    var t, m, last := Total(ws), USIZE % Total(ws), |ws| - 1;
    var before := Cumulative(ws, last);
    assert t == before + ws[last];
    CumulativeMonotone(ws, 1, last);
    assert Cumulative(ws, 1) == Cumulative(ws, 0) + ws[0];
    var a := if m <= before then 1 else m - before + 1;
    c := USIZE - a;
    BrokenCycle(ws, last, a);
    HitsFromZero(ws, last, m);
    HitsFromZero(ws, last, m - a);
    HitsFromZero(ws, last, t - a);
    assert Picked(ws, last, c, t) == ws[last] - 1;
    assert t / t == 1 && t % t == 0;
  }

  /** The rotation is fair to every position in every window, wherever the counter
      stands, if and only if there is only one position or the total weight divides
      the range of the counter. */
  lemma FairEverywhereExactly(ws: seq<nat>)
    requires ws != [] && (forall k :: 0 <= k < |ws| ==> ws[k] > 0) && 0 < Total(ws) <= USIZE
    ensures (forall i: nat, c: nat, n: nat :: i < |ws| && c < USIZE ==> FairShare(ws, i, n, Picked(ws, i, c, n)))
            <==> WrapSafe(ws)
  {
    hide FairShare, Picked;
    if WrapSafe(ws) {
      forall i: nat, c: nat, n: nat | i < |ws| && c < USIZE
        ensures FairShare(ws, i, n, Picked(ws, i, c, n))
      {
        PickedIsFair(ws, i, c, n);
      }
    } else {
      var c := WrapIsUnfair(ws);
    }
  }

  // ----- Successive calls -----

  /** How often position `i` was picked. */
  function Times(at: seq<nat>, i: nat): nat {
    if at == [] then 0 else Times(at[..|at| - 1], i) + (if at[|at| - 1] == i then 1 else 0)
  }

  lemma TimesMore(at: seq<nat>, owner: nat, ws: seq<nat>, c: nat, i: nat)
    requires Total(ws) > 0 && Owns(ws, owner, ((c + |at|) % USIZE) % Total(ws))
    requires Times(at, i) == Picked(ws, i, c, |at|)
    ensures Times(at + [owner], i) == Picked(ws, i, c, |at| + 1)
  {
    hide Owns, Total;
    assert (at + [owner])[..|at|] == at;
    if Hit(ws, i, (c + |at|) % USIZE) {
      OwnerUnique(ws, owner, i, ((c + |at|) % USIZE) % Total(ws));
    }
  }

  lemma EachTimesMore(at: seq<nat>, owner: nat, ws: seq<nat>, c: nat)
    requires Total(ws) > 0 && Owns(ws, owner, ((c + |at|) % USIZE) % Total(ws))
    requires forall i :: 0 <= i < |ws| ==> Times(at, i) == Picked(ws, i, c, |at|)
    ensures forall i :: 0 <= i < |ws| ==> Times(at + [owner], i) == Picked(ws, i, c, |at + [owner]|)
  {
    hide Times, Picked, Owns, Total;
    forall i | 0 <= i < |ws|
      ensures Times(at + [owner], i) == Picked(ws, i, c, |at + [owner]|)
    {
      TimesMore(at, owner, ws, c, i);
    }
  }

  lemma AllFair(pool: seq<ServiceInstance>, at: seq<nat>, c: nat)
    requires Total(Weights(pool)) > 0
    requires forall i :: 0 <= i < |pool| ==> Times(at, i) == Picked(Weights(pool), i, c, |at|)
    ensures c + |at| <= USIZE || WrapSafe(Weights(pool)) ==>
              forall i :: 0 <= i < |pool| ==> FairShare(Weights(pool), i, |at|, Times(at, i))
  {
    hide Times, Picked, FairShare, WrapSafe, Total;
    if c + |at| <= USIZE || WrapSafe(Weights(pool)) {
      forall i | 0 <= i < |pool|
        ensures FairShare(Weights(pool), i, |at|, Times(at, i))
      {
        PickedIsFair(Weights(pool), i, c, |at|);
      }
    }
  }

  lemma NextCounter(c: nat, k: nat)
    ensures ((c + k) % USIZE + 1) % USIZE == (c + k + 1) % USIZE
  {
    WrapAdd(c + k, 1);
  }

  /** One selection: for the service in question, or for another one. */
  datatype Turn = Own | Other(service: string, strategy: Strategy, instances: seq<ServiceInstance>, word: nat)

  function OwnTurns(turns: seq<Turn>): nat {
    if turns == [] then 0 else OwnTurns(turns[..|turns| - 1]) + (if turns[|turns| - 1].Own? then 1 else 0)
  }

  lemma OwnTurnsStep(turns: seq<Turn>, k: nat)
    requires k < |turns|
    ensures OwnTurns(turns[..k + 1]) == OwnTurns(turns[..k]) + (if turns[k].Own? then 1 else 0)
  {
    assert turns[..k + 1][..k] == turns[..k];
  }

  lemma NoTurns(turns: seq<Turn>)
    ensures OwnTurns(turns[..0]) == 0
  {
  }

  predicate OthersElsewhere(turns: seq<Turn>, service: string, unhealthy: set<string>) {
    forall k :: 0 <= k < |turns| && turns[k].Other? ==>
      && turns[k].service != service && turns[k].instances != []
      && Selectable(Pool(turns[k].instances, unhealthy), turns[k].strategy)
  }

  /** What one more pick of the rotation means. */
  lemma PickIsOwner(pool: seq<ServiceInstance>, counter: nat)
    requires pool != [] && Total(Weights(pool)) < USIZE
    ensures Total(Weights(pool)) > 0 && Selectable(pool, WeightedRoundRobin)
    ensures var owner := Owner(Weights(pool), counter % Total(Weights(pool)));
            owner < |pool| && Pick(pool, WeightedRoundRobin, counter, 0) == pool[owner]
  {
    hide Weights, Weight, Owner, ScanFrom, MachineSum, Cumulative;
    TotalPositive(pool);
    ScanFindsOwner(Weights(pool), counter % Total(Weights(pool)));
  }

  /** Selects in a row for one weighted service and, in between, for any others in any
      way.  `at` are the positions picked in the service's pool: over its own turns
      each gets its share, unless the counter wraps around where that is no whole
      number of cycles. */
  method PickInTurn(selector: Selector, health: HealthStatus, instances: seq<ServiceInstance>, service: string,
                    turns: seq<Turn>)
    returns (picks: seq<ServiceInstance>, ghost at: seq<nat>)
    requires instances != [] && Total(Weights(Pool(instances, health.unhealthy))) < USIZE
    requires selector.Counter(service) < USIZE && OthersElsewhere(turns, service, health.unhealthy)
    modifies selector
    ensures |picks| == |at| == OwnTurns(turns)
    ensures var pool := Pool(instances, health.unhealthy);
            forall k :: 0 <= k < |picks| ==> at[k] < |pool| && picks[k] == pool[at[k]]
    ensures selector.Counter(service) == (old(selector.Counter(service)) + |picks|) % USIZE
    ensures var ws := Weights(Pool(instances, health.unhealthy));
            Total(ws) > 0 && (old(selector.Counter(service)) + |picks| <= USIZE || WrapSafe(ws)) ==>
              forall i :: 0 <= i < |ws| ==> FairShare(ws, i, |picks|, Times(at, i))
  {
    hide Weights, Weight, Total, Owner, Owns, Picked, Times, FairShare, Pool, Selectable, Pick, WrapSafe,
      OwnTurns;
    ghost var pool := Pool(instances, health.unhealthy);
    ghost var ws, c := Weights(pool), selector.Counter(service);
    PickIsOwner(pool, 0);
    picks, at := [], [];
    NothingPicked(ws, c);
    NoTurns(turns);
    for k := 0 to |turns|
      invariant |picks| == |at| == OwnTurns(turns[..k]) && selector.Counter(service) == (c + |at|) % USIZE
      invariant forall j :: 0 <= j < |at| ==> at[j] < |pool| && picks[j] == pool[at[j]]
      invariant forall i :: 0 <= i < |ws| ==> Times(at, i) == Picked(ws, i, c, |at|)
    {
      OwnTurnsStep(turns, k);
      match turns[k] {
        case Other(name, strategy, others, word) =>
          var other := selector.SelectServiceInstance(others, name, strategy, health, word);
        case Own =>
          ghost var counter := selector.Counter(service);
          ghost var owner := Owner(ws, counter % Total(ws));
          PickIsOwner(pool, counter);
          OwnerInRange(ws, owner, counter % Total(ws));
          var pick := selector.SelectServiceInstance(instances, service, WeightedRoundRobin, health, 0);
          NextCounter(c, |at|);
          EachTimesMore(at, owner, ws, c);
          picks, at := picks + [pick], at + [owner];
      }
    }
    assert turns[..|turns|] == turns;
    AllFair(pool, at, c);
  }

  lemma NothingPicked(ws: seq<nat>, c: nat)
    requires Total(ws) > 0
    ensures forall i: nat :: Times([], i) == Picked(ws, i, c, 0)
  {
  }

  lemma OwnerInRange(ws: seq<nat>, i: nat, c: nat)
    requires Owns(ws, i, c)
    ensures i < |ws|
  {
  }
}
