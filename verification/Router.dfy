/** The router snapshot: compiled rules in evaluation order and first-match
    resolution (src/routing/router.rs). */
module Router {
  import opened Wrappers
  import opened Errors
  import opened ConfigModel
  import opened Matcher
  import opened StableOrder
  import opened Seqs

  /** Rules in ascending priority, ties in declaration order. */
  datatype RouterSnapshot = RouterSnapshot(rules: seq<CompiledRoutingRule>)

  // ----- Building a snapshot -----

  /** `map(compile).collect()`: the first error, or all compiled rules. */
  function CompileAll(e: Engine, routes: seq<RoutingRule>): (r: Result<seq<CompiledRoutingRule>, ConfigError>)
    ensures r.Ok? ==> |r.value| == |routes|
                      && forall i :: 0 <= i < |routes| ==> Compile(e, routes[i]) == Ok(r.value[i])
  {
    if routes == [] then Ok([])
    else
      var n := |routes| - 1;
      match CompileAll(e, routes[..n])
      case Err(x) => Err(x)
      case Ok(rules) =>
        match Compile(e, routes[n])
        case Err(x) => Err(x)
        case Ok(last) => Ok(rules + [last])
  }

  lemma {:induction false} FirstErrorStays(e: Engine, routes: seq<RoutingRule>, n: nat)
    requires n <= |routes| && CompileAll(e, routes[..n]).Err?
    ensures CompileAll(e, routes) == CompileAll(e, routes[..n])
  {
    if n == |routes| {
      assert routes[..n] == routes;
    } else {
      assert routes[..|routes| - 1][..n] == routes[..n];
      FirstErrorStays(e, routes[..|routes| - 1], n);
    }
  }

  lemma {:induction false} CompileAllOk(e: Engine, routes: seq<RoutingRule>)
    requires forall i :: 0 <= i < |routes| ==> Compile(e, routes[i]).Ok?
    ensures CompileAll(e, routes).Ok?
  {
    if routes != [] {
      CompileAllOk(e, routes[..|routes| - 1]);
    }
  }

  function EvaluationOrder(routes: seq<RoutingRule>): (order: seq<nat>)
    ensures |order| == |routes| && forall k :: 0 <= k < |order| ==> order[k] < |routes|
  {
    SortedIndices(Priorities(routes))
  }

  function FromRoutes(e: Engine, routes: seq<RoutingRule>): Result<RouterSnapshot, ConfigError> {
    match CompileAll(e, routes)
    case Err(x) => Err(x)
    case Ok(rules) =>
      var order := EvaluationOrder(routes);
      Ok(RouterSnapshot(seq(|order|, k requires 0 <= k < |order| => rules[order[k]])))
  }

  lemma NothingToCompile(e: Engine, routes: seq<RoutingRule>)
    ensures CompileAll(e, routes[..0]) == Ok([])
  {
  }

  lemma CompileOneMore(e: Engine, routes: seq<RoutingRule>, i: nat)
    requires i < |routes|
    ensures CompileAll(e, routes[..i + 1])
            == match CompileAll(e, routes[..i])
               case Err(x) => Err(x)
               case Ok(rules) =>
                 match Compile(e, routes[i])
                 case Err(x) => Err(x)
                 case Ok(last) => Ok(rules + [last])
  {
    hide Compile;
    assert routes[..i + 1][..i] == routes[..i];
  }

  /** Compiles the routes one by one, stops at the first error, then sorts. */
  method FromConfig(e: Engine, config: AppConfig) returns (r: Result<RouterSnapshot, ConfigError>)
    ensures r == FromRoutes(e, config.routes)
  {
    hide Compile, CompileAll;
    var routes := config.routes;
    NothingToCompile(e, routes);
    var rules: seq<CompiledRoutingRule> := [];
    for i := 0 to |routes|
      invariant CompileAll(e, routes[..i]) == Ok(rules)
    {
      CompileOneMore(e, routes, i);
      match Compile(e, routes[i]) {
        case Err(x) =>
          FirstErrorStays(e, routes, i + 1);
          return Err(x);
        case Ok(rule) =>
          rules := rules + [rule];
      }
    }
    assert routes[..|routes|] == routes;
    var order := EvaluationOrder(routes);
    return Ok(RouterSnapshot(seq(|order|, k requires 0 <= k < |order| => rules[order[k]])));
  }

  // ----- Resolving a request -----

  /** Position of the first rule that matches, or the number of rules. */
  function FirstMatch(e: Engine, rules: seq<CompiledRoutingRule>, req: Request): (k: nat)
    ensures k <= |rules| && (k < |rules| ==> rules[k].Matches(e, req))
    ensures forall j :: 0 <= j < k ==> !rules[j].Matches(e, req)
  {
    if rules == [] || rules[0].Matches(e, req) then 0 else 1 + FirstMatch(e, rules[1..], req)
  }

  function Resolved(e: Engine, snapshot: RouterSnapshot, req: Request): Option<CompiledRoutingRule> {
    var k := FirstMatch(e, snapshot.rules, req);
    if k < |snapshot.rules| then Some(snapshot.rules[k]) else None
  }

  method Resolve(e: Engine, snapshot: RouterSnapshot, req: Request) returns (r: Option<CompiledRoutingRule>)
    ensures r == Resolved(e, snapshot, req)
  {
    for i := 0 to |snapshot.rules|
      invariant i <= FirstMatch(e, snapshot.rules, req)
    {
      if snapshot.rules[i].Matches(e, req) {
        return Some(snapshot.rules[i]);
      }
    }
    return None;
  }

  // ----- The winner in terms of the configuration -----

  /** `w` is the declared position of the admitting rule with the least priority,
      ties by declaration; `None` if no rule admits the request. */
  ghost predicate IsWinner(e: Engine, routes: seq<RoutingRule>, req: Request, w: Option<nat>) {
    match w
    case None => forall j :: 0 <= j < |routes| ==> !RuleAdmits(e, routes[j], req)
    case Some(i) =>
      && i < |routes| && RuleAdmits(e, routes[i], req)
      && forall j :: 0 <= j < |routes| && j != i && RuleAdmits(e, routes[j], req)
                     ==> routes[i].priority < routes[j].priority
                         || (routes[i].priority == routes[j].priority && i < j)
  }

  lemma WinnerUnique(e: Engine, routes: seq<RoutingRule>, req: Request, v: Option<nat>, w: Option<nat>)
    requires IsWinner(e, routes, req, v) && IsWinner(e, routes, req, w)
    ensures v == w
  {
  }

  /** Every rule of the snapshot is a compiled route and admits the same requests. */
  lemma SnapshotRule(e: Engine, routes: seq<RoutingRule>, snapshot: RouterSnapshot, k: nat, req: Request)
    requires FromRoutes(e, routes) == Ok(snapshot)
    ensures |snapshot.rules| == |routes|
    ensures k < |routes| ==>
              && Compile(e, routes[EvaluationOrder(routes)[k]]) == Ok(snapshot.rules[k])
              && snapshot.rules[k].Matches(e, req) == RuleAdmits(e, routes[EvaluationOrder(routes)[k]], req)
  {
  }

  /** The `k`-th rule of a snapshot is the route at the `k`-th position of the
      evaluation order, with all that matters to matching and forwarding. */
  lemma SnapshotKeeps(e: Engine, routes: seq<RoutingRule>, snapshot: RouterSnapshot, k: nat, path: string)
    requires FromRoutes(e, routes) == Ok(snapshot) && k < |routes|
    ensures |snapshot.rules| == |routes|
    ensures var (c, rule) := (snapshot.rules[k], routes[EvaluationOrder(routes)[k]]);
            && c.id == rule.id && c.priority == rule.priority
            && c.methods == rule.methods && c.headers == rule.headers
            && c.serviceId == rule.serviceId && c.upstreamUrl == rule.upstreamUrl && c.stripPrefix == rule.stripPrefix
            && (c.compiledPath.Matches(e, path) <==> PathAccepts(e, rule.path, path))
  {
    hide Compile;
    CompileKeeps(e, routes[EvaluationOrder(routes)[k]], path);
  }

  /** A configuration fails to compile exactly when some rule does, with the error of
      the first such rule. */
  lemma {:induction false} CompilationFailsExactly(e: Engine, routes: seq<RoutingRule>)
    ensures match FromRoutes(e, routes)
            case Ok(_) => forall i :: 0 <= i < |routes| ==> Compile(e, routes[i]).Ok?
            case Err(x) => exists i :: 0 <= i < |routes| && Compile(e, routes[i]) == Err(x)
                                       && forall j :: 0 <= j < i ==> Compile(e, routes[j]).Ok?
  {
    hide Compile, EvaluationOrder;
    if routes != [] {
      var n := |routes| - 1;
      CompilationFailsExactly(e, routes[..n]);
      assert forall i :: 0 <= i < n ==> routes[..n][i] == routes[i];
      if CompileAll(e, routes[..n]).Err? {
        var i :| 0 <= i < n && Compile(e, routes[..n][i]) == Err(CompileAll(e, routes[..n]).error)
                 && forall j :: 0 <= j < i ==> Compile(e, routes[..n][j]).Ok?;
        assert Compile(e, routes[i]) == Compile(e, routes[..n][i]);
      }
    }
  }

  /** Resolution returns the matching rule with the least (priority, declared
      position), or nothing if no rule matches. */
  lemma ResolveIsLeast(e: Engine, routes: seq<RoutingRule>, snapshot: RouterSnapshot, req: Request)
    returns (w: Option<nat>)
    requires FromRoutes(e, routes) == Ok(snapshot)
    ensures IsWinner(e, routes, req, w)
    ensures match w
            case None => Resolved(e, snapshot, req) == None
            case Some(i) => Compile(e, routes[i]).Ok? && Resolved(e, snapshot, req) == Some(Compile(e, routes[i]).value)
  {
    hide SortedIndices, Admits;
    var keys, order := Priorities(routes), EvaluationOrder(routes);
    SortedIndicesStable(keys);
    var k := FirstMatch(e, snapshot.rules, req);
    SnapshotRule(e, routes, snapshot, k, req);
    w := if k < |routes| then Some(order[k]) else None;
    forall j | 0 <= j < |routes| && RuleAdmits(e, routes[j], req)
      ensures k < |routes| && (j == order[k] || Before(keys, order[k], j))
    {
      assert j in order;
      var m :| 0 <= m < |order| && order[m] == j;
      SnapshotRule(e, routes, snapshot, m, req);
      assert snapshot.rules[m].Matches(e, req);
      assert k <= m;
    }
  }

  /** Local overrides never change which rule wins a request. */
  lemma OverridesKeepWinner(e: Engine, routes: seq<RoutingRule>, entries: seq<LocalOverrideEntry>,
                            req: Request, w: Option<nat>)
    requires IsWinner(e, routes, req, w)
    ensures IsWinner(e, ApplyOverrides(routes, entries), req, w)
  {
    var after := ApplyOverrides(routes, entries);
    OverridesAreLastWins(routes, entries);
    assert Priorities(after) == Priorities(routes);
    forall j | 0 <= j < |routes|
      ensures RuleAdmits(e, after[j], req) == RuleAdmits(e, routes[j], req)
    {
      assert after[j] == Overridden(routes, entries, j);
    }
  }

  lemma RetargetCompiles(e: Engine, rule: RoutingRule, url: string)
    ensures Compile(e, Retarget(rule, url)).Ok? == Compile(e, rule).Ok?
  {
  }

  /** Overrides never make a configuration compile or stop compiling. */
  lemma OverridesCompile(e: Engine, routes: seq<RoutingRule>, entries: seq<LocalOverrideEntry>)
    ensures FromRoutes(e, ApplyOverrides(routes, entries)).Ok? <==> FromRoutes(e, routes).Ok?
  {
    hide Compile, CompileAll, LastOverride, ApplyOverrides;
    var after := ApplyOverrides(routes, entries);
    OverridesAreLastWins(routes, entries);
    forall k | 0 <= k < |routes|
      ensures Compile(e, after[k]).Ok? == Compile(e, routes[k]).Ok?
    {
      assert after[k] == Overridden(routes, entries, k);
      if url :| after[k] == Retarget(routes[k], url) {
        RetargetCompiles(e, routes[k], url);
      }
    }
    if FromRoutes(e, routes).Ok? {
      CompileAllOk(e, after);
    }
    if FromRoutes(e, after).Ok? {
      CompileAllOk(e, routes);
    }
  }

  /** After overrides the snapshot sends each request to the rule at the same
      declared position; its target is the last override for its id if it is the
      first rule of that id, and unchanged otherwise. */
  lemma OverriddenResolution(e: Engine, routes: seq<RoutingRule>, entries: seq<LocalOverrideEntry>,
                             before: RouterSnapshot, req: Request) returns (after: RouterSnapshot)
    requires FromRoutes(e, routes) == Ok(before)
    ensures FromRoutes(e, ApplyOverrides(routes, entries)) == Ok(after)
    ensures Resolved(e, before, req).None? <==> Resolved(e, after, req).None?
    ensures Resolved(e, before, req).Some? ==>
              exists i :: 0 <= i < |routes| && IsWinner(e, routes, req, Some(i))
                          && Compile(e, routes[i]) == Ok(Resolved(e, before, req).value)
                          && Compile(e, Overridden(routes, entries, i)) == Ok(Resolved(e, after, req).value)
  {
    OverridesCompile(e, routes, entries);
    after := FromRoutes(e, ApplyOverrides(routes, entries)).value;
    var w := ResolveIsLeast(e, routes, before, req);
    var v := ResolveIsLeast(e, ApplyOverrides(routes, entries), after, req);
    OverridesKeepWinner(e, routes, entries, req, w);
    WinnerUnique(e, ApplyOverrides(routes, entries), req, v, w);
    OverridesAreLastWins(routes, entries);
  }

  // ----- When two configurations have one snapshot -----

  /** The rules of one priority, in order. */
  function AtPriority(rules: seq<CompiledRoutingRule>, priority: nat): seq<CompiledRoutingRule> {
    if rules == [] then []
    else (if rules[0].priority == priority then [rules[0]] else []) + AtPriority(rules[1..], priority)
  }

  lemma {:induction false} AtPriorityAppend(a: seq<CompiledRoutingRule>, b: seq<CompiledRoutingRule>, priority: nat)
    ensures AtPriority(a + b, priority) == AtPriority(a, priority) + AtPriority(b, priority)
  {
    hide AtPriority;
    if a == [] {
      NothingAtPriority(priority);
      assert a + b == b;
    } else {
      AtPriorityAppend(a[1..], b, priority);
      AtPriorityHead(a, priority);
      AtPriorityHead(a + b, priority);
      assert (a + b)[1..] == a[1..] + b;
      var head := if a[0].priority == priority then [a[0]] else [];
      Associate(head, AtPriority(a[1..], priority), AtPriority(b, priority));
    }
  }

  lemma NothingAtPriority(priority: nat)
    ensures AtPriority([], priority) == []
  {
  }

  lemma AtPriorityHead(rules: seq<CompiledRoutingRule>, priority: nat)
    requires rules != []
    ensures AtPriority(rules, priority)
            == (if rules[0].priority == priority then [rules[0]] else []) + AtPriority(rules[1..], priority)
  {
  }

  /** The rules at the given positions. */
  function Select(rules: seq<CompiledRoutingRule>, at: seq<nat>): (r: seq<CompiledRoutingRule>)
    requires forall k :: 0 <= k < |at| ==> at[k] < |rules|
    ensures |r| == |at| && forall k :: 0 <= k < |r| ==> r[k] == rules[at[k]]
  {
    seq(|at|, k requires 0 <= k < |at| => rules[at[k]])
  }

  ghost predicate KeyedBy(rules: seq<CompiledRoutingRule>, keys: seq<nat>) {
    |rules| == |keys| && forall k :: 0 <= k < |rules| ==> rules[k].priority == keys[k]
  }

  lemma {:induction false} SelectAtPriority(rules: seq<CompiledRoutingRule>, keys: seq<nat>, at: seq<nat>,
                                            priority: nat)
    requires KeyedBy(rules, keys) && forall k :: 0 <= k < |at| ==> at[k] < |rules|
    ensures forall k :: 0 <= k < |WithKey(keys, at, priority)| ==> WithKey(keys, at, priority)[k] < |rules|
    ensures AtPriority(Select(rules, at), priority) == Select(rules, WithKey(keys, at, priority))
  {
    hide AtPriority;
    if at == [] {
      NothingAtPriority(priority);
    } else {
      SelectAtPriority(rules, keys, at[1..], priority);
      AtPriorityHead(Select(rules, at), priority);
      assert Select(rules, at)[1..] == Select(rules, at[1..]);
    }
  }

  lemma {:induction false} DeclaredAtPriority(rules: seq<CompiledRoutingRule>, keys: seq<nat>, n: nat, priority: nat)
    requires KeyedBy(rules, keys) && n <= |rules|
    ensures forall k :: 0 <= k < |PositionsOf(keys, n, priority)| ==> PositionsOf(keys, n, priority)[k] < |rules|
    ensures AtPriority(rules[..n], priority) == Select(rules, PositionsOf(keys, n, priority))
  {
    if n > 0 {
      DeclaredAtPriority(rules, keys, n - 1, priority);
      assert rules[..n] == rules[..n - 1] + [rules[n - 1]];
      AtPriorityAppend(rules[..n - 1], [rules[n - 1]], priority);
      assert [rules[n - 1]][1..] == [];
    }
  }

  /** Sorting keeps the rules of each priority as they were declared. */
  lemma SnapshotAtPriority(e: Engine, routes: seq<RoutingRule>, snapshot: RouterSnapshot, priority: nat)
    requires FromRoutes(e, routes) == Ok(snapshot)
    ensures AtPriority(snapshot.rules, priority) == AtPriority(CompileAll(e, routes).value, priority)
  {
    hide CompileAll;
    var rules, keys, order := CompileAll(e, routes).value, Priorities(routes), EvaluationOrder(routes);
    SelectAtPriority(rules, keys, order, priority);
    DeclaredAtPriority(rules, keys, |rules|, priority);
    PrefixWithKey(keys, |keys|, priority);
    assert rules[..|rules|] == rules;
    assert snapshot.rules == Select(rules, order);
  }

  ghost predicate Ascending(rules: seq<CompiledRoutingRule>) {
    forall i, j :: 0 <= i < j < |rules| ==> rules[i].priority <= rules[j].priority
  }

  lemma SnapshotAscends(e: Engine, routes: seq<RoutingRule>, snapshot: RouterSnapshot)
    requires FromRoutes(e, routes) == Ok(snapshot)
    ensures Ascending(snapshot.rules)
  {
    hide SortedIndices;
    var order := EvaluationOrder(routes);
    SortedIndicesStable(Priorities(routes));
    forall i, j | 0 <= i < j < |order|
      ensures snapshot.rules[i].priority <= snapshot.rules[j].priority
    {
      assert Before(Priorities(routes), order[i], order[j]);
      SnapshotPriority(e, routes, snapshot, i);
      SnapshotPriority(e, routes, snapshot, j);
    }
  }

  lemma SnapshotPriority(e: Engine, routes: seq<RoutingRule>, snapshot: RouterSnapshot, k: nat)
    requires FromRoutes(e, routes) == Ok(snapshot) && k < |routes|
    ensures |snapshot.rules| == |routes|
    ensures snapshot.rules[k].priority == routes[EvaluationOrder(routes)[k]].priority
  {
  }

  lemma {:induction false} FirstAtPriority(rules: seq<CompiledRoutingRule>, priority: nat)
    requires Ascending(rules) && AtPriority(rules, priority) != []
    ensures rules[0].priority <= priority
    ensures rules[0].priority == priority ==> AtPriority(rules, priority)[0] == rules[0]
  {
    if rules[0].priority != priority {
      FirstAtPriority(rules[1..], priority);
      assert rules[0].priority <= rules[1..][0].priority;
    }
  }

  /** At each priority the two lists hold the same rules in the same order. */
  ghost predicate SameAtEachPriority(a: seq<CompiledRoutingRule>, b: seq<CompiledRoutingRule>) {
    forall p: nat :: AtPriority(a, p) == AtPriority(b, p)
  }

  /** The head of an ascending list is in any list that has the same rules. */
  lemma HeadAtPriority(a: seq<CompiledRoutingRule>, b: seq<CompiledRoutingRule>)
    requires a != [] && Ascending(b) && SameAtEachPriority(a, b)
    ensures b != [] && b[0].priority <= a[0].priority
    ensures b[0].priority == a[0].priority ==> a[0] == b[0]
  {
    var p := a[0].priority;
    assert AtPriority(a, p) == AtPriority(b, p) != [] && AtPriority(a, p)[0] == a[0];
    FirstAtPriority(b, p);
  }

  lemma TailAtPriority(a: seq<CompiledRoutingRule>, b: seq<CompiledRoutingRule>)
    requires a != [] && b != [] && a[0] == b[0] && SameAtEachPriority(a, b)
    ensures SameAtEachPriority(a[1..], b[1..])
  {
    hide AtPriority;
    forall p: nat
      ensures AtPriority(a[1..], p) == AtPriority(b[1..], p)
    {
      AtPriorityHead(a, p);
      AtPriorityHead(b, p);
      CancelPrefix(if a[0].priority == p then [a[0]] else [], AtPriority(a[1..], p), AtPriority(b[1..], p));
    }
  }

  /** An ascending list is determined by its rules of each priority. */
  lemma {:induction false} AscendingByPriority(a: seq<CompiledRoutingRule>, b: seq<CompiledRoutingRule>)
    requires Ascending(a) && Ascending(b) && SameAtEachPriority(a, b)
    ensures a == b
  {
    hide AtPriority;
    if a != [] {
      HeadAtPriority(a, b);
      HeadAtPriority(b, a);
      TailAtPriority(a, b);
      AscendingByPriority(a[1..], b[1..]);
      assert a == [a[0]] + a[1..] && b == [b[0]] + b[1..];
    } else if b != [] {
      HeadAtPriority(b, a);
      assert false;
    }
  }

  lemma SnapshotIsCompiled(e: Engine, routes: seq<RoutingRule>)
    ensures FromRoutes(e, routes).Ok? ==> CompileAll(e, routes).Ok?
  {
  }

  /** Two configurations, whatever their ids, have the same snapshot if and only if
      at each priority they declare the same compiled rules in the same order. */
  lemma SnapshotsEqualExactly(e: Engine, left: seq<RoutingRule>, right: seq<RoutingRule>)
    requires FromRoutes(e, left).Ok? && FromRoutes(e, right).Ok?
    ensures CompileAll(e, left).Ok? && CompileAll(e, right).Ok?
    ensures FromRoutes(e, left) == FromRoutes(e, right)
            <==> SameAtEachPriority(CompileAll(e, left).value, CompileAll(e, right).value)
  {
    hide FromRoutes, CompileAll, AtPriority;
    SnapshotIsCompiled(e, left);
    SnapshotIsCompiled(e, right);
    var a, b := FromRoutes(e, left).value, FromRoutes(e, right).value;
    forall p: nat
      ensures AtPriority(a.rules, p) == AtPriority(CompileAll(e, left).value, p)
      ensures AtPriority(b.rules, p) == AtPriority(CompileAll(e, right).value, p)
    {
      SnapshotAtPriority(e, left, a, p);
      SnapshotAtPriority(e, right, b, p);
    }
    SnapshotAscends(e, left, a);
    SnapshotAscends(e, right, b);
    if SameAtEachPriority(a.rules, b.rules) {
      AscendingByPriority(a.rules, b.rules);
      assert a == b;
    }
  }
}
