/** The RULE_SHADOWED findings of `check-config --strict`
    (src/config/strict_check.rs) against the router they speak about. */
module StrictCheck {
  import opened Wrappers
  import opened Text
  import opened Seqs
  import opened StableOrder
  import opened ConfigModel
  import opened Matcher
  import opened Router

  const RULE_SHADOWED := "RULE_SHADOWED"

  datatype StrictFinding = StrictFinding(code: string, coveringRuleId: string, shadowedRuleId: string)

  // ----- The coverage tests, as coded -----

  predicate PathCovers(left: PathMatcher, right: PathMatcher) {
    match (left, right)
    case (Prefix(lp), Prefix(rp)) => lp <= rp
    case (Prefix(lp), Exact(re)) => lp <= re
    case (Exact(le), Exact(re)) => le == re
    case _ => false
  }

  predicate MethodsCover(left: Option<seq<string>>, right: Option<seq<string>>) {
    match (left, right)
    case (None, _) => true
    case (Some(_), None) => false
    case (Some(l), Some(r)) =>
      forall i :: 0 <= i < |r| ==> ListsMethod(l, r[i])
  }

  predicate ListsMethod(methods: seq<string>, name: string) {
    exists j :: 0 <= j < |methods| && EqIgnoreAsciiCase(methods[j], name)
  }

  /** The headers of the right rule are among those of the left rule. */
  predicate HeadersCover(left: Option<map<string, string>>, right: Option<map<string, string>>) {
    match (left, right)
    case (None, _) => true
    case (Some(_), None) => false
    case (Some(l), Some(r)) => forall k :: k in r ==> k in l && l[k] == r[k]
  }

  predicate Covers(left: RoutingRule, right: RoutingRule) {
    && MethodsCover(left.methods, right.methods)
    && HeadersCover(left.headers, right.headers)
    && PathCovers(left.path, right.path)
  }

  // ----- Reporting -----

  /** The rule at `l` is evaluated before the rule at `r` and covers it. */
  predicate IsShadowPair(routes: seq<RoutingRule>, l: nat, r: nat) {
    l < |routes| && r < |routes| && Before(Priorities(routes), l, r) && Covers(routes[l], routes[r])
  }

  /** Declared positions of the covering pairs whose left rule is evaluated
      `i`-th and whose right rule is evaluated before the `j`-th. */
  function RowPairs(routes: seq<RoutingRule>, i: nat, j: nat): seq<(nat, nat)>
    requires i < |routes| && j <= |routes|
  {
    if j <= i + 1 then []
    else
      var order := EvaluationOrder(routes);
      RowPairs(routes, i, j - 1)
      + (if Covers(routes[order[i]], routes[order[j - 1]]) then [(order[i], order[j - 1])] else [])
  }

  /** The covering pairs whose left rule is evaluated before the `i`-th. */
  function PairsBefore(routes: seq<RoutingRule>, i: nat): seq<(nat, nat)>
    requires i <= |routes|
  {
    if i == 0 then [] else PairsBefore(routes, i - 1) + RowPairs(routes, i - 1, |routes|)
  }

  function ShadowPairs(routes: seq<RoutingRule>): seq<(nat, nat)> {
    PairsBefore(routes, |routes|)
  }

  ghost predicate InRange(routes: seq<RoutingRule>, pairs: seq<(nat, nat)>) {
    forall k :: 0 <= k < |pairs| ==> pairs[k].0 < |routes| && pairs[k].1 < |routes|
  }

  /** `findings` has one finding for each pair, in order. */
  ghost predicate Reports(routes: seq<RoutingRule>, pairs: seq<(nat, nat)>, findings: seq<StrictFinding>) {
    && InRange(routes, pairs) && |findings| == |pairs|
    && forall k :: 0 <= k < |pairs| ==>
         findings[k] == StrictFinding(RULE_SHADOWED, routes[pairs[k].0].id, routes[pairs[k].1].id)
  }

  /** The nested loop over evaluation positions reports the shadow pairs, no
      others, each once. */
  method RunShadowChecks(routes: seq<RoutingRule>) returns (findings: seq<StrictFinding>)
    ensures Reports(routes, ShadowPairs(routes), findings)
    ensures forall k :: 0 <= k < |findings| ==> ReportsPair(routes, findings[k])
  {
    hide Covers, EvaluationOrder;
    var indices := EvaluationOrder(routes);
    findings := [];
    for ei := 0 to |indices|
      invariant Reports(routes, PairsBefore(routes, ei), findings)
    {
      var left := routes[indices[ei]];
      ghost var before := PairsBefore(routes, ei);
      for ej := ei + 1 to |indices|
        invariant Reports(routes, before + RowPairs(routes, ei, ej), findings)
      {
        var right := routes[indices[ej]];
        ghost var row := RowPairs(routes, ei, ej);
        if Covers(left, right) {
          findings := findings + [StrictFinding(RULE_SHADOWED, left.id, right.id)];
          assert before + (row + [(indices[ei], indices[ej])]) == (before + row) + [(indices[ei], indices[ej])];
        } else {
          assert row + [] == row;
        }
      }
    }
    FindingsReportPairs(routes, findings);
  }

  /** The finding names a rule that is evaluated first and one that it covers. */
  ghost predicate ReportsPair(routes: seq<RoutingRule>, f: StrictFinding) {
    && f.code == "RULE_SHADOWED"
    && (exists l: nat, r: nat ::
          IsShadowPair(routes, l, r) && f.coveringRuleId == routes[l].id && f.shadowedRuleId == routes[r].id)
  }

  lemma FindingsReportPairs(routes: seq<RoutingRule>, findings: seq<StrictFinding>)
    requires Reports(routes, ShadowPairs(routes), findings)
    ensures forall k :: 0 <= k < |findings| ==> ReportsPair(routes, findings[k])
  {
    hide ShadowPairs, IsShadowPair;
    var pairs := ShadowPairs(routes);
    forall k | 0 <= k < |findings|
      ensures ReportsPair(routes, findings[k])
    {
      var (l, r) := pairs[k];
      assert pairs[k] in pairs;
      ShadowPairsExact(routes, l, r);
    }
  }

  lemma {:induction false} RowPairsExact(routes: seq<RoutingRule>, i: nat, j: nat, l: nat, r: nat)
    requires i < |routes| && j <= |routes|
    ensures var order := EvaluationOrder(routes);
            (l, r) in RowPairs(routes, i, j)
            <==> order[i] == l && exists y: nat :: i < y < j && order[y] == r && Covers(routes[l], routes[r])
  {
    hide Covers, EvaluationOrder;
    if j > i + 1 {
      RowPairsExact(routes, i, j - 1, l, r);
    }
  }

  lemma {:induction false} RowIsIncluded(routes: seq<RoutingRule>, x: nat, i: nat, p: (nat, nat))
    requires x < i <= |routes| && p in RowPairs(routes, x, |routes|)
    ensures p in PairsBefore(routes, i)
  {
    if x < i - 1 {
      RowIsIncluded(routes, x, i - 1, p);
    }
  }

  lemma {:induction false} PairHasRow(routes: seq<RoutingRule>, i: nat, p: (nat, nat)) returns (x: nat)
    requires i <= |routes| && p in PairsBefore(routes, i)
    ensures x < i && p in RowPairs(routes, x, |routes|)
  {
    if p in RowPairs(routes, i - 1, |routes|) {
      x := i - 1;
    } else {
      x := PairHasRow(routes, i - 1, p);
    }
  }

  /** The reported pairs are exactly the shadow pairs. */
  lemma ShadowPairsExact(routes: seq<RoutingRule>, l: nat, r: nat)
    ensures (l, r) in ShadowPairs(routes) <==> IsShadowPair(routes, l, r)
  {
    var order := EvaluationOrder(routes);
    SortedIndicesStable(Priorities(routes));
    if (l, r) in ShadowPairs(routes) {
      var x := PairHasRow(routes, |routes|, (l, r));
      RowPairsExact(routes, x, |routes|, l, r);
      var y: nat :| x < y < |routes| && order[y] == r;
      assert Before(Priorities(routes), order[x], order[y]);
    }
    if IsShadowPair(routes, l, r) {
      assert l in order && r in order;
      var x: nat :| x < |order| && order[x] == l;
      var y: nat :| y < |order| && order[y] == r;
      assert x < y;
      RowPairsExact(routes, x, |routes|, l, r);
      RowIsIncluded(routes, x, |routes|, (l, r));
    }
  }

  lemma {:induction false} RowPairsDistinct(routes: seq<RoutingRule>, i: nat, j: nat)
    requires i < |routes| && j <= |routes|
    ensures Distinct(RowPairs(routes, i, j))
  {
    hide Covers;
    if j > i + 1 {
      var order := EvaluationOrder(routes);
      RowPairsDistinct(routes, i, j - 1);
      RowPairsExact(routes, i, j - 1, order[i], order[j - 1]);
      SortedIndicesStable(Priorities(routes));
      assert forall y: nat :: y < j - 1 ==> Before(Priorities(routes), order[y], order[j - 1]);
      assert (order[i], order[j - 1]) !in RowPairs(routes, i, j - 1);
    }
  }

  lemma RowsDisjoint(routes: seq<RoutingRule>, i: nat, p: (nat, nat))
    requires i < |routes| && p in PairsBefore(routes, i)
    ensures p !in RowPairs(routes, i, |routes|)
  {
    var order := EvaluationOrder(routes);
    var (l, r) := p;
    hide Covers;
    var x := PairHasRow(routes, i, p);
    RowPairsExact(routes, x, |routes|, l, r);
    RowPairsExact(routes, i, |routes|, l, r);
    SortedIndicesStable(Priorities(routes));
    assert Before(Priorities(routes), order[x], order[i]);
  }

  lemma {:induction false} PairsBeforeDistinct(routes: seq<RoutingRule>, i: nat)
    requires i <= |routes|
    ensures Distinct(PairsBefore(routes, i))
  {
    hide RowPairs, Covers;
    if i > 0 {
      var before := PairsBefore(routes, i - 1);
      PairsBeforeDistinct(routes, i - 1);
      RowPairsDistinct(routes, i - 1, |routes|);
      forall p | p in before
        ensures p !in RowPairs(routes, i - 1, |routes|)
      {
        RowsDisjoint(routes, i - 1, p);
      }
      DistinctAppend(before, RowPairs(routes, i - 1, |routes|));
    }
  }

  /** No pair is reported twice. */
  lemma ShadowPairsDistinct(routes: seq<RoutingRule>)
    ensures Distinct(ShadowPairs(routes))
  {
    PairsBeforeDistinct(routes, |routes|);
  }

  // ----- What the findings mean for the router -----

  ghost predicate Dominates(e: Engine, left: RoutingRule, right: RoutingRule) {
    forall req :: Genuine(req) && RuleAdmits(e, right, req) ==> RuleAdmits(e, left, req)
  }

  lemma PathCoverSound(e: Engine, left: PathMatcher, right: PathMatcher, path: string)
    requires PathCovers(left, right) && CompilePath(right).Matches(e, path)
    ensures CompilePath(left).Matches(e, path)
  {
    if right.Prefix? {
      assert left.value == right.value[..|left.value|] == path[..|left.value|];
    }
  }

  lemma MethodCoverSound(e: Engine, left: Option<seq<string>>, right: Option<seq<string>>, name: string)
    requires UnicodeUpper(e.upper) && MethodsCover(left, right) && MethodAdmits(e, right, name)
    ensures MethodAdmits(e, left, name)
  {
    if left.Some? {
      var l, r := left.value, right.value;
      var i :| 0 <= i < |r| && ToUppercase(e.upper, r[i]) == ToUppercase(e.upper, name);
      var j :| 0 <= j < |l| && EqIgnoreAsciiCase(l[j], r[i]);
      FoldImpliesUppercase(e.upper, l[j], r[i]);
    }
  }

  /** Some header of the right rule demands the same value under the same
      canonical name. */
  predicate Demanded(e: Engine, name: string, value: string, right: Option<map<string, string>>) {
    && e.headerName(name).Some?
    && right.Some?
    && exists other :: other in right.value && e.headerName(other) == e.headerName(name) && right.value[other] == value
  }

  /** Every header the left rule demands is demanded by the right rule as well:
      the inclusion opposite to the one that is coded. */
  predicate HeadersImplied(e: Engine, left: Option<map<string, string>>, right: Option<map<string, string>>) {
    left.Some? ==> forall name :: name in left.value ==> Demanded(e, name, left.value[name], right)
  }

  lemma ImpliedHeadersAdmit(e: Engine, left: Option<map<string, string>>, right: Option<map<string, string>>,
                            headers: map<string, HeaderValue>)
    requires HeadersImplied(e, left, right) && HeadersAdmit(e, right, headers)
    ensures HeadersAdmit(e, left, headers)
  {
    if left.Some? {
      forall name | name in left.value
        ensures HeaderHolds(e, name, left.value[name], headers)
      {
        assert Demanded(e, name, left.value[name], right);
        var other :| other in right.value && e.headerName(other) == e.headerName(name)
                     && right.value[other] == left.value[name];
        assert HeaderHolds(e, other, right.value[other], headers);
      }
    }
  }

  /** A header that only the left rule demands can be dropped from a request that
      both admit: the right rule still admits it and the left no longer does. */
  lemma DropHeader(e: Engine, left: RoutingRule, right: RoutingRule, req: Request) returns (other: Request)
    requires Genuine(req) && RuleAdmits(e, right, req) && !HeadersImplied(e, left.headers, right.headers)
    ensures Genuine(other) && RuleAdmits(e, right, other) && !RuleAdmits(e, left, other)
  {
    if !RuleAdmits(e, left, req) {
      return req;
    }
    var name :| name in left.headers.value && !Demanded(e, name, left.headers.value[name], right.headers);
    assert HeaderHolds(e, name, left.headers.value[name], req.headers);
    var n := e.headerName(name).value;
    other := req.(headers := req.headers - {n});
    if right.headers.Some? {
      forall k | k in right.headers.value
        ensures HeaderHolds(e, k, right.headers.value[k], other.headers)
      {
        assert HeaderHolds(e, k, right.headers.value[k], req.headers);
        assert e.headerName(k) != Some(n);
      }
    }
    assert !HeaderHolds(e, name, left.headers.value[name], other.headers);
  }

  // ----- Rules that match nothing -----

  /** A request can meet all demands: every name is valid, every value can be sent,
      and no two spellings of one name demand different values. */
  predicate HeadersConsistent(e: Engine, required: Option<map<string, string>>) {
    required.Some? ==>
      && (forall name :: name in required.value ==> e.headerName(name).Some? && Printable(required.value[name]))
      && (forall a, b :: a in required.value && b in required.value && e.headerName(a) == e.headerName(b)
            ==> required.value[a] == required.value[b])
  }

  /** Some request can meet the rule, as far as methods and headers go. */
  predicate Servable(e: Engine, rule: RoutingRule) {
    rule.methods != Some([]) && HeadersConsistent(e, rule.headers)
  }

  /** The path is compared as text, without a pattern engine. */
  predicate LiteralPath(path: PathMatcher) {
    path.Exact? || path.Prefix?
  }

  /** The headers of a request that meets the demands for `names`. */
  ghost function Demands(e: Engine, required: map<string, string>, names: set<string>): map<string, HeaderValue>
    requires names <= required.Keys && forall name :: name in names ==> e.headerName(name).Some?
  {
    map n | n in (set name | name in names :: e.headerName(name).value) ::
      var name :| name in names && e.headerName(name) == Some(n); Readable(required[name])
  }

  /** The request that a servable rule with a literal path admits. */
  lemma Sample(e: Engine, rule: RoutingRule) returns (req: Request)
    requires LiteralPath(rule.path) && Servable(e, rule)
    ensures Genuine(req) && RuleAdmits(e, rule, req) && req.path == rule.path.value
    ensures rule.methods.Some? ==> req.method' == rule.methods.value[0]
  {
    var name := if rule.methods.Some? then rule.methods.value[0] else "GET";
    var headers := if rule.headers.Some? then Demands(e, rule.headers.value, rule.headers.value.Keys) else map[];
    req := Request(rule.path.value, name, headers);
    assert HeadersAdmit(e, rule.headers, headers);
  }

  lemma ServableIsNeeded(e: Engine, rule: RoutingRule, req: Request)
    requires Genuine(req) && RuleAdmits(e, rule, req)
    ensures Servable(e, rule)
  {
    if rule.headers.Some? {
      forall name | name in rule.headers.value
        ensures e.headerName(name).Some? && e.headerName(name).value in req.headers
        ensures TextOrEmpty(req.headers[e.headerName(name).value]) == rule.headers.value[name]
      {
        assert HeaderHolds(e, name, rule.headers.value[name], req.headers);
      }
    }
  }

  /** A rule with a literal path matches some request if and only if it is servable. */
  lemma ServableExactly(e: Engine, rule: RoutingRule)
    requires LiteralPath(rule.path)
    ensures Servable(e, rule) <==> exists req :: Genuine(req) && RuleAdmits(e, rule, req)
  {
    if Servable(e, rule) {
      var req := Sample(e, rule);
    }
    if req :| Genuine(req) && RuleAdmits(e, rule, req) {
      ServableIsNeeded(e, rule, req);
    }
  }

  // ----- When one rule shadows another -----

  /** What truly makes the left headers cover the right ones. */
  predicate HeadersShadow(e: Engine, left: RoutingRule, right: RoutingRule) {
    HeadersImplied(e, left.headers, right.headers) || !Servable(e, right)
  }

  /** For every pair that passes the method and the path test, reported or not: the
      left rule admits whatever the right one admits if and only if its headers are
      demanded by the right rule, or the right rule matches nothing at all. */
  lemma ShadowingExact(e: Engine, left: RoutingRule, right: RoutingRule)
    requires UnicodeUpper(e.upper) && MethodsCover(left.methods, right.methods) && PathCovers(left.path, right.path)
    ensures Dominates(e, left, right) <==> HeadersShadow(e, left, right)
  {
    ServableExactly(e, right);
    if HeadersImplied(e, left.headers, right.headers) {
      ImpliedHeadersDominate(e, left, right);
    } else if Servable(e, right) {
      var req := Sample(e, right);
      var other := DropHeader(e, left, right, req);
    }
  }

  predicate AsciiMethods(methods: Option<seq<string>>) {
    methods.Some? ==> forall i :: 0 <= i < |methods.value| ==> IsAscii(methods.value[i])
  }

  /** On ASCII methods the coded test accepts exactly what it should: whatever method
      meets the right rule meets the left one. */
  lemma MethodTestExact(e: Engine, left: Option<seq<string>>, right: Option<seq<string>>)
    requires UnicodeUpper(e.upper) && AsciiMethods(left) && AsciiMethods(right)
    ensures MethodsCover(left, right)
            <==> forall name :: MethodAdmits(e, right, name) ==> MethodAdmits(e, left, name)
  {
    hide EqIgnoreAsciiCase, ToUppercase;
    if MethodsCover(left, right) {
      forall name | MethodAdmits(e, right, name)
        ensures MethodAdmits(e, left, name)
      {
        MethodCoverSound(e, left, right, name);
      }
    } else if MethodsImplied(e, left, right) {
      AsciiImpliedIsCovered(e, left, right);
      assert false;
    } else {
      var name := UncoveredMethod(e, left, right);
    }
  }

  lemma AsciiImpliedIsCovered(e: Engine, left: Option<seq<string>>, right: Option<seq<string>>)
    requires UnicodeUpper(e.upper) && AsciiMethods(left) && AsciiMethods(right) && MethodsImplied(e, left, right)
    ensures MethodsCover(left, right)
  {
    if left.Some? {
      var l, r := left.value, right.value;
      forall i | 0 <= i < |r|
        ensures ListsMethod(l, r[i])
      {
        assert MethodAdmits(e, left, r[i]);
        var j :| 0 <= j < |l| && ToUppercase(e.upper, l[j]) == ToUppercase(e.upper, r[i]);
        AsciiToUppercase(e.upper, l[j]);
        AsciiToUppercase(e.upper, r[i]);
        assert EqIgnoreAsciiCase(l[j], r[i]);
      }
      assert right == Some(r) && left == Some(l);
    }
  }

  /** The coded header test passes exactly when there are no left headers, or both
      rules have headers and all that meets the left ones meets the right ones,
      however header names are read: the opposite of what shadowing needs. */
  lemma HeaderTestMeans(left: Option<map<string, string>>, right: Option<map<string, string>>)
    ensures HeadersCover(left, right)
            <==> left.None?
                 || (right.Some? && forall e: Engine, headers ::
                       HeadersAdmit(e, left, headers) ==> HeadersAdmit(e, right, headers))
  {
    if left.Some? && right.Some? {
      if HeadersCover(left, right) {
        forall e: Engine, headers | HeadersAdmit(e, left, headers)
          ensures HeadersAdmit(e, right, headers)
        {
          forall name | name in right.value
            ensures HeaderHolds(e, name, right.value[name], headers)
          {
            assert HeaderHolds(e, name, left.value[name], headers);
          }
        }
      } else {
        var name :| name in right.value && !(name in left.value && left.value[name] == right.value[name]);
        var headers := map n | n in left.value :: Readable(left.value[n]);
        assert HeadersAdmit(PlainEngine(), left, headers);
        assert !HeaderHolds(PlainEngine(), name, right.value[name], headers);
      }
    }
  }

  /** An engine that takes every header name as it is. */
  function PlainEngine(): Engine {
    Engine(_ => true, (_, _) => true, _ => true, (_, _) => true, c => [AsciiUpperChar(c)], n => Some(n),
           (_, _) => Ok([]))
  }

  /** Nothing is lost between literal paths and ASCII methods: whatever is shadowed and
      passes the coded header test is reported. */
  lemma ShadowIsReported(e: Engine, routes: seq<RoutingRule>, l: nat, r: nat)
    requires UnicodeUpper(e.upper) && l < |routes| && r < |routes| && Before(Priorities(routes), l, r)
    requires LiteralPath(routes[l].path) && LiteralPath(routes[r].path) && Servable(e, routes[r])
    requires AsciiMethods(routes[l].methods) && AsciiMethods(routes[r].methods)
    ensures Dominates(e, routes[l], routes[r])
            ==> ((l, r) in ShadowPairs(routes) <==> HeadersCover(routes[l].headers, routes[r].headers))
  {
    hide Servable, Dominates, HeadersCover, MethodsImplied, MethodsCover, HeadersImplied;
    if Dominates(e, routes[l], routes[r]) {
      DominationExact(e, routes[l], routes[r]);
      AsciiImpliedIsCovered(e, routes[l].methods, routes[r].methods);
    }
    ShadowPairsExact(routes, l, r);
  }

  /** A report is false exactly when some left header is not demanded by a right rule
      that can match. */
  lemma ReportIsFalseExactly(e: Engine, routes: seq<RoutingRule>, l: nat, r: nat)
    requires UnicodeUpper(e.upper) && IsShadowPair(routes, l, r)
    ensures !Dominates(e, routes[l], routes[r])
            <==> Servable(e, routes[r]) && !HeadersImplied(e, routes[l].headers, routes[r].headers)
  {
    ShadowingExact(e, routes[l], routes[r]);
  }

  /** A shadow is missed exactly when the right rule demands the left headers (or
      matches nothing) and has a header of its own that the left rule lacks. */
  lemma ShadowIsMissedExactly(e: Engine, routes: seq<RoutingRule>, l: nat, r: nat)
    requires UnicodeUpper(e.upper) && l < |routes| && r < |routes| && Before(Priorities(routes), l, r)
    requires MethodsCover(routes[l].methods, routes[r].methods) && PathCovers(routes[l].path, routes[r].path)
    ensures Dominates(e, routes[l], routes[r]) && (l, r) !in ShadowPairs(routes)
            <==> HeadersShadow(e, routes[l], routes[r]) && !HeadersCover(routes[l].headers, routes[r].headers)
  {
    ShadowingExact(e, routes[l], routes[r]);
    ShadowPairsExact(routes, l, r);
  }

  // ----- Literal paths: when one rule shadows another, without the coded tests -----

  /** Whatever method meets the right rule meets the left one. */
  predicate MethodsImplied(e: Engine, left: Option<seq<string>>, right: Option<seq<string>>) {
    match (left, right)
    case (None, _) => true
    case (Some(_), None) => false
    case (Some(_), Some(r)) => forall i :: 0 <= i < |r| ==> MethodAdmits(e, left, r[i])
  }

  /** Upper-case forms at most this long. */
  function Longest(up: char -> string, ms: seq<string>): (n: nat)
    ensures forall j :: 0 <= j < |ms| ==> |ToUppercase(up, ms[j])| <= n
  {
    if ms == [] then 0
    else
      var n, last := Longest(up, ms[..|ms| - 1]), |ToUppercase(up, ms[|ms| - 1])|;
      if n < last then last else n
  }

  /** A method that is not among the given ones. */
  lemma OtherMethod(e: Engine, ms: seq<string>) returns (name: string)
    requires UnicodeUpper(e.upper)
    ensures !MethodAdmits(e, Some(ms), name)
  {
    name := seq(Longest(e.upper, ms) + 1, i => 'A');
    AsciiToUppercase(e.upper, name);
  }

  /** A path on which a covering test fails is one that only the right rule accepts. */
  lemma UncoveredPath(e: Engine, left: PathMatcher, right: PathMatcher) returns (path: string)
    requires LiteralPath(left) && LiteralPath(right) && !PathCovers(left, right)
    ensures CompilePath(right).Matches(e, path) && !CompilePath(left).Matches(e, path)
  {
    path := right.value;
    if left.Exact? && right.Prefix? && left.value == path {
      path := path + "/";
    }
  }

  lemma UncoveredMethod(e: Engine, left: Option<seq<string>>, right: Option<seq<string>>) returns (name: string)
    requires UnicodeUpper(e.upper) && !MethodsImplied(e, left, right)
    ensures MethodAdmits(e, right, name) && !MethodAdmits(e, left, name)
  {
    if right.None? {
      name := OtherMethod(e, left.value);
    } else {
      var i :| 0 <= i < |right.value| && !MethodAdmits(e, left, right.value[i]);
      name := right.value[i];
    }
  }

  lemma ImpliedMethodAdmits(e: Engine, left: Option<seq<string>>, right: Option<seq<string>>, name: string)
    requires MethodsImplied(e, left, right) && MethodAdmits(e, right, name)
    ensures MethodAdmits(e, left, name)
  {
    if left.Some? {
      var i :| 0 <= i < |right.value| && ToUppercase(e.upper, right.value[i]) == ToUppercase(e.upper, name);
      assert MethodAdmits(e, left, right.value[i]);
    }
  }

  /** With literal paths, all of domination in decidable terms: a rule that can
      match is shadowed if and only if its path, its methods and its headers are. */
  lemma DominationExact(e: Engine, left: RoutingRule, right: RoutingRule)
    requires UnicodeUpper(e.upper) && LiteralPath(left.path) && LiteralPath(right.path)
    ensures Dominates(e, left, right)
            <==> !Servable(e, right)
                 || (PathCovers(left.path, right.path) && MethodsImplied(e, left.methods, right.methods)
                     && HeadersImplied(e, left.headers, right.headers))
  {
    hide Servable, PathCovers, MethodsImplied, HeadersImplied, HeadersAdmit, MethodAdmits;
    ServableExactly(e, right);
    if Servable(e, right) {
      var req := Sample(e, right);
      if !PathCovers(left.path, right.path) {
        var path := UncoveredPath(e, left.path, right.path);
        assert RuleAdmits(e, right, req.(path := path)) && !RuleAdmits(e, left, req.(path := path));
      } else if !MethodsImplied(e, left.methods, right.methods) {
        var name := UncoveredMethod(e, left.methods, right.methods);
        assert RuleAdmits(e, right, req.(method' := name)) && !RuleAdmits(e, left, req.(method' := name));
      } else if !HeadersImplied(e, left.headers, right.headers) {
        var other := DropHeader(e, left, right, req);
      } else {
        forall other | Genuine(other) && RuleAdmits(e, right, other)
          ensures RuleAdmits(e, left, other)
        {
          PathCoverSound(e, left.path, right.path, other.path);
          ImpliedMethodAdmits(e, left.methods, right.methods, other.method');
          ImpliedHeadersAdmit(e, left.headers, right.headers, other.headers);
        }
      }
    }
  }

  lemma ImpliedHeadersDominate(e: Engine, left: RoutingRule, right: RoutingRule)
    requires UnicodeUpper(e.upper) && MethodsCover(left.methods, right.methods) && PathCovers(left.path, right.path)
    requires HeadersImplied(e, left.headers, right.headers)
    ensures Dominates(e, left, right)
  {
    forall req | Genuine(req) && RuleAdmits(e, right, req)
      ensures RuleAdmits(e, left, req)
    {
      PathCoverSound(e, left.path, right.path, req.path);
      MethodCoverSound(e, left.methods, right.methods, req.method');
      ImpliedHeadersAdmit(e, left.headers, right.headers, req.headers);
    }
  }

  /** A rule that an earlier rule dominates is never the winner of a request. */
  lemma DominatedNeverWins(e: Engine, routes: seq<RoutingRule>, l: nat, r: nat, req: Request)
    requires l < |routes| && r < |routes| && Before(Priorities(routes), l, r) && Dominates(e, routes[l], routes[r])
    requires Genuine(req)
    ensures !IsWinner(e, routes, req, Some(r))
  {
    if RuleAdmits(e, routes[r], req) {
      assert RuleAdmits(e, routes[l], req);
    }
  }

  /** A finding is sound when the left rule has no header constraint, the same
      one as the right rule, or one that the right rule implies: the router's
      first match is never the rule reported as shadowed. */
  lemma ShadowedNeverResolved(e: Engine, routes: seq<RoutingRule>, snapshot: RouterSnapshot, l: nat, r: nat,
                              req: Request)
    requires UnicodeUpper(e.upper) && FromRoutes(e, routes) == Ok(snapshot) && IsShadowPair(routes, l, r)
    requires routes[l].headers == None || routes[l].headers == routes[r].headers
             || HeadersImplied(e, routes[l].headers, routes[r].headers)
    ensures var k := FirstMatch(e, snapshot.rules, req);
            k < |routes| ==> EvaluationOrder(routes)[k] != r
  {
    var k := FirstMatch(e, snapshot.rules, req);
    SnapshotRule(e, routes, snapshot, k, req);
    if k < |routes| && EvaluationOrder(routes)[k] == r {
      assert RuleAdmits(e, routes[r], req);
      PathCoverSound(e, routes[l].path, routes[r].path, req.path);
      MethodCoverSound(e, routes[l].methods, routes[r].methods, req.method');
      if HeadersImplied(e, routes[l].headers, routes[r].headers) {
        ImpliedHeadersAdmit(e, routes[l].headers, routes[r].headers, req.headers);
      }
      assert RuleAdmits(e, routes[l], req);
      EarlierRuleFirst(e, routes, snapshot, l, k, req);
      assert false;
    }
  }

  /** No admitting rule is evaluated before the first match. */
  lemma EarlierRuleFirst(e: Engine, routes: seq<RoutingRule>, snapshot: RouterSnapshot, l: nat, k: nat, req: Request)
    requires FromRoutes(e, routes) == Ok(snapshot) && l < |routes| && k < |routes|
    requires k == FirstMatch(e, snapshot.rules, req) && RuleAdmits(e, routes[l], req)
    ensures !Before(Priorities(routes), l, EvaluationOrder(routes)[k])
  {
    hide FromRoutes, Admits, SortedIndices, FirstMatch;
    var order := EvaluationOrder(routes);
    SortedIndicesStable(Priorities(routes));
    assert l in order;
    var m: nat :| m < |order| && order[m] == l;
    SnapshotRule(e, routes, snapshot, m, req);
    assert snapshot.rules[m].Matches(e, req);
    assert k <= m;
  }

  // ----- Where the coded header test goes wrong -----

  function PlainRule(id: string, headers: map<string, string>, priority: nat): RoutingRule {
    RoutingRule(id, Prefix("/"), None, Some(headers), Some("svc"), None, None, None, priority)
  }

  /** A finding that is wrong: the left rule demands a second header, so a request
      without it resolves to the rule reported as unreachable. */
  lemma FalseShadowFinding(e: Engine)
    requires e.headerName("x-a") == Some("x-a") && e.headerName("x-b") == Some("x-b")
    ensures var left := PlainRule("left", map["x-a" := "1", "x-b" := "2"], 10);
            var routes := [left, PlainRule("right", map["x-a" := "1"], 20)];
            var req := Request("/", "GET", map["x-a" := Readable("1")]);
            IsShadowPair(routes, 0, 1) && Genuine(req) && IsWinner(e, routes, req, Some(1))
  {
    var left := PlainRule("left", map["x-a" := "1", "x-b" := "2"], 10);
    var req := Request("/", "GET", map["x-a" := Readable("1")]);
    assert !HeaderHolds(e, "x-b", left.headers.value["x-b"], req.headers);
    assert !RuleAdmits(e, left, req);
  }

  /** A missing finding: the left rule demands less, so the right rule is
      unreachable, and yet the pair is not reported. */
  lemma MissedShadow(e: Engine)
    requires UnicodeUpper(e.upper) && e.headerName("x-a") == Some("x-a")
    ensures var right := PlainRule("right", map["x-a" := "1", "x-b" := "2"], 20);
            var routes := [PlainRule("left", map["x-a" := "1"], 10), right];
            && !IsShadowPair(routes, 0, 1)
            && forall req :: Genuine(req) ==> !IsWinner(e, routes, req, Some(1))
  {
    var left := PlainRule("left", map["x-a" := "1"], 10);
    var right := PlainRule("right", map["x-a" := "1", "x-b" := "2"], 20);
    assert "x-a" in right.headers.value && "x-b" in right.headers.value && "x-b" !in left.headers.value;
    assert Demanded(e, "x-a", "1", right.headers);
    ImpliedHeadersDominate(e, left, right);
    forall req | Genuine(req)
      ensures !IsWinner(e, [left, right], req, Some(1))
    {
      DominatedNeverWins(e, [left, right], 0, 1, req);
    }
  }
}
