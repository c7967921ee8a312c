/** Comparing two configurations (src/config/diff.rs), and what a report of no
    differences says about routing. */
module ConfigDiff {
  import opened Wrappers
  import opened Text
  import opened Seqs
  import opened Json
  import opened JsonDiff
  import opened ConfigModel
  import opened StableOrder
  import opened Matcher
  import opened Router

  // ----- Routes as JSON -----

  function TextOrNull(s: Option<string>): Json {
    match s
    case None => Null
    case Some(t) => Str(t)
  }

  function Texts(ss: seq<string>): seq<Json> {
    seq(|ss|, i requires 0 <= i < |ss| => Str(ss[i]))
  }

  function TextsOrNull(ss: Option<seq<string>>): Json {
    match ss
    case None => Null
    case Some(ts) => Array(Texts(ts))
  }

  function TextFields(m: map<string, string>): map<string, Json> {
    map k | k in m :: Str(m[k])
  }

  function FieldsOrNull(m: Option<map<string, string>>): Json {
    match m
    case None => Null
    case Some(hs) => Object(TextFields(hs))
  }

  function PathJson(p: PathMatcher): Json {
    var tag := match p
      case Exact(_) => "exact"
      case Prefix(_) => "prefix"
      case Glob(_) => "glob"
      case Regex(_) => "regex";
    Object(map["type" := Str(tag), "value" := Str(p.value)])
  }

  /** `serde_json::to_value` of a routing rule. */
  function RuleJson(r: RoutingRule): Json {
    Object(map[
      "id" := Str(r.id), "path" := PathJson(r.path), "methods" := TextsOrNull(r.methods),
      "headers" := FieldsOrNull(r.headers), "service_id" := TextOrNull(r.serviceId),
      "upstream_url" := TextOrNull(r.upstreamUrl), "strip_prefix" := TextOrNull(r.stripPrefix),
      "response_headers" := FieldsOrNull(r.responseHeaders), "priority" := Number(Decimal(r.priority))
    ])
  }

  // ----- Reading a rule back -----

  function TextOf(j: Json): string {
    if j.Str? then j.s else ""
  }

  function OptionalText(j: Json): Option<string> {
    if j.Str? then Some(j.s) else None
  }

  function OptionalTexts(j: Json): Option<seq<string>> {
    if j.Array? then Some(seq(|j.items|, i requires 0 <= i < |j.items| => TextOf(j.items[i]))) else None
  }

  function OptionalFields(j: Json): Option<map<string, string>> {
    if j.Object? then Some(map k | k in j.fields :: TextOf(j.fields[k])) else None
  }

  function Member(j: Json, name: string): Json {
    if j.Object? && name in j.fields then j.fields[name] else Null
  }

  function PathOf(j: Json): PathMatcher {
    var tag, value := TextOf(Member(j, "type")), TextOf(Member(j, "value"));
    if tag == "exact" then Exact(value)
    else if tag == "prefix" then Prefix(value)
    else if tag == "glob" then Glob(value)
    else Regex(value)
  }

  function NumberOf(j: Json): nat {
    if j.Number? && AllDigits(j.token) then DecimalValue(j.token) else 0
  }

  /** The rule that a configuration file with this JSON would hold. */
  function RuleOf(j: Json): RoutingRule {
    RoutingRule(
      TextOf(Member(j, "id")), PathOf(Member(j, "path")), OptionalTexts(Member(j, "methods")),
      OptionalFields(Member(j, "headers")), OptionalText(Member(j, "service_id")),
      OptionalText(Member(j, "upstream_url")), OptionalText(Member(j, "strip_prefix")),
      OptionalFields(Member(j, "response_headers")), NumberOf(Member(j, "priority")))
  }

  lemma TextsRoundTrip(ss: Option<seq<string>>)
    ensures OptionalTexts(TextsOrNull(ss)) == ss
  {
    if ss.Some? {
      assert OptionalTexts(TextsOrNull(ss)).value == ss.value;
    }
  }

  lemma FieldsRoundTrip(m: Option<map<string, string>>)
    ensures OptionalFields(FieldsOrNull(m)) == m
  {
    if m.Some? {
      assert OptionalFields(FieldsOrNull(m)).value == m.value;
    }
  }

  lemma PathRoundTrip(p: PathMatcher)
    ensures PathOf(PathJson(p)) == p
  {
    assert "exact"[0] == 'e' && "prefix"[0] == 'p' && "glob"[0] == 'g' && "regex"[0] == 'r';
  }

  /** A rule can be read back from its JSON. */
  lemma RuleRoundTrip(r: RoutingRule)
    ensures RuleOf(RuleJson(r)) == r
  {
    hide PathJson, PathOf, TextsOrNull, FieldsOrNull, OptionalTexts, OptionalFields, Decimal;
    var m := RuleJson(r).fields;
    assert m["id"] == Str(r.id) && m["path"] == PathJson(r.path) && m["methods"] == TextsOrNull(r.methods);
    assert m["headers"] == FieldsOrNull(r.headers) && m["response_headers"] == FieldsOrNull(r.responseHeaders);
    assert m["service_id"] == TextOrNull(r.serviceId) && m["upstream_url"] == TextOrNull(r.upstreamUrl);
    assert m["strip_prefix"] == TextOrNull(r.stripPrefix) && m["priority"] == Number(Decimal(r.priority));
    PathRoundTrip(r.path);
    TextsRoundTrip(r.methods);
    FieldsRoundTrip(r.headers);
    FieldsRoundTrip(r.responseHeaders);
    DecimalRoundTrip(r.priority);
  }

  /** No two rules have the same JSON. */
  lemma RuleJsonInjective(a: RoutingRule, b: RoutingRule)
    requires RuleJson(a) == RuleJson(b)
    ensures a == b
  {
    hide RuleJson, RuleOf;
    RuleRoundTrip(a);
    RuleRoundTrip(b);
  }

  // ----- Routes by id -----

  /** The map from id to route; a later route replaces an earlier one. */
  function ById(routes: seq<RoutingRule>): map<string, RoutingRule> {
    if routes == [] then map[]
    else ById(routes[..|routes| - 1])[routes[|routes| - 1].id := routes[|routes| - 1]]
  }

  function RuleValue(r: Option<RoutingRule>): Option<Json> {
    match r
    case None => None
    case Some(rule) => Some(RuleJson(rule))
  }

  /** The entry for an id whose routes differ. */
  function RouteChange(id: string, l: map<string, RoutingRule>, r: map<string, RoutingRule>): Change {
    var (a, b) := (RuleValue(Find(l, id)), RuleValue(Find(r, id)));
    Change("routes[" + id + "]", KindOf(a, b), a, b)
  }

  /** `out` has one entry for each of the distinct `ids`. */
  ghost predicate Lists(l: map<string, RoutingRule>, r: map<string, RoutingRule>, ids: seq<string>, out: seq<Change>) {
    && |out| == |ids| && Distinct(ids)
    && forall i :: 0 <= i < |ids| ==> out[i] == RouteChange(ids[i], l, r)
  }

  lemma ListsNothing(l: map<string, RoutingRule>, r: map<string, RoutingRule>)
    ensures Lists(l, r, [], [])
  {
  }

  lemma ListsMore(l: map<string, RoutingRule>, r: map<string, RoutingRule>, ids: seq<string>, out: seq<Change>,
                  id: string)
    requires Lists(l, r, ids, out) && id !in ids
    ensures Lists(l, r, ids + [id], out + [RouteChange(id, l, r)])
  {
    hide RouteChange;
    DistinctAppend(ids, [id]);
  }

  /** Where entries of a kind stand in the list. */
  function Rank(k: Kind): nat {
    match k
    case Removed => 0
    case Added => 1
    case Modified => 2
  }

  ghost predicate Ranked(out: seq<Change>) {
    forall i, j :: 0 <= i < j < |out| ==> Rank(out[i].kind) <= Rank(out[j].kind)
  }

  /** Appends the entries of the ids in `among`, all of one kind, in any order. */
  method ListChanges(l: map<string, RoutingRule>, r: map<string, RoutingRule>, among: set<string>, kind: Kind,
                     out0: seq<Change>, ghost ids0: seq<string>)
    returns (out: seq<Change>, ghost ids: seq<string>)
    requires Lists(l, r, ids0, out0) && forall id :: id in ids0 ==> id !in among
    requires forall id :: id in among ==> KindOf(RuleValue(Find(l, id)), RuleValue(Find(r, id))) == kind
    requires Ranked(out0) && forall i :: 0 <= i < |out0| ==> Rank(out0[i].kind) < Rank(kind)
    ensures Lists(l, r, ids, out)
    ensures Ranked(out) && forall i :: 0 <= i < |out| ==> Rank(out[i].kind) <= Rank(kind)
    ensures forall id :: id in ids <==> id in ids0 || (id in among && Find(l, id) != Find(r, id))
  {
    hide Lists, RuleJson;
    out, ids := out0, ids0;
    var todo := among;
    while todo != {}
      invariant todo <= among && Lists(l, r, ids, out)
      invariant Ranked(out) && forall i :: 0 <= i < |out| ==> Rank(out[i].kind) <= Rank(kind)
      invariant forall id :: id in ids <==> id in ids0 || (id in among - todo && Find(l, id) != Find(r, id))
      decreases todo
    {
      var id :| id in todo;
      var a, b := RuleValue(Find(l, id)), RuleValue(Find(r, id));
      if a.Some? && b.Some? && a != b {
        ListsMore(l, r, ids, out, id);
        out, ids := out + [Change("routes[" + id + "]", Modified, a, b)], ids + [id];
      } else if a.Some? && b.None? {
        ListsMore(l, r, ids, out, id);
        out, ids := out + [Change("routes[" + id + "]", Removed, a, None)], ids + [id];
      } else if a.None? && b.Some? {
        ListsMore(l, r, ids, out, id);
        out, ids := out + [Change("routes[" + id + "]", Added, None, b)], ids + [id];
      } else if a.Some? {
        RuleJsonInjective(l[id], r[id]);
      }
      todo := todo - {id};
    }
  }

  /** What the entries mean: an added id is missing on the left, a removed one on the
      right, and each side that there is holds the last route of the id. */
  ghost predicate TellsSides(l: map<string, RoutingRule>, r: map<string, RoutingRule>, id: string, c: Change) {
    && c.path == "routes[" + id + "]"
    && (c.kind.Added? <==> id !in l) && (c.kind.Removed? <==> id !in r)
    && (c.left.Some? <==> id in l) && (c.left.Some? ==> RuleOf(c.left.value) == l[id])
    && (c.right.Some? <==> id in r) && (c.right.Some? ==> RuleOf(c.right.value) == r[id])
  }

  lemma EntriesTellSides(l: map<string, RoutingRule>, r: map<string, RoutingRule>, ids: seq<string>, out: seq<Change>)
    requires Lists(l, r, ids, out) && forall id :: id in ids ==> Find(l, id) != Find(r, id)
    ensures forall i :: 0 <= i < |out| ==> TellsSides(l, r, ids[i], out[i])
  {
    hide RuleJson, RuleOf;
    forall i | 0 <= i < |out|
      ensures TellsSides(l, r, ids[i], out[i])
    {
      var id := ids[i];
      assert id in ids && out[i] == RouteChange(id, l, r);
      if id in l {
        RuleRoundTrip(l[id]);
      }
      if id in r {
        RuleRoundTrip(r[id]);
      }
    }
  }

  /** Removed ids first, then added ones, then those on both sides that differ. */
  method DiffRoutesById(left: seq<RoutingRule>, right: seq<RoutingRule>)
    returns (out: seq<Change>, ghost ids: seq<string>)
    ensures Lists(ById(left), ById(right), ids, out)
    ensures forall id :: id in ids <==> Find(ById(left), id) != Find(ById(right), id)
    ensures forall i :: 0 <= i < |out| ==> TellsSides(ById(left), ById(right), ids[i], out[i])
    ensures out == [] <==> ById(left) == ById(right)
    ensures forall i, j :: 0 <= i < j < |out| ==>
              && (out[j].kind.Removed? ==> out[i].kind.Removed?)
              && (out[j].kind.Added? ==> !out[i].kind.Modified?)
  {
    hide ById, RuleJson, Lists, TellsSides;
    var l, r := ById(left), ById(right);
    ListsNothing(l, r);
    out, ids := ListChanges(l, r, l.Keys - r.Keys, Removed, [], []);
    out, ids := ListChanges(l, r, r.Keys - l.Keys, Added, out, ids);
    out, ids := ListChanges(l, r, l.Keys * r.Keys, Modified, out, ids);
    EmptyRouteDiff(l, r, ids, out);
    EntriesTellSides(l, r, ids, out);
  }

  // ----- Whole configurations -----

  datatype ConfigDiffReport = ConfigDiffReport(identical: bool, changes: seq<Change>)

  /** Equal in everything that is compared: the schema version is not. */
  ghost predicate SameSettings(left: AppConfig, right: AppConfig)
    reads left, right
  {
    && left.server == right.server && left.registries == right.registries && left.logLevel == right.logLevel
    && ById(left.routes) == ById(right.routes)
  }

  method DiffAppConfigs(left: AppConfig, right: AppConfig)
    returns (report: ConfigDiffReport, ghost server: seq<Keys>, ghost registries: seq<Keys>, ghost ids: seq<string>)
    ensures report.identical <==> report.changes == []
    ensures report.identical <==> SameSettings(left, right)
    ensures exists a, b, c, d ::
              && report.changes == a + b + c + d
              && Reports("server", left.server, right.server, server, a)
              && b == (if left.logLevel == right.logLevel then []
                       else [Change("log_level", Modified, Some(Str(left.logLevel)), Some(Str(right.logLevel)))])
              && Reports("registries", left.registries, right.registries, registries, c)
              && Lists(ById(left.routes), ById(right.routes), ids, d)
  {
    hide Reports, Lists, ById;
    var a, b, c, d;
    a, server := DiffJsonLeaf("server", left.server, right.server);
    EmptyDiffIffEqual("server", left.server, right.server, server, a);
    b := if left.logLevel == right.logLevel then []
         else [Change("log_level", Modified, Some(Str(left.logLevel)), Some(Str(right.logLevel)))];
    c, registries := DiffJsonLeaf("registries", left.registries, right.registries);
    EmptyDiffIffEqual("registries", left.registries, right.registries, registries, c);
    d, ids := DiffRoutesById(left.routes, right.routes);
    var changes := a + b + c + d;
    report := ConfigDiffReport(changes == [], changes);
  }

  lemma EmptyRouteDiff(l: map<string, RoutingRule>, r: map<string, RoutingRule>, ids: seq<string>, out: seq<Change>)
    requires Lists(l, r, ids, out) && forall id :: id in ids <==> Find(l, id) != Find(r, id)
    ensures out == [] <==> l == r
  {
    if out == [] {
      forall id
        ensures Find(l, id) == Find(r, id)
      {
        assert id !in ids;
      }
      assert forall id :: id in l <==> Find(l, id).Some?;
      assert forall id :: id in r <==> Find(r, id).Some?;
      assert l.Keys == r.Keys;
    } else {
      HeadIn(ids);
    }
  }

  // ----- What "identical" says about routing -----

  ghost predicate UniqueIds(routes: seq<RoutingRule>) {
    forall i, j :: 0 <= i < j < |routes| ==> routes[i].id != routes[j].id
  }

  /** Routes of equal priority are declared in the same order on both sides. */
  ghost predicate SameTieOrder(left: seq<RoutingRule>, right: seq<RoutingRule>) {
    forall i, j :: 0 <= i < j < |right| && right[i].priority == right[j].priority
      ==> FindById(left, right[i].id) < FindById(left, right[j].id)
  }

  lemma {:induction false} ByIdHolds(routes: seq<RoutingRule>, id: string)
    requires UniqueIds(routes)
    ensures var k := FindById(routes, id);
            Find(ById(routes), id) == if k < |routes| then Some(routes[k]) else None
  {
    if routes != [] {
      var n := |routes| - 1;
      ByIdHolds(routes[..n], id);
      var k := FindById(routes, id);
      assert forall j :: 0 <= j < n ==> routes[..n][j] == routes[j];
      assert FindById(routes[..n], id) == if k < n then k else n;
    }
  }

  /** With unique ids and equal id maps each right route is the left route at the
      position of its id, and that position identifies it. */
  lemma Counterpart(left: seq<RoutingRule>, right: seq<RoutingRule>, j: nat)
    requires UniqueIds(left) && UniqueIds(right) && ById(left) == ById(right) && j < |right|
    ensures var k := FindById(left, right[j].id); k < |left| && left[k] == right[j]
  {
    ByIdHolds(left, right[j].id);
    ByIdHolds(right, right[j].id);
  }

  lemma FindOwn(routes: seq<RoutingRule>, i: nat)
    requires UniqueIds(routes) && i < |routes|
    ensures FindById(routes, routes[i].id) == i
  {
  }

  /** The evaluation order of the right routes, as positions of the left ones. */
  function Transported(left: seq<RoutingRule>, right: seq<RoutingRule>): seq<nat> {
    var order := EvaluationOrder(right);
    seq(|order|, k requires 0 <= k < |order| => FindById(left, right[order[k]].id))
  }

  lemma TransportedIsOrder(left: seq<RoutingRule>, right: seq<RoutingRule>)
    requires UniqueIds(left) && UniqueIds(right) && ById(left) == ById(right) && SameTieOrder(left, right)
    ensures Transported(left, right) == EvaluationOrder(left)
  {
    hide ById, UniqueIds;
    var order, moved := EvaluationOrder(right), Transported(left, right);
    var lk, rk := Priorities(left), Priorities(right);
    SortedIndicesStable(rk);
    SortedIndicesStable(lk);
    forall k | 0 <= k < |moved|
      ensures moved[k] < |left| && left[moved[k]] == right[order[k]]
    {
      Counterpart(left, right, order[k]);
    }
    forall i: nat | i < |left|
      ensures i in moved
    {
      Counterpart(right, left, i);
      var j := FindById(right, left[i].id);
      assert j in order;
      var k :| 0 <= k < |order| && order[k] == j;
      FindOwn(left, i);
      assert moved[k] == i;
    }
    forall a, b | 0 <= a < b < |moved|
      ensures Before(lk, moved[a], moved[b])
    {
      assert Before(rk, order[a], order[b]);
    }
    StableOrderUnique(lk, moved, EvaluationOrder(left));
  }

  /** If one side has unique ids, a report without route differences means equal router
      snapshots if and only if the other side has unique ids as well and routes of
      equal priority keep their order; then every request resolves to the same rule. */
  lemma IdenticalMeansSameRouting(e: Engine, left: seq<RoutingRule>, right: seq<RoutingRule>)
    requires UniqueIds(right) && ById(left) == ById(right)
    ensures FromRoutes(e, left).Ok? ==> FromRoutes(e, right).Ok?
    ensures UniqueIds(left) && FromRoutes(e, right).Ok? ==> FromRoutes(e, left).Ok?
    ensures FromRoutes(e, left).Ok? ==>
              (FromRoutes(e, left) == FromRoutes(e, right) <==> UniqueIds(left) && SameTieOrder(left, right))
  {
    hide ById, UniqueIds, SameTieOrder, Compile, FromRoutes;
    CompilesLikeCounterpart(e, left, right);
    if UniqueIds(left) {
      CompilesLikeCounterpart(e, right, left);
    }
    if FromRoutes(e, left).Ok? {
      if UniqueIds(left) && SameTieOrder(left, right) {
        EqualSnapshots(e, left, right);
      }
      if FromRoutes(e, left) == FromRoutes(e, right) {
        EqualSnapshotsShareIds(e, left, right);
        EqualSnapshotsKeepTies(e, left, right);
      }
    }
  }

  lemma {:induction false} ByIdIsListed(routes: seq<RoutingRule>, id: string)
    requires id in ById(routes)
    ensures ById(routes)[id] in routes
  {
    var n := |routes| - 1;
    if routes[n].id != id {
      ByIdIsListed(routes[..n], id);
    }
  }

  lemma CompilesLikeCounterpart(e: Engine, left: seq<RoutingRule>, right: seq<RoutingRule>)
    requires UniqueIds(right) && ById(left) == ById(right)
    ensures FromRoutes(e, left).Ok? ==> FromRoutes(e, right).Ok?
  {
    hide ById, UniqueIds, Compile;
    if FromRoutes(e, left).Ok? {
      forall j: nat | j < |right|
        ensures Compile(e, right[j]).Ok?
      {
        ByIdHolds(right, right[j].id);
        FindOwn(right, j);
        ByIdIsListed(left, right[j].id);
      }
      CompileAllOk(e, right);
    }
  }

  lemma EqualSnapshots(e: Engine, left: seq<RoutingRule>, right: seq<RoutingRule>)
    requires UniqueIds(left) && UniqueIds(right) && ById(left) == ById(right) && SameTieOrder(left, right)
    requires FromRoutes(e, left).Ok? && FromRoutes(e, right).Ok?
    ensures FromRoutes(e, left) == FromRoutes(e, right)
  {
    hide ById, UniqueIds, Compile, SameTieOrder;
    TransportedIsOrder(left, right);
    var l, r := FromRoutes(e, left).value.rules, FromRoutes(e, right).value.rules;
    var ol, or := EvaluationOrder(left), EvaluationOrder(right);
    assert |l| == |r|;
    forall k | 0 <= k < |l|
      ensures l[k] == r[k]
    {
      Counterpart(left, right, or[k]);
      assert ol[k] == Transported(left, right)[k];
      assert Compile(e, left[ol[k]]) == Ok(l[k]) && Compile(e, right[or[k]]) == Ok(r[k]);
    }
    assert l == r;
  }

  /** Equal snapshots carry the same ids, so they are unique on both sides or on none. */
  lemma EqualSnapshotsShareIds(e: Engine, left: seq<RoutingRule>, right: seq<RoutingRule>)
    requires UniqueIds(right) && FromRoutes(e, left).Ok? && FromRoutes(e, left) == FromRoutes(e, right)
    ensures UniqueIds(left)
  {
    hide FromRoutes, SortedIndices;
    var ol, or := EvaluationOrder(left), EvaluationOrder(right);
    SortedIndicesStable(Priorities(left));
    SortedIndicesStable(Priorities(right));
    SameLength(e, left, right);
    forall i, j | 0 <= i < j < |left|
      ensures left[i].id != left[j].id
    {
      assert i in ol && j in ol;
      var a: nat :| a < |ol| && ol[a] == i;
      var b: nat :| b < |ol| && ol[b] == j;
      SameIdAt(e, left, right, a);
      SameIdAt(e, left, right, b);
      assert Before(Priorities(right), or[a], or[b]) || Before(Priorities(right), or[b], or[a]);
    }
  }

  lemma EqualSnapshotsKeepTies(e: Engine, left: seq<RoutingRule>, right: seq<RoutingRule>)
    requires UniqueIds(left) && UniqueIds(right)
    requires FromRoutes(e, left).Ok? && FromRoutes(e, left) == FromRoutes(e, right)
    ensures SameTieOrder(left, right)
  {
    hide UniqueIds, FromRoutes, SortedIndices;
    var ol, or := EvaluationOrder(left), EvaluationOrder(right);
    SortedIndicesStable(Priorities(left));
    SortedIndicesStable(Priorities(right));
    forall i, j | 0 <= i < j < |right| && right[i].priority == right[j].priority
      ensures FindById(left, right[i].id) < FindById(left, right[j].id)
    {
      assert i in or && j in or;
      var a: nat :| a < |or| && or[a] == i;
      var b: nat :| b < |or| && or[b] == j;
      assert a < b;
      SameIdAt(e, left, right, a);
      SameIdAt(e, left, right, b);
      FindOwn(left, ol[a]);
      FindOwn(left, ol[b]);
      assert Before(Priorities(left), ol[a], ol[b]);
    }
  }

  lemma SameLength(e: Engine, left: seq<RoutingRule>, right: seq<RoutingRule>)
    requires FromRoutes(e, left).Ok? && FromRoutes(e, left) == FromRoutes(e, right)
    ensures |left| == |right|
  {
    var req := Request("", "", map[]);
    SnapshotRule(e, left, FromRoutes(e, left).value, 0, req);
    SnapshotRule(e, right, FromRoutes(e, right).value, 0, req);
  }

  lemma SameIdAt(e: Engine, left: seq<RoutingRule>, right: seq<RoutingRule>, k: nat)
    requires FromRoutes(e, left).Ok? && FromRoutes(e, left) == FromRoutes(e, right) && k < |right|
    ensures |left| == |right|
    ensures var (a, b) := (left[EvaluationOrder(left)[k]], right[EvaluationOrder(right)[k]]);
            a.id == b.id && a.priority == b.priority
  {
    var snapshot := FromRoutes(e, left).value;
    var req := Request("", "", map[]);
    SnapshotRule(e, left, snapshot, k, req);
    SnapshotRule(e, right, snapshot, k, req);
  }

  // ----- What "identical" leaves open -----

  function CatchAll(id: string, service: string): RoutingRule {
    RoutingRule(id, Prefix("/"), None, None, Some(service), None, None, None, 100)
  }

  lemma ByIdPush(routes: seq<RoutingRule>, r: RoutingRule)
    ensures ById(routes + [r]) == ById(routes)[r.id := r]
  {
    assert (routes + [r])[..|routes + [r]| - 1] == routes;
  }

  lemma ByIdOfTwo(a: RoutingRule, b: RoutingRule)
    ensures ById([b]) == map[b.id := b]
    ensures ById([a, b]) == map[a.id := a][b.id := b]
  {
    ByIdPush([], a);
    ByIdPush([], b);
    assert [] + [a] == [a] && [] + [b] == [b];
    ByIdPush([a], b);
    assert [a] + [b] == [a, b];
  }

  /** Two overlapping routes of equal priority that trade places: no difference is
      reported, and every request resolves to the other one. */
  lemma SwappedTiesLookIdentical(e: Engine, req: Request)
    requires "/" <= req.path
    ensures var (a, b) := (CatchAll("a", "one"), CatchAll("b", "two"));
            && ById([a, b]) == ById([b, a])
            && IsWinner(e, [a, b], req, Some(0)) && IsWinner(e, [b, a], req, Some(0))
  {
    var a, b := CatchAll("a", "one"), CatchAll("b", "two");
    hide ById;
    ByIdOfTwo(a, b);
    ByIdOfTwo(b, a);
    assert "a" != "b";
    assert map["a" := a]["b" := b] == map["b" := b]["a" := a];
  }

  /** A route hidden behind a later one of the same id: removing it is not reported
      although it is the one that wins. */
  lemma HiddenDuplicateLooksIdentical(e: Engine, req: Request)
    requires "/" <= req.path
    ensures var (a, b) := (CatchAll("a", "one"), CatchAll("a", "two"));
            && ById([a, b]) == ById([b])
            && IsWinner(e, [a, b], req, Some(0)) && IsWinner(e, [b], req, Some(0))
            && a.serviceId != b.serviceId
  {
    var a, b := CatchAll("a", "one"), CatchAll("a", "two");
    hide ById;
    ByIdOfTwo(a, b);
    assert map["a" := a]["a" := b] == map["a" := b];
    assert "one" != "two";
  }
}
