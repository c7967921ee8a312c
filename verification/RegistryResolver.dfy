/** Querying several registries, in priority order or merged
    (src/registry/resolver.rs).  What a registry answers is an input. */
module RegistryResolver {
  import opened Wrappers
  import opened Errors
  import opened StableOrder
  import opened Instances

  datatype QueryMode = Priority | Merge

  type Answer = Result<seq<ServiceInstance>, RegistryError>

  /** A handle of a registry with its configured priority. */
  datatype Source = Source(priority: nat, handle: nat)

  function Keys(sources: seq<Source>): (keys: seq<nat>)
    ensures |keys| == |sources| && forall i :: 0 <= i < |keys| ==> keys[i] == sources[i].priority
  {
    seq(|sources|, i requires 0 <= i < |sources| => sources[i].priority)
  }

  /** The sources in stable priority order. */
  function ByPriority(sources: seq<Source>): seq<Source> {
    var order := SortedIndices(Keys(sources));
    seq(|order|, k requires 0 <= k < |order| => sources[order[k]])
  }

  // ----- Specifications -----

  predicate Useful(a: Answer) {
    a.Ok? && a.value != []
  }

  /** The first non-empty answer. */
  function FirstUseful(answers: seq<Answer>): (k: nat)
    ensures k <= |answers| && (k < |answers| ==> Useful(answers[k]))
    ensures forall j :: 0 <= j < k ==> !Useful(answers[j])
  {
    if answers == [] || Useful(answers[0]) then 0 else 1 + FirstUseful(answers[1..])
  }

  function PriorityResult(service: string, answers: seq<Answer>): Answer {
    var k := FirstUseful(answers);
    if k < |answers| then answers[k] else Err(AllFailed(service))
  }

  function Listed(a: Answer): seq<ServiceInstance> {
    match a
    case Ok(xs) => xs
    case Err(_) => []
  }

  /** All answered instances, registry by registry. */
  function AllListed(answers: seq<Answer>): seq<ServiceInstance> {
    if answers == [] then []
    else AllListed(answers[..|answers| - 1]) + Listed(answers[|answers| - 1])
  }

  function MergeResult(service: string, answers: seq<Answer>): Answer {
    var merged := Dedup(AllListed(answers));
    if merged == [] then Err(AllFailed(service)) else Ok(merged)
  }

  // ----- The code -----

  class MultiRegistryResolver {
    /** Sorted ascending by priority. */
    const registries: seq<Source>
    const queryMode: QueryMode

    constructor (sources: seq<Source>, queryMode: QueryMode)
      ensures registries == ByPriority(sources) && this.queryMode == queryMode
    {
      registries, this.queryMode := ByPriority(sources), queryMode;
    }

    /** The answers for one service, in the order the registries are asked. */
    function AnswersInOrder(answer: nat -> Answer): seq<Answer> {
      seq(|registries|, k requires 0 <= k < |registries| => answer(registries[k].handle))
    }

    method Resolve(service: string, answer: nat -> Answer) returns (r: Answer)
      ensures r == match queryMode
                   case Priority => PriorityResult(service, AnswersInOrder(answer))
                   case Merge => MergeResult(service, AnswersInOrder(answer))
    {
      match queryMode {
        case Priority => r := ResolvePriority(service, answer);
        case Merge => r := ResolveMerge(service, answer);
      }
    }

    method ResolvePriority(service: string, answer: nat -> Answer) returns (r: Answer)
      ensures r == PriorityResult(service, AnswersInOrder(answer))
    {
      ghost var answers := AnswersInOrder(answer);
      for k := 0 to |registries|
        invariant k <= FirstUseful(answers)
      {
        assert answers[k] == answer(registries[k].handle);
        match answer(registries[k].handle) {
          case Ok(instances) =>
            if instances != [] {
              return Ok(instances);
            }
          case Err(_) =>
        }
      }
      return Err(AllFailed(service));
    }

    method ResolveMerge(service: string, answer: nat -> Answer) returns (r: Answer)
      ensures r == MergeResult(service, AnswersInOrder(answer))
    {
      var results := AnswersInOrder(answer);
      var seen: set<(string, nat)> := {};
      var merged: seq<ServiceInstance> := [];
      assert AllListed(results[..0]) == [];
      hide AllListed, Dedup, EndpointSet, Absorb;
      for k := 0 to |results|
        invariant merged == Dedup(AllListed(results[..k])) && seen == EndpointSet(merged)
      {
        AllListedStep(results, k);
        match results[k] {
          case Ok(instances) =>
            AbsorbIsDedup(AllListed(results[..k]), instances);
            seen, merged := MergeInstances(instances, seen, merged);
          case Err(_) =>
            assert AllListed(results[..k]) + [] == AllListed(results[..k]);
        }
      }
      assert results[..|results|] == results;
      if merged == [] {
        return Err(AllFailed(service));
      }
      return Ok(merged);
    }

    /** The inner loop: adds the instances of one answer whose endpoint is new. */
    method MergeInstances(instances: seq<ServiceInstance>, seen0: set<(string, nat)>, merged0: seq<ServiceInstance>)
      returns (seen: set<(string, nat)>, merged: seq<ServiceInstance>)
      requires seen0 == EndpointSet(merged0)
      ensures merged == Absorb(merged0, instances) && seen == EndpointSet(merged)
    {
      seen, merged := seen0, merged0;
      for j := 0 to |instances|
        invariant Absorb(merged, instances[j..]) == Absorb(merged0, instances) && seen == EndpointSet(merged)
      {
        var key := Endpoint(instances[j]);
        assert instances[j..][1..] == instances[j + 1..];
        if key !in seen {
          EndpointSetPush(merged, instances[j]);
          seen := seen + {key};
          merged := merged + [instances[j]];
        }
      }
    }
  }

  lemma AllListedStep(answers: seq<Answer>, k: nat)
    requires k < |answers|
    ensures AllListed(answers[..k + 1]) == AllListed(answers[..k]) + Listed(answers[k])
  {
    assert answers[..k + 1][..k] == answers[..k];
  }

  // ----- How the two modes relate -----

  lemma AllListedLast(answers: seq<Answer>)
    requires answers != []
    ensures AllListed(answers) == AllListed(answers[..|answers| - 1]) + Listed(answers[|answers| - 1])
  {
  }

  lemma NothingListed()
    ensures Dedup(AllListed([])) == []
  {
  }

  lemma FirstUsefulOfPrefix(answers: seq<Answer>, n: nat)
    requires n <= |answers|
    ensures var k := FirstUseful(answers); FirstUseful(answers[..n]) == if k < n then k else n
  {
    assert forall j :: 0 <= j < n ==> answers[..n][j] == answers[j];
  }

  lemma {:induction false} AllListedFromFirst(answers: seq<Answer>)
    ensures var k := FirstUseful(answers);
            if k == |answers| then AllListed(answers) == [] else Listed(answers[k]) <= AllListed(answers)
  {
    if answers != [] {
      var n := |answers| - 1;
      AllListedLast(answers);
      FirstUsefulOfPrefix(answers, n);
      AllListedFromFirst(answers[..n]);
    }
  }

  /** Merge extends priority: it fails exactly when priority fails and with the
      same error, neither returns an empty list, and the merged list starts with
      the deduplicated priority result. */
  lemma MergeExtendsPriority(service: string, answers: seq<Answer>)
    ensures var (p, m) := (PriorityResult(service, answers), MergeResult(service, answers));
            && (m.Err? <==> p.Err?)
            && (m.Err? ==> p == m == Err(AllFailed(service)))
            && (m.Ok? ==> p.value != [] && m.value != [] && Dedup(p.value) <= m.value)
  {
    hide FirstUseful, AllListed;
    var k := FirstUseful(answers);
    AllListedFromFirst(answers);
    if k < |answers| {
      var first, all := Listed(answers[k]), AllListed(answers);
      assert all == first + all[|first|..];
      DedupExtends(first, all[|first|..]);
      DedupKeepsEndpoints(first);
      assert Endpoint(first[|first| - 1]) in EndpointSet(first);
    }
  }

  lemma {:induction false} DedupOfAppend(xs: seq<ServiceInstance>, ys: seq<ServiceInstance>, inst: ServiceInstance)
    requires inst in Dedup(xs + ys)
    ensures inst in Dedup(xs) || (inst in ys && Endpoint(inst) !in EndpointSet(xs))
  {
    if ys == [] {
      assert xs + ys == xs;
    } else {
      var n := |ys| - 1;
      assert xs + ys == (xs + ys[..n]) + [ys[n]];
      DedupStep(xs + ys[..n], ys[n]);
      if inst in Dedup(xs + ys[..n]) {
        DedupOfAppend(xs, ys[..n], inst);
      } else {
        DedupKeepsEndpoints(xs + ys[..n]);
        EndpointSetAppend(xs, ys[..n]);
      }
    }
  }

  /** On a conflict the merged list keeps the instance of the registry that is
      asked first: no earlier answer lists the endpoint of a merged instance. */
  lemma {:induction false} MergedFromEarliest(answers: seq<Answer>, inst: ServiceInstance) returns (a: nat)
    requires inst in Dedup(AllListed(answers))
    ensures a < |answers| && inst in Listed(answers[a])
    ensures forall b :: 0 <= b < a ==> Endpoint(inst) !in EndpointSet(Listed(answers[b]))
  {
    hide AllListed, Dedup, EndpointSet, Endpoint, Listed;
    NothingListed();
    var n := |answers| - 1;
    var init := answers[..n];
    AllListedLast(answers);
    DedupOfAppend(AllListed(init), Listed(answers[n]), inst);
    if inst in Dedup(AllListed(init)) {
      a := MergedFromEarliest(init, inst);
    } else {
      a := n;
      forall b | 0 <= b < n
        ensures EndpointSet(Listed(answers[b])) <= EndpointSet(AllListed(init))
      {
        ListedIsIncluded(init, b);
      }
    }
  }

  lemma {:induction false} ListedIsIncluded(answers: seq<Answer>, b: nat)
    requires b < |answers|
    ensures EndpointSet(Listed(answers[b])) <= EndpointSet(AllListed(answers))
  {
    var n := |answers| - 1;
    EndpointSetAppend(AllListed(answers[..n]), Listed(answers[n]));
    if b < n {
      ListedIsIncluded(answers[..n], b);
    }
  }

  /** Every answered endpoint is in the merged list. */
  lemma MergedCoversAll(answers: seq<Answer>, b: nat)
    requires b < |answers|
    ensures EndpointSet(Listed(answers[b])) <= EndpointSet(Dedup(AllListed(answers)))
  {
    DedupKeepsEndpoints(AllListed(answers));
    ListedIsIncluded(answers, b);
  }

  /** The order of asking: lower priority numbers first, ties as configured. */
  lemma AskedInStableOrder(sources: seq<Source>, a: nat, b: nat)
    requires a < b < |sources|
    ensures var order := SortedIndices(Keys(sources));
            && ByPriority(sources)[a] == sources[order[a]] && ByPriority(sources)[b] == sources[order[b]]
            && (sources[order[a]].priority < sources[order[b]].priority
                || (sources[order[a]].priority == sources[order[b]].priority && order[a] < order[b]))
  {
    SortedIndicesStable(Keys(sources));
    assert Before(Keys(sources), SortedIndices(Keys(sources))[a], SortedIndices(Keys(sources))[b]);
  }
}
