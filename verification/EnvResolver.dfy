/** Expansion of `${NAME}` placeholders in the configuration text
    (src/config/env_resolver.rs).

    The code replaces, placeholder by placeholder, every copy of it in the text
    built so far.  The intended meaning is one simultaneous substitution over
    the original text.  Both are defined here, and this module proves exactly
    which environments make them agree. */
module EnvResolver {
  import opened Wrappers
  import opened Text
  import opened Errors

  /** The readable variables of the process environment. */
  type Env = map<string, string>

  function Placeholder(name: string): (p: string)
    ensures |p| == |name| + 3 && p[0] == '$'
  {
    "${" + name + "}"
  }

  // ----- The regex \$\{([^}]+)\} -----

  /** Position of the first `}` at or after `i`, or the end of `s`. */
  function CloseAt(s: string, i: nat): (r: nat)
    requires i <= |s|
    ensures i <= r <= |s| && (r < |s| ==> s[r] == '}')
    ensures forall k :: i <= k < r ==> s[k] != '}'
    decreases |s| - i
  {
    if i == |s| || s[i] == '}' then i else CloseAt(s, i + 1)
  }

  /** The name captured by a match that starts at the head of `s`. */
  function MatchHead(s: string): (m: Option<string>)
    ensures m.Some? ==> Placeholder(m.value) <= s && m.value != "" && '}' !in m.value
  {
    if |s| >= 2 && s[0] == '$' && s[1] == '{' then
      var end := CloseAt(s, 2);
      if 2 < end < |s| then
        assert s[..end + 1] == Placeholder(s[2..end]);
        Some(s[2..end])
      else None
    else None
  }

  /** `captures_iter`: the captured names of the leftmost non-overlapping matches. */
  function Captures(s: string): seq<string>
    decreases |s|
  {
    if s == "" then []
    else match MatchHead(s)
      case Some(n) => [n] + Captures(s[|n| + 3..])
      case None => Captures(s[1..])
  }

  // ----- What the code computes -----

  function FirstUnset(names: seq<string>, env: Env): Option<string> {
    if names == [] then None
    else if names[0] !in env then Some(names[0])
    else FirstUnset(names[1..], env)
  }

  /** Every copy of each placeholder replaced by its value, name after name. */
  function ReplaceEach(text: string, names: seq<string>, env: Env): string
    decreases |names|
  {
    if names == [] then text
    else
      var n := names[|names| - 1];
      var value := if n in env then env[n] else "";
      ReplaceAll(ReplaceEach(text, names[..|names| - 1], env), Placeholder(n), value)
  }

  function Resolved(value: string, env: Env): Result<string, ConfigError> {
    match FirstUnset(Captures(value), env)
    case Some(n) => Err(MissingEnvVar(n))
    case None => Ok(ReplaceEach(value, Captures(value), env))
  }

  method ResolveEnvVars(value: string, env: Env) returns (r: Result<string, ConfigError>)
    ensures r == Resolved(value, env)
    ensures match r
            case Ok(_) => forall n :: n in Captures(value) ==> n in env
            case Err(x) => exists k :: 0 <= k < |Captures(value)| && Captures(value)[k] !in env
                                       && x == MissingEnvVar(Captures(value)[k])
                                       && forall j :: 0 <= j < k ==> Captures(value)[j] in env
  {
    FirstUnsetIsFirst(Captures(value), env);
    var result := value;
    var names := Captures(value);
    for k := 0 to |names|
      invariant FirstUnset(names, env) == FirstUnset(names[k..], env)
      invariant result == ReplaceEach(value, names[..k], env)
    {
      if names[k] !in env {
        return Err(MissingEnvVar(names[k]));
      }
      assert names[..k + 1][..k] == names[..k];
      result := ReplaceAll(result, Placeholder(names[k]), env[names[k]]);
    }
    assert names[..|names|] == names;
    return Ok(result);
  }

  /** The call fails exactly when some captured name is unset, and it names the
      first such one. */
  lemma {:induction false} FirstUnsetIsFirst(names: seq<string>, env: Env)
    ensures match FirstUnset(names, env)
            case None => forall k :: 0 <= k < |names| ==> names[k] in env
            case Some(n) => exists k :: 0 <= k < |names| && names[k] == n && n !in env
                                        && forall j :: 0 <= j < k ==> names[j] in env
  {
    if names != [] && names[0] in env {
      FirstUnsetIsFirst(names[1..], env);
      if FirstUnset(names, env).Some? {
        var k :| 0 <= k < |names[1..]| && names[1..][k] == FirstUnset(names, env).value
                 && forall j :: 0 <= j < k ==> names[1..][j] in env;
        assert forall j :: 0 < j <= k ==> names[j] == names[1..][j - 1];
        assert names[k + 1] == FirstUnset(names, env).value;
      }
    }
  }

  // ----- What the code is meant to compute -----

  function Shown(n: string, d: set<string>, env: Env): string {
    if n in d && n in env then env[n] else Placeholder(n)
  }

  /** One left-to-right pass over `s` that substitutes the names in `d` only. */
  function Expand(s: string, d: set<string>, env: Env): string
    decreases |s|
  {
    if s == "" then ""
    else match MatchHead(s)
      case Some(n) =>
        Shown(n, d, env) + Expand(s[|n| + 3..], d, env)
      case None => [s[0]] + Expand(s[1..], d, env)
  }

  function Simultaneous(value: string, env: Env): Result<string, ConfigError> {
    match FirstUnset(Captures(value), env)
    case Some(n) => Err(MissingEnvVar(n))
    case None => Ok(Expand(value, env.Keys, env))
  }

  // ----- Side conditions -----

  predicate IsName(n: string) {
    n != "" && '}' !in n
  }

  predicate PlainName(n: string) {
    IsName(n) && '$' !in n
  }

  /** Names of the placeholders that have a stray `$` directly before them. */
  function Touched(s: string): set<string>
    decreases |s|
  {
    if s == "" then {}
    else match MatchHead(s)
      case Some(n) => Touched(s[|n| + 3..])
      case None => Touched(s[1..]) + TouchedHead(s)
  }

  function TouchedHead(s: string): set<string>
    requires s != ""
  {
    match MatchHead(s[1..])
    case Some(m) => if s[0] == '$' then {m} else {}
    case None => {}
  }

  ghost predicate PlainCaptures(t: string) {
    forall n :: n in Captures(t) ==> PlainName(n)
  }

  /** The templates that can be expanded name by name: a stray `$` stands directly
      before no placeholder, save for a last one whose name occurs nowhere else.
      Every other `$` is allowed, wherever it stands.  (A captured name that itself
      holds a `$` is a variable that no environment of interest sets.) */
  ghost predicate Expandable(t: string) {
    PlainCaptures(t) ==> forall j :: 0 <= j < |Captures(t)| - 1 ==> Captures(t)[j] !in Touched(t)
  }

  /** One of the two strings is a prefix of the other. */
  predicate Overlaps(a: string, b: string) {
    a <= b || b <= a
  }

  /** No tail of `v` can begin a copy of the placeholder of `b`. */
  predicate Inert(v: string, b: string) {
    forall i :: 0 <= i < |v| ==> !Overlaps(v[i..], Placeholder(b))
  }

  /** No value can begin the placeholder of another variable, save for variables
      whose value is their own placeholder. */
  predicate SafeEnv(env: Env) {
    forall a, b :: a in env && b in env && PlainName(a) && PlainName(b) && env[b] != Placeholder(b)
      ==> Inert(env[a], b)
  }

  /** No dollar sign in any variable. */
  ghost predicate DollarFree(env: Env) {
    forall n :: n in env ==> '$' !in n && '$' !in env[n]
  }

  // ----- One token at a time -----

  lemma ExpandEmpty(d: set<string>, env: Env)
    ensures Expand("", d, env) == "" && Captures("") == [] && Touched("") == {}
  {
  }

  lemma ExpandHead(s: string, d: set<string>, env: Env)
    requires s != ""
    ensures match MatchHead(s)
            case Some(n) => Expand(s, d, env) == Shown(n, d, env) + Expand(s[|n| + 3..], d, env)
            case None => Expand(s, d, env) == [s[0]] + Expand(s[1..], d, env)
  {
  }

  lemma CapturesTail(s: string)
    requires s != ""
    ensures match MatchHead(s)
            case Some(n) => Captures(s) == [n] + Captures(s[|n| + 3..]) && Touched(s) == Touched(s[|n| + 3..])
            case None => Captures(s) == Captures(s[1..]) && Touched(s) == Touched(s[1..]) + TouchedHead(s)
  {
  }

  // ----- One replacement substitutes one name -----

  lemma PrefixOverlaps(p: string, v: string, rest: string)
    requires p <= v + rest
    ensures Overlaps(v, p)
  {
    if |v| < |p| {
      assert v == (v + rest)[..|v|] == p[..|v|];
    } else {
      assert p == (v + rest)[..|p|] == v[..|p|];
    }
  }

  lemma {:induction false} CopyInert(v: string, rest: string, b: string, rep: string)
    requires Inert(v, b)
    ensures ReplaceAll(v + rest, Placeholder(b), rep) == v + ReplaceAll(rest, Placeholder(b), rep)
  {
    hide ReplaceAll, Placeholder;
    if v == "" {
      assert v + rest == rest;
    } else {
      var p := Placeholder(b);
      assert !Overlaps(v[0..], p) && v[0..] == v;
      if p <= v + rest {
        PrefixOverlaps(p, v, rest);
        assert false;
      }
      assert Inert(v[1..], b) by {
        assert forall i :: 0 <= i < |v[1..]| ==> v[1..][i..] == v[i + 1..];
      }
      CopyInert(v[1..], rest, b, rep);
      assert v + rest == [v[0]] + (v[1..] + rest);
      ReplaceMiss(v[0], v[1..] + rest, p, rep);
      assert v + ReplaceAll(rest, p, rep) == [v[0]] + (v[1..] + ReplaceAll(rest, p, rep));
    }
  }

  lemma DollarFreeIsInert(v: string, b: string)
    requires '$' !in v
    ensures Inert(v, b)
  {
    forall i | 0 <= i < |v|
      ensures !Overlaps(v[i..], Placeholder(b))
    {
      assert v[i..][0] == v[i];
    }
  }

  /** A tail of one placeholder that overlaps another is that other one. */
  lemma OverlapIsSame(n: string, b: string, i: nat)
    requires PlainName(n) && PlainName(b) && i < |n| + 3 && Overlaps(Placeholder(n)[i..], Placeholder(b))
    ensures n == b
  {
    var p, q := Placeholder(n), Placeholder(b);
    ClosedOnce(n);
    ClosedOnce(b);
    assert p[i..][0] == p[i] == q[0];
    assert p[0..] == p;
    var k := if |n| <= |b| then |n| + 2 else |b| + 2;
    assert p[k] == q[k];
    assert n == p[2..|n| + 2] && b == q[2..|b| + 2];
  }

  /** The placeholder of a plain name holds no part of another one. */
  lemma PlaceholderInert(n: string, b: string)
    requires PlainName(n) && PlainName(b) && n != b
    ensures Inert(Placeholder(n), b)
  {
    forall i | 0 <= i < |n| + 3 && Overlaps(Placeholder(n)[i..], Placeholder(b))
      ensures false
    {
      OverlapIsSame(n, b, i);
    }
  }

  lemma ClosedOnce(n: string)
    requires PlainName(n)
    ensures forall k :: 0 <= k < |n| + 3 ==> (Placeholder(n)[k] == '}' <==> k == |n| + 2)
    ensures forall k :: 0 <= k < |n| + 3 ==> (Placeholder(n)[k] == '$' <==> k == 0)
  {
  }

  lemma {:induction false} ReplaceSelf(s: string, p: string)
    requires p != ""
    ensures ReplaceAll(s, p, p) == s
    decreases |s|
  {
    if s == "" {
    } else if p <= s {
      ReplaceSelf(s[|p|..], p);
      assert s == p + s[|p|..];
    } else {
      ReplaceSelf(s[1..], p);
      assert s == [s[0]] + s[1..];
    }
  }

  lemma {:induction false} ExpandOwnPlaceholder(s: string, d: set<string>, x: string, env: Env)
    requires x in env && env[x] == Placeholder(x)
    ensures Expand(s, d + {x}, env) == Expand(s, d, env)
    decreases |s|
  {
    if s != "" {
      match MatchHead(s)
      case Some(n) => ExpandOwnPlaceholder(s[|n| + 3..], d, x, env);
      case None => ExpandOwnPlaceholder(s[1..], d, x, env);
    }
  }

  // ----- Literal dollar signs -----

  lemma {:induction false} UnclosedIsLiteral(s: string, d: set<string>, env: Env)
    requires '}' !in s
    ensures Captures(s) == [] && Expand(s, d, env) == s
  {
    if s != "" {
      assert MatchHead(s).None?;
      UnclosedIsLiteral(s[1..], d, env);
    }
  }

  /** A value that cannot go on a stray `$` to a placeholder. */
  predicate NotBrace(v: string) {
    v != "" && v[0] != '{'
  }

  lemma FirstShown(s: string, d: set<string>, env: Env)
    requires s != ""
    ensures match MatchHead(s)
            case Some(m) => (if m in d && m in env then env[m] else "$") <= Expand(s, d, env)
            case None => Expand(s, d, env) == [s[0]] + Expand(s[1..], d, env)
  {
  }

  /** A literal character of the template begins no placeholder of the text. */
  lemma LiteralStays(s: string, d: set<string>, env: Env)
    requires s != "" && MatchHead(s).None?
    requires forall n :: n in TouchedHead(s) && n in d && n in env ==> NotBrace(env[n])
    ensures MatchHead([s[0]] + Expand(s[1..], d, env)).None?
  {
    var rest, t := s[1..], [s[0]] + Expand(s[1..], d, env);
    if s[0] == '$' && rest != "" {
      FirstShown(rest, d, env);
      if rest[0] == '{' && '}' !in rest {
        UnclosedIsLiteral(rest, d, env);
        assert t == s;
      } else if rest[0] == '{' {
        EmptyBraces(s);
        FirstShown(rest[1..], d, env);
        assert t[2] == '}' && CloseAt(t, 2) == 2;
      } else {
        assert t[1] != '{';
      }
    }
  }

  lemma EmptyBraces(s: string)
    requires |s| >= 2 && s[0] == '$' && s[1] == '{' && '}' in s[1..] && MatchHead(s).None?
    ensures |s| >= 3 && s[2] == '}'
  {
    var k :| 0 <= k < |s[1..]| && s[1..][k] == '}';
    assert s[k + 1] == '}';
    assert CloseAt(s, 2) <= k + 1;
  }

  lemma MatchPlaceholder(n: string, s: string)
    requires IsName(n)
    ensures MatchHead(Placeholder(n) + s) == Some(n)
    ensures (Placeholder(n) + s)[|n| + 3..] == s
  {
    var t := Placeholder(n) + s;
    var end := CloseAt(t, 2);
    assert t[|n| + 2] == '}';
    assert forall k :: 2 <= k < |n| + 2 ==> t[k] == n[k - 2];
    assert end == |n| + 2;
    assert t[2..end] == n;
  }

  lemma MatchPrefix(n: string, t: string)
    requires IsName(n) && Placeholder(n) <= t
    ensures MatchHead(t) == Some(n)
  {
    MatchPlaceholder(n, t[|n| + 3..]);
    assert t == Placeholder(n) + t[|n| + 3..];
  }

  /** No placeholder is found at a literal character. */
  lemma LiteralMisses(s: string, d: set<string>, x: string, env: Env)
    requires s != "" && MatchHead(s).None? && IsName(x)
    requires forall n :: n in TouchedHead(s) && n in d && n in env ==> NotBrace(env[n])
    ensures !(Placeholder(x) <= [s[0]] + Expand(s[1..], d, env))
  {
    LiteralStays(s, d, env);
    if Placeholder(x) <= [s[0]] + Expand(s[1..], d, env) {
      MatchPrefix(x, [s[0]] + Expand(s[1..], d, env));
      assert false;
    }
  }

  // ----- The loop is one pass -----

  /** `Expand(s, d, env)` holds no copy of `${x}` but those of the template. */
  ghost predicate Ready(s: string, d: set<string>, x: string, env: Env) {
    && PlainCaptures(s) && PlainName(x) && x in env && d <= env.Keys
    && (forall n :: n in d ==> Inert(env[n], x))
    && (forall n :: n in Touched(s) && n in d ==> NotBrace(env[n]))
  }

  lemma ReplaceShown(n: string, tail: string, d: set<string>, x: string, env: Env)
    requires PlainName(n) && PlainName(x) && x in env
    requires n in d && n in env ==> Inert(env[n], x)
    ensures ReplaceAll(Shown(n, d, env) + tail, Placeholder(x), env[x])
            == Shown(n, d + {x}, env) + ReplaceAll(tail, Placeholder(x), env[x])
  {
    if n in d && n in env {
      CopyInert(env[n], tail, x, env[x]);
    } else if n == x {
      ReplaceHit(tail, Placeholder(x), env[x]);
    } else {
      PlaceholderInert(n, x);
      CopyInert(Placeholder(n), tail, x, env[x]);
    }
  }

  lemma ReadyTail(s: string, d: set<string>, x: string, env: Env)
    requires s != "" && Ready(s, d, x, env)
    ensures match MatchHead(s)
            case Some(n) => Ready(s[|n| + 3..], d, x, env) && PlainName(n)
            case None => Ready(s[1..], d, x, env)
                         && forall n :: n in TouchedHead(s) && n in d && n in env ==> NotBrace(env[n])
  {
    hide Inert, NotBrace, TouchedHead, MatchHead, Placeholder;
    CapturesTail(s);
    match MatchHead(s)
    case Some(n) => assert Captures(s) == [n] + Captures(s[|n| + 3..]);
    case None =>
  }

  /** One replacement over the whole text substitutes one more name. */
  lemma {:induction false} ReplaceIsExpand(s: string, d: set<string>, x: string, env: Env)
    requires Ready(s, d, x, env)
    ensures ReplaceAll(Expand(s, d, env), Placeholder(x), env[x]) == Expand(s, d + {x}, env)
    decreases |s|
  {
    hide Inert, ReplaceAll, NotBrace, Captures, Touched, TouchedHead, Shown;
    if s != "" {
      ReadyTail(s, d, x, env);
      match MatchHead(s)
      case Some(n) =>
        var rest := s[|n| + 3..];
        ReplaceIsExpand(rest, d, x, env);
        ReplaceShown(n, Expand(rest, d, env), d, x, env);
      case None =>
        ReplaceIsExpand(s[1..], d, x, env);
        LiteralMisses(s, d, x, env);
        ReplaceMiss(s[0], Expand(s[1..], d, env), Placeholder(x), env[x]);
    } else {
      EmptyReplaced(Placeholder(x), env[x]);
    }
  }

  lemma EmptyReplaced(p: string, v: string)
    requires p != ""
    ensures ReplaceAll("", p, v) == ""
  {
  }

  /** The names of the first `k` placeholders. */
  function Done(names: seq<string>, k: nat): set<string>
    requires k <= |names|
  {
    set n | n in names[..k]
  }

  lemma DoneStep(names: seq<string>, k: nat)
    requires k < |names|
    ensures Done(names, k + 1) == Done(names, k) + {names[k]}
    ensures names[..k + 1][..k] == names[..k]
  {
    assert names[..k + 1] == names[..k] + [names[k]];
  }

  /** The `k`-th turn of the loop finds only what the template holds. */
  ghost predicate StepReady(t: string, k: nat, env: Env)
    requires k < |Captures(t)|
  {
    var names := Captures(t);
    || (names[k] in env && env[names[k]] == Placeholder(names[k]))
    || Ready(t, Done(names, k), names[k], env)
  }

  lemma {:induction false} LoopIsExpand(t: string, k: nat, env: Env)
    requires k <= |Captures(t)| && forall j: nat :: j < k ==> StepReady(t, j, env)
    ensures ReplaceEach(t, Captures(t)[..k], env) == Expand(t, Done(Captures(t), k), env)
  {
    var names := Captures(t);
    if k == 0 {
      assert Done(names, 0) == {} && names[..0] == [];
      ExpandNothing(t, env);
    } else {
      LoopIsExpand(t, k - 1, env);
      DoneStep(names, k - 1);
      var x, d := names[k - 1], Done(names, k - 1);
      assert StepReady(t, k - 1, env);
      if env[x] == Placeholder(x) {
        ReplaceSelf(Expand(t, d, env), Placeholder(x));
        ExpandOwnPlaceholder(t, d, x, env);
      } else {
        ReplaceIsExpand(t, d, x, env);
      }
    }
  }

  lemma {:induction false} ExpandNothing(s: string, env: Env)
    ensures Expand(s, {}, env) == s
    decreases |s|
  {
    hide Expand, MatchHead, Placeholder;
    if s == "" {
      ExpandEmpty({}, env);
    } else {
      ExpandHead(s, {}, env);
      match MatchHead(s)
      case Some(n) =>
        ExpandNothing(s[|n| + 3..], env);
        assert s == Placeholder(n) + s[|n| + 3..];
      case None => ExpandNothing(s[1..], env);
    }
  }

  /** Only the names that occur in the text matter to the pass over it. */
  lemma {:induction false} ExpandCaptured(s: string, d: set<string>, e: set<string>, env: Env)
    requires forall n :: n in Captures(s) ==> (n in d <==> n in e)
    ensures Expand(s, d, env) == Expand(s, e, env)
    decreases |s|
  {
    if s != "" {
      CapturesTail(s);
      match MatchHead(s)
      case Some(n) =>
        assert n in Captures(s);
        ExpandCaptured(s[|n| + 3..], d, e, env);
      case None => ExpandCaptured(s[1..], d, e, env);
    }
  }

  lemma {:induction false} CapturesAreNames(s: string, n: string)
    requires n in Captures(s)
    ensures IsName(n) && |n| + 3 <= |s|
    decreases |s|
  {
    CapturesTail(s);
    match MatchHead(s)
    case Some(m) =>
      if n != m {
        CapturesAreNames(s[|m| + 3..], n);
      }
    case None => CapturesAreNames(s[1..], n);
  }

  /** The environment sets every name the text captures. */
  ghost predicate AllSet(t: string, env: Env) {
    forall n :: n in Captures(t) ==> n in env
  }

  lemma AllSetResolves(t: string, env: Env)
    ensures AllSet(t, env) <==> FirstUnset(Captures(t), env).None?
    ensures AllSet(t, env) ==> Resolved(t, env) == Ok(ReplaceEach(t, Captures(t), env))
    ensures AllSet(t, env) ==> Simultaneous(t, env) == Ok(Expand(t, env.Keys, env))
  {
    FirstUnsetIsFirst(Captures(t), env);
  }

  /** If every turn is ready, the loop is the simultaneous substitution. */
  lemma ReadyIsSimultaneous(t: string, env: Env)
    requires AllSet(t, env) ==> forall k: nat :: k < |Captures(t)| ==> StepReady(t, k, env)
    ensures Resolved(t, env) == Simultaneous(t, env)
  {
    hide StepReady, Expand, ReplaceEach;
    AllSetResolves(t, env);
    if AllSet(t, env) {
      var names := Captures(t);
      LoopIsExpand(t, |names|, env);
      assert names[..|names|] == names;
      ExpandCaptured(t, Done(names, |names|), env.Keys, env);
    }
  }

  /** No placeholder that was replaced before the `k`-th turn has a stray `$`
      before it. */
  lemma ExpandableStep(t: string, k: nat)
    requires Expandable(t) && PlainCaptures(t) && k < |Captures(t)|
    ensures forall n :: n in Touched(t) ==> n !in Done(Captures(t), k)
  {
    assert forall j :: 0 <= j < k ==> Captures(t)[j] !in Touched(t);
  }

  lemma SafeReady(t: string, k: nat, env: Env)
    requires Expandable(t) && k < |Captures(t)| && SafeEnv(env) && AllSet(t, env) && PlainCaptures(t)
    ensures StepReady(t, k, env)
  {
    hide Expandable, Inert, Touched, NotBrace, IsName;
    var names := Captures(t);
    ExpandableStep(t, k);
    assert forall n :: n in Done(names, k) ==> n in names;
  }

  /** In a safe environment the loop of whole-text replacements is the simultaneous
      substitution, errors included, on all expandable templates. */
  lemma SafeEnvIsSimultaneous(t: string, env: Env)
    requires Expandable(t) && SafeEnv(env)
    requires forall n :: n in Captures(t) && n in env ==> '$' !in n
    ensures Resolved(t, env) == Simultaneous(t, env)
  {
    hide Expandable, SafeEnv, StepReady;
    if AllSet(t, env) {
      forall n | n in Captures(t)
        ensures PlainName(n)
      {
        CapturesAreNames(t, n);
      }
      forall k: nat | k < |Captures(t)|
        ensures StepReady(t, k, env)
      {
        SafeReady(t, k, env);
      }
    }
    ReadyIsSimultaneous(t, env);
  }

  lemma DollarFreeIsSafe(env: Env)
    requires DollarFree(env)
    ensures SafeEnv(env)
  {
    forall a, b | a in env && b in env
      ensures Inert(env[a], b)
    {
      DollarFreeIsInert(env[a], b);
    }
  }

  /** An environment without dollar signs is safe. */
  lemma DollarFreeExpansion(t: string, env: Env)
    requires Expandable(t) && DollarFree(env)
    ensures Resolved(t, env) == Simultaneous(t, env)
  {
    DollarFreeIsSafe(env);
    SafeEnvIsSimultaneous(t, env);
  }
}
