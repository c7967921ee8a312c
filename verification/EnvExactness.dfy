/** Where placeholder expansion is not the intended substitution: every unsafe
    environment and every template that is not expandable has a witness. */
module EnvExactness {
  import opened Wrappers
  import opened Text
  import opened Seqs
  import opened EnvResolver

  // ----- Unsafe environments break some template -----

  function Hits(s: string, p: string): nat
    requires p != ""
    decreases |s|
  {
    if s == "" then 0
    else if p <= s then 1 + Hits(s[|p|..], p)
    else Hits(s[1..], p)
  }

  lemma {:induction false} OccurrenceIsHit(s: string, p: string, i: nat)
    requires p != "" && i <= |s| && p <= s[i..]
    ensures Hits(s, p) > 0
    decreases |s|
  {
    if !(p <= s) {
      assert s[1..][i - 1..] == s[i..] by { assert i > 0 by { assert s[0..] == s; } }
      OccurrenceIsHit(s[1..], p, i - 1);
    }
  }

  lemma {:induction false} ReplaceLength(s: string, p: string, v: string)
    requires p != ""
    ensures |v| > |p| ==> |ReplaceAll(s, p, v)| >= |s| + Hits(s, p)
    ensures |v| < |p| ==> |ReplaceAll(s, p, v)| + Hits(s, p) <= |s|
    decreases |s|
  {
    if s == "" {
    } else if p <= s {
      ReplaceLength(s[|p|..], p, v);
    } else {
      ReplaceLength(s[1..], p, v);
    }
  }

  lemma HeadReplaced(s: string, p: string, v: string)
    requires p != "" && p <= s && |v| == |p| && ReplaceAll(s, p, v) == s
    ensures v == p
  {
    assert s == v + ReplaceAll(s[|p|..], p, v);
    assert v == s[..|v|] == p;
  }

  lemma {:induction false} SameLengthReplace(s: string, p: string, v: string)
    requires p != "" && |v| == |p| && v != p && ReplaceAll(s, p, v) == s
    ensures Hits(s, p) == 0
    decreases |s|
  {
    if s == "" {
    } else if p <= s {
      HeadReplaced(s, p, v);
      assert false;
    } else {
      assert ReplaceAll(s, p, v)[1..] == ReplaceAll(s[1..], p, v);
      SameLengthReplace(s[1..], p, v);
    }
  }

  /** Replacing something that occurs by something else changes the text. */
  lemma ReplaceChanges(s: string, p: string, v: string, i: nat)
    requires p != "" && v != p && i <= |s| && p <= s[i..]
    ensures ReplaceAll(s, p, v) != s
  {
    OccurrenceIsHit(s, p, i);
    ReplaceLength(s, p, v);
    if |v| == |p| && ReplaceAll(s, p, v) == s {
      SameLengthReplace(s, p, v);
      assert false;
    }
  }

  lemma PrefixFits(y: string, p: string)
    requires p != "" && p[0] !in p[1..] && y != "" && p <= y + p
    ensures |p| <= |y| && p <= y
  {
    assert (y + p)[|y|] == p[0];
    assert forall k :: 1 <= k < |p| ==> p[k] == p[1..][k - 1] && p[k] != p[0];
    assert forall k :: 0 <= k < |p| ==> p[k] == (y + p)[k];
    assert |p| <= |y|;
    assert p == (y + p)[..|p|] == y[..|p|];
  }

  /** No copy of a placeholder straddles the start of another copy. */
  lemma {:induction false} ReplaceSplits(y: string, p: string, v: string)
    requires p != "" && p[0] !in p[1..]
    ensures ReplaceAll(y + p, p, v) == ReplaceAll(y, p, v) + v
    decreases |y|
  {
    if y == "" {
      assert y + p == p + "";
      ReplaceHit("", p, v);
    } else if p <= y + p {
      PrefixFits(y, p);
      assert (y + p)[|p|..] == y[|p|..] + p;
      ReplaceSplits(y[|p|..], p, v);
    } else {
      assert p <= y ==> p <= y + p;
      assert (y + p)[1..] == y[1..] + p;
      ReplaceSplits(y[1..], p, v);
    }
  }

  /** All names are plain and no stray `$` stands before a placeholder. */
  ghost predicate Simple(t: string) {
    PlainCaptures(t) && Touched(t) == {}
  }

  lemma LiteralHead(c: char, s: string, d: set<string>, env: Env)
    requires c != '$'
    ensures Expand([c] + s, d, env) == [c] + Expand(s, d, env)
    ensures Captures([c] + s) == Captures(s) && Touched([c] + s) == Touched(s)
  {
    assert ([c] + s)[1..] == s;
    assert MatchHead([c] + s).None?;
  }

  lemma {:induction false} LiteralPrefix(r: string, s: string, d: set<string>, env: Env)
    requires '$' !in r
    ensures Expand(r + s, d, env) == r + Expand(s, d, env)
    ensures Captures(r + s) == Captures(s) && Touched(r + s) == Touched(s)
  {
    hide Expand, Captures, Touched;
    if r == "" {
      assert r + s == s;
    } else {
      var c, rest := r[0], r[1..];
      LiteralPrefix(rest, s, d, env);
      LiteralHead(c, rest + s, d, env);
      assert r + s == [c] + (rest + s);
      assert r + Expand(s, d, env) == [c] + (rest + Expand(s, d, env));
    }
  }

  lemma TwoNames(value: string, a: string, b: string, env: Env)
    requires Captures(value) == [a, b] && a in env && b in env
    ensures Resolved(value, env)
            == Ok(ReplaceAll(ReplaceAll(value, Placeholder(a), env[a]), Placeholder(b), env[b]))
    ensures Simultaneous(value, env) == Ok(Expand(value, env.Keys, env))
  {
    var names := [a, b];
    AllSetResolves(value, env);
    assert names[..1] == [a] && [a][..0] == [];
    assert ReplaceEach(value, [a], env) == ReplaceAll(value, Placeholder(a), env[a]);
  }

  /** The template `${a}` r `${b}`. */
  function TwoPlaceholders(a: string, r: string, b: string): string {
    Placeholder(a) + (r + (Placeholder(b) + ""))
  }

  lemma TwoPlaceholdersFacts(a: string, r: string, b: string, d: set<string>, env: Env)
    requires PlainName(a) && PlainName(b) && '$' !in r && a in env && b in env && a in d
    ensures var t := TwoPlaceholders(a, r, b);
            && Simple(t) && Captures(t) == [a, b]
            && Expand(t, d, env) == env[a] + r + (if b in d then env[b] else Placeholder(b))
  {
    hide MatchHead, Captures, Touched, Expand, PlainName, Placeholder;
    var last := Placeholder(b) + "";
    PlaceholderThenText(b, "", d, env);
    ExpandEmpty(d, env);
    LiteralPrefix(r, last, d, env);
    PlaceholderThenText(a, r + last, d, env);
    var shown := Shown(b, d, env);
    assert shown + "" == shown;
    Associate(env[a], r, shown);
  }

  lemma PlaceholderThenText(n: string, s: string, d: set<string>, env: Env)
    requires PlainName(n)
    ensures Captures(Placeholder(n) + s) == [n] + Captures(s) && Touched(Placeholder(n) + s) == Touched(s)
    ensures Expand(Placeholder(n) + s, d, env) == Shown(n, d, env) + Expand(s, d, env)
  {
    hide MatchHead;
    MatchPlaceholder(n, s);
  }

  /** What the loop makes of the two-placeholder template. */
  lemma TwoPlaceholdersResolved(a: string, r: string, b: string, env: Env)
    requires PlainName(a) && PlainName(b) && '$' !in r && a in env && b in env
    ensures var t := TwoPlaceholders(a, r, b);
            && Simple(t) && Simultaneous(t, env) == Ok(env[a] + r + env[b])
            && Resolved(t, env) == Ok(ReplaceAll(env[a] + r + (if a == b then env[b] else Placeholder(b)),
                                                 Placeholder(b), env[b]))
  {
    var t := TwoPlaceholders(a, r, b);
    TwoPlaceholdersFacts(a, r, b, {a}, env);
    TwoPlaceholdersFacts(a, r, b, env.Keys, env);
    ExpandNothing(t, env);
    ReplaceIsExpand(t, {}, a, env);
    assert {} + {a} == {a};
    TwoNames(t, a, b, env);
  }

  lemma OccurrenceSurvives(y: string, p: string, v: string, i: nat)
    requires p != "" && p[0] !in p[1..] && v != p && i <= |y| && p <= y[i..]
    ensures ReplaceAll(y + p, p, v) != y + v
  {
    ReplaceChanges(y, p, v, i);
    ReplaceSplits(y, p, v);
    if ReplaceAll(y, p, v) + v == y + v {
      CancelSuffix(ReplaceAll(y, p, v), y, v);
      assert false;
    }
  }

  /** The text between the two placeholders that completes a copy of `${b}`
      begun by the tail `s` of a value. */
  lemma Completion(s: string, b: string) returns (r: string)
    requires PlainName(b) && s != "" && Overlaps(s, Placeholder(b))
    ensures '$' !in r && Placeholder(b) <= s + r
  {
    var p := Placeholder(b);
    if |s| < |p| {
      r := p[|s|..];
      assert s + r == p;
      assert p[1..] == "{" + b + "}";
      assert r == p[1..][|s| - 1..];
    } else {
      r := "";
      assert s + r == s;
    }
  }

  /** The second replacement finds the copy of `p` that `va` began. */
  lemma CopyIsFound(va: string, r: string, p: string, v: string, i: nat, same: bool)
    requires p != "" && p[0] !in p[1..] && v != p && i <= |va| && p <= va[i..] + r
    ensures ReplaceAll(va + r + (if same then v else p), p, v) != va + r + v
  {
    var y := va + r;
    assert y[i..] == va[i..] + r;
    if same {
      assert (y + v)[i..] == y[i..] + v;
      ReplaceChanges(y + v, p, v, i);
    } else {
      OccurrenceSurvives(y, p, v, i);
    }
  }

  /** If a value can begin the placeholder of some variable, there is a
      well-formed template that the code expands twice. */
  lemma UnsafeEnvBreaks(env: Env, a: string, b: string, i: nat) returns (t: string)
    requires a in env && b in env && PlainName(a) && PlainName(b) && env[b] != Placeholder(b)
    requires i < |env[a]| && Overlaps(env[a][i..], Placeholder(b))
    ensures Simple(t) && Resolved(t, env) != Simultaneous(t, env)
  {
    var r := Completion(env[a][i..], b);
    t := TwoPlaceholders(a, r, b);
    TwoPlaceholdersResolved(a, r, b, env);
    PlaceholderStart(b);
    CopyIsFound(env[a], r, Placeholder(b), env[b], i, a == b);
  }

  lemma PlaceholderStart(b: string)
    requires PlainName(b)
    ensures Placeholder(b)[0] !in Placeholder(b)[1..]
  {
    assert Placeholder(b)[1..] == "{" + b + "}";
  }

  /** The exact condition on environments: the loop agrees with simultaneous
      substitution on all expandable templates (over variables with plain names)
      if and only if the environment is safe. */
  lemma ExpansionExactlyWhenSafe(env: Env)
    ensures SafeEnv(env)
            <==> forall t :: Expandable(t) && (forall n :: n in Captures(t) && n in env ==> '$' !in n)
                             ==> Resolved(t, env) == Simultaneous(t, env)
  {
    if SafeEnv(env) {
      forall t | Expandable(t) && forall n :: n in Captures(t) && n in env ==> '$' !in n
        ensures Resolved(t, env) == Simultaneous(t, env)
      {
        SafeEnvIsSimultaneous(t, env);
      }
    } else {
      var a, b :| a in env && b in env && PlainName(a) && PlainName(b)
                  && env[b] != Placeholder(b) && !Inert(env[a], b);
      var i :| 0 <= i < |env[a]| && Overlaps(env[a][i..], Placeholder(b));
      var t := UnsafeEnvBreaks(env, a, b, i);
    }
  }

  // ----- Templates that are not expandable break -----

  /** Closing braces less dollar signs.  Replacing plain placeholders by values
      without dollar signs never lowers it. */
  function Balance(s: string): int {
    if s == "" then 0
    else (if s[0] == '}' then 1 else if s[0] == '$' then -1 else 0) + Balance(s[1..])
  }

  lemma {:induction false} BalanceAdd(a: string, b: string)
    ensures Balance(a + b) == Balance(a) + Balance(b)
  {
    if a == "" {
      assert a + b == b;
    } else {
      BalanceAdd(a[1..], b);
      assert (a + b)[1..] == a[1..] + b;
    }
  }

  lemma {:induction false} NoDollarBalance(s: string)
    requires '$' !in s
    ensures Balance(s) >= 0 && ('}' !in s ==> Balance(s) == 0)
  {
    if s != "" {
      NoDollarBalance(s[1..]);
    }
  }

  lemma PlaceholderBalance(n: string)
    requires PlainName(n)
    ensures Balance(Placeholder(n)) == 0
  {
    NoDollarBalance(n);
    BalanceAdd(n, "}");
    assert Balance("}") == 1;
    assert Placeholder(n)[1..] == "{" + (n + "}");
    assert ("{" + (n + "}"))[1..] == n + "}";
  }

  lemma {:induction false} ReplaceBalance(s: string, x: string, v: string)
    requires PlainName(x) && '$' !in v
    ensures Balance(ReplaceAll(s, Placeholder(x), v)) >= Balance(s)
    decreases |s|
  {
    var p := Placeholder(x);
    if s == "" {
    } else if p <= s {
      ReplaceBalance(s[|p|..], x, v);
      PlaceholderBalance(x);
      NoDollarBalance(v);
      assert s == p + s[|p|..];
      BalanceAdd(p, s[|p|..]);
      BalanceAdd(v, ReplaceAll(s[|p|..], p, v));
    } else {
      ReplaceBalance(s[1..], x, v);
      assert ReplaceAll(s, p, v)[1..] == ReplaceAll(s[1..], p, v);
    }
  }

  lemma EachStep(t: string, names: seq<string>, k: nat, env: Env)
    requires k < |names| && names[k] in env
    ensures ReplaceEach(t, names[..k + 1], env)
            == ReplaceAll(ReplaceEach(t, names[..k], env), Placeholder(names[k]), env[names[k]])
  {
    assert names[..k + 1][..k] == names[..k];
  }

  lemma {:induction false} LoopBalance(t: string, names: seq<string>, j: nat, k: nat, env: Env)
    requires j <= k <= |names| && DollarFree(env) && forall n :: n in names ==> PlainName(n) && n in env
    ensures Balance(ReplaceEach(t, names[..k], env)) >= Balance(ReplaceEach(t, names[..j], env))
  {
    hide Balance, ReplaceAll, ReplaceEach, Placeholder, PlainName;
    if j < k {
      EachStep(t, names, k - 1, env);
      LoopBalance(t, names, j, k - 1, env);
      ReplaceBalance(ReplaceEach(t, names[..k - 1], env), names[k - 1], env[names[k - 1]]);
    }
  }

  /** The value of `m` completes a stray `$` before it to the placeholder of `z`;
      only the value of `z` holds a closing brace of its own. */
  function BadValue(n: string, m: string, z: string): string {
    (if n == m then "{" + z + "}" else "x") + (if n == z then "}" else "")
  }

  function BadEnv(names: seq<string>, m: string, z: string): Env {
    map n | n in names :: BadValue(n, m, z)
  }

  lemma BadEnvFacts(names: seq<string>, m: string, z: string)
    requires PlainName(z) && forall n :: n in names ==> PlainName(n)
    ensures DollarFree(BadEnv(names, m, z))
    ensures forall n :: n in names && n != m ==> NotBrace(BadEnv(names, m, z)[n])
  {
  }

  lemma BadBalance(n: string, m: string, z: string)
    requires PlainName(z)
    ensures '$' !in BadValue(n, m, z)
    ensures Balance(BadValue(n, m, z)) == (if n == m then 1 else 0) + (if n == z then 1 else 0)
  {
    var head, tail := if n == m then "{" + z + "}" else "x", if n == z then "}" else "";
    BalanceAdd(head, tail);
    BalanceAdd("{" + z, "}");
    NoDollarBalance("{" + z);
    assert Balance("}") == 1 && Balance("x") == 0;
  }

  lemma ShownBalance(n: string, d: set<string>, m: string, z: string, env: Env)
    requires PlainName(n) && PlainName(z) && m in d && n in env && z in env && d <= env.Keys
    requires env[n] == BadValue(n, m, z)
    ensures Balance(Shown(n, d + {z}, env)) >= Balance(env[n])
  {
    BadBalance(n, m, z);
    PlaceholderBalance(n);
  }

  /** A stray `$` and the value of `m` are found as the placeholder of `z`. */
  lemma StrayHit(m: string, z: string, tail: string, v: string)
    requires PlainName(z) && '$' !in v
    ensures Balance(ReplaceAll("$" + (BadValue(m, m, z) + tail), Placeholder(z), v))
            >= Balance(v) + Balance(ReplaceAll(tail, Placeholder(z), v))
  {
    var rest := if m == z then "}" else "";
    var p := Placeholder(z);
    assert "$" + (BadValue(m, m, z) + tail) == p + (rest + tail);
    ReplaceHit(rest + tail, p, v);
    DollarFreeIsInert(rest, z);
    CopyInert(rest, tail, z, v);
    BalanceAdd(v, rest + ReplaceAll(tail, p, v));
    BalanceAdd(rest, ReplaceAll(tail, p, v));
    NoDollarBalance(rest);
  }

  /** Replacing `z` after `m` writes all that is due and, for a stray `$` before
      a placeholder of `m`, something more. */
  lemma {:induction false} TouchedGains(s: string, d: set<string>, m: string, z: string, env: Env)
    requires PlainCaptures(s) && PlainName(z) && m in d && z in env && d <= env.Keys
    requires forall n :: n in Captures(s) ==> n in env
    requires forall n :: n in env ==> env[n] == BadValue(n, m, z)
    ensures Balance(ReplaceAll(Expand(s, d, env), Placeholder(z), env[z]))
            >= Balance(Expand(s, env.Keys, env)) + (if m in Touched(s) then 1 else 0)
    decreases |s|
  {
    hide ReplaceAll, Balance, BadValue, Captures, Touched, Expand;
    if s == "" {
      EmptyGains(d, z, env);
    } else {
      CapturesTail(s);
      match MatchHead(s)
      case Some(n) =>
        var rest := s[|n| + 3..];
        assert n in Captures(s);
        TouchedGains(rest, d, m, z, env);
        MatchedGains(s, n, d, m, z, env);
      case None =>
        if s[0] == '$' && MatchHead(s[1..]) == Some(m) {
          CapturesTail(s[1..]);
          TouchedGains(s[1..][|m| + 3..], d, m, z, env);
          StrayGains(s, d, m, z, env);
        } else {
          TouchedGains(s[1..], d, m, z, env);
          LiteralGains(s, d, m, z, env);
        }
    }
  }

  lemma EmptyGains(d: set<string>, z: string, env: Env)
    requires z in env
    ensures Balance(ReplaceAll(Expand("", d, env), Placeholder(z), env[z])) >= Balance(Expand("", env.Keys, env))
    ensures Touched("") == {}
  {
  }

  lemma MatchedGains(s: string, n: string, d: set<string>, m: string, z: string, env: Env)
    requires s != "" && MatchHead(s) == Some(n) && PlainName(n) && PlainName(z) && m in d && d <= env.Keys
    requires n in env && z in env && forall k :: k in env ==> env[k] == BadValue(k, m, z)
    ensures Balance(ReplaceAll(Expand(s, d, env), Placeholder(z), env[z])) - Balance(Expand(s, env.Keys, env))
            >= Balance(ReplaceAll(Expand(s[|n| + 3..], d, env), Placeholder(z), env[z]))
               - Balance(Expand(s[|n| + 3..], env.Keys, env))
  {
    hide ReplaceAll, Balance, BadValue;
    var p, rest := Placeholder(z), s[|n| + 3..];
    BadBalance(n, m, z);
    DollarFreeIsInert(env[n], z);
    ReplaceShown(n, Expand(rest, d, env), d, z, env);
    ShownBalance(n, d, m, z, env);
    BalanceAdd(Shown(n, d + {z}, env), ReplaceAll(Expand(rest, d, env), p, env[z]));
    BalanceAdd(env[n], Expand(rest, env.Keys, env));
  }

  lemma StrayGains(s: string, d: set<string>, m: string, z: string, env: Env)
    requires s != "" && s[0] == '$' && MatchHead(s).None? && MatchHead(s[1..]) == Some(m)
    requires PlainName(m) && PlainName(z) && m in d && d <= env.Keys && z in env
    requires forall k :: k in env ==> env[k] == BadValue(k, m, z)
    ensures var rest := s[1..][|m| + 3..];
            Balance(ReplaceAll(Expand(s, d, env), Placeholder(z), env[z])) - Balance(Expand(s, env.Keys, env))
            > Balance(ReplaceAll(Expand(rest, d, env), Placeholder(z), env[z])) - Balance(Expand(rest, env.Keys, env))
  {
    hide ReplaceAll, BadValue, Expand, Balance, MatchHead;
    var rest := s[1..][|m| + 3..];
    BadBalance(m, m, z);
    BadBalance(z, m, z);
    StrayHit(m, z, Expand(rest, d, env), env[z]);
    ExpandHead(s, d, env);
    ExpandHead(s[1..], d, env);
    ExpandHead(s, env.Keys, env);
    ExpandHead(s[1..], env.Keys, env);
    BalanceAdd("$", env[m] + Expand(rest, env.Keys, env));
    BalanceAdd(env[m], Expand(rest, env.Keys, env));
    DollarBalance();
  }

  lemma DollarBalance()
    ensures Balance("$") == -1
  {
  }

  lemma LiteralGains(s: string, d: set<string>, m: string, z: string, env: Env)
    requires s != "" && MatchHead(s).None? && !(s[0] == '$' && MatchHead(s[1..]) == Some(m))
    requires PlainName(z) && z in env && forall k :: k in env ==> env[k] == BadValue(k, m, z)
    ensures Balance(ReplaceAll(Expand(s, d, env), Placeholder(z), env[z])) - Balance(Expand(s, env.Keys, env))
            == Balance(ReplaceAll(Expand(s[1..], d, env), Placeholder(z), env[z]))
               - Balance(Expand(s[1..], env.Keys, env))
    ensures m !in TouchedHead(s)
  {
    hide ReplaceAll, Balance;
    LiteralMisses(s, d, z, env);
    ReplaceMiss(s[0], Expand(s[1..], d, env), Placeholder(z), env[z]);
    BalanceAdd([s[0]], ReplaceAll(Expand(s[1..], d, env), Placeholder(z), env[z]));
    BalanceAdd([s[0]], Expand(s[1..], env.Keys, env));
  }

  lemma {:induction false} FirstIndex(names: seq<string>, j: nat) returns (i: nat)
    requires j < |names|
    ensures i <= j && names[i] == names[j] && names[i] !in names[..i]
  {
    if names[j] in names[..j] {
      var k :| 0 <= k < j && names[..j][k] == names[j];
      i := FirstIndex(names, k);
    } else {
      i := j;
    }
  }

  /** Up to the first replacement of `m` nothing goes wrong. */
  lemma FineUntil(t: string, i: nat, k: nat, env: Env)
    requires PlainCaptures(t) && i <= k < |Captures(t)| && Captures(t)[k] !in Captures(t)[..k]
    requires AllSet(t, env) && DollarFree(env)
    requires forall n :: n in Captures(t) && n != Captures(t)[k] ==> NotBrace(env[n])
    ensures StepReady(t, i, env)
  {
    hide Inert, Touched, NotBrace;
    var names := Captures(t);
    assert forall n :: n in Done(names, i) ==> n in names[..k];
    forall n | n in Done(names, i)
      ensures n in names && n != names[k] && Inert(env[n], names[i])
    {
      assert n in names[..k];
      DollarFreeIsInert(env[n], names[i]);
    }
  }

  /** A stray `$` directly before a placeholder breaks the law as soon as another
      capture follows: with the value `{z}`, for `z` the next name, the code
      expands text that it has just written, although no variable holds a `$`. */
  lemma StrayDollarBreaks(t: string, j: nat) returns (env: Env)
    requires PlainCaptures(t) && j < |Captures(t)| - 1 && Captures(t)[j] in Touched(t)
    ensures DollarFree(env) && Resolved(t, env) != Simultaneous(t, env)
  {
    hide Touched, BadValue, NotBrace, Captures, Expand, ReplaceAll, ReplaceEach, Balance, Placeholder;
    var names := Captures(t);
    var k := FirstIndex(names, j);
    var m, z := names[k], names[k + 1];
    env := BadEnv(names, m, z);
    BadEnvFacts(names, m, z);
    SecondTurnWritesMore(t, k, env);
    AllSetResolves(t, env);
    LoopBalance(t, names, k + 2, |names|, env);
    assert names[..|names|] == names;
  }

  lemma SecondTurnWritesMore(t: string, k: nat, env: Env)
    requires PlainCaptures(t) && k < |Captures(t)| - 1 && Captures(t)[k] !in Captures(t)[..k]
    requires Captures(t)[k] in Touched(t) && DollarFree(env)
    requires env == BadEnv(Captures(t), Captures(t)[k], Captures(t)[k + 1])
    requires forall n :: n in Captures(t) && n != Captures(t)[k] ==> NotBrace(env[n])
    ensures Balance(ReplaceEach(t, Captures(t)[..k + 2], env)) > Balance(Expand(t, env.Keys, env))
  {
    hide Touched, StepReady, BadValue, NotBrace, Captures, Expand, ReplaceAll, ReplaceEach, Balance, Placeholder;
    var names := Captures(t);
    var m, z := names[k], names[k + 1];
    forall i: nat | i < k + 1
      ensures StepReady(t, i, env)
    {
      FineUntil(t, i, k, env);
    }
    LoopIsExpand(t, k + 1, env);
    DoneStep(names, k);
    EachStep(t, names, k + 1, env);
    assert forall n :: n in Done(names, k + 1) ==> n in names;
    TouchedGains(t, Done(names, k + 1), m, z, env);
  }

  /** The exact condition on templates: the loop agrees with simultaneous
      substitution in all environments without dollar signs if and only if no
      placeholder but a last one is touched by a stray `$`. */
  lemma TemplateExpandsExactly(t: string)
    ensures Expandable(t) <==> forall env :: DollarFree(env) ==> Resolved(t, env) == Simultaneous(t, env)
  {
    if Expandable(t) {
      forall env | DollarFree(env)
        ensures Resolved(t, env) == Simultaneous(t, env)
      {
        DollarFreeExpansion(t, env);
      }
    } else {
      var j :| 0 <= j < |Captures(t)| - 1 && Captures(t)[j] in Touched(t);
      var env := StrayDollarBreaks(t, j);
    }
  }

  // ----- Templates whose expansion holds no placeholder -----

  /** `${n}` stands somewhere in `s`. */
  ghost predicate Holds(s: string, n: string) {
    exists i :: 0 <= i <= |s| && Placeholder(n) <= s[i..]
  }

  lemma {:induction false} HeldIsCaptured(s: string, n: string)
    requires IsName(n) && Holds(s, n)
    ensures Captures(s) != []
    decreases |s|
  {
    hide Placeholder;
    var i :| 0 <= i <= |s| && Placeholder(n) <= s[i..];
    if i == 0 {
      assert s[0..] == s;
      MatchPrefix(n, s);
    } else if MatchHead(s).None? {
      assert s[1..][i - 1..] == s[i..];
      HeldIsCaptured(s[1..], n);
    }
  }

  lemma HoldsAfter(a: string, s: string, n: string)
    requires Holds(s, n)
    ensures Holds(a + s, n)
  {
    var i :| 0 <= i <= |s| && Placeholder(n) <= s[i..];
    assert (a + s)[|a| + i..] == s[i..];
  }

  /** Replacing one plain placeholder keeps the others. */
  lemma {:induction false} OtherIsKept(s: string, n: string, x: string, v: string)
    requires PlainName(n) && PlainName(x) && n != x && Holds(s, n)
    ensures Holds(ReplaceAll(s, Placeholder(x), v), n)
    decreases |s|
  {
    hide Placeholder, PlainName;
    var p, q := Placeholder(x), Placeholder(n);
    var i :| 0 <= i <= |s| && q <= s[i..];
    if i == 0 {
      var rest := s[|q|..];
      assert s[0..] == s == q + rest;
      PlaceholderInert(n, x);
      CopyInert(q, rest, x, v);
      assert ReplaceAll(s, p, v)[0..] == q + ReplaceAll(rest, p, v);
    } else if p <= s {
      ClosedOnce(x);
      assert s[i] == s[i..][0] == '$';
      assert i >= |p|;
      assert s[|p|..][i - |p|..] == s[i..];
      OtherIsKept(s[|p|..], n, x, v);
      HoldsAfter(v, ReplaceAll(s[|p|..], p, v), n);
    } else {
      assert s[1..][i - 1..] == s[i..];
      OtherIsKept(s[1..], n, x, v);
      HoldsAfter([s[0]], ReplaceAll(s[1..], p, v), n);
    }
  }

  lemma {:induction false} LoopKeeps(t: string, names: seq<string>, j: nat, k: nat, env: Env, n: string)
    requires j <= k <= |names| && PlainName(n) && n !in names && forall x :: x in names ==> PlainName(x)
    requires Holds(ReplaceEach(t, names[..j], env), n)
    ensures Holds(ReplaceEach(t, names[..k], env), n)
  {
    hide Holds;
    if j < k {
      assert names[..k][..k - 1] == names[..k - 1];
      LoopKeeps(t, names, j, k - 1, env, n);
      OtherIsKept(ReplaceEach(t, names[..k - 1], env), n, names[k - 1],
                  if names[k - 1] in env then env[names[k - 1]] else "");
    }
  }

  /** A stray `$` before `${m}` meets a value `{q}`. */
  lemma {:induction false} TouchedHolds(s: string, d: set<string>, m: string, q: string, env: Env)
    requires m in Touched(s) && m in d && m in env && env[m] == "{" + q + "}"
    ensures Holds(Expand(s, d, env), q)
    decreases |s|
  {
    hide Holds, Touched, Captures, Expand, MatchHead;
    if s == "" {
      ExpandEmpty(d, env);
    } else {
      CapturesTail(s);
      ExpandHead(s, d, env);
      match MatchHead(s)
      case Some(n) =>
        TouchedHolds(s[|n| + 3..], d, m, q, env);
        HoldsAfter(Shown(n, d, env), Expand(s[|n| + 3..], d, env), q);
      case None =>
        if m in Touched(s[1..]) {
          TouchedHolds(s[1..], d, m, q, env);
          HoldsAfter([s[0]], Expand(s[1..], d, env), q);
        } else {
          ExpandHead(s[1..], d, env);
          var rest := Expand(s[1..][|m| + 3..], d, env);
          HoldsFirst(q, rest);
          assert "$" + (env[m] + rest) == Placeholder(q) + rest;
        }
    }
  }

  lemma HoldsFirst(q: string, rest: string)
    ensures Holds(Placeholder(q) + rest, q)
  {
    assert (Placeholder(q) + rest)[0..] == Placeholder(q) + rest;
  }

  /** Where `m` is touched, a value `{q}` leaves a placeholder of a variable that
      the template does not mention. */
  lemma StrayDollarLeavesPlaceholder(t: string, m: string) returns (env: Env)
    requires PlainCaptures(t) && m in Touched(t)
    ensures DollarFree(env) && Resolved(t, env).Ok? && Captures(Resolved(t, env).value) != []
  {
    hide *;
    var names := Captures(t);
    var q := Long(t);
    LongIsNew(t);
    TouchedIsCaptured(t, m);
    env := LeaveEnv(names, m, q);
    LeaveEnvFacts(t, m, q);
    var j :| 0 <= j < |names| && names[j] == m;
    var k := FirstIndex(names, j);
    LeftAfterTurn(t, k, q, env);
    PlainAll(t);
    LoopKeeps(t, names, k + 1, |names|, env, q);
    assert names[..|names|] == names;
    AllSetResolves(t, env);
    PlainIsName(q);
    HeldIsCaptured(ReplaceEach(t, names, env), q);
  }

  function LeaveEnv(names: seq<string>, m: string, q: string): Env {
    map n | n in names :: if n == m then "{" + q + "}" else "x"
  }

  lemma LeaveEnvFacts(t: string, m: string, q: string)
    requires PlainCaptures(t) && PlainName(q) && m in Captures(t)
    ensures var env := LeaveEnv(Captures(t), m, q);
            DollarFree(env) && AllSet(t, env) && m in env && env[m] == "{" + q + "}"
    ensures var env := LeaveEnv(Captures(t), m, q);
            forall n :: n in Captures(t) && n != m ==> n in env && NotBrace(env[n])
  {
    hide Captures;
  }

  lemma PlainAll(t: string)
    requires PlainCaptures(t)
    ensures forall n :: n in Captures(t) ==> PlainName(n)
  {
  }

  lemma PlainIsName(n: string)
    requires PlainName(n)
    ensures IsName(n)
  {
  }

  lemma LeftAfterTurn(t: string, k: nat, q: string, env: Env)
    requires PlainCaptures(t) && k < |Captures(t)| && Captures(t)[k] !in Captures(t)[..k]
    requires Captures(t)[k] in Touched(t) && AllSet(t, env) && DollarFree(env) && env[Captures(t)[k]] == "{" + q + "}"
    requires forall n :: n in Captures(t) && n != Captures(t)[k] ==> NotBrace(env[n])
    ensures Holds(ReplaceEach(t, Captures(t)[..k + 1], env), q)
  {
    hide Touched, StepReady, NotBrace, Holds, ReplaceEach;
    var names := Captures(t);
    forall i: nat | i < k + 1
      ensures StepReady(t, i, env)
    {
      FineUntil(t, i, k, env);
    }
    LoopIsExpand(t, k + 1, env);
    DoneStep(names, k);
    TouchedHolds(t, Done(names, k + 1), names[k], q, env);
  }

  /** A name too long to be captured. */
  function Long(t: string): string {
    seq(|t| + 1, i => 'x')
  }

  lemma LongIsNew(t: string)
    ensures PlainName(Long(t)) && Long(t) !in Captures(t)
  {
    if Long(t) in Captures(t) {
      CapturesAreNames(t, Long(t));
      assert false;
    }
  }

  lemma {:induction false} TouchedIsCaptured(s: string, m: string)
    requires m in Touched(s)
    ensures m in Captures(s)
    decreases |s|
  {
    CapturesTail(s);
    match MatchHead(s)
    case Some(n) => TouchedIsCaptured(s[|n| + 3..], m);
    case None =>
      if m in Touched(s[1..]) {
        TouchedIsCaptured(s[1..], m);
      } else {
        CapturesTail(s[1..]);
      }
  }

  lemma {:induction false} NoDollarThenRest(v: string, s: string)
    requires '$' !in v
    ensures Captures(v + s) == Captures(s)
  {
    if v == "" {
      assert v + s == s;
    } else {
      NoDollarThenRest(v[1..], s);
      assert (v + s)[1..] == v[1..] + s && (v + s)[0] == v[0];
    }
  }

  lemma {:induction false} UntouchedLeavesNothing(s: string, env: Env)
    requires Touched(s) == {} && DollarFree(env) && forall n :: n in Captures(s) ==> n in env
    ensures Captures(Expand(s, env.Keys, env)) == []
    decreases |s|
  {
    if s != "" {
      CapturesTail(s);
      match MatchHead(s)
      case Some(n) =>
        var rest := s[|n| + 3..];
        assert n in Captures(s);
        UntouchedLeavesNothing(rest, env);
        NoDollarThenRest(env[n], Expand(rest, env.Keys, env));
      case None =>
        UntouchedLeavesNothing(s[1..], env);
        LiteralStays(s, env.Keys, env);
        var text := [s[0]] + Expand(s[1..], env.Keys, env);
        assert text[1..] == Expand(s[1..], env.Keys, env);
    }
  }

  /** In all environments without dollar signs the result holds no placeholder any
      more if and only if no placeholder of the template is touched by a stray `$`. */
  lemma NothingLeftExactly(t: string)
    ensures (PlainCaptures(t) ==> Touched(t) == {})
            <==> forall env :: DollarFree(env) && Resolved(t, env).Ok? ==> Captures(Resolved(t, env).value) == []
  {
    forall env | DollarFree(env) && Resolved(t, env).Ok?
      ensures PlainCaptures(t)
      ensures Touched(t) == {} ==> Captures(Resolved(t, env).value) == []
    {
      AllSetResolves(t, env);
      forall n | n in Captures(t)
        ensures PlainName(n)
      {
        CapturesAreNames(t, n);
      }
      if Touched(t) == {} {
        DollarFreeExpansion(t, env);
        UntouchedLeavesNothing(t, env);
      }
    }
    if PlainCaptures(t) && Touched(t) != {} {
      var m :| m in Touched(t);
      var env := StrayDollarLeavesPlaceholder(t, m);
    }
  }
}
