/** `route-explain`: a second implementation of rule matching that says why a rule
    did not match (src/main.rs), against the router's own matching.  The wording of
    reasons and suggestions is reduced to what they are about. */
module RouteExplain {
  import opened Wrappers
  import opened Text
  import opened Seqs
  import opened Matcher
  import opened Router

  datatype Reason =
    | PathMismatch
    | MethodMismatch
    | InvalidHeaderName(name: string)
    | HeaderValueMismatch(name: string)
    | HeaderMissing(name: string)

  function CodeOf(r: Reason): string {
    match r
    case PathMismatch => "PATH_MISMATCH"
    case MethodMismatch => "METHOD_MISMATCH"
    case InvalidHeaderName(_) => "RULE_HEADER_NAME_INVALID"
    case HeaderValueMismatch(_) => "HEADER_VALUE_MISMATCH"
    case HeaderMissing(_) => "HEADER_MISSING"
  }

  /** A suggestion carries its code and what it is about. */
  datatype Suggestion = Suggestion(code: string, about: Reason)

  datatype Diagnostic = Diagnostic(
    ruleId: string, pathOk: bool, methodOk: bool, headersOk: bool, reasons: seq<Reason>, suggestions: seq<Suggestion>)

  // ----- The explain tests, as coded -----

  predicate ExplainMethod(methods: Option<seq<string>>, name: string) {
    match methods
    case None => true
    case Some(ms) => exists k :: 0 <= k < |ms| && EqIgnoreAsciiCase(ms[k], name)
  }

  /** What is wrong with one required header. */
  function HeaderIssue(e: Engine, name: string, expected: string, headers: map<string, HeaderValue>): Option<Reason> {
    match e.headerName(name)
    case None => Some(InvalidHeaderName(name))
    case Some(n) =>
      if n in headers && headers[n].Readable? then
        if headers[n].text == expected then None else Some(HeaderValueMismatch(n))
      else Some(HeaderMissing(n))
  }

  predicate ExplainHeaders(e: Engine, required: Option<map<string, string>>, headers: map<string, HeaderValue>) {
    match required
    case None => true
    case Some(hs) => forall name :: name in hs ==> HeaderIssue(e, name, hs[name], headers).None?
  }

  /** `r` is what is wrong with one of the required headers named in `names`. */
  ghost predicate IsHeaderReason(e: Engine, required: map<string, string>, names: set<string>,
                                 headers: map<string, HeaderValue>, r: Reason)
  {
    exists name :: name in required && name in names && HeaderIssue(e, name, required[name], headers) == Some(r)
  }

  /** The required headers among `among` that have an issue, each once. */
  ghost predicate FailingHeaders(e: Engine, required: map<string, string>, among: set<string>,
                                 headers: map<string, HeaderValue>, names: seq<string>)
  {
    && Distinct(names)
    && forall name :: name in names <==>
         name in required && name in among && HeaderIssue(e, name, required[name], headers).Some?
  }

  /** What is wrong with the headers `names`, in that order. */
  ghost function Issues(e: Engine, required: map<string, string>, headers: map<string, HeaderValue>,
                        names: seq<string>): (r: seq<Reason>)
    requires forall name :: name in names ==> name in required && HeaderIssue(e, name, required[name], headers).Some?
  {
    seq(|names|, i requires 0 <= i < |names| =>
      assert names[i] in names; HeaderIssue(e, names[i], required[names[i]], headers).value)
  }

  /** Everything that is wrong with the request from the rule's point of view. */
  ghost predicate IsReason(e: Engine, rule: CompiledRoutingRule, req: Request, r: Reason) {
    || (r == PathMismatch && !rule.compiledPath.Matches(e, req.path))
    || (r == MethodMismatch && !ExplainMethod(rule.methods, req.method'))
    || (rule.headers.Some? && IsHeaderReason(e, rule.headers.value, rule.headers.value.Keys, req.headers, r))
  }

  function Suggest(r: Reason): Suggestion {
    Suggestion(CodeOf(r), r)
  }

  /** Each reason comes with its suggestion. */
  ghost predicate Paired(reasons: seq<Reason>, suggestions: seq<Suggestion>) {
    |reasons| == |suggestions| && forall i :: 0 <= i < |reasons| ==>
                                    suggestions[i].about == reasons[i] && suggestions[i].code == CodeOf(reasons[i])
  }

  method ExplainRuleMismatch(e: Engine, rule: CompiledRoutingRule, req: Request)
    returns (pathOk: bool, methodOk: bool, headersOk: bool, reasons: seq<Reason>, suggestions: seq<Suggestion>,
             ghost names: seq<string>)
    ensures pathOk == rule.compiledPath.Matches(e, req.path)
    ensures methodOk == ExplainMethod(rule.methods, req.method')
    ensures headersOk == ExplainHeaders(e, rule.headers, req.headers)
    ensures Paired(reasons, suggestions)
    ensures forall r :: r in reasons <==> IsReason(e, rule, req, r)
    ensures reasons == [] <==> pathOk && methodOk && headersOk
    ensures rule.headers.Some? ==> FailingHeaders(e, rule.headers.value, rule.headers.value.Keys, req.headers, names)
    ensures reasons == (if pathOk then [] else [PathMismatch]) + (if methodOk then [] else [MethodMismatch])
                       + (if rule.headers.Some? then Issues(e, rule.headers.value, req.headers, names) else [])
  {
    hide HeaderIssue, IsHeaderReason, Distinct, ExplainHeaders, ExplainMethod;
    NoHeadersAccepted(e, req.headers);
    reasons, suggestions, names := [], [], [];
    pathOk := rule.compiledPath.Matches(e, req.path);
    if !pathOk {
      reasons, suggestions := reasons + [PathMismatch], suggestions + [Suggest(PathMismatch)];
    }
    methodOk := ExplainMethod(rule.methods, req.method');
    if !methodOk {
      reasons, suggestions := reasons + [MethodMismatch], suggestions + [Suggest(MethodMismatch)];
    }
    headersOk := true;
    if rule.headers.Some? {
      headersOk, reasons, suggestions, names :=
        ExplainRuleHeaders(e, rule.headers.value, req.headers, reasons, suggestions);
    }
  }

  lemma NoIssueYet(e: Engine, required: map<string, string>, headers: map<string, HeaderValue>)
    ensures forall r :: !IsHeaderReason(e, required, {}, headers, r)
  {
  }

  lemma NoHeadersAccepted(e: Engine, headers: map<string, HeaderValue>)
    ensures ExplainHeaders(e, None, headers)
  {
  }

  /** The loop over the required headers, in whatever order the map yields them. */
  method ExplainRuleHeaders(e: Engine, required: map<string, string>, headers: map<string, HeaderValue>,
                            reasons0: seq<Reason>, suggestions0: seq<Suggestion>)
    returns (ok: bool, reasons: seq<Reason>, suggestions: seq<Suggestion>, ghost names: seq<string>)
    requires Paired(reasons0, suggestions0)
    ensures FailingHeaders(e, required, required.Keys, headers, names)
    ensures reasons == reasons0 + Issues(e, required, headers, names)
    ensures ok == ExplainHeaders(e, Some(required), headers)
    ensures Paired(reasons, suggestions) && |reasons| >= |reasons0| && (ok <==> |reasons| == |reasons0|)
    ensures forall r :: r in reasons <==> r in reasons0 || IsHeaderReason(e, required, required.Keys, headers, r)
  {
    hide HeaderIssue, IsHeaderReason, CodeOf;
    NoIssueYet(e, required, headers);
    ok, reasons, suggestions, names := true, reasons0, suggestions0, [];
    var todo := required.Keys;
    assert required.Keys - todo == {};
    while todo != {}
      invariant FailingHeaders(e, required, required.Keys - todo, headers, names)
      invariant reasons == reasons0 + Issues(e, required, headers, names)
      invariant todo <= required.Keys && Paired(reasons, suggestions)
      invariant |reasons| >= |reasons0| && (ok <==> |reasons| == |reasons0|)
      invariant ok <==> forall name :: name in required && name !in todo ==>
                                         HeaderIssue(e, name, required[name], headers).None?
      invariant forall r :: r in reasons <==>
                              r in reasons0 || IsHeaderReason(e, required, required.Keys - todo, headers, r)
      decreases todo
    {
      var name :| name in todo;
      ghost var before := todo;
      match HeaderIssue(e, name, required[name], headers) {
        case Some(issue) =>
          reasons, suggestions := reasons + [issue], suggestions + [Suggest(issue)];
          ok := false;
          names := names + [name];
        case None =>
      }
      IssueStep(e, required, required.Keys - todo, headers, name);
      todo := todo - {name};
      assert required.Keys - todo == (required.Keys - before) + {name};
    }
    assert required.Keys - todo == required.Keys;
  }

  lemma IssueStep(e: Engine, required: map<string, string>, names: set<string>, headers: map<string, HeaderValue>,
                  name: string)
    requires name in required
    ensures forall r :: IsHeaderReason(e, required, names + {name}, headers, r)
                        <==> IsHeaderReason(e, required, names, headers, r)
                             || HeaderIssue(e, name, required[name], headers) == Some(r)
  {
  }

  // ----- Agreement with the router -----

  predicate ExplainAccepts(e: Engine, rule: CompiledRoutingRule, req: Request) {
    && rule.compiledPath.Matches(e, req.path)
    && ExplainMethod(rule.methods, req.method')
    && ExplainHeaders(e, rule.headers, req.headers)
  }

  /** Whatever explain accepts, the router matches. */
  lemma ExplainIsSound(e: Engine, rule: CompiledRoutingRule, req: Request)
    requires UnicodeUpper(e.upper) && ExplainAccepts(e, rule, req)
    ensures rule.Matches(e, req)
  {
    if rule.methods.Some? {
      var ms := rule.methods.value;
      var k :| 0 <= k < |ms| && EqIgnoreAsciiCase(ms[k], req.method');
      FoldImpliesUppercase(e.upper, ms[k], req.method');
    }
    if rule.headers.Some? {
      forall name | name in rule.headers.value
        ensures HeaderHolds(e, name, rule.headers.value[name], req.headers)
      {
        assert HeaderIssue(e, name, rule.headers.value[name], req.headers).None?;
      }
    }
  }

  /** The rule demands an empty value of a header that the request sends in an
      unreadable form: the router takes it for empty, explain for missing. */
  predicate EmptyAgainstOpaque(e: Engine, required: Option<map<string, string>>, headers: map<string, HeaderValue>) {
    required.Some? && (exists name ::
      && name in required.value && required.value[name] == "" && e.headerName(name).Some?
      && e.headerName(name).value in headers && headers[e.headerName(name).value].Opaque?)
  }

  /** The header tests differ in exactly that case. */
  lemma HeadersAgreeExactly(e: Engine, required: Option<map<string, string>>, headers: map<string, HeaderValue>)
    ensures ExplainHeaders(e, required, headers)
            <==> HeadersAdmit(e, required, headers) && !EmptyAgainstOpaque(e, required, headers)
  {
    if required.Some? {
      var hs := required.value;
      forall name | name in hs
        ensures HeaderIssue(e, name, hs[name], headers).None?
                <==> HeaderHolds(e, name, hs[name], headers)
                     && !(hs[name] == "" && e.headerName(name).value in headers
                          && headers[e.headerName(name).value].Opaque?)
      {
      }
    }
  }

  /** Every rule method whose Unicode upper-case form is ASCII has an ASCII
      spelling among the rule's methods. */
  predicate AsciiSpelled(up: char -> string, ms: seq<string>) {
    forall k :: 0 <= k < |ms| && IsAscii(ToUppercase(up, ms[k])) ==>
      exists j :: 0 <= j < |ms| && IsAscii(ms[j]) && AsciiUpper(ms[j]) == ToUppercase(up, ms[k])
  }

  /** The method tests agree on all ASCII methods if and only if no rule method has
      only a non-ASCII spelling of an ASCII method. */
  lemma MethodsAgreeExactly(e: Engine, ms: seq<string>)
    requires UnicodeUpper(e.upper)
    ensures AsciiSpelled(e.upper, ms)
            <==> forall name :: IsAscii(name) ==> (ExplainMethod(Some(ms), name) <==> MethodAdmits(e, Some(ms), name))
  {
    forall name | IsAscii(name)
      ensures ExplainMethod(Some(ms), name) ==> MethodAdmits(e, Some(ms), name)
      ensures AsciiSpelled(e.upper, ms) && MethodAdmits(e, Some(ms), name) ==> ExplainMethod(Some(ms), name)
    {
      MethodAgreement(e, ms, name);
    }
    if !AsciiSpelled(e.upper, ms) {
      var k :| 0 <= k < |ms| && IsAscii(ToUppercase(e.upper, ms[k]))
               && !exists j :: 0 <= j < |ms| && IsAscii(ms[j]) && AsciiUpper(ms[j]) == ToUppercase(e.upper, ms[k]);
      HiddenSpelling(e, ms, k);
    }
  }

  lemma MethodAgreement(e: Engine, ms: seq<string>, name: string)
    requires UnicodeUpper(e.upper) && IsAscii(name)
    ensures ExplainMethod(Some(ms), name) ==> MethodAdmits(e, Some(ms), name)
    ensures AsciiSpelled(e.upper, ms) && MethodAdmits(e, Some(ms), name) ==> ExplainMethod(Some(ms), name)
  {
    AsciiToUppercase(e.upper, name);
    if k :| 0 <= k < |ms| && EqIgnoreAsciiCase(ms[k], name) {
      FoldImpliesUppercase(e.upper, ms[k], name);
    }
    if AsciiSpelled(e.upper, ms) && MethodAdmits(e, Some(ms), name) {
      var k :| 0 <= k < |ms| && ToUppercase(e.upper, ms[k]) == ToUppercase(e.upper, name);
      UpperIsAscii(name);
    }
  }

  lemma UpperIsAscii(s: string)
    ensures IsAscii(AsciiUpper(s)) <==> IsAscii(s)
  {
    assert forall i :: 0 <= i < |s| ==> (AsciiUpper(s)[i] as int < 128 <==> s[i] as int < 128);
  }

  /** Such a method is a witness: the router admits its ASCII form, explain does not. */
  lemma HiddenSpelling(e: Engine, ms: seq<string>, k: nat)
    requires UnicodeUpper(e.upper) && k < |ms| && IsAscii(ToUppercase(e.upper, ms[k]))
    requires !exists j :: 0 <= j < |ms| && IsAscii(ms[j]) && AsciiUpper(ms[j]) == ToUppercase(e.upper, ms[k])
    ensures var name := ToUppercase(e.upper, ms[k]);
            IsAscii(name) && MethodAdmits(e, Some(ms), name) && !ExplainMethod(Some(ms), name)
  {
    var name := ToUppercase(e.upper, ms[k]);
    UppercaseIsUpper(e.upper, ms[k]);
    AsciiToUppercase(e.upper, name);
    forall j | 0 <= j < |ms|
      ensures !EqIgnoreAsciiCase(ms[j], name)
    {
      UpperIsAscii(ms[j]);
    }
  }

  /** Explain and the router agree on a request with an ASCII method and readable
      header values, for rules whose methods have ASCII spellings. */
  lemma ExplainAgrees(e: Engine, rule: CompiledRoutingRule, req: Request)
    requires UnicodeUpper(e.upper) && IsAscii(req.method')
    requires rule.methods.Some? ==> AsciiSpelled(e.upper, rule.methods.value)
    requires forall n :: n in req.headers ==> req.headers[n].Readable?
    ensures ExplainAccepts(e, rule, req) <==> rule.Matches(e, req)
  {
    HeadersAgreeExactly(e, rule.headers, req.headers);
    if rule.methods.Some? {
      MethodAgreement(e, rule.methods.value, req.method');
    }
  }

  // ----- Explaining a request that nothing matches -----

  /** The suggestions of all diagnostics, in order. */
  function AllSuggestions(ds: seq<Diagnostic>): seq<Suggestion> {
    if ds == [] then [] else AllSuggestions(ds[..|ds| - 1]) + ds[|ds| - 1].suggestions
  }

  function Codes(ss: seq<Suggestion>): set<string> {
    if ss == [] then {} else Codes(ss[..|ss| - 1]) + {ss[|ss| - 1].code}
  }

  lemma CodesPush(ss: seq<Suggestion>, s: Suggestion)
    ensures Codes(ss + [s]) == Codes(ss) + {s.code}
  {
    assert (ss + [s])[..|ss + [s]| - 1] == ss;
  }

  /** `out` is the subsequence of `all` at the positions `at`, each holding a code
      that no earlier position holds. */
  ghost predicate FirstsAt(all: seq<Suggestion>, out: seq<Suggestion>, at: seq<nat>) {
    && |at| == |out|
    && (forall i :: 0 <= i < |at| ==> at[i] < |all| && out[i] == all[at[i]] && out[i].code !in Codes(all[..at[i]]))
    && (forall i, j :: 0 <= i < j < |at| ==> at[i] < at[j])
  }

  /** `out` keeps, in order, exactly the first suggestion of each code of `all`. */
  ghost predicate FirstOfEachCode(all: seq<Suggestion>, out: seq<Suggestion>, at: seq<nat>) {
    FirstsAt(all, out, at) && Codes(out) == Codes(all)
  }

  lemma {:induction false} CodesExact(ss: seq<Suggestion>, code: string)
    ensures code in Codes(ss) <==> exists k :: 0 <= k < |ss| && ss[k].code == code
  {
    if ss != [] {
      var n := |ss| - 1;
      CodesExact(ss[..n], code);
      assert forall k :: 0 <= k < n ==> ss[..n][k] == ss[k];
      if k :| 0 <= k < |ss| && ss[k].code == code {
        assert k < n ==> ss[..n][k].code == code;
      }
    }
  }

  /** A required header is absent, or sent in a form that cannot be read. */
  predicate NotReadable(e: Engine, name: string, headers: map<string, HeaderValue>) {
    match e.headerName(name)
    case None => false
    case Some(n) => n !in headers || headers[n].Opaque?
  }

  /** A required header is sent, with another value. */
  predicate OtherValue(e: Engine, name: string, expected: string, headers: map<string, HeaderValue>) {
    match e.headerName(name)
    case None => false
    case Some(n) => n in headers && headers[n].Readable? && headers[n].text != expected
  }

  /** Which failure leads to which code: the path, the method, and for the headers an
      invalid name, an unreadable or absent value, another value. */
  lemma CodesExplain(e: Engine, rule: CompiledRoutingRule, req: Request, reasons: seq<Reason>,
                     suggestions: seq<Suggestion>)
    requires Paired(reasons, suggestions) && forall r :: r in reasons <==> IsReason(e, rule, req, r)
    ensures "PATH_MISMATCH" in Codes(suggestions) <==> !rule.compiledPath.Matches(e, req.path)
    ensures "METHOD_MISMATCH" in Codes(suggestions) <==> !ExplainMethod(rule.methods, req.method')
    ensures "RULE_HEADER_NAME_INVALID" in Codes(suggestions) <==>
              rule.headers.Some? && exists name :: name in rule.headers.value && e.headerName(name).None?
    ensures "HEADER_MISSING" in Codes(suggestions) <==>
              rule.headers.Some? && exists name :: name in rule.headers.value && NotReadable(e, name, req.headers)
    ensures "HEADER_VALUE_MISMATCH" in Codes(suggestions) <==>
              rule.headers.Some? && exists name :: name in rule.headers.value
                                                   && OtherValue(e, name, rule.headers.value[name], req.headers)
  {
    hide Codes, ExplainMethod, IsReason, HeaderCode, CodeOf;
    CodeNames();
    HeaderCodes(e, rule, req);
    CodeReasons(e, rule, req, reasons, suggestions, "PATH_MISMATCH");
    CodeReasons(e, rule, req, reasons, suggestions, "METHOD_MISMATCH");
    CodeReasons(e, rule, req, reasons, suggestions, "RULE_HEADER_NAME_INVALID");
    CodeReasons(e, rule, req, reasons, suggestions, "HEADER_MISSING");
    CodeReasons(e, rule, req, reasons, suggestions, "HEADER_VALUE_MISMATCH");
  }

  lemma CodeReasons(e: Engine, rule: CompiledRoutingRule, req: Request, reasons: seq<Reason>,
                    suggestions: seq<Suggestion>, code: string)
    requires Paired(reasons, suggestions) && forall r :: r in reasons <==> IsReason(e, rule, req, r)
    ensures code in Codes(suggestions)
            <==> || (code == CodeOf(PathMismatch) && !rule.compiledPath.Matches(e, req.path))
                 || (code == CodeOf(MethodMismatch) && !ExplainMethod(rule.methods, req.method'))
                 || HeaderCode(e, rule, req, code)
  {
    hide Codes, ExplainMethod, IsReason, HeaderCode, CodeOf, Paired;
    CodeMeans(reasons, suggestions, code);
    ReasonCode(e, rule, req, code);
  }

  lemma CodeMeans(reasons: seq<Reason>, suggestions: seq<Suggestion>, code: string)
    requires Paired(reasons, suggestions)
    ensures code in Codes(suggestions) <==> exists r :: r in reasons && CodeOf(r) == code
  {
    hide Codes, CodeOf;
    CodesExact(suggestions, code);
    if k :| 0 <= k < |suggestions| && suggestions[k].code == code {
      assert reasons[k] in reasons;
    }
    if r :| r in reasons && CodeOf(r) == code {
      var k :| 0 <= k < |reasons| && reasons[k] == r;
      assert suggestions[k].code == code;
    }
  }

  /** What is wrong with one required header, by code. */
  lemma IssueCodes(e: Engine, name: string, expected: string, headers: map<string, HeaderValue>)
    ensures match HeaderIssue(e, name, expected, headers)
            case None =>
              e.headerName(name).Some? && !NotReadable(e, name, headers) && !OtherValue(e, name, expected, headers)
            case Some(r) =>
              && (CodeOf(r) == "RULE_HEADER_NAME_INVALID" <==> e.headerName(name).None?)
              && (CodeOf(r) == "HEADER_MISSING" <==> NotReadable(e, name, headers))
              && (CodeOf(r) == "HEADER_VALUE_MISMATCH" <==> OtherValue(e, name, expected, headers))
              && CodeOf(r) != "PATH_MISMATCH" && CodeOf(r) != "METHOD_MISMATCH"
  {
  }

  /** One of the required headers has an issue of the given code. */
  ghost predicate HeaderCode(e: Engine, rule: CompiledRoutingRule, req: Request, code: string) {
    rule.headers.Some? && (exists name ::
      && name in rule.headers.value
      && HeaderIssue(e, name, rule.headers.value[name], req.headers).Some?
      && CodeOf(HeaderIssue(e, name, rule.headers.value[name], req.headers).value) == code)
  }

  lemma ReasonCode(e: Engine, rule: CompiledRoutingRule, req: Request, code: string)
    ensures (exists r :: IsReason(e, rule, req, r) && CodeOf(r) == code)
            <==> || (code == CodeOf(PathMismatch) && !rule.compiledPath.Matches(e, req.path))
                 || (code == CodeOf(MethodMismatch) && !ExplainMethod(rule.methods, req.method'))
                 || HeaderCode(e, rule, req, code)
  {
    hide ExplainMethod, HeaderIssue, CodeOf;
    if code == CodeOf(PathMismatch) && !rule.compiledPath.Matches(e, req.path) {
      assert IsReason(e, rule, req, PathMismatch);
    } else if code == CodeOf(MethodMismatch) && !ExplainMethod(rule.methods, req.method') {
      assert IsReason(e, rule, req, MethodMismatch);
    } else if HeaderCode(e, rule, req, code) {
      var name :| name in rule.headers.value
        && HeaderIssue(e, name, rule.headers.value[name], req.headers).Some?
        && CodeOf(HeaderIssue(e, name, rule.headers.value[name], req.headers).value) == code;
      assert IsReason(e, rule, req, HeaderIssue(e, name, rule.headers.value[name], req.headers).value);
    }
  }

  lemma HeaderCodes(e: Engine, rule: CompiledRoutingRule, req: Request)
    ensures !HeaderCode(e, rule, req, "PATH_MISMATCH") && !HeaderCode(e, rule, req, "METHOD_MISMATCH")
    ensures HeaderCode(e, rule, req, "RULE_HEADER_NAME_INVALID") <==>
              rule.headers.Some? && exists name :: name in rule.headers.value && e.headerName(name).None?
    ensures HeaderCode(e, rule, req, "HEADER_MISSING") <==>
              rule.headers.Some? && exists name :: name in rule.headers.value && NotReadable(e, name, req.headers)
    ensures HeaderCode(e, rule, req, "HEADER_VALUE_MISMATCH") <==>
              rule.headers.Some? && exists name :: name in rule.headers.value
                                                   && OtherValue(e, name, rule.headers.value[name], req.headers)
  {
    hide HeaderIssue, CodeOf, NotReadable, OtherValue;
    if rule.headers.Some? {
      forall name | name in rule.headers.value
        ensures var issue := HeaderIssue(e, name, rule.headers.value[name], req.headers);
                if issue.None? then
                  e.headerName(name).Some? && !NotReadable(e, name, req.headers)
                  && !OtherValue(e, name, rule.headers.value[name], req.headers)
                else
                  && (CodeOf(issue.value) == "RULE_HEADER_NAME_INVALID" <==> e.headerName(name).None?)
                  && (CodeOf(issue.value) == "HEADER_MISSING" <==> NotReadable(e, name, req.headers))
                  && (CodeOf(issue.value) == "HEADER_VALUE_MISMATCH"
                      <==> OtherValue(e, name, rule.headers.value[name], req.headers))
                  && CodeOf(issue.value) != "PATH_MISMATCH" && CodeOf(issue.value) != "METHOD_MISMATCH"
      {
        IssueCodes(e, name, rule.headers.value[name], req.headers);
      }
    }
  }

  lemma CodeNames()
    ensures CodeOf(PathMismatch) == "PATH_MISMATCH" && CodeOf(MethodMismatch) == "METHOD_MISMATCH"
  {
  }

  lemma OutlineSkip(all: seq<Suggestion>, out: seq<Suggestion>, at: seq<nat>, s: Suggestion)
    requires FirstOfEachCode(all, out, at) && s.code in Codes(out)
    ensures FirstOfEachCode(all + [s], out, at)
  {
    hide Codes;
    CodesPush(all, s);
    assert forall n :: 0 <= n <= |all| ==> (all + [s])[..n] == all[..n];
  }

  lemma OutlineKeep(all: seq<Suggestion>, out: seq<Suggestion>, at: seq<nat>, s: Suggestion)
    requires FirstOfEachCode(all, out, at) && s.code !in Codes(out)
    ensures FirstOfEachCode(all + [s], out + [s], at + [|all|])
    ensures Codes(out + [s]) == Codes(out) + {s.code}
  {
    hide Codes;
    CodesPush(all, s);
    CodesPush(out, s);
    assert forall n :: 0 <= n <= |all| ==> (all + [s])[..n] == all[..n];
    assert all[..|all|] == all;
  }

  method MergeRemediationOutline(diagnostics: seq<Diagnostic>) returns (out: seq<Suggestion>, ghost at: seq<nat>)
    ensures FirstOfEachCode(AllSuggestions(diagnostics), out, at)
  {
    hide FirstOfEachCode;
    out, at := [], [];
    var seen: set<string> := {};
    NoSuggestions();
    for k := 0 to |diagnostics|
      invariant FirstOfEachCode(AllSuggestions(diagnostics[..k]), out, at) && seen == Codes(out)
    {
      ghost var before := AllSuggestions(diagnostics[..k]);
      var suggestions := diagnostics[k].suggestions;
      assert diagnostics[..k + 1][..k] == diagnostics[..k];
      assert before + suggestions[..0] == before;
      for j := 0 to |suggestions|
        invariant FirstOfEachCode(before + suggestions[..j], out, at) && seen == Codes(out)
      {
        var s := suggestions[j];
        ghost var all := before + suggestions[..j];
        assert before + suggestions[..j + 1] == all + [s];
        if s.code in seen {
          OutlineSkip(all, out, at, s);
        } else {
          OutlineKeep(all, out, at, s);
          seen := seen + {s.code};
          out := out + [s];
          at := at + [|all|];
        }
      }
      assert suggestions[..|suggestions|] == suggestions;
    }
    assert diagnostics[..|diagnostics|] == diagnostics;
  }

  lemma NoSuggestions()
    ensures FirstOfEachCode(AllSuggestions([]), [], [])
  {
  }

  lemma {:induction false} CodesHold(ss: seq<Suggestion>, k: nat)
    requires k < |ss|
    ensures ss[k].code in Codes(ss)
  {
    if k < |ss| - 1 {
      CodesHold(ss[..|ss| - 1], k);
    }
  }

  /** Each code occurs once in the outline. */
  lemma OutlineCodesDistinct(all: seq<Suggestion>, out: seq<Suggestion>, at: seq<nat>, i: nat, j: nat)
    requires FirstOfEachCode(all, out, at) && i < j < |out|
    ensures out[i].code != out[j].code
  {
    hide Codes;
    assert at[i] < at[j] && all[..at[j]][at[i]] == out[i];
    CodesHold(all[..at[j]], at[i]);
  }

  /** The diagnostics for a request that no rule matches: each inspected rule is
      given a reason, and the outline keeps the first suggestion of each code. */
  method ExplainUnmatched(e: Engine, snapshot: RouterSnapshot, req: Request, verbose: bool)
    returns (diagnostics: seq<Diagnostic>, outline: seq<Suggestion>, ghost at: seq<nat>)
    requires UnicodeUpper(e.upper) && Resolved(e, snapshot, req).None?
    ensures |diagnostics| == if verbose || |snapshot.rules| < 5 then |snapshot.rules| else 5
    ensures forall k :: 0 <= k < |diagnostics| ==>
              && diagnostics[k].ruleId == snapshot.rules[k].id && diagnostics[k].reasons != []
              && Paired(diagnostics[k].reasons, diagnostics[k].suggestions)
              && forall r :: r in diagnostics[k].reasons <==> IsReason(e, snapshot.rules[k], req, r)
    ensures FirstOfEachCode(AllSuggestions(diagnostics), outline, at)
  {
    var limit := if verbose then |snapshot.rules| else 5;
    var inspected := if limit < |snapshot.rules| then limit else |snapshot.rules|;
    diagnostics := [];
    for k := 0 to inspected
      invariant |diagnostics| == k
      invariant forall i :: 0 <= i < k ==>
                  && diagnostics[i].ruleId == snapshot.rules[i].id && diagnostics[i].reasons != []
                  && Paired(diagnostics[i].reasons, diagnostics[i].suggestions)
                  && forall r :: r in diagnostics[i].reasons <==> IsReason(e, snapshot.rules[i], req, r)
    {
      hide IsReason, Paired, ExplainHeaders, ExplainMethod, HeadersAdmit, MethodAdmits;
      var rule := snapshot.rules[k];
      var pathOk, methodOk, headersOk, reasons, suggestions, names := ExplainRuleMismatch(e, rule, req);
      if pathOk && methodOk && headersOk {
        ExplainIsSound(e, rule, req);
        assert false;
      }
      diagnostics := diagnostics + [Diagnostic(rule.id, pathOk, methodOk, headersOk, reasons, suggestions)];
    }
    outline, at := MergeRemediationOutline(diagnostics);
  }

  /** The long s (U+017F) has the upper-case form S: the router takes a rule method
      spelled with it for an ASCII one, explain does not. */
  lemma LongSDisagrees(e: Engine)
    requires UnicodeUpper(e.upper) && e.upper('\U{017F}') == "S"
    ensures var ms := ["\U{017F}"];
            !AsciiSpelled(e.upper, ms) && MethodAdmits(e, Some(ms), "S") && !ExplainMethod(Some(ms), "S")
  {
    var ms := ["\U{017F}"];
    assert ms[0][0] == '\U{017F}' && ms[0][1..] == "";
    assert ToUppercase(e.upper, "") == "";
    assert ToUppercase(e.upper, ms[0]) == "S" + "" == "S";
    AsciiToUppercase(e.upper, "S");
    assert AsciiUpper("S") == "S" && AsciiUpper(ms[0])[0] == '\U{017F}';
    assert !IsAscii(ms[0]);
  }
}
