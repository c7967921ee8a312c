/** Compiled routing rules and the matching of requests (src/routing/matcher.rs). */
module Matcher {
  import opened Wrappers
  import opened Errors
  import opened Text
  import opened ConfigModel

  /** The foreign libraries behind matching: glob and regex engines, the Unicode
      upper-case table, header-name parsing and the compilation of response
      headers.  `headerName` yields the canonical form of a valid name. */
  datatype Engine = Engine(
    globValid: string -> bool,
    globMatches: (string, string) -> bool,
    regexValid: string -> bool,
    regexMatches: (string, string) -> bool,
    upper: char -> string,
    headerName: string -> Option<string>,
    responseHeaders: (string, map<string, string>) -> Result<seq<(string, string)>, ConfigError>
  )

  datatype CompiledPath =
    | ExactPath(value: string)
    | PrefixPath(value: string)
    | GlobPath(value: string)
    | RegexPath(value: string)
  {
    predicate Matches(e: Engine, path: string) {
      match this
      case ExactPath(s) => s == path
      case PrefixPath(p) => p <= path
      case GlobPath(g) => e.globMatches(g, path)
      case RegexPath(r) => e.regexMatches(r, path)
    }
  }

  /** A request header value; `to_str` fails on an opaque one. */
  datatype HeaderValue = Readable(text: string) | Opaque

  /** `headers` gives the first value under each canonical name. */
  datatype Request = Request(path: string, method': string, headers: map<string, HeaderValue>)

  /** What `to_str` can yield: printable ASCII characters and tabs. */
  predicate Printable(s: string) {
    forall i :: 0 <= i < |s| ==> s[i] == '\t' || ' ' <= s[i] <= '~'
  }

  /** Requests as a header map can hold them. */
  predicate Genuine(req: Request) {
    forall n :: n in req.headers && req.headers[n].Readable? ==> Printable(req.headers[n].text)
  }

  /** `to_str().unwrap_or("")`. */
  function TextOrEmpty(v: HeaderValue): string {
    match v
    case Readable(t) => t
    case Opaque => ""
  }

  predicate MethodAdmits(e: Engine, methods: Option<seq<string>>, name: string) {
    match methods
    case None => true
    case Some(ms) => exists k :: 0 <= k < |ms| && ToUppercase(e.upper, ms[k]) == ToUppercase(e.upper, name)
  }

  predicate HeaderHolds(e: Engine, name: string, expected: string, headers: map<string, HeaderValue>) {
    match e.headerName(name)
    case None => false
    case Some(n) => n in headers && TextOrEmpty(headers[n]) == expected
  }

  predicate HeadersAdmit(e: Engine, required: Option<map<string, string>>, headers: map<string, HeaderValue>) {
    match required
    case None => true
    case Some(hs) => forall name :: name in hs ==> HeaderHolds(e, name, hs[name], headers)
  }

  predicate Admits(e: Engine, path: CompiledPath, methods: Option<seq<string>>,
                   headers: Option<map<string, string>>, req: Request)
  {
    && path.Matches(e, req.path)
    && MethodAdmits(e, methods, req.method')
    && HeadersAdmit(e, headers, req.headers)
  }

  datatype CompiledRoutingRule = CompiledRoutingRule(
    id: string,
    compiledPath: CompiledPath,
    methods: Option<seq<string>>,
    headers: Option<map<string, string>>,
    serviceId: Option<string>,
    upstreamUrl: Option<string>,
    stripPrefix: Option<string>,
    responseHeaders: Option<seq<(string, string)>>,
    priority: nat
  ) {
    predicate Matches(e: Engine, req: Request) {
      Admits(e, compiledPath, methods, headers, req)
    }
  }

  function CompilePath(path: PathMatcher): CompiledPath {
    match path
    case Exact(v) => ExactPath(v)
    case Prefix(v) => PrefixPath(v)
    case Glob(v) => GlobPath(v)
    case Regex(v) => RegexPath(v)
  }

  function CompileResponseHeaders(e: Engine, rule: RoutingRule): Result<Option<seq<(string, string)>>, ConfigError> {
    match rule.responseHeaders
    case None => Ok(None)
    case Some(m) =>
      if m == map[] then Ok(None)
      else match e.responseHeaders(rule.id, m)
        case Ok(pairs) => Ok(Some(pairs))
        case Err(x) => Err(x)
  }

  function Compile(e: Engine, rule: RoutingRule): Result<CompiledRoutingRule, ConfigError> {
    if rule.path.Glob? && !e.globValid(rule.path.value) then Err(InvalidGlob(rule.id, rule.path.value))
    else if rule.path.Regex? && !e.regexValid(rule.path.value) then Err(InvalidRegex(rule.id, rule.path.value))
    else match CompileResponseHeaders(e, rule)
      case Err(x) => Err(x)
      case Ok(responseHeaders) =>
        Ok(CompiledRoutingRule(rule.id, CompilePath(rule.path), rule.methods, rule.headers, rule.serviceId,
                               rule.upstreamUrl, rule.stripPrefix, responseHeaders, rule.priority))
  }

  /** Whether a rule of the configuration admits a request, compiled or not. */
  predicate RuleAdmits(e: Engine, rule: RoutingRule, req: Request) {
    Admits(e, CompilePath(rule.path), rule.methods, rule.headers, req)
  }

  // ----- What compilation keeps -----

  /** How a path pattern of the configuration is to be understood. */
  predicate PathAccepts(e: Engine, pattern: PathMatcher, path: string) {
    match pattern
    case Exact(v) => path == v
    case Prefix(v) => |v| <= |path| && path[..|v|] == v
    case Glob(v) => e.globMatches(v, path)
    case Regex(v) => e.regexMatches(v, path)
  }

  /** A compiled rule keeps all of its source but the response headers, which are
      dropped when there are none, and its path accepts what the pattern means. */
  lemma CompileKeeps(e: Engine, rule: RoutingRule, path: string)
    requires Compile(e, rule).Ok?
    ensures var c := Compile(e, rule).value;
            && c.id == rule.id && c.priority == rule.priority
            && c.methods == rule.methods && c.headers == rule.headers
            && c.serviceId == rule.serviceId && c.upstreamUrl == rule.upstreamUrl && c.stripPrefix == rule.stripPrefix
            && (c.compiledPath.Matches(e, path) <==> PathAccepts(e, rule.path, path))
            && (c.responseHeaders.None? <==> rule.responseHeaders.None? || rule.responseHeaders.value == map[])
            && (c.responseHeaders.Some? ==>
                  e.responseHeaders(rule.id, rule.responseHeaders.value) == Ok(c.responseHeaders.value))
  {
  }

  /** A rule fails to compile exactly when its glob or regex is invalid, or else its
      response headers are; a bad pattern is reported first. */
  lemma CompileFailsExactly(e: Engine, rule: RoutingRule)
    ensures Compile(e, rule).Err? <==>
              || (rule.path.Glob? && !e.globValid(rule.path.value))
              || (rule.path.Regex? && !e.regexValid(rule.path.value))
              || (rule.responseHeaders.Some? && rule.responseHeaders.value != map[]
                  && e.responseHeaders(rule.id, rule.responseHeaders.value).Err?)
    ensures rule.path.Glob? && !e.globValid(rule.path.value) ==>
              Compile(e, rule) == Err(InvalidGlob(rule.id, rule.path.value))
    ensures rule.path.Regex? && !e.regexValid(rule.path.value) ==>
              Compile(e, rule) == Err(InvalidRegex(rule.id, rule.path.value))
  {
  }
}
