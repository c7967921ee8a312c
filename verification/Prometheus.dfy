/** The Prometheus text rendering of the proxy counters (src/server/metrics.rs):
    label escaping is invertible, and the rendered text determines the counters. */
module Prometheus {
  import opened Wrappers
  import opened Text
  import opened Seqs

  datatype MetricsSnapshot = MetricsSnapshot(routeHits: map<string, nat>, failureReasons: map<string, nat>)

  // ----- Escaping -----

  function EscapeLabelValue(input: string): string {
    ReplaceAll(ReplaceAll(ReplaceAll(input, "\\", "\\\\"), "\"", "\\\""), "\n", "\\n")
  }

  function EscapeChar(c: char): string {
    if c == '\\' then "\\\\" else if c == '"' then "\\\"" else if c == '\n' then "\\n" else [c]
  }

  function EscapeEach(s: string): string {
    if s == "" then "" else EscapeChar(s[0]) + EscapeEach(s[1..])
  }

  lemma NothingToReplace(c: char, rep: string)
    ensures ReplaceAll("", [c], rep) == ""
  {
  }

  lemma ReplaceFirstChar(s: string, c: char, rep: string)
    requires s != ""
    ensures ReplaceAll(s, [c], rep) == (if s[0] == c then rep else [s[0]]) + ReplaceAll(s[1..], [c], rep)
  {
    assert [c] <= s <==> s[0] == c;
  }

  /** Replacing one character works piece by piece. */
  lemma {:induction false} ReplaceCharAppend(a: string, b: string, c: char, rep: string)
    ensures ReplaceAll(a + b, [c], rep) == ReplaceAll(a, [c], rep) + ReplaceAll(b, [c], rep)
  {
    hide ReplaceAll;
    if a == "" {
      NothingToReplace(c, rep);
      assert a + b == b;
    } else {
      ReplaceCharAppend(a[1..], b, c, rep);
      ReplaceFirstChar(a, c, rep);
      ReplaceFirstChar(a + b, c, rep);
      assert (a + b)[1..] == a[1..] + b;
      Associate(if a[0] == c then rep else [a[0]], ReplaceAll(a[1..], [c], rep), ReplaceAll(b, [c], rep));
    }
  }

  lemma ReplaceOneChar(d: char, c: char, rep: string)
    ensures ReplaceAll([d], [c], rep) == if d == c then rep else [d]
  {
    assert [d][1..] == "";
    if d == c {
      assert [c] <= [d] && [d][|[c]|..] == "";
    } else {
      assert [c][0] != [d][0];
    }
  }

  lemma EscapeHead(d: char)
    ensures EscapeLabelValue([d]) == EscapeChar(d)
  {
    hide ReplaceAll;
    var first := if d == '\\' then "\\\\" else [d];
    ReplaceOneChar(d, '\\', "\\\\");
    if d == '\\' {
      var bs := "\\";
      assert "\\\\" == bs + bs && bs == ['\\'];
      ReplaceCharAppend(bs, bs, '"', "\\\"");
      ReplaceOneChar('\\', '"', "\\\"");
      ReplaceCharAppend(bs, bs, '\n', "\\n");
      ReplaceOneChar('\\', '\n', "\\n");
    } else if d == '"' {
      ReplaceOneChar(d, '"', "\\\"");
      assert "\\\"" == ['\\'] + ['"'];
      ReplaceCharAppend(['\\'], ['"'], '\n', "\\n");
      ReplaceOneChar('\\', '\n', "\\n");
      ReplaceOneChar('"', '\n', "\\n");
    } else {
      ReplaceOneChar(d, '"', "\\\"");
      ReplaceOneChar(d, '\n', "\\n");
    }
  }

  /** The three sequential replacements are one pass over the characters. */
  lemma {:induction false} EscapeIsOnePass(s: string)
    ensures EscapeLabelValue(s) == EscapeEach(s)
  {
    if s == "" {
    } else {
      hide ReplaceAll;
      var d, t := [s[0]], s[1..];
      EscapeIsOnePass(t);
      EscapeHead(s[0]);
      assert s == d + t;
      ReplaceCharAppend(d, t, '\\', "\\\\");
      var d1, t1 := ReplaceAll(d, "\\", "\\\\"), ReplaceAll(t, "\\", "\\\\");
      ReplaceCharAppend(d1, t1, '"', "\\\"");
      ReplaceCharAppend(ReplaceAll(d1, "\"", "\\\""), ReplaceAll(t1, "\"", "\\\""), '\n', "\\n");
    }
  }

  /** Reads an escaped label value up to its closing quote: the value and what
      follows the quote. */
  function ReadLabel(s: string): Option<(string, string)> {
    if s == "" then None
    else if s[0] == '"' then Some(("", s[1..]))
    else if s[0] == '\\' then
      if |s| < 2 then None
      else match ReadLabel(s[2..])
        case None => None
        case Some((v, rest)) => Some(([if s[1] == 'n' then '\n' else s[1]] + v, rest))
    else match ReadLabel(s[1..])
      case None => None
      case Some((v, rest)) => Some(([s[0]] + v, rest))
  }

  /** Reading inverts escaping and stops at the quote that was written after the
      value: no quote inside it is left unescaped. */
  lemma {:induction false} ReadInvertsEscape(v: string, rest: string)
    ensures ReadLabel(EscapeLabelValue(v) + ("\"" + rest)) == Some((v, rest))
  {
    EscapeIsOnePass(v);
    ReadInvertsEscapeEach(v, rest);
  }

  lemma ReadStep(c: char, more: string, v: string, rest: string)
    requires ReadLabel(more) == Some((v, rest))
    ensures ReadLabel(EscapeChar(c) + more) == Some(([c] + v, rest))
  {
    if |EscapeChar(c)| == 2 {
      assert (EscapeChar(c) + more)[2..] == more;
    } else {
      assert (EscapeChar(c) + more)[1..] == more;
    }
  }

  lemma ReadClosingQuote(rest: string)
    ensures ReadLabel(EscapeEach("") + ("\"" + rest)) == Some(("", rest))
  {
    var tail := "\"" + rest;
    assert EscapeEach("") + tail == tail && tail[1..] == rest;
  }

  lemma {:induction false} ReadInvertsEscapeEach(v: string, rest: string)
    ensures ReadLabel(EscapeEach(v) + ("\"" + rest)) == Some((v, rest))
  {
    hide ReadLabel, EscapeChar;
    if v == "" {
      ReadClosingQuote(rest);
    } else {
      ReadInvertsEscapeEach(v[1..], rest);
      ReadStep(v[0], EscapeEach(v[1..]) + ("\"" + rest), v[1..], rest);
      Associate(EscapeChar(v[0]), EscapeEach(v[1..]), "\"" + rest);
      assert v == [v[0]] + v[1..];
    }
  }

  lemma {:induction false} EscapedHasNoNewline(s: string)
    ensures '\n' !in EscapeEach(s)
  {
    if s != "" {
      EscapedHasNoNewline(s[1..]);
    }
  }

  // ----- Key order -----

  /** The order of `Ord for String`: by characters, shorter first. */
  predicate StrLess(a: string, b: string) {
    b != "" && (a == "" || a[0] < b[0] || (a[0] == b[0] && StrLess(a[1..], b[1..])))
  }

  /** `a` stops where `b` goes on, or has the smaller character where they first differ. */
  ghost predicate ComesFirst(a: string, b: string) {
    exists k :: 0 <= k <= |a| && k < |b| && a[..k] == b[..k] && (k == |a| || a[k] < b[k])
  }

  lemma {:induction false} LessIsLexicographic(a: string, b: string)
    ensures StrLess(a, b) <==> ComesFirst(a, b)
  {
    if b != "" && (a == "" || a[0] < b[0]) {
      assert a[..0] == b[..0];
    } else if a != "" && b != "" && a[0] == b[0] {
      LessIsLexicographic(a[1..], b[1..]);
      if k :| 0 <= k <= |a[1..]| && k < |b[1..]| && a[1..][..k] == b[1..][..k]
              && (k == |a[1..]| || a[1..][k] < b[1..][k]) {
        assert a[..k + 1] == [a[0]] + a[1..][..k] && b[..k + 1] == [b[0]] + b[1..][..k];
      }
      if k :| 0 <= k <= |a| && k < |b| && a[..k] == b[..k] && (k == |a| || a[k] < b[k]) {
        assert k > 0;
        assert a[1..][..k - 1] == a[..k][1..] == b[..k][1..] == b[1..][..k - 1];
      }
    } else if a != "" && b != "" {
      assert forall k :: 0 < k <= |a| && k < |b| && a[..k] == b[..k] ==> a[..k][0] == b[..k][0];
    }
  }

  /** Keys are rendered in lexicographic order. */
  lemma {:induction false} AscendingMeans(keys: seq<string>, i: nat, j: nat)
    requires Ascending(keys) && i < j < |keys|
    ensures ComesFirst(keys[i], keys[j])
  {
    if i == 0 {
      BelowEach(keys[0], keys[1..], keys[j]);
      LessIsLexicographic(keys[i], keys[j]);
    } else {
      AscendingMeans(keys[1..], i - 1, j - 1);
    }
  }

  lemma {:induction false} LessAsymmetric(a: string, b: string)
    requires StrLess(a, b)
    ensures !StrLess(b, a)
  {
    if a != "" && a[0] == b[0] {
      LessAsymmetric(a[1..], b[1..]);
    }
  }

  lemma {:induction false} LessTotal(a: string, b: string)
    ensures StrLess(a, b) || StrLess(b, a) || a == b
  {
    if a != "" && b != "" && a[0] == b[0] {
      LessTotal(a[1..], b[1..]);
      assert a == [a[0]] + a[1..] && b == [b[0]] + b[1..];
    }
  }

  lemma {:induction false} LessTransitive(a: string, b: string, c: string)
    requires StrLess(a, b) && StrLess(b, c)
    ensures StrLess(a, c)
  {
    if a != "" && a[0] == b[0] == c[0] {
      LessTransitive(a[1..], b[1..], c[1..]);
    }
  }

  predicate BelowAll(k: string, keys: seq<string>) {
    keys == [] || (StrLess(k, keys[0]) && BelowAll(k, keys[1..]))
  }

  /** Strictly ascending. */
  predicate Ascending(keys: seq<string>) {
    keys == [] || (BelowAll(keys[0], keys[1..]) && Ascending(keys[1..]))
  }

  function InsertKey(keys: seq<string>, k: string): seq<string> {
    if keys == [] || StrLess(k, keys[0]) then [k] + keys else [keys[0]] + InsertKey(keys[1..], k)
  }

  lemma {:induction false} BelowInserted(x: string, keys: seq<string>, k: string)
    requires BelowAll(x, keys) && StrLess(x, k)
    ensures BelowAll(x, InsertKey(keys, k))
  {
    if keys != [] && !StrLess(k, keys[0]) {
      BelowInserted(x, keys[1..], k);
    }
  }

  lemma {:induction false} BelowMore(x: string, y: string, keys: seq<string>)
    requires StrLess(x, y) && BelowAll(y, keys)
    ensures BelowAll(x, keys)
  {
    if keys != [] {
      LessTransitive(x, y, keys[0]);
      BelowMore(x, y, keys[1..]);
    }
  }

  lemma {:induction false} InsertKeepsAscending(keys: seq<string>, k: string)
    requires Ascending(keys) && k !in keys
    ensures Ascending(InsertKey(keys, k))
  {
    hide StrLess;
    if keys == [] {
    } else if StrLess(k, keys[0]) {
      BelowMore(k, keys[0], keys[1..]);
      assert ([k] + keys)[1..] == keys;
    } else {
      LessTotal(k, keys[0]);
      InsertKeepsAscending(keys[1..], k);
      BelowInserted(keys[0], keys[1..], k);
      assert ([keys[0]] + InsertKey(keys[1..], k))[1..] == InsertKey(keys[1..], k);
    }
  }

  lemma {:induction false} InsertHolds(keys: seq<string>, k: string, x: string)
    ensures x in InsertKey(keys, k) <==> x == k || x in keys
  {
    if keys != [] && !StrLess(k, keys[0]) {
      InsertHolds(keys[1..], k, x);
      assert x in keys <==> x == keys[0] || x in keys[1..];
    }
  }

  /** `keys` is the ascending list of the keys of `m`. */
  ghost predicate IsKeyOrder(keys: seq<string>, m: map<string, nat>) {
    Ascending(keys) && forall k :: k in keys <==> k in m
  }

  /** `keys().cloned().collect()` in whatever order the map yields, then `sort()`. */
  method SortedKeys(m: map<string, nat>) returns (keys: seq<string>)
    ensures IsKeyOrder(keys, m)
  {
    keys := [];
    var todo := m.Keys;
    while todo != {}
      invariant todo <= m.Keys && Ascending(keys)
      invariant forall k :: k in keys <==> k in m && k !in todo
      decreases todo
    {
      var k :| k in todo;
      InsertKeepsAscending(keys, k);
      forall x
        ensures x in InsertKey(keys, k) <==> x == k || x in keys
      {
        InsertHolds(keys, k, x);
      }
      keys := InsertKey(keys, k);
      todo := todo - {k};
    }
  }

  lemma {:induction false} BelowEach(x: string, keys: seq<string>, k: string)
    requires BelowAll(x, keys) && k in keys
    ensures StrLess(x, k)
  {
    if k != keys[0] {
      BelowEach(x, keys[1..], k);
    }
  }

  lemma NoMembers(b: seq<string>)
    requires forall k :: k !in b
    ensures b == []
  {
    if b != [] {
      HeadIsMember(b);
      assert false;
    }
  }

  lemma HeadIsMember(b: seq<string>)
    requires b != []
    ensures b[0] in b
  {
  }

  /** There is one ascending list of a set of keys. */
  lemma {:induction false} KeyOrderUnique(a: seq<string>, b: seq<string>)
    requires Ascending(a) && Ascending(b) && forall k :: k in a <==> k in b
    ensures a == b
  {
    hide StrLess;
    if a == [] {
      NoMembers(b);
    } else if b == [] {
      NoMembers(a);
    } else {
      SameHead(a, b);
      NotInTail(a);
      NotInTail(b);
      assert forall k :: k in a <==> k == a[0] || k in a[1..];
      assert forall k :: k in b <==> k == b[0] || k in b[1..];
      KeyOrderUnique(a[1..], b[1..]);
    }
  }

  lemma NotInTail(a: seq<string>)
    requires a != [] && Ascending(a)
    ensures a[0] !in a[1..]
  {
    if a[0] in a[1..] {
      BelowEach(a[0], a[1..], a[0]);
      LessAsymmetric(a[0], a[0]);
      assert false;
    }
  }

  lemma SameHead(a: seq<string>, b: seq<string>)
    requires a != [] && b != [] && Ascending(a) && Ascending(b) && forall k :: k in a <==> k in b
    ensures a[0] == b[0]
  {
    hide StrLess;
    assert a[0] in b && b[0] in a;
    if a[0] != b[0] {
      BelowEach(a[0], a[1..], b[0]);
      BelowEach(b[0], b[1..], a[0]);
      LessAsymmetric(a[0], b[0]);
      assert false;
    }
  }

  // ----- Rendering -----

  const HELP := "# HELP "
  const TYPE := "# TYPE "
  const HITS_HEADER :=
    HELP + "service_router_route_hits_total Total matched requests by route id.\n"
    + TYPE + "service_router_route_hits_total counter\n"
  const FAILURES_HEADER :=
    HELP + "service_router_failures_total Total proxy failures by reason code.\n"
    + TYPE + "service_router_failures_total counter\n"
  const HITS_PREFIX := "service_router_route_hits_total{route_id=\""
  const FAILURES_PREFIX := "service_router_failures_total{reason=\""

  function Line(prefix: string, name: string, value: nat): string {
    prefix + (EscapeLabelValue(name) + ("\"" + ("} " + (Decimal(value) + "\n"))))
  }

  function Lines(prefix: string, entries: seq<(string, nat)>): string {
    if entries == [] then ""
    else Lines(prefix, entries[..|entries| - 1]) + Line(prefix, entries[|entries| - 1].0, entries[|entries| - 1].1)
  }

  function Entries(keys: seq<string>, m: map<string, nat>): (es: seq<(string, nat)>)
    requires forall k :: k in keys ==> k in m
    ensures |es| == |keys| && forall i :: 0 <= i < |keys| ==> es[i] == (keys[i], m[keys[i]])
  {
    seq(|keys|, i requires 0 <= i < |keys| => (keys[i], m[keys[i]]))
  }

  /** `text` is the rendering of the snapshot. */
  ghost predicate IsRendering(text: string, s: MetricsSnapshot) {
    exists hits, reasons ::
      && IsKeyOrder(hits, s.routeHits) && IsKeyOrder(reasons, s.failureReasons)
      && text == Document(Entries(hits, s.routeHits), Entries(reasons, s.failureReasons))
  }

  function Document(hits: seq<(string, nat)>, failures: seq<(string, nat)>): string {
    HITS_HEADER + (Lines(HITS_PREFIX, hits) + (FAILURES_HEADER + Lines(FAILURES_PREFIX, failures)))
  }

  method RenderPrometheus(snapshot: MetricsSnapshot) returns (out: string)
    ensures IsRendering(out, snapshot)
  {
    hide Ascending, Lines;
    out := HITS_HEADER;
    var hitKeys := SortedKeys(snapshot.routeHits);
    out := AppendLines(out, HITS_PREFIX, hitKeys, snapshot.routeHits);
    out := out + FAILURES_HEADER;
    var reasonKeys := SortedKeys(snapshot.failureReasons);
    out := AppendLines(out, FAILURES_PREFIX, reasonKeys, snapshot.failureReasons);
    ghost var h, f := Lines(HITS_PREFIX, Entries(hitKeys, snapshot.routeHits)),
                      Lines(FAILURES_PREFIX, Entries(reasonKeys, snapshot.failureReasons));
    Associate(HITS_HEADER + h, FAILURES_HEADER, f);
    Associate(HITS_HEADER, h, FAILURES_HEADER + f);
  }

  /** One metric line per key, in the given order. */
  method AppendLines(out0: string, prefix: string, keys: seq<string>, m: map<string, nat>) returns (out: string)
    requires IsKeyOrder(keys, m)
    ensures out == out0 + Lines(prefix, Entries(keys, m))
  {
    hide Line, Ascending;
    out := out0;
    ghost var es := Entries(keys, m);
    for i := 0 to |keys|
      invariant out == out0 + Lines(prefix, es[..i])
    {
      assert keys[i] in keys;
      if keys[i] in m {
        out := out + Line(prefix, keys[i], m[keys[i]]);
      }
      assert es[..i + 1][..i] == es[..i];
    }
    assert es[..|keys|] == es;
  }

  // ----- The text shows the snapshot -----

  ghost predicate Contains(text: string, part: string) {
    exists a, b :: text == a + part + b
  }

  lemma ContainsMore(x: string, text: string, y: string, part: string)
    requires Contains(text, part)
    ensures Contains(x + text + y, part)
  {
    var a, b :| text == a + part + b;
    assert x + text + y == (x + a) + part + (b + y);
  }

  lemma {:induction false} LineIsShown(prefix: string, es: seq<(string, nat)>, i: nat)
    requires i < |es|
    ensures Contains(Lines(prefix, es), Line(prefix, es[i].0, es[i].1))
  {
    hide Line;
    var n := |es| - 1;
    var last := Line(prefix, es[n].0, es[n].1);
    if i < n {
      LineIsShown(prefix, es[..n], i);
      ContainsMore("", Lines(prefix, es[..n]), last, Line(prefix, es[i].0, es[i].1));
      assert "" + Lines(prefix, es[..n]) + last == Lines(prefix, es);
    } else {
      assert Lines(prefix, es) == Lines(prefix, es[..n]) + last + "";
    }
  }

  /** Every counter has its line, under the metric it belongs to. */
  lemma RenderingShowsCounters(text: string, s: MetricsSnapshot, key: string)
    requires IsRendering(text, s)
    ensures key in s.routeHits ==>
              Contains(text, "service_router_route_hits_total{route_id=\"" + EscapeLabelValue(key) + "\"} "
                             + Decimal(s.routeHits[key]) + "\n")
    ensures key in s.failureReasons ==>
              Contains(text, "service_router_failures_total{reason=\"" + EscapeLabelValue(key) + "\"} "
                             + Decimal(s.failureReasons[key]) + "\n")
  {
    hide Lines, EscapeLabelValue, Decimal, Ascending, Contains, Line, Document;
    var hits, reasons :|
      && IsKeyOrder(hits, s.routeHits) && IsKeyOrder(reasons, s.failureReasons)
      && text == Document(Entries(hits, s.routeHits), Entries(reasons, s.failureReasons));
    DocumentParts(Entries(hits, s.routeHits), Entries(reasons, s.failureReasons));
    if key in s.routeHits {
      EntryIsShown(HITS_HEADER, HITS_PREFIX, hits, s.routeHits, key,
                   FAILURES_HEADER + Lines(FAILURES_PREFIX, Entries(reasons, s.failureReasons)));
      LineText(HITS_PREFIX, key, s.routeHits[key]);
    }
    if key in s.failureReasons {
      EntryIsShown(HITS_HEADER + Lines(HITS_PREFIX, Entries(hits, s.routeHits)) + FAILURES_HEADER, FAILURES_PREFIX,
                   reasons, s.failureReasons, key, "");
      LineText(FAILURES_PREFIX, key, s.failureReasons[key]);
    }
  }

  lemma DocumentParts(hits: seq<(string, nat)>, failures: seq<(string, nat)>)
    ensures var (x, y) := (Lines(HITS_PREFIX, hits), Lines(FAILURES_PREFIX, failures));
            && Document(hits, failures) == HITS_HEADER + x + (FAILURES_HEADER + y)
            && Document(hits, failures) == HITS_HEADER + x + FAILURES_HEADER + y + ""
  {
    hide Lines;
  }

  lemma EntryIsShown(before: string, prefix: string, keys: seq<string>, m: map<string, nat>, key: string, after: string)
    requires IsKeyOrder(keys, m) && key in m
    ensures Contains(before + Lines(prefix, Entries(keys, m)) + after, Line(prefix, key, m[key]))
  {
    hide Lines, Line, Contains, Ascending;
    var i :| 0 <= i < |keys| && keys[i] == key;
    LineIsShown(prefix, Entries(keys, m), i);
    ContainsMore(before, Lines(prefix, Entries(keys, m)), after, Line(prefix, key, m[key]));
  }

  lemma LineText(prefix: string, name: string, value: nat)
    ensures Line(prefix, name, value)
            == prefix + EscapeLabelValue(name) + "\"} " + Decimal(value) + "\n"
  {
    hide EscapeLabelValue, Decimal;
    assert "\"} " == "\"" + "} ";
  }

  // ----- The text determines the snapshot -----

  lemma LineInjective(prefix: string, k: string, v: nat, x: string, l: string, w: nat, y: string)
    requires Line(prefix, k, v) + x == Line(prefix, l, w) + y
    ensures k == l && v == w && x == y
  {
    hide EscapeLabelValue, Decimal, ReadLabel;
    var kx, ly := "} " + (Decimal(v) + "\n") + x, "} " + (Decimal(w) + "\n") + y;
    var a, b := EscapeLabelValue(k) + ("\"" + kx), EscapeLabelValue(l) + ("\"" + ly);
    assert Line(prefix, k, v) + x == prefix + a;
    assert Line(prefix, l, w) + y == prefix + b;
    CancelPrefix(prefix, a, b);
    ReadInvertsEscape(k, kx);
    ReadInvertsEscape(l, ly);
    assert kx == "} " + (Decimal(v) + ("\n" + x)) && ly == "} " + (Decimal(w) + ("\n" + y));
    CancelPrefix("} ", Decimal(v) + ("\n" + x), Decimal(w) + ("\n" + y));
    DigitsThenOther(Decimal(v), Decimal(w), "\n" + x, "\n" + y);
    CancelPrefix("\n", x, y);
    DecimalRoundTrip(v);
    DecimalRoundTrip(w);
  }

  lemma NoLines(prefix: string)
    ensures Lines(prefix, []) == ""
  {
  }

  lemma LinesLast(prefix: string, entries: seq<(string, nat)>)
    requires entries != []
    ensures var n := |entries| - 1;
            Lines(prefix, entries) == Lines(prefix, entries[..n]) + Line(prefix, entries[n].0, entries[n].1)
  {
  }

  lemma {:induction false} LinesFront(prefix: string, entries: seq<(string, nat)>)
    requires entries != []
    ensures Lines(prefix, entries) == Line(prefix, entries[0].0, entries[0].1) + Lines(prefix, entries[1..])
  {
    hide Line, Lines;
    var n := |entries| - 1;
    if n == 0 {
      LinesLast(prefix, entries);
      NoLines(prefix);
      assert entries[..0] == [] && entries[1..] == [];
    } else {
      LinesFront(prefix, entries[..n]);
      LinesLast(prefix, entries);
      LinesLast(prefix, entries[1..]);
      assert entries[..n][1..] == entries[1..][..n - 1];
      assert entries[1..][n - 1] == entries[n];
    }
  }

  lemma StartsWith(prefix: string, entries: seq<(string, nat)>, x: string)
    requires entries != []
    ensures prefix <= Lines(prefix, entries) + x
  {
    hide EscapeLabelValue, Decimal, Lines;
    LinesFront(prefix, entries);
  }

  lemma {:induction false} LinesInjective(prefix: string, a: seq<(string, nat)>, x: string,
                                          b: seq<(string, nat)>, y: string)
    requires Lines(prefix, a) + x == Lines(prefix, b) + y
    requires !(prefix <= x) && !(prefix <= y)
    ensures a == b && x == y
  {
    assert Lines(prefix, []) + x == x && Lines(prefix, []) + y == y;
    if a == [] && b == [] {
    } else if b == [] {
      StartsWith(prefix, a, x);
      assert false;
    } else if a == [] {
      StartsWith(prefix, b, y);
      assert false;
    } else {
      LinesInjectiveStep(prefix, a, x, b, y);
      LinesInjective(prefix, a[1..], x, b[1..], y);
      assert a == [a[0]] + a[1..] && b == [b[0]] + b[1..];
    }
  }

  lemma LinesInjectiveStep(prefix: string, a: seq<(string, nat)>, x: string, b: seq<(string, nat)>, y: string)
    requires a != [] && b != [] && Lines(prefix, a) + x == Lines(prefix, b) + y
    ensures a[0] == b[0] && Lines(prefix, a[1..]) + x == Lines(prefix, b[1..]) + y
  {
    hide Line, Lines;
    LinesFront(prefix, a);
    LinesFront(prefix, b);
    var la, lb := Lines(prefix, a[1..]), Lines(prefix, b[1..]);
    var ha, hb := Line(prefix, a[0].0, a[0].1), Line(prefix, b[0].0, b[0].1);
    assert (ha + la) + x == ha + (la + x) && (hb + lb) + y == hb + (lb + y);
    LineInjective(prefix, a[0].0, a[0].1, la + x, b[0].0, b[0].1, lb + y);
  }

  /** A header cannot be taken for a metric line. */
  lemma FirstCharacters(rest: string)
    ensures !(HITS_PREFIX <= FAILURES_HEADER + rest)
  {
    assert FAILURES_HEADER[0] == HELP[0] == '#' && HITS_PREFIX[0] == 's';
  }

  lemma DocumentInjective(h1: seq<(string, nat)>, f1: seq<(string, nat)>,
                          h2: seq<(string, nat)>, f2: seq<(string, nat)>)
    requires Document(h1, f1) == Document(h2, f2)
    ensures h1 == h2 && f1 == f2
  {
    hide Lines;
    FirstCharacters(Lines(FAILURES_PREFIX, f1));
    FirstCharacters(Lines(FAILURES_PREFIX, f2));
    var x, y := FAILURES_HEADER + Lines(FAILURES_PREFIX, f1), FAILURES_HEADER + Lines(FAILURES_PREFIX, f2);
    CancelPrefix(HITS_HEADER, Lines(HITS_PREFIX, h1) + x, Lines(HITS_PREFIX, h2) + y);
    LinesInjective(HITS_PREFIX, h1, x, h2, y);
    CancelPrefix(FAILURES_HEADER, Lines(FAILURES_PREFIX, f1), Lines(FAILURES_PREFIX, f2));
    assert Lines(FAILURES_PREFIX, f1) + "" == Lines(FAILURES_PREFIX, f2) + "";
    LinesInjective(FAILURES_PREFIX, f1, "", f2, "");
  }

  lemma EntriesDetermineMap(a: seq<string>, m: map<string, nat>, b: seq<string>, n: map<string, nat>)
    requires IsKeyOrder(a, m) && IsKeyOrder(b, n) && Entries(a, m) == Entries(b, n)
    ensures m == n
  {
    hide Ascending;
    assert |a| == |b|;
    forall i | 0 <= i < |a|
      ensures a[i] == b[i] && m[a[i]] == n[b[i]]
    {
      assert a[i] in a && b[i] in b;
      assert Entries(a, m)[i] == Entries(b, n)[i];
    }
    assert a == b;
    forall k | k in m
      ensures k in n && m[k] == n[k]
    {
      assert k in a;
    }
    forall k | k in n
      ensures k in m
    {
      assert k in b;
    }
    assert m.Keys == n.Keys;
  }

  /** Two snapshots with the same rendering are the same. */
  lemma RenderingDeterminesSnapshot(text: string, s: MetricsSnapshot, t: MetricsSnapshot)
    requires IsRendering(text, s) && IsRendering(text, t)
    ensures s == t
  {
    hide Ascending, Document;
    var h1, f1 :| IsKeyOrder(h1, s.routeHits) && IsKeyOrder(f1, s.failureReasons)
                  && text == Document(Entries(h1, s.routeHits), Entries(f1, s.failureReasons));
    var h2, f2 :| IsKeyOrder(h2, t.routeHits) && IsKeyOrder(f2, t.failureReasons)
                  && text == Document(Entries(h2, t.routeHits), Entries(f2, t.failureReasons));
    DocumentInjective(Entries(h1, s.routeHits), Entries(f1, s.failureReasons),
                      Entries(h2, t.routeHits), Entries(f2, t.failureReasons));
    EntriesDetermineMap(h1, s.routeHits, h2, t.routeHits);
    EntriesDetermineMap(f1, s.failureReasons, f2, t.failureReasons);
  }

  /** A snapshot has one rendering, whatever order its maps are walked in. */
  lemma RenderingIsDeterministic(text: string, other: string, s: MetricsSnapshot)
    requires IsRendering(text, s) && IsRendering(other, s)
    ensures text == other
  {
    hide Document, Ascending;
    var h1, f1 :| IsKeyOrder(h1, s.routeHits) && IsKeyOrder(f1, s.failureReasons)
                  && text == Document(Entries(h1, s.routeHits), Entries(f1, s.failureReasons));
    var h2, f2 :| IsKeyOrder(h2, s.routeHits) && IsKeyOrder(f2, s.failureReasons)
                  && other == Document(Entries(h2, s.routeHits), Entries(f2, s.failureReasons));
    KeyOrderUnique(h1, h2);
    KeyOrderUnique(f1, f2);
  }
}
