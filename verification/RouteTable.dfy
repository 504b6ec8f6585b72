/**
 Loading route patterns and looking rules up (rules/parser.go). The configuration is given as
 its entries in the order in which the loading loop meets them; the source ranges over a map,
 so any order is possible. Rules themselves are left abstract.
 */
module RouteTable {
  import opened Options
  import opened Counting
  import opened Text
  import opened RegexFragment
  import opened RouteTemplates
  import StableSort

  datatype Route<R> = Route(template: string, methods: map<string, R>)

  datatype Pattern<R> = Pattern(template: string, items: seq<Item>, methods: map<string, R>)

  // ------------------------------------------------------------------------- specificity

  predicate IsWild(part: string) {
    part == "*" || (part != "" && part[0] == ':') || (part != "" && part[0] == '{' && part[|part| - 1] == '}')
  }

  function PartsScore(parts: seq<string>): int {
    if parts == [] then 0
    else PartsScore(parts[..|parts| - 1])
         + var p := parts[|parts| - 1]; if IsWild(p) then -1 else if p != "" then 10 else 0
  }

  /** Ten for every literal part, minus one for every parameter or wildcard. */
  function Score(template: string): int {
    PartsScore(Split(TrimPrefix(template, '/'), '/'))
  }

  /** The parts that are a parameter or the wildcard, and those that are literals. */
  ghost function WildParts(): string -> bool {
    (p: string) => p == "*" || exists k :: IsParam(p, k)
  }

  ghost function LiteralParts(): string -> bool {
    (p: string) => p != "" && p != "*" && forall k :: !IsParam(p, k)
  }

  lemma {:induction false} PartsScoreIsCounted(parts: seq<string>)
    ensures PartsScore(parts) == 10 * Tally(parts, LiteralParts()) - Tally(parts, WildParts())
  {
    if parts != [] {
      PartsScoreIsCounted(parts[..|parts| - 1]);
      ParamsAreWritten(parts[|parts| - 1]);
    }
  }

  /** For every template given by its parts: ten for every literal, minus one for every parameter or wildcard. */
  lemma {:induction false} ScoreIsCounted(parts: seq<string>)
    requires parts != [] && AllLack(parts, '/')
    ensures Score("/" + Join(parts, '/')) == 10 * Tally(parts, LiteralParts()) - Tally(parts, WildParts())
  {
    SplitOfJoin(parts, '/');
    PartsScoreIsCounted(parts);
    hide PartsScore, Split, Join, Tally;
    assert TrimPrefix("/" + Join(parts, '/'), '/') == Join(parts, '/');
  }

  method SpecificityScore(template: string) returns (score: int)
    ensures score == Score(template)
  {
    var parts := Split(TrimPrefix(template, '/'), '/');
    var literal, wild := 0, 0;
    for i := 0 to |parts|
      invariant literal * 10 - wild == PartsScore(parts[..i])
    {
      assert parts[..i + 1][..i] == parts[..i];
      if IsWild(parts[i]) {
        wild := wild + 1;
      } else if parts[i] != "" {
        literal := literal + 1;
      }
    }
    assert parts[..|parts|] == parts;
    score := literal * 10 - wild;
  }

  // ----------------------------------------------------------------------------- loading

  predicate Contains(s: string, c: char) {
    exists i :: 0 <= i < |s| && s[i] == c
  }

  predicate IsPattern(template: string) {
    Contains(template, ':') || Contains(template, '{') || Contains(template, '*')
  }

  /** A template is loaded as a pattern if a colon, an opening brace or a star stands in it, and only then. */
  lemma {:induction false} PatternsAreMarked(a: string, c: char, b: string)
    ensures c == ':' || c == '{' || c == '*' ==> IsPattern(a + [c] + b)
    ensures Lacks(a, ':') && Lacks(a, '{') && Lacks(a, '*') ==> !IsPattern(a)
  {
    assert (a + [c] + b)[|a|] == c;
  }

  function CompiledOf<R>(r: Route<R>): Option<Pattern<R>> {
    match Compile(RegexText(Segments(r.template)))
    case None => None
    case Some(items) => Some(Pattern(r.template, items, r.methods))
  }

  /** The compiled patterns of the configuration, or the template that does not compile. */
  function CompiledAll<R>(cfg: seq<Route<R>>): Result<seq<Pattern<R>>, string> {
    if cfg == [] then Ok([])
    else match CompiledAll(cfg[..|cfg| - 1])
      case Err(e) => Err(e)
      case Ok(done) =>
        var r := cfg[|cfg| - 1];
        if !IsPattern(r.template) then Ok(done)
        else match CompiledOf(r)
          case None => Err(r.template)
          case Some(p) => Ok(done + [p])
  }

  /** The sort puts the highest score first. */
  function Rank<R>(): Pattern<R> -> int {
    (p: Pattern<R>) => -Score(p.template)
  }

  method ParsePatterns<R>(cfg: seq<Route<R>>) returns (r: Result<seq<Pattern<R>>, string>)
    ensures r.Ok? <==> CompiledAll(cfg).Ok?
    ensures r.Err? ==> CompiledAll(cfg) == Err(r.error)
    ensures r.Ok? ==> r.value == StableSort.Sort(Rank(), CompiledAll(cfg).value)
  {
    var patterns: seq<Pattern<R>> := [];
    for i := 0 to |cfg|
      invariant CompiledAll(cfg[..i]) == Ok(patterns)
    {
      assert cfg[..i + 1][..i] == cfg[..i];
      var route := cfg[i];
      if IsPattern(route.template) {
        var text, keys := TemplateToRegex(route.template);
        var re := Compile(text);
        if re.None? {
          FirstErrorStays(cfg, i + 1);
          return Err(route.template);
        }
        patterns := patterns + [Pattern(route.template, re.value, route.methods)];
      }
    }
    assert cfg[..|cfg|] == cfg;
    return Ok(StableSort.Sort(Rank(), patterns));
  }

  lemma {:induction false} FirstErrorStays<R>(cfg: seq<Route<R>>, n: nat)
    requires n <= |cfg| && CompiledAll(cfg[..n]).Err?
    ensures CompiledAll(cfg) == CompiledAll(cfg[..n])
    decreases |cfg|
  {
    if n == |cfg| {
      assert cfg[..n] == cfg;
    } else {
      var init := cfg[..|cfg| - 1];
      assert init[..n] == cfg[..n];
      FirstErrorStays(init, n);
    }
  }

  // ---------------------------------------------------------------------------- looking up

  /** unicode.IsSpace, which strings.TrimSpace goes by. */
  predicate IsSpace(c: char) {
    || c == ' ' || '\t' <= c <= '\r' || c == '\U{85}' || c == '\U{A0}' || c == '\U{1680}' || '\U{2000}' <= c <= '\U{200A}'
    || c == '\U{2028}' || c == '\U{2029}' || c == '\U{202F}' || c == '\U{205F}' || c == '\U{3000}'
  }

  predicate NoBlanks(s: string) {
    forall i :: 0 <= i < |s| ==> !IsSpace(s[i])
  }

  function TrimLeft(s: string): string {
    if s != "" && IsSpace(s[0]) then TrimLeft(s[1..]) else s
  }

  function TrimRight(s: string): string {
    if s != "" && IsSpace(s[|s| - 1]) then TrimRight(s[..|s| - 1]) else s
  }

  /** A first segment such as v1 names a version. */
  predicate IsVersion(part: string) {
    |part| > 1 && part[0] == 'v' && '0' <= part[1] <= '9'
  }

  function NormalizePath(p: string): string {
    if p == "" then ""
    else
      var q := TrimRight(TrimLeft(CutQuery(p)));
      if q == "" then "/"
      else
        var r := if |q| > 1 then TrimSuffix(q, '/') else q;
        var parts := Split(TrimPrefix(r, '/'), '/');
        var t := if IsVersion(parts[0]) then "/" + Join(parts[1..], '/') else r;
        if t != "" && t[0] == '/' then t else "/" + t
  }

  /** Every normalized path starts with a slash. */
  lemma NormalizedStartsWithSlash(p: string)
    requires p != ""
    ensures NormalizePath(p) != "" && NormalizePath(p)[0] == '/'
  {
  }

  /** No part holds a separator, a question mark or a blank, and the last is not empty. */
  ghost predicate PlainParts(parts: seq<string>) {
    && parts != [] && parts[|parts| - 1] != "" && AllLack(parts, '/') && AllLack(parts, '?')
    && (forall i :: 0 <= i < |parts| ==> NoBlanks(parts[i]))
  }

  predicate AllBlank(s: string) {
    forall i :: 0 <= i < |s| ==> IsSpace(s[i])
  }

  lemma {:induction false} TrimsLeft(blank: string, s: string)
    requires AllBlank(blank)
    ensures TrimLeft(blank + s) == TrimLeft(s)
  {
    hide IsSpace;
    if blank == "" {
      assert blank + s == s;
    } else {
      TrimsLeft(blank[1..], s);
      assert (blank + s)[1..] == blank[1..] + s;
    }
  }

  lemma {:induction false} TrimsRight(s: string, blank: string)
    requires AllBlank(blank)
    ensures TrimRight(s + blank) == TrimRight(s)
  {
    hide IsSpace;
    if blank == "" {
      assert s + blank == s;
    } else {
      TrimsRight(s, blank[..|blank| - 1]);
      assert (s + blank)[..|s + blank| - 1] == s + blank[..|blank| - 1];
    }
  }

  function If(b: bool, s: string): string {
    if b then s else ""
  }

  /** A path of plain parts, with or without a slash before and after, and blanks around it. */
  lemma {:induction false} PlainIsTrimmed(parts: seq<string>, lead: bool, slash: bool)
    requires PlainParts(parts) && (lead || parts[0] != "")
    ensures var base := If(lead, "/") + Join(parts, '/');
            var s := base + If(slash, "/");
            && Lacks(s, '?') && TrimRight(s) == s && TrimLeft(s) == s && s != "" && TrimSuffix(s, '/') == base
            && (|s| == 1 ==> s == base) && (!lead ==> base[0] != '/')
  {
    JoinLacks(parts, '/', '?');
    JoinEnds(parts, '/');
    var last := parts[|parts| - 1];
    var c := last[|last| - 1];
    assert Lacks(last, '/') && NoBlanks(last) && Lacks(parts[0], '/') && NoBlanks(parts[0]);
    assert !IsSpace(c) && c != '/' && !IsSpace('/');
    assert parts[0] != "" ==> Join(parts, '/')[0] == parts[0][0];
    hide Join, IsSpace;
    var base := If(lead, "/") + Join(parts, '/');
    assert base[|base| - 1] == c;
    assert (base + "/")[..|base|] == base && base + "" == base;
  }

  lemma NormalizeSteps(p: string, s: string, lead: bool, parts: seq<string>)
    requires p != "" && TrimRight(TrimLeft(CutQuery(p))) == s != "" && parts != []
    requires TrimSuffix(s, '/') == If(lead, "/") + Join(parts, '/') && (|s| == 1 ==> s == TrimSuffix(s, '/'))
    requires !lead ==> Join(parts, '/') != "" && Join(parts, '/')[0] != '/'
    requires Split(Join(parts, '/'), '/') == parts
    ensures NormalizePath(p) == "/" + Join(if IsVersion(parts[0]) then parts[1..] else parts, '/')
  {
    hide CutQuery, TrimLeft, TrimRight, TrimSuffix, Split, Join, IsVersion;
    assert TrimPrefix(If(lead, "/") + Join(parts, '/'), '/') == Join(parts, '/');
  }

  /**
   Blanks around the path, the query, a leading slash, one trailing slash and a leading segment
   that is a v and a digit make no difference to the lookup.
   */
  lemma {:induction false} NormalizeMeaning(
    parts: seq<string>, before: string, lead: bool, slash: bool, after: string, query: Option<string>)
    requires PlainParts(parts) && (lead || parts[0] != "") && AllBlank(before) && AllBlank(after)
    ensures var v := |parts[0]| > 1 && parts[0][0] == 'v' && '0' <= parts[0][1] <= '9';
            NormalizePath(before + (If(lead, "/") + Join(parts, '/') + If(slash, "/")) + after
                          + (if query.Some? then "?" + query.value else ""))
            == "/" + Join(if v then parts[1..] else parts, '/')
  {
    var s := If(lead, "/") + Join(parts, '/') + If(slash, "/");
    var q := if query.Some? then "?" + query.value else "";
    assert Lacks(before, '?') && Lacks(after, '?');
    PlainIsTrimmed(parts, lead, slash);
    assert Lacks(before + s + after, '?');
    SplitOfJoin(parts, '/');
    hide Join, TrimLeft, TrimRight, Split, CutQuery, IsSpace, NormalizePath, Lacks, TrimSuffix;
    CutQueryStops(before + s + after, q);
    assert before + s + after == before + (s + after);
    TrimsLeft(before, s + after);
    TrimsLeftOnly(s, after);
    TrimsRight(s, after);
    NormalizeSteps(before + s + after + q, s, lead, parts);
  }

  lemma TrimsLeftOnly(s: string, after: string)
    requires s != "" && TrimLeft(s) == s
    ensures TrimLeft(s + after) == s + after
  {
    if IsSpace(s[0]) {
      TrimLeftShrinks(s[1..]);
    }
  }

  lemma {:induction false} TrimLeftShrinks(s: string)
    ensures |TrimLeft(s)| <= |s|
  {
    if s != "" {
      TrimLeftShrinks(s[1..]);
    }
  }

  function ParamMap(caps: seq<Capture>): map<string, string> {
    if caps == [] then map[] else ParamMap(caps[..|caps| - 1])[caps[|caps| - 1].name := caps[|caps| - 1].text]
  }

  datatype Found<R> = Found(rule: R, params: map<string, string>)

  /** The pattern answers the request: its expression matches and it has a rule for the method. */
  predicate Answers<R>(p: Pattern<R>, path: string, verb: string) {
    Find(p.items, path).Some? && verb in p.methods
  }

  function AnswerOf<R>(p: Pattern<R>, path: string, verb: string): Found<R>
    requires Answers(p, path, verb)
  {
    Found(p.methods[verb], ParamMap(Find(p.items, path).value))
  }

  /** The first pattern that answers. */
  function FirstAnswer<R>(patterns: seq<Pattern<R>>, path: string, verb: string): (first: Option<nat>)
    ensures first.Some? ==> first.value < |patterns| && Answers(patterns[first.value], path, verb)
  {
    if patterns == [] then None
    else if Answers(patterns[0], path, verb) then Some(0)
    else match FirstAnswer(patterns[1..], path, verb)
      case None => None
      case Some(i) => Some(i + 1)
  }

  /** `rules` is None until a configuration has been loaded. */
  method GetRule<R>(
    rules: Option<map<string, map<string, R>>>, patterns: seq<Pattern<R>>, key: string, verb: string)
    returns (found: Option<Found<R>>)
    ensures key == "" || verb == "" || rules.None? ==> found.None?
    ensures key != "" && verb != "" && rules.Some? ==>
              var path := NormalizePath(key);
              if path in rules.value && verb in rules.value[path]
              then found == Some(Found(rules.value[path][verb], map[]))
              else match FirstAnswer(patterns, path, verb)
                   case None => found.None? && forall i :: 0 <= i < |patterns| ==> !Answers(patterns[i], path, verb)
                   case Some(i) =>
                     && i < |patterns| && Answers(patterns[i], path, verb)
                     && found == Some(Found(patterns[i].methods[verb], ParamMap(Find(patterns[i].items, path).value)))
                     && forall j :: 0 <= j < i ==> !Answers(patterns[j], path, verb)
  {
    if key == "" || verb == "" || rules.None? {
      return None;
    }
    var path := NormalizePath(key);
    FirstAnswerIsFirst(patterns, path, verb);
    hide NormalizePath, FirstAnswer, Find, ParamMap;
    if path in rules.value {
      if verb in rules.value[path] {
        return Some(Found(rules.value[path][verb], map[]));
      }
    }
    var first := ScanPatterns(patterns, path, verb);
    if first.Some? {
      var p := patterns[first.value];
      return Some(Found(p.methods[verb], ParamMap(Find(p.items, path).value)));
    }
    return None;
  }

  /** The loop over the patterns: the first whose expression matches and which has the method. */
  method ScanPatterns<R>(patterns: seq<Pattern<R>>, path: string, verb: string) returns (first: Option<nat>)
    ensures first == FirstAnswer(patterns, path, verb)
    ensures first.Some? ==>
              first.value < |patterns| && Find(patterns[first.value].items, path).Some? && verb in patterns[first.value].methods
  {
    FirstAnswerIsFirst(patterns, path, verb);
    hide FirstAnswer, Find;
    for i := 0 to |patterns|
      invariant forall j :: 0 <= j < i ==> !Answers(patterns[j], path, verb)
    {
      var matches := Find(patterns[i].items, path);
      if matches.Some? && verb in patterns[i].methods {
        assert Answers(patterns[i], path, verb);
        return Some(i);
      }
    }
    return None;
  }

  lemma {:induction false} FirstAnswerIsFirst<R>(patterns: seq<Pattern<R>>, path: string, verb: string)
    ensures match FirstAnswer(patterns, path, verb)
            case None => forall i :: 0 <= i < |patterns| ==> !Answers(patterns[i], path, verb)
            case Some(i) =>
              i < |patterns| && Answers(patterns[i], path, verb)
              && forall j :: 0 <= j < i ==> !Answers(patterns[j], path, verb)
  {
    hide Answers;
    if patterns != [] {
      FirstAnswerIsFirst(patterns[1..], path, verb);
    }
  }

  // ------------------------------------------------------------------- which rule is found

  lemma {:induction false} EveryPatternCompiled<R>(cfg: seq<Route<R>>, n: nat)
    requires CompiledAll(cfg).Ok? && n < |cfg| && IsPattern(cfg[n].template)
    ensures CompiledOf(cfg[n]).Some? && CompiledOf(cfg[n]).value in CompiledAll(cfg).value
    decreases |cfg|
  {
    if n < |cfg| - 1 {
      EveryPatternCompiled(cfg[..|cfg| - 1], n);
    }
  }

  lemma {:induction false} OnlyPatternsCompiled<R>(cfg: seq<Route<R>>, p: Pattern<R>)
    requires CompiledAll(cfg).Ok? && p in CompiledAll(cfg).value
    ensures exists n :: 0 <= n < |cfg| && IsPattern(cfg[n].template) && CompiledOf(cfg[n]) == Some(p)
    decreases |cfg|
  {
    var init := cfg[..|cfg| - 1];
    if p in CompiledAll(init).value {
      OnlyPatternsCompiled(init, p);
      var n :| 0 <= n < |init| && IsPattern(init[n].template) && CompiledOf(init[n]) == Some(p);
      assert cfg[n] == init[n];
    } else {
      assert CompiledOf(cfg[|cfg| - 1]) == Some(p);
    }
  }

  /** The configured route matches the path and has a rule for the method. */
  predicate RouteAnswers<R>(r: Route<R>, path: string, verb: string) {
    IsPattern(r.template) && CompiledOf(r).Some? && Answers(CompiledOf(r).value, path, verb)
  }

  /** A pattern that answers comes from a route that does. */
  lemma {:induction false} AnswerComesFromRoute<R>(cfg: seq<Route<R>>, path: string, verb: string, p: Pattern<R>)
    requires CompiledAll(cfg).Ok? && p in StableSort.Sort(Rank(), CompiledAll(cfg).value) && Answers(p, path, verb)
    ensures exists k :: 0 <= k < |cfg| && RouteAnswers(cfg[k], path, verb) && CompiledOf(cfg[k]) == Some(p)
  {
    var compiled := CompiledAll(cfg).value;
    StableSort.SortIsStable(Rank<R>(), compiled);
    hide CompiledAll, Answers, CompiledOf, StableSort.Sort, IsPattern;
    assert p in multiset(compiled);
    OnlyPatternsCompiled(cfg, p);
    var k :| 0 <= k < |cfg| && IsPattern(cfg[k].template) && CompiledOf(cfg[k]) == Some(p);
    assert RouteAnswers(cfg[k], path, verb);
  }

  /** A route that answers has its pattern in the table, and the first answer ranks no lower. */
  lemma {:induction false} RouteReached<R>(cfg: seq<Route<R>>, path: string, verb: string, n: nat)
    requires CompiledAll(cfg).Ok? && n < |cfg| && RouteAnswers(cfg[n], path, verb)
    ensures var patterns := StableSort.Sort(Rank(), CompiledAll(cfg).value);
            var first := FirstAnswer(patterns, path, verb);
            first.Some? && first.value < |patterns| && Score(patterns[first.value].template) >= Score(cfg[n].template)
  {
    var compiled := CompiledAll(cfg).value;
    var patterns := StableSort.Sort(Rank(), compiled);
    EveryPatternCompiled(cfg, n);
    StableSort.SortIsStable(Rank<R>(), compiled);
    FirstAnswerIsFirst(patterns, path, verb);
    var p := CompiledOf(cfg[n]).value;
    hide CompiledAll, Answers, CompiledOf, StableSort.Sort, FirstAnswer, Score;
    assert p in multiset(patterns);
    var j :| 0 <= j < |patterns| && patterns[j] == p;
    var i := FirstAnswer(patterns, path, verb).value;
    assert Rank<R>()(patterns[i]) <= Rank<R>()(patterns[j]);
  }

  /**
   Whatever the order in which a configuration is loaded: a path is answered by a pattern
   exactly when some route matches it and has the method, and then by such a route whose
   specificity no other one exceeds.
   */
  lemma {:induction false} MostSpecificRouteWins<R>(cfg: seq<Route<R>>, path: string, verb: string)
    requires CompiledAll(cfg).Ok?
    ensures var patterns := StableSort.Sort(Rank(), CompiledAll(cfg).value);
            match FirstAnswer(patterns, path, verb)
            case None => forall n :: 0 <= n < |cfg| ==> !RouteAnswers(cfg[n], path, verb)
            case Some(i) =>
              && i < |patterns|
              && (exists k :: 0 <= k < |cfg| && RouteAnswers(cfg[k], path, verb) && CompiledOf(cfg[k]) == Some(patterns[i]))
              && (forall n :: 0 <= n < |cfg| && RouteAnswers(cfg[n], path, verb) ==>
                    Score(cfg[n].template) <= Score(patterns[i].template))
  {
    var patterns := StableSort.Sort(Rank(), CompiledAll(cfg).value);
    FirstAnswerIsFirst(patterns, path, verb);
    hide CompiledAll, Answers, CompiledOf, StableSort.Sort, FirstAnswer, Score, RouteAnswers;
    forall n | 0 <= n < |cfg| && RouteAnswers(cfg[n], path, verb)
      ensures var first := FirstAnswer(patterns, path, verb);
              first.Some? && first.value < |patterns| && Score(cfg[n].template) <= Score(patterns[first.value].template)
    {
      RouteReached(cfg, path, verb, n);
    }
    if FirstAnswer(patterns, path, verb).Some? {
      AnswerComesFromRoute(cfg, path, verb, patterns[FirstAnswer(patterns, path, verb).value]);
    }
  }

  // ------------------------------------------------------------------- routes that tie

  /** What a loaded configuration answers from its patterns. */
  function Lookup<R>(cfg: seq<Route<R>>, path: string, verb: string): Option<Found<R>>
    requires CompiledAll(cfg).Ok?
  {
    var patterns := StableSort.Sort(Rank(), CompiledAll(cfg).value);
    match FirstAnswer(patterns, path, verb)
    case None => None
    case Some(i) => Some(AnswerOf(patterns[i], path, verb))
  }

  function RouteAnswer<R>(r: Route<R>, path: string, verb: string): Found<R>
    requires RouteAnswers(r, path, verb)
  {
    AnswerOf(CompiledOf(r).value, path, verb)
  }

  /** The route answers, and no route of the configuration that answers scores higher. */
  ghost predicate Top<R>(cfg: seq<Route<R>>, path: string, verb: string, r: Route<R>) {
    && r in cfg && RouteAnswers(r, path, verb)
    && forall k :: 0 <= k < |cfg| && RouteAnswers(cfg[k], path, verb) ==> Score(cfg[k].template) <= Score(r.template)
  }

  lemma CompiledKeepsTemplate<R>(r: Route<R>)
    ensures CompiledOf(r).Some? ==> CompiledOf(r).value.template == r.template
  {
  }

  /** The answer is that of a top route; there is none exactly when no route answers. */
  lemma {:induction false} LookupIsTop<R(!new)>(cfg: seq<Route<R>>, path: string, verb: string)
    requires CompiledAll(cfg).Ok?
    ensures Lookup(cfg, path, verb) == None <==> forall k :: 0 <= k < |cfg| ==> !RouteAnswers(cfg[k], path, verb)
    ensures Lookup(cfg, path, verb) != None ==>
              exists r :: Top(cfg, path, verb, r) && Lookup(cfg, path, verb) == Some(RouteAnswer(r, path, verb))
  {
    MostSpecificRouteWins(cfg, path, verb);
    var patterns := StableSort.Sort(Rank(), CompiledAll(cfg).value);
    hide CompiledAll, Answers, CompiledOf, StableSort.Sort, FirstAnswer, Score, RouteAnswers;
    var first := FirstAnswer(patterns, path, verb);
    if first.Some? {
      var k :| 0 <= k < |cfg| && RouteAnswers(cfg[k], path, verb) && CompiledOf(cfg[k]) == Some(patterns[first.value]);
      CompiledKeepsTemplate(cfg[k]);
      assert Top(cfg, path, verb, cfg[k]);
    }
  }

  /** Loading succeeds exactly when every pattern compiles, whatever the order. */
  lemma {:induction false} LoadsExactly<R>(cfg: seq<Route<R>>)
    ensures CompiledAll(cfg).Ok? <==> forall r :: r in cfg && IsPattern(r.template) ==> CompiledOf(r).Some?
  {
    hide CompiledOf, IsPattern;
    if cfg != [] {
      var init, last := cfg[..|cfg| - 1], cfg[|cfg| - 1];
      LoadsExactly(init);
      assert forall r :: r in cfg <==> r in init || r == last;
    }
  }

  /** The pattern of the route that is loaded first comes first. */
  lemma {:induction false} CompiledFirst<R>(r: Route<R>, rest: seq<Route<R>>)
    requires CompiledAll([r] + rest).Ok? && IsPattern(r.template)
    ensures CompiledAll(rest).Ok? && CompiledOf(r).Some?
    ensures CompiledAll([r] + rest).value == [CompiledOf(r).value] + CompiledAll(rest).value
  {
    hide CompiledOf, IsPattern;
    var all := [r] + rest;
    if rest == [] {
      assert all[..0] == [];
    } else {
      assert all[..|all| - 1] == [r] + rest[..|rest| - 1] && all[|all| - 1] == rest[|rest| - 1];
      CompiledFirst(r, rest[..|rest| - 1]);
    }
  }

  /** None of the patterns that answer ranks before p. */
  ghost predicate NoneBefore<R>(p: Pattern<R>, s: seq<Pattern<R>>, path: string, verb: string) {
    forall k :: 0 <= k < |s| && Answers(s[k], path, verb) ==> Rank<R>()(p) <= Rank<R>()(s[k])
  }

  /** A pattern that answers, inserted among patterns of which none that answers ranks before it. */
  lemma {:induction false} InsertedAnswersFirst<R>(p: Pattern<R>, s: seq<Pattern<R>>, path: string, verb: string)
    requires Answers(p, path, verb) && NoneBefore(p, s, path, verb)
    ensures var t := StableSort.Insert(Rank(), p, s);
            var first := FirstAnswer(t, path, verb);
            first.Some? && t[first.value] == p
  {
    var t := StableSort.Insert(Rank(), p, s);
    hide Answers, Rank;
    if s != [] && Rank<R>()(p) > Rank<R>()(s[0]) {
      assert !Answers(s[0], path, verb);
      InsertedAnswersFirst(p, s[1..], path, verb);
      assert t == [s[0]] + StableSort.Insert(Rank(), p, s[1..]);
      assert t[1..] == StableSort.Insert(Rank(), p, s[1..]);
    } else {
      assert t == [p] + s;
    }
  }

  /** A top route that is loaded first gives the answer. */
  lemma {:induction false} FirstLoadedWins<R>(r: Route<R>, rest: seq<Route<R>>, path: string, verb: string)
    requires CompiledAll([r] + rest).Ok? && Top([r] + rest, path, verb, r)
    ensures Lookup([r] + rest, path, verb) == Some(RouteAnswer(r, path, verb))
  {
    CompiledFirst(r, rest);
    var compiled := CompiledAll(rest).value;
    var p, sorted := CompiledOf(r).value, StableSort.Sort(Rank(), compiled);
    assert ([p] + compiled)[0] == p && ([p] + compiled)[1..] == compiled;
    assert StableSort.Sort(Rank(), [p] + compiled) == StableSort.Insert(Rank(), p, sorted);
    assert Answers(p, path, verb);
    hide CompiledAll, Answers, CompiledOf, StableSort.Sort, StableSort.Insert, FirstAnswer, Rank, RouteAnswers, Top, NoneBefore;
    NoneRanksBefore(r, rest, path, verb);
    InsertedAnswersFirst(p, sorted, path, verb);
  }

  /** Among the other patterns that answer, none ranks before that of a top route. */
  lemma {:induction false} NoneRanksBefore<R>(r: Route<R>, rest: seq<Route<R>>, path: string, verb: string)
    requires CompiledAll(rest).Ok? && CompiledOf(r).Some? && Top([r] + rest, path, verb, r)
    ensures NoneBefore(CompiledOf(r).value, StableSort.Sort(Rank(), CompiledAll(rest).value), path, verb)
  {
    var sorted := StableSort.Sort(Rank(), CompiledAll(rest).value);
    CompiledKeepsTemplate(r);
    hide CompiledAll, Answers, CompiledOf, StableSort.Sort, Score, RouteAnswers;
    forall i | 0 <= i < |sorted| && Answers(sorted[i], path, verb)
      ensures Rank<R>()(CompiledOf(r).value) <= Rank<R>()(sorted[i])
    {
      AnswerComesFromRoute(rest, path, verb, sorted[i]);
      var k :| 0 <= k < |rest| && RouteAnswers(rest[k], path, verb) && CompiledOf(rest[k]) == Some(sorted[i]);
      CompiledKeepsTemplate(rest[k]);
      assert ([r] + rest)[k + 1] == rest[k];
    }
  }

  /** Every loading order of the configuration gives the same answer. */
  ghost predicate OrderIrrelevant<R(!new)>(cfg: seq<Route<R>>, path: string, verb: string)
    requires CompiledAll(cfg).Ok?
  {
    forall other: seq<Route<R>> :: multiset(other) == multiset(cfg) ==>
      CompiledAll(other).Ok? && Lookup(other, path, verb) == Lookup(cfg, path, verb)
  }

  ghost predicate TopsAgree<R(!new)>(cfg: seq<Route<R>>, path: string, verb: string) {
    forall a, b :: Top(cfg, path, verb, a) && Top(cfg, path, verb, b) ==>
      RouteAnswer(a, path, verb) == RouteAnswer(b, path, verb)
  }

  lemma Reordered<R>(cfg: seq<Route<R>>, other: seq<Route<R>>, path: string, verb: string)
    requires multiset(other) == multiset(cfg) && CompiledAll(cfg).Ok?
    ensures CompiledAll(other).Ok?
    ensures forall r :: Top(other, path, verb, r) ==> Top(cfg, path, verb, r)
    ensures forall r :: Top(cfg, path, verb, r) ==> Top(other, path, verb, r)
  {
    hide CompiledAll, IsPattern, CompiledOf, RouteAnswers, Score;
    assert forall r :: r in cfg <==> r in multiset(cfg);
    assert forall r :: r in other <==> r in multiset(other);
    LoadsExactly(cfg);
    LoadsExactly(other);
    assert forall k :: 0 <= k < |cfg| ==> cfg[k] in other;
    assert forall k :: 0 <= k < |other| ==> other[k] in cfg;
  }

  /** A route can be loaded first, and is then the answer if it is a top route. */
  lemma TopCanWin<R>(cfg: seq<Route<R>>, path: string, verb: string, r: Route<R>) returns (other: seq<Route<R>>)
    requires CompiledAll(cfg).Ok? && Top(cfg, path, verb, r)
    ensures multiset(other) == multiset(cfg) && CompiledAll(other).Ok?
    ensures Lookup(other, path, verb) == Some(RouteAnswer(r, path, verb))
  {
    hide CompiledAll, RouteAnswers, Lookup, RouteAnswer, Score;
    var k :| 0 <= k < |cfg| && cfg[k] == r;
    var rest := cfg[..k] + cfg[k + 1..];
    other := [r] + rest;
    assert cfg == cfg[..k] + [r] + cfg[k + 1..];
    Reordered(cfg, other, path, verb);
    FirstLoadedWins(r, rest, path, verb);
  }

  /**
   The source loads routes in the order of a Go map, which is any order. The answer from the
   patterns is the same for every order if and only if all top-scoring routes that answer give
   the same answer.
   */
  lemma {:induction false} OrderMattersExactlyOnTies<R(!new)>(cfg: seq<Route<R>>, path: string, verb: string)
    requires CompiledAll(cfg).Ok?
    ensures OrderIrrelevant(cfg, path, verb) <==> TopsAgree(cfg, path, verb)
  {
    hide CompiledAll, RouteAnswers, Lookup, RouteAnswer, Score;
    LookupIsTop(cfg, path, verb);
    if TopsAgree(cfg, path, verb) {
      forall other: seq<Route<R>> | multiset(other) == multiset(cfg)
        ensures CompiledAll(other).Ok? && Lookup(other, path, verb) == Lookup(cfg, path, verb)
      {
        Reordered(cfg, other, path, verb);
        LookupIsTop(other, path, verb);
      }
    }
    if OrderIrrelevant(cfg, path, verb) {
      forall a, b | Top(cfg, path, verb, a) && Top(cfg, path, verb, b)
        ensures RouteAnswer(a, path, verb) == RouteAnswer(b, path, verb)
      {
        var first := TopCanWin(cfg, path, verb, a);
        var second := TopCanWin(cfg, path, verb, b);
      }
    }
  }

  // -------------------------------------------------------------------- literals count most

  ghost predicate NonEmptyParts(template: string, parts: seq<string>) {
    && parts != [] && AllLack(parts, '/') && template == "/" + Join(parts, '/')
    && forall i :: 0 <= i < |parts| ==> parts[i] != ""
  }

  lemma {:induction false} EveryPartCounts(parts: seq<string>)
    requires forall i :: 0 <= i < |parts| ==> parts[i] != ""
    ensures Tally(parts, LiteralParts()) + Tally(parts, WildParts()) == |parts|
  {
    if parts != [] {
      EveryPartCounts(parts[..|parts| - 1]);
    }
  }

  /**
   A route that wins has at least as many literals as any other route that answers and has equally
   many segments.
   */
  lemma {:induction false} MostLiteralsWin<R>(
    cfg: seq<Route<R>>, path: string, verb: string, r: Route<R>, other: Route<R>, parts: seq<string>, others: seq<string>)
    requires Top(cfg, path, verb, r) && other in cfg && RouteAnswers(other, path, verb)
    requires NonEmptyParts(r.template, parts) && NonEmptyParts(other.template, others) && |parts| == |others|
    ensures Tally(parts, LiteralParts()) >= Tally(others, LiteralParts())
  {
    EveryPartCounts(parts);
    EveryPartCounts(others);
    ScoreIsCounted(parts);
    ScoreIsCounted(others);
    hide Score, Tally, RouteAnswers;
  }

  // ----------------------------------------------------------------------- parameter values

  /** A capture counts unless a later one has its name. */
  lemma {:induction false} ParamMapFirst(c: Capture, caps: seq<Capture>)
    ensures ParamMap([c] + caps) == map[c.name := c.text] + ParamMap(caps)
  {
    var all := [c] + caps;
    if caps == [] {
      assert all[..0] == [];
    } else {
      ParamMapFirst(c, caps[..|caps| - 1]);
      assert all[..|all| - 1] == [c] + caps[..|caps| - 1];
    }
  }

  /** What the segments report when they stand for the given values. */
  function Params(segs: seq<Segment>, values: seq<string>): map<string, string>
    requires |segs| == |values|
  {
    ParamMap(Captures(segs, values))
  }

  lemma {:induction false} ParamsFirst(segs: seq<Segment>, values: seq<string>)
    requires |segs| == |values| && segs != []
    ensures Params(segs, values)
            == (if segs[0].Param? then map[segs[0].key := values[0]] else map[]) + Params(segs[1..], values[1..])
  {
    var caps := Captures(segs[1..], values[1..]);
    if segs[0].Param? {
      ParamMapFirst(Capture(segs[0].key, values[0]), caps);
      assert Captures(segs, values) == [Capture(segs[0].key, values[0])] + caps;
    } else {
      assert Captures(segs, values) == caps;
    }
  }

  predicate HasKey(seg: Segment, key: string) {
    seg.Param? && seg.key == key
  }

  /** The last segment with the key. */
  function LastOf(segs: seq<Segment>, key: string): (last: Option<nat>)
    ensures match last
            case None => forall j :: 0 <= j < |segs| ==> !HasKey(segs[j], key)
            case Some(i) => i < |segs| && HasKey(segs[i], key) && forall j :: i < j < |segs| ==> !HasKey(segs[j], key)
  {
    if segs == [] then None
    else match LastOf(segs[1..], key)
      case Some(i) => Some(i + 1)
      case None => if HasKey(segs[0], key) then Some(0) else None
  }

  /** Exactly the keys of the template are reported, each with the value of its last segment. */
  lemma {:induction false} ParamsAreLastSegments(segs: seq<Segment>, values: seq<string>, key: string)
    requires |segs| == |values|
    ensures var params, last := Params(segs, values), LastOf(segs, key);
            (key in params <==> last.Some?) && (last.Some? ==> params[key] == values[last.value])
  {
    if segs != [] {
      ParamsAreLastSegments(segs[1..], values[1..], key);
      ParamsFirst(segs, values);
      hide Params;
    }
  }

  predicate DistinctKeys(segs: seq<Segment>) {
    forall i, j :: 0 <= i < j < |segs| && segs[i].Param? && segs[j].Param? ==> segs[i].key != segs[j].key
  }

  /** Every parameter is reported with the value of its own segment. */
  ghost predicate ReportsOwn(segs: seq<Segment>, values: seq<string>)
    requires |segs| == |values|
  {
    forall i :: 0 <= i < |segs| && segs[i].Param? ==>
      segs[i].key in Params(segs, values) && Params(segs, values)[segs[i].key] == values[i]
  }

  lemma {:induction false} DistinctReportOwn(segs: seq<Segment>, values: seq<string>)
    requires |segs| == |values| && DistinctKeys(segs)
    ensures ReportsOwn(segs, values)
  {
    hide Params;
    forall i | 0 <= i < |segs| && segs[i].Param?
      ensures segs[i].key in Params(segs, values) && Params(segs, values)[segs[i].key] == values[i]
    {
      assert HasKey(segs[i], segs[i].key);
      ParamsAreLastSegments(segs, values, segs[i].key);
    }
  }

  /**
   For every template: each parameter is reported with the value of its own segment, whatever
   values fit, if and only if no two parameters share a key. A repeated key keeps its last value.
   */
  lemma {:induction false} OwnSegmentsExactly(segs: seq<Segment>)
    ensures (forall values :: AllFit(segs, values) ==> ReportsOwn(segs, values)) <==> DistinctKeys(segs)
  {
    if DistinctKeys(segs) {
      forall values | AllFit(segs, values)
        ensures ReportsOwn(segs, values)
      {
        DistinctReportOwn(segs, values);
      }
    } else {
      var i, j :| 0 <= i < j < |segs| && segs[i].Param? && segs[j].Param? && segs[i].key == segs[j].key;
      hide *;
      RepeatedKeyLoses(segs, i, j);
    }
  }

  /** Two parameters with one key and different values: one of them is not reported. */
  lemma {:induction false} RepeatedKeyLoses(segs: seq<Segment>, i: nat, j: nat)
    requires i < j < |segs| && segs[i].Param? && segs[j].Param? && segs[i].key == segs[j].key
    ensures exists values :: AllFit(segs, values) && !ReportsOwn(segs, values)
  {
    hide Params;
    var values := seq(|segs|, k requires 0 <= k < |segs| =>
      if segs[k].Literal? then segs[k].text else if k == j then "y" else "x");
    assert values[i] == "x" && values[j] == "y" && "x"[0] != "y"[0];
    assert AllFit(segs, values) && !ReportsOwn(segs, values);
  }

  const TwoIds := [Param("id"), Param("id")]

  lemma {:induction false} SplitTwo(a: string, b: string)
    requires Lacks(a, '/') && Lacks(b, '/')
    ensures Split(a + ['/'] + b, '/') == [a, b]
  {
    SplitFirst(a, b, '/');
    SplitLast(b, '/');
    hide Split;
  }

  lemma TwoIdParts()
    ensures Parts("/:id/:id") == [":id", ":id"]
  {
    PartsOfText([":id", ":id"], false, None);
    assert [":id", ":id"][1..] == [":id"];
    assert Join([":id", ":id"], '/') == ":id" + ['/'] + ":id" && "/" + (":id" + ['/'] + ":id") + "" + "" == "/:id/:id";
    hide Parts, Join;
  }

  lemma TwoIdSegments()
    ensures Segments("/:id/:id") == TwoIds
  {
    TwoIdParts();
    hide Parts;
    assert ":id"[1..] == "id";
  }

  lemma {:induction false} TwoParams(key: string, a: string, b: string)
    requires ValidName(key)
    ensures ValidNames(Keys([Param(key), Param(key)]))
    ensures Params([Param(key), Param(key)], [a, b]) == map[key := b]
  {
    var segs, values := [Param(key), Param(key)], [a, b];
    ParamsFirst(segs, values);
    ParamsFirst(segs[1..], values[1..]);
    assert Params([], []) == map[];
    hide Params, ValidName;
    assert segs[1..][1..] == [] && values[1..][1..] == [];
    assert Keys(segs[1..]) == [key] + Keys([]);
    assert Keys(segs) == [key] + Keys(segs[1..]);
  }

  /** The template "/:id/:id" compiles, captures both segments of "/1/2", and reports only the second. */
  lemma {:induction false} RepeatedKeyKeepsLast()
    ensures var items := Compile(RegexText(Segments("/:id/:id")));
            && items.Some? && Find(items.value, "/1/2") == Some(Captures(TwoIds, ["1", "2"]))
            && ParamMap(Captures(TwoIds, ["1", "2"])) == map["id" := "2"]
  {
    assert AllFit(TwoIds, ["1", "2"]) && NoWildcard(TwoIds) && Params(TwoIds, ["1", "2"]) == ParamMap(Captures(TwoIds, ["1", "2"]));
    assert Lacks("1", '/') && Lacks("2", '/') && ValidName("id");
    assert "/1/2"[1..] == "1" + ['/'] + "2" && "/1/2"[0] == '/';
    hide *;
    TwoIdSegments();
    TwoParams("id", "1", "2");
    SplitTwo("1", "2");
    TemplateMeaning("/:id/:id", "/1/2");
  }

  /**
   A route without wildcards and with valid keys, looked up by any request key: it answers exactly
   when the normalized path has the segments its template asks for. It then reports exactly its
   keys, each with the last segment of that key; with distinct keys that is every parameter.
   */
  lemma {:induction false} RouteMeaning<R>(r: Route<R>, key: string, verb: string, name: string)
    requires IsPattern(r.template) && NoWildcard(Segments(r.template)) && ValidNames(Keys(Segments(r.template)))
    requires key != ""
    ensures var segs, path := Segments(r.template), NormalizePath(key);
            var values := Split(path[1..], '/');
            && (RouteAnswers(r, path, verb) <==> verb in r.methods && AllFit(segs, values))
            && (RouteAnswers(r, path, verb) ==>
                  var params := AnswerOf(CompiledOf(r).value, path, verb).params;
                  && AnswerOf(CompiledOf(r).value, path, verb).rule == r.methods[verb]
                  && (name in params <==> LastOf(segs, name).Some?)
                  && (name in params ==> params[name] == values[LastOf(segs, name).value])
                  && (DistinctKeys(segs) ==> forall i :: 0 <= i < |segs| && segs[i].Param? ==>
                        segs[i].key in params && params[segs[i].key] == values[i]))
  {
    NormalizedStartsWithSlash(key);
    var segs, path := Segments(r.template), NormalizePath(key);
    var values := Split(path[1..], '/');
    TemplateMeaning(r.template, path);
    hide Segments, NormalizePath, Split, Compile, RegexText, Find, ParamMap, Captures, LastOf;
    if RouteAnswers(r, path, verb) {
      assert AnswerOf(CompiledOf(r).value, path, verb).params == Params(segs, values);
      hide Params;
      ParamsAreLastSegments(segs, values, name);
      if DistinctKeys(segs) {
        DistinctReportOwn(segs, values);
      }
    }
  }

  // ------------------------------------------------------------- from template text to rule

  lemma {:induction false} KeysOfValid(segs: seq<Segment>)
    ensures (forall i :: 0 <= i < |segs| && segs[i].Param? ==> ValidName(segs[i].key)) <==> ValidNames(Keys(segs))
  {
    hide ValidName;
    if segs != [] {
      KeysOfValid(segs[1..]);
      assert forall i :: 1 <= i < |segs| ==> segs[i] == segs[1..][i - 1];
      if ValidNames(Keys(segs)) {
        KeysTail(segs);
      }
    }
  }

  lemma {:induction false} KeysTail(segs: seq<Segment>)
    requires segs != [] && ValidNames(Keys(segs))
    ensures ValidNames(Keys(segs[1..])) && (segs[0].Param? ==> ValidName(segs[0].key))
  {
    hide ValidName;
    var first := if segs[0].Param? then [segs[0].key] else [];
    var rest := Keys(segs[1..]);
    assert Keys(segs) == first + rest;
    forall i | 0 <= i < |rest|
      ensures ValidName(rest[i])
    {
      assert (first + rest)[|first| + i] == rest[i];
    }
    assert segs[0].Param? ==> (first + rest)[0] == segs[0].key;
  }

  lemma {:induction false} JoinHolds(parts: seq<string>, i: nat, c: char)
    requires i < |parts| && Contains(parts[i], c)
    ensures Contains("/" + Join(parts, '/'), c) && Contains(Join(parts, '/'), c)
  {
    var joined := Join(parts, '/');
    if i > 0 {
      JoinHolds(parts[1..], i - 1, c);
      var rest := Join(parts[1..], '/');
      var k :| 0 <= k < |rest| && rest[k] == c;
      assert joined[|parts[0]| + 1 + k] == c;
    } else {
      var k :| 0 <= k < |parts[0]| && parts[0][k] == c;
      assert joined[k] == c;
    }
    var m :| 0 <= m < |joined| && joined[m] == c;
    assert ("/" + joined)[m + 1] == c;
  }

  /** Letters, digits and underscores, and at least one of them. */
  predicate WordsOnly(key: string) {
    key != "" && forall c :: c in key ==> 'a' <= c <= 'z' || 'A' <= c <= 'Z' || '0' <= c <= '9' || c == '_'
  }

  ghost predicate KeysAreWords(parts: seq<string>) {
    forall i, key :: 0 <= i < |parts| && IsParam(parts[i], key) ==> WordsOnly(key)
  }

  /** A template of some parts, none of them the wildcard. */
  ghost predicate PlainTemplate(template: string, parts: seq<string>) {
    && parts != [] && AllLack(parts, '/') && AllLack(parts, '?') && template == "/" + Join(parts, '/')
    && (|parts| == 1 || parts[|parts| - 1] != "")
    && (forall i :: 0 <= i < |parts| ==> parts[i] != "*")
  }

  /** A template without a wildcard and with a parameter, its keys valid names. */
  ghost predicate ParamTemplate(template: string, parts: seq<string>) {
    && PlainTemplate(template, parts) && KeysAreWords(parts)
    && (exists i, key :: 0 <= i < |parts| && IsParam(parts[i], key))
  }

  /** A segment of the path that suits a part of the template as it is written. */
  ghost predicate Suits(part: string, value: string) {
    if exists key :: IsParam(part, key) then value != "" else value == part
  }

  lemma {:induction false} ParamTemplateIsPattern(template: string, parts: seq<string>)
    requires ParamTemplate(template, parts)
    ensures IsPattern(template)
  {
    var i, key :| 0 <= i < |parts| && IsParam(parts[i], key);
    assert parts[i][0] == ':' || parts[i][0] == '{';
    hide ValidName, Join;
    JoinHolds(parts, i, parts[i][0]);
  }

  /** Part by part, none of them the wildcard, the segments are as they are written. */
  ghost predicate AllWritten(parts: seq<string>, segs: seq<Segment>) {
    |parts| == |segs| && forall i :: 0 <= i < |parts| ==> parts[i] != "*" && Written(parts[i], segs[i])
  }

  lemma {:induction false} WrittenKeysAreValid(parts: seq<string>, segs: seq<Segment>)
    requires AllWritten(parts, segs)
    ensures NoWildcard(segs) && (KeysAreWords(parts) <==> ValidNames(Keys(segs)))
  {
    hide ValidName, WordsOnly, IsParam;
    assert NoWildcard(segs) by {
      forall i | 0 <= i < |segs|
        ensures !segs[i].Wildcard?
      {
        if key :| IsParam(parts[i], key) {
          assert segs[i] == Param(key);
        }
      }
    }
    forall i, key | 0 <= i < |parts| && IsParam(parts[i], key)
      ensures segs[i] == Param(key) && (WordsOnly(key) <==> ValidName(key))
    {
      WordsAreNames(key);
    }
    forall i | 0 <= i < |segs| && segs[i].Param?
      ensures IsParam(parts[i], segs[i].key)
    {
      var key :| IsParam(parts[i], key);
    }
    KeysOfValid(segs);
    assert KeysAreWords(parts) <==> forall i :: 0 <= i < |segs| && segs[i].Param? ==> ValidName(segs[i].key);
  }

  lemma WordsAreNames(key: string)
    ensures WordsOnly(key) <==> ValidName(key)
  {
    assert forall i :: 0 <= i < |key| ==> key[i] in key;
    assert (forall c :: c in key ==> IsWord(c)) <==> forall i :: 0 <= i < |key| ==> IsWord(key[i]);
  }

  lemma {:induction false} PlainTemplateSegments(template: string, parts: seq<string>)
    requires PlainTemplate(template, parts)
    ensures NoWildcard(Segments(template)) && (KeysAreWords(parts) <==> ValidNames(Keys(Segments(template))))
    ensures AllWritten(parts, Segments(template))
  {
    assert "/" + Join(parts, '/') + "" + "" == template;
    hide Segments, Join, ValidName, Keys, IsParam, Written;
    SegmentsAreWritten(parts, false, None);
    WrittenKeysAreValid(parts, Segments(template));
  }

  /**
   From the text alone: a template without wildcards compiles to an expression with its meaning if
   and only if its keys are made of letters, digits and underscores.
   */
  lemma {:induction false} MeaningExactlyOfWords(template: string, parts: seq<string>)
    requires PlainTemplate(template, parts)
    ensures MeansItsSegments(template) <==> KeysAreWords(parts)
  {
    PlainTemplateSegments(template, parts);
    MeaningExactlyWithValidKeys(template);
  }

  lemma {:induction false} SuitsFits(parts: seq<string>, segs: seq<Segment>, values: seq<string>)
    requires AllWritten(parts, segs) && AllLack(values, '/')
    ensures AllFit(segs, values) <==> |values| == |parts| && forall i :: 0 <= i < |parts| ==> Suits(parts[i], values[i])
  {
    if |values| == |parts| {
      forall i | 0 <= i < |parts|
        ensures Fits(segs[i], values[i]) <==> Suits(parts[i], values[i])
      {
        assert Written(parts[i], segs[i]) && Lacks(values[i], '/');
        hide IsParam;
      }
    }
  }

  /** No later part is written as a parameter with the key. */
  ghost predicate IsLastParam(parts: seq<string>, i: nat, key: string) {
    i < |parts| && IsParam(parts[i], key) && forall j :: i < j < |parts| ==> !IsParam(parts[j], key)
  }

  lemma {:induction false} LastIsWritten(parts: seq<string>, segs: seq<Segment>, i: nat, key: string)
    requires AllWritten(parts, segs) && IsLastParam(parts, i, key)
    ensures LastOf(segs, key) == Some(i)
  {
    assert Written(parts[i], segs[i]) && HasKey(segs[i], key);
    forall j | i < j < |parts|
      ensures !HasKey(segs[j], key)
    {
      assert Written(parts[j], segs[j]);
      if other :| IsParam(parts[j], other) {
        assert segs[j] == Param(other);
      }
    }
    hide IsParam;
  }

  /** A path of plain segments, the first of which is no version, is its own normal form. */
  lemma {:induction false} PlainPathStays(values: seq<string>)
    requires PlainParts(values) && !(|values[0]| > 1 && values[0][0] == 'v' && '0' <= values[0][1] <= '9')
    ensures var path := "/" + Join(values, '/');
            NormalizePath(path) == path && Split(path[1..], '/') == values && AllLack(values, '/')
  {
    var path := "/" + Join(values, '/');
    hide Join, NormalizePath, Split;
    NormalizeMeaning(values, "", true, false, "", None);
    assert "" + (If(true, "/") + Join(values, '/') + If(false, "/")) + "" + "" == path;
    SplitOfJoin(values, '/');
    assert path[1..] == Join(values, '/');
  }

  /**
   From the template's text to the rule: "/" and parts, of which ":k" and "{k}" are parameters, and
   a path of plain segments. The route answers exactly when there are equally many, each literal is
   equal and each parameter is not empty; then the rule is the route's own for the method, and the
   last segment of each key is reported.
   */
  lemma {:induction false} TextRouteMeaning<R>(
    r: Route<R>, parts: seq<string>, values: seq<string>, verb: string, i: nat, key: string)
    requires ParamTemplate(r.template, parts) && PlainParts(values)
    requires !(|values[0]| > 1 && values[0][0] == 'v' && '0' <= values[0][1] <= '9')
    ensures var path := "/" + Join(values, '/');
            && NormalizePath(path) == path
            && (RouteAnswers(r, path, verb)
                <==> verb in r.methods && |values| == |parts| && forall n :: 0 <= n < |parts| ==> Suits(parts[n], values[n]))
            && (RouteAnswers(r, path, verb) ==>
                  var found := AnswerOf(CompiledOf(r).value, path, verb);
                  && found.rule == r.methods[verb]
                  && (IsLastParam(parts, i, key) ==> key in found.params && found.params[key] == values[i]))
  {
    var path, segs := "/" + Join(values, '/'), Segments(r.template);
    assert path != "";
    hide *;
    PlainPathStays(values);
    ParamTemplateIsPattern(r.template, parts);
    PlainTemplateSegments(r.template, parts);
    SuitsFits(parts, segs, values);
    RouteMeaning(r, path, verb, key);
    if IsLastParam(parts, i, key) {
      LastIsWritten(parts, segs, i, key);
    }
  }
}
