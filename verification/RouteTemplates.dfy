/**
 Compiling route templates (rules/parser.go): a template is cut into segments, each segment
 is rendered as a piece of a regular expression, and the result is compiled. The theorems say
 what the compiled expression means in terms of the segments.
 */
module RouteTemplates {
  import opened Options
  import opened Sequences
  import opened Text
  import opened RegexFragment

  datatype Segment = Literal(text: string) | Param(key: string) | Wildcard

  function TrimPrefix(s: string, c: char): string {
    if s != "" && s[0] == c then s[1..] else s
  }

  function TrimSuffix(s: string, c: char): string {
    if s != "" && s[|s| - 1] == c then s[..|s| - 1] else s
  }

  /** The string up to its first question mark. */
  function CutQuery(s: string): string {
    if s == "" || s[0] == '?' then "" else [s[0]] + CutQuery(s[1..])
  }

  function Parts(tpl: string): (parts: seq<string>)
    ensures parts != []
  {
    Split(TrimPrefix(TrimSuffix(CutQuery(tpl), '/'), '/'), '/')
  }

  function Classify(part: string): Segment {
    if part == "*" then Wildcard
    else if part != "" && part[0] == ':' then Param(part[1..])
    else if |part| >= 2 && part[0] == '{' && part[|part| - 1] == '}' then Param(part[1..|part| - 1])
    else Literal(part)
  }

  function Segments(tpl: string): (segs: seq<Segment>)
    ensures segs != []
  {
    var parts := Parts(tpl);
    seq(|parts|, i requires 0 <= i < |parts| => Classify(parts[i]))
  }

  /** The regular expression text of one segment. */
  function Rendered(seg: Segment): string {
    match seg
    case Literal(text) => QuoteMeta(text)
    case Param(key) => "(?P<" + key + ">[^/]+)"
    case Wildcard => ".*"
  }

  function RenderedAll(segs: seq<Segment>): seq<string> {
    seq(|segs|, i requires 0 <= i < |segs| => Rendered(segs[i]))
  }

  function Keys(segs: seq<Segment>): seq<string> {
    if segs == [] then [] else (if segs[0].Param? then [segs[0].key] else []) + Keys(segs[1..])
  }

  function RegexText(segs: seq<Segment>): string {
    "/" + Join(RenderedAll(segs), '/')
  }

  /** The text and the key that the loop of templateToRegex adds for one part. */
  method RenderPart(p: string) returns (text: string, key: Option<string>)
    ensures text == Rendered(Classify(p))
    ensures key == if Classify(p).Param? then Some(Classify(p).key) else None
  {
    if p == "*" {
      return ".*", None;
    }
    if p != "" && p[0] == ':' {
      return "(?P<" + p[1..] + ">[^/]+)", Some(p[1..]);
    }
    if p != "" && p[0] == '{' && p[|p| - 1] == '}' {
      var k := TrimSuffix(TrimPrefix(p, '{'), '}');
      assert k == p[1..|p| - 1];
      return "(?P<" + k + ">[^/]+)", Some(k);
    }
    return QuoteMeta(p), None;
  }

  /** The loop of the source over the parts of a template. */
  method TemplateToRegex(tpl: string) returns (text: string, keys: seq<string>)
    ensures text == RegexText(Segments(tpl)) && keys == Keys(Segments(tpl))
  {
    var parts := Parts(tpl);
    ghost var segs := Segments(tpl);
    var regexParts: seq<string> := [];
    keys := [];
    assert RenderedAll([]) == [] && Keys([]) == [];
    hide Classify, Rendered, Keys, Parts, RenderedAll;
    for i := 0 to |parts|
      invariant regexParts == RenderedAll(segs[..i])
      invariant keys == Keys(segs[..i])
    {
      assert segs[i] == Classify(parts[i]) && segs[..i + 1] == segs[..i] + [segs[i]];
      KeysSnoc(segs[..i], segs[i]);
      RenderedSnoc(segs[..i], segs[i]);
      var part, key := RenderPart(parts[i]);
      if key.Some? {
        keys := keys + [key.value];
      }
      regexParts := regexParts + [part];
    }
    assert segs[..|parts|] == segs;
    text := "/" + Join(regexParts, '/');
  }

  lemma RenderedSnoc(segs: seq<Segment>, seg: Segment)
    ensures RenderedAll(segs + [seg]) == RenderedAll(segs) + [Rendered(seg)]
  {
    hide Rendered;
  }

  lemma {:induction false} KeysSnoc(segs: seq<Segment>, seg: Segment)
    ensures Keys(segs + [seg]) == Keys(segs) + (if seg.Param? then [seg.key] else [])
  {
    if segs != [] {
      KeysSnoc(segs[1..], seg);
      assert (segs + [seg])[1..] == segs[1..] + [seg];
    }
  }

  // ------------------------------------------------------- what the text compiles to

  const Slash := Plain(Piece(Char('/'), Once))

  function Chars(text: string): seq<Item> {
    seq(|text|, i requires 0 <= i < |text| => Plain(Piece(Char(text[i]), Once)))
  }

  function ItemsOf(seg: Segment): seq<Item> {
    match seg
    case Literal(text) => Chars(text)
    case Param(key) => [Group(key, [Piece(NotSlash, Plus)])]
    case Wildcard => [Plain(Piece(Any, Star))]
  }

  function Items(segs: seq<Segment>): seq<Item> {
    if segs == [] then [] else [Slash] + ItemsOf(segs[0]) + Items(segs[1..])
  }

  /** The rest of a pattern cannot be taken for a quantifier of what precedes it. */
  predicate Separate(rest: string) {
    rest == "" || (rest[0] != '*' && rest[0] != '+')
  }

  lemma ParseFirst(s: string, item: Item, rest: string)
    requires ParseItem(s) == Some((item, rest)) && ParseItems(rest).Some?
    ensures ParseItems(s) == Some([item] + ParseItems(rest).value)
  {
  }

  lemma ParseOneChar(c: char, rest: string)
    requires Separate(rest)
    ensures ParseItem(Quoted(c) + rest) == Some((Plain(Piece(Char(c), Once)), rest))
  {
    var s := Quoted(c) + rest;
    assert s[|s| - |rest|..] == rest;
    assert "(?P<"[0] == '(' && "[^/]"[0] == '[';
  }

  lemma QuotedSeparate(text: string, rest: string)
    requires Separate(rest)
    ensures Separate(QuoteMeta(text) + rest)
  {
    if text != "" {
      assert IsMeta('*') && IsMeta('+');
    }
  }

  lemma {:induction false} QuoteFirst(text: string, rest: string, items: seq<Item>)
    requires text != ""
    ensures QuoteMeta(text) + rest == Quoted(text[0]) + (QuoteMeta(text[1..]) + rest)
    ensures Chars(text) + items == [Plain(Piece(Char(text[0]), Once))] + (Chars(text[1..]) + items)
  {
    hide Quoted, IsMeta;
    assert QuoteMeta(text) == Quoted(text[0]) + QuoteMeta(text[1..]);
    assert Chars(text) == [Plain(Piece(Char(text[0]), Once))] + Chars(text[1..]);
    hide QuoteMeta, Chars;
  }

  lemma QuoteNone(rest: string, items: seq<Item>)
    ensures QuoteMeta("") + rest == rest && Chars("") + items == items
  {
  }

  lemma {:induction false} ParseQuoted(text: string, rest: string)
    requires Separate(rest) && ParseItems(rest).Some?
    ensures ParseItems(QuoteMeta(text) + rest) == Some(Chars(text) + ParseItems(rest).value)
  {
    hide *;
    var items := ParseItems(rest).value;
    if text == "" {
      QuoteNone(rest, items);
    } else {
      var after := QuoteMeta(text[1..]) + rest;
      ParseQuoted(text[1..], rest);
      QuotedSeparate(text[1..], rest);
      ParseOneChar(text[0], after);
      QuoteFirst(text, rest, items);
      ParseFirst(QuoteMeta(text) + rest, Plain(Piece(Char(text[0]), Once)), after);
    }
  }

  lemma {:induction false} ParseNameBack(name: string, rest: string)
    requires forall i :: 0 <= i < |name| ==> name[i] != '>'
    ensures ParseName(name + ">" + rest) == Some((name, rest))
  {
    var s := name + ">" + rest;
    if name == "" {
      assert s[1..] == rest;
    } else {
      ParseNameBack(name[1..], rest);
      assert s[1..] == name[1..] + ">" + rest;
      assert [s[0]] + name[1..] == name;
    }
  }

  lemma ParseParamBody(rest: string)
    ensures ParseBody("[^/]+)" + rest) == Some(([Piece(NotSlash, Plus)], rest))
  {
    var s := "[^/]+)" + rest;
    assert s[4..] == "+)" + rest && s[4..][1..] == ")" + rest && (")" + rest)[1..] == rest;
    assert "[^/]" <= s;
    assert ParsePiece(s) == Some((Piece(NotSlash, Plus), ")" + rest));
    assert ParseBody(")" + rest) == Some(([], rest));
    assert [Piece(NotSlash, Plus)] + [] == [Piece(NotSlash, Plus)];
  }

  lemma ParseGroup(inner: string, name: string, rest: string, body: seq<Piece>, after: string)
    requires ParseName(inner) == Some((name, rest)) && ParseBody(rest) == Some((body, after))
    ensures ParseItem("(?P<" + inner) == Some((Group(name, body), after))
  {
    hide ParseName, ParseBody, ParsePiece;
    var s := "(?P<" + inner;
    assert s[4..] == inner && "(?P<" <= s;
  }

  lemma Reassociate(opening: string, key: string, rest: string)
    ensures opening + key + ">[^/]+)" + rest == opening + (key + ">" + ("[^/]+)" + rest))
  {
    assert ">[^/]+)" == ">" + "[^/]+)";
  }

  lemma ParseParam(key: string, rest: string)
    requires (forall i :: 0 <= i < |key| ==> key[i] != '>') && ParseItems(rest).Some?
    ensures ParseItems("(?P<" + key + ">[^/]+)" + rest)
            == Some([Group(key, [Piece(NotSlash, Plus)])] + ParseItems(rest).value)
  {
    hide *;
    var s, body := "(?P<" + key + ">[^/]+)" + rest, "[^/]+)" + rest;
    ParseNameBack(key, body);
    ParseParamBody(rest);
    ParseGroup(key + ">" + body, key, body, [Piece(NotSlash, Plus)], rest);
    Reassociate("(?P<", key, rest);
    ParseFirst(s, Group(key, [Piece(NotSlash, Plus)]), rest);
  }

  lemma ParseWildcard(rest: string)
    requires Separate(rest) && ParseItems(rest).Some?
    ensures ParseItems(".*" + rest) == Some([Plain(Piece(Any, Star))] + ParseItems(rest).value)
  {
    var s := ".*" + rest;
    assert s[1..] == "*" + rest && s[1..][1..] == rest;
    assert !("(?P<" <= s);
    ParseFirst(s, Plain(Piece(Any, Star)), rest);
  }

  lemma ParseSlash(rest: string)
    requires Separate(rest) && ParseItems(rest).Some?
    ensures ParseItems("/" + rest) == Some([Slash] + ParseItems(rest).value)
  {
    assert !IsMeta('/');
    ParseOneChar('/', rest);
    ParseFirst("/" + rest, Slash, rest);
  }

  predicate KeysReadable(segs: seq<Segment>) {
    forall i :: 0 <= i < |segs| && segs[i].Param? ==> Lacks(segs[i].key, '>')
  }

  /** The text of the segments, each led by a slash. */
  function Led(segs: seq<Segment>): string {
    if segs == [] then "" else "/" + Rendered(segs[0]) + Led(segs[1..])
  }

  lemma {:induction false} RegexTextIsLed(segs: seq<Segment>)
    requires segs != []
    ensures RegexText(segs) == Led(segs)
  {
    if |segs| == 1 {
      assert Led(segs[1..]) == "";
    } else {
      RegexTextIsLed(segs[1..]);
      assert RenderedAll(segs)[1..] == RenderedAll(segs[1..]);
    }
  }

  lemma SegmentSeparate(seg: Segment, rest: string)
    requires Separate(rest)
    ensures Separate(Rendered(seg) + rest)
  {
    if seg.Literal? {
      QuotedSeparate(seg.text, rest);
    }
  }

  lemma {:induction false} ParseLed(segs: seq<Segment>)
    requires KeysReadable(segs)
    ensures ParseItems(Led(segs)) == Some(Items(segs)) && Separate(Led(segs))
  {
    if segs != [] {
      var seg, rest := segs[0], Led(segs[1..]);
      assert KeysReadable(segs[1..]) && (seg.Param? ==> Lacks(seg.key, '>'));
      LedFirst(segs);
      hide *;
      ParseLed(segs[1..]);
      ParseSegment(seg, rest);
      SegmentSeparate(seg, rest);
      ParseSlash(Rendered(seg) + rest);
    }
  }

  lemma LedFirst(segs: seq<Segment>)
    requires segs != []
    ensures Led(segs) == "/" + (Rendered(segs[0]) + Led(segs[1..])) && Separate(Led(segs))
    ensures Items(segs) == [Slash] + (ItemsOf(segs[0]) + Items(segs[1..]))
  {
    assert Led(segs) == "/" + Rendered(segs[0]) + Led(segs[1..]);
    assert Items(segs) == [Slash] + ItemsOf(segs[0]) + Items(segs[1..]);
    assert Separate(Led(segs));
    hide *;
    Associates("/", Rendered(segs[0]), Led(segs[1..]));
    Associates([Slash], ItemsOf(segs[0]), Items(segs[1..]));
  }

  lemma ParseSegment(seg: Segment, rest: string)
    requires (seg.Param? ==> Lacks(seg.key, '>')) && Separate(rest) && ParseItems(rest).Some?
    ensures ParseItems(Rendered(seg) + rest) == Some(ItemsOf(seg) + ParseItems(rest).value)
  {
    match seg
    case Literal(text) => ParseQuoted(text, rest);
    case Param(key) => ParseParam(key, rest);
    case Wildcard => ParseWildcard(rest);
  }

  lemma NamesFirst(items: seq<Item>)
    requires items != []
    ensures Names(items) == (if items[0].Group? then [items[0].name] else []) + Names(items[1..])
  {
  }

  lemma {:induction false} NamesAdd(a: seq<Item>, b: seq<Item>)
    ensures Names(a + b) == Names(a) + Names(b)
  {
    if a == [] {
      assert a + b == b;
    } else {
      hide Names;
      NamesAdd(a[1..], b);
      var head := if a[0].Group? then [a[0].name] else [];
      calc {
        Names(a + b);
      == { NamesFirst(a + b); assert (a + b)[0] == a[0]; assert (a + b)[1..] == a[1..] + b; }
        head + Names(a[1..] + b);
      ==
        head + (Names(a[1..]) + Names(b));
      == { Associates(head, Names(a[1..]), Names(b)); }
        head + Names(a[1..]) + Names(b);
      == { NamesFirst(a); }
        Names(a) + Names(b);
      }
    }
  }

  lemma {:induction false} NoNames(items: seq<Item>)
    requires forall i :: 0 <= i < |items| ==> items[i].Plain?
    ensures Names(items) == []
  {
    if items != [] {
      NoNames(items[1..]);
    }
  }

  lemma {:induction false} NamesAreKeys(segs: seq<Segment>)
    ensures Names(Items(segs)) == Keys(segs)
  {
    if segs != [] {
      var seg := segs[0];
      NamesAreKeys(segs[1..]);
      NamesAdd([Slash] + ItemsOf(seg), Items(segs[1..]));
      NamesAdd([Slash], ItemsOf(seg));
      NoNames([Slash]);
      if !seg.Param? {
        NoNames(ItemsOf(seg));
      } else {
        assert ItemsOf(seg)[1..] == [];
        assert Names(ItemsOf(seg)) == [seg.key] + Names([]);
      }
    }
  }

  lemma {:induction false} KeyInKeys(segs: seq<Segment>, i: nat)
    requires i < |segs| && segs[i].Param?
    ensures segs[i].key in Keys(segs)
  {
    if i > 0 {
      KeyInKeys(segs[1..], i - 1);
    }
  }

  /**
   The text of a template compiles to exactly the expression its segments stand for if and
   only if its keys are valid group names.
   */
  lemma CompilesAsSegments(tpl: string)
    ensures Compile(RegexText(Segments(tpl))) == Some(Items(Segments(tpl))) <==> ValidNames(Keys(Segments(tpl)))
  {
    var segs := Segments(tpl);
    NamesAreKeys(segs);
    RegexTextIsLed(segs);
    hide ParseItems, Segments;
    if ValidNames(Keys(segs)) {
      forall i | 0 <= i < |segs| && segs[i].Param?
        ensures Lacks(segs[i].key, '>')
      {
        KeyInKeys(segs, i);
      }
      ParseLed(segs);
    }
  }

  // ----------------------------------------------------------- what the expression matches

  /** The text that stands for a segment in a path. */
  predicate Fits(seg: Segment, value: string) {
    match seg
    case Literal(text) => value == text
    case Param(_) => value != "" && Lacks(value, '/')
    case Wildcard => Lacks(value, '\n')
  }

  /** The path made of some segment values. */
  function Path(values: seq<string>): string {
    if values == [] then "" else "/" + values[0] + Path(values[1..])
  }

  function Captures(segs: seq<Segment>, values: seq<string>): seq<Capture>
    requires |segs| == |values|
  {
    if segs == [] then []
    else (if segs[0].Param? then [Capture(segs[0].key, values[0])] else []) + Captures(segs[1..], values[1..])
  }

  ghost predicate AllFit(segs: seq<Segment>, values: seq<string>) {
    |segs| == |values| && forall i :: 0 <= i < |segs| ==> Fits(segs[i], values[i])
  }

  lemma {:induction false} MatchChar(c: char, items: seq<Item>, s: string, caps: seq<Capture>)
    ensures Matches([Plain(Piece(Char(c), Once))] + items, s, caps)
            <==> s != "" && s[0] == c && Matches(items, s[1..], caps)
  {
    var p := Piece(Char(c), Once);
    var all := [Plain(p)] + items;
    assert all[1..] == items;
    if s != "" && s[0] == c && Matches(items, s[1..], caps) {
      assert PieceMatches(p, s[..1]) && Matches(all[1..], s[1..], caps);
    }
  }

  lemma {:induction false} MatchChars(text: string, items: seq<Item>, s: string, caps: seq<Capture>)
    ensures Matches(Chars(text) + items, s, caps) <==> text <= s && Matches(items, s[|text|..], caps)
  {
    if text == "" {
      assert Chars(text) + items == items && s[0..] == s;
    } else {
      var c, more := text[0], text[1..];
      assert Chars(text) + items == [Plain(Piece(Char(c), Once))] + (Chars(more) + items);
      hide Matches;
      MatchChar(c, Chars(more) + items, s, caps);
      if s != "" {
        MatchChars(more, items, s[1..], caps);
        assert text <= s ==> s[0] == c && more <= s[1..];
        if s[0] == c && more <= s[1..] {
          assert s == [s[0]] + s[1..] && text == [c] + more;
          assert s[1..][|more|..] == s[|text|..];
        }
      }
    }
  }

  lemma {:induction false} ParamBody(v: string)
    ensures PiecesMatch([Piece(NotSlash, Plus)], v) <==> v != "" && Lacks(v, '/')
  {
    var p := Piece(NotSlash, Plus);
    assert [p][1..] == [];
    if v != "" && Lacks(v, '/') {
      assert v[..|v|] == v && v[|v|..] == "";
      assert PieceMatches(p, v[..|v|]) && PiecesMatch([], v[|v|..]);
    }
    if PiecesMatch([p], v) {
      var k :| 0 <= k <= |v| && PieceMatches(p, v[..k]) && PiecesMatch([], v[k..]);
      assert v[..k] == v;
      assert forall i :: 0 <= i < |v| ==> AtomMatches(NotSlash, v[..k][i]);
    }
  }

  lemma {:induction false} MatchParam(key: string, items: seq<Item>, s: string, caps: seq<Capture>)
    ensures Matches([Group(key, [Piece(NotSlash, Plus)])] + items, s, caps)
            <==> caps != [] && caps[0].name == key && caps[0].text != "" && Lacks(caps[0].text, '/')
                 && caps[0].text <= s && Matches(items, s[|caps[0].text|..], caps[1..])
  {
    var all := [Group(key, [Piece(NotSlash, Plus)])] + items;
    assert all[1..] == items;
    if caps != [] {
      ParamBody(caps[0].text);
    }
    hide PiecesMatch;
  }

  lemma {:induction false} MatchWildcard(items: seq<Item>, s: string, caps: seq<Capture>)
    ensures Matches([Plain(Piece(Any, Star))] + items, s, caps)
            <==> exists k :: 0 <= k <= |s| && Lacks(s[..k], '\n') && Matches(items, s[k..], caps)
  {
    var p := Piece(Any, Star);
    var all := [Plain(p)] + items;
    assert all[1..] == items;
    forall k | 0 <= k <= |s|
      ensures PieceMatches(p, s[..k]) <==> Lacks(s[..k], '\n')
    {
      if PieceMatches(p, s[..k]) {
        assert forall i :: 0 <= i < k ==> AtomMatches(Any, s[..k][i]);
      }
    }
  }

  /** One segment value and what follows it. */
  lemma {:induction false} MatchSegment(
    seg: Segment, items: seq<Item>, value: string, rest: string, caps: seq<Capture>)
    requires Fits(seg, value) && Matches(items, rest, caps)
    ensures Matches(ItemsOf(seg) + items, value + rest,
                    (if seg.Param? then [Capture(seg.key, value)] else []) + caps)
  {
    var s := value + rest;
    assert s[|value|..] == rest && s[..|value|] == value;
    assert [] + caps == caps;
    hide Matches;
    match seg
    case Literal(text) => MatchChars(text, items, s, caps);
    case Param(key) =>
      var all := [Capture(key, value)] + caps;
      assert all[1..] == caps;
      MatchParam(key, items, s, all);
    case Wildcard => MatchWildcard(items, s, caps);
  }

  /** Taking one segment value off the front of a match. */
  lemma {:induction false} SegmentMatched(seg: Segment, items: seq<Item>, s: string, caps: seq<Capture>)
    returns (value: string, rest: string, more: seq<Capture>)
    requires Matches(ItemsOf(seg) + items, s, caps)
    ensures Fits(seg, value) && s == value + rest && Matches(items, rest, more)
    ensures caps == (if seg.Param? then [Capture(seg.key, value)] else []) + more
  {
    hide Matches;
    match seg
    case Literal(text) =>
      MatchChars(text, items, s, caps);
      value, rest, more := text, s[|text|..], caps;
      assert [] + caps == caps;
    case Param(key) =>
      MatchParam(key, items, s, caps);
      value, rest, more := caps[0].text, s[|caps[0].text|..], caps[1..];
      assert caps == [caps[0]] + caps[1..];
    case Wildcard =>
      MatchWildcard(items, s, caps);
      var k :| 0 <= k <= |s| && Lacks(s[..k], '\n') && Matches(items, s[k..], caps);
      value, rest, more := s[..k], s[k..], caps;
      assert [] + caps == caps;
  }

  lemma {:induction false} ValuesMatch(segs: seq<Segment>, values: seq<string>)
    requires AllFit(segs, values)
    ensures Matches(Items(segs), Path(values), Captures(segs, values))
  {
    if segs != [] {
      var items := ItemsOf(segs[0]) + Items(segs[1..]);
      var s := values[0] + Path(values[1..]);
      ValuesMatch(segs[1..], values[1..]);
      assert Items(segs) == [Slash] + items && Path(values) == "/" + s && ("/" + s)[1..] == s;
      hide Matches;
      MatchSegment(segs[0], Items(segs[1..]), values[0], Path(values[1..]), Captures(segs[1..], values[1..]));
      MatchChar('/', items, "/" + s, Captures(segs, values));
    }
  }

  lemma {:induction false} ValuesFirst(segs: seq<Segment>, value: string, later: seq<string>)
    requires segs != [] && Fits(segs[0], value) && AllFit(segs[1..], later)
    ensures var values := [value] + later;
            && AllFit(segs, values)
            && Path(values) == "/" + (value + Path(later))
            && Captures(segs, values)
               == (if segs[0].Param? then [Capture(segs[0].key, value)] else []) + Captures(segs[1..], later)
  {
    hide Fits;
    var values := [value] + later;
    assert values[1..] == later && Path(values) == "/" + value + Path(later);
    hide Path, Captures;
    forall i | 0 <= i < |segs|
      ensures Fits(segs[i], values[i])
    {
      assert i > 0 ==> segs[1..][i - 1] == segs[i] && later[i - 1] == values[i];
    }
  }

  /** The values stand for the segments: they make up the path, and the captures are those of the parameters. */
  ghost predicate StandFor(values: seq<string>, segs: seq<Segment>, s: string, caps: seq<Capture>) {
    AllFit(segs, values) && s == Path(values) && caps == Captures(segs, values)
  }

  lemma {:induction false} MatchHasValues(segs: seq<Segment>, s: string, caps: seq<Capture>)
    requires Matches(Items(segs), s, caps)
    ensures exists values :: StandFor(values, segs, s, caps)
    decreases |segs|
  {
    if segs == [] {
      assert StandFor([], segs, s, caps);
    } else {
      var items := ItemsOf(segs[0]) + Items(segs[1..]);
      LedFirst(segs);
      hide Matches, Items, ItemsOf, Path, Captures, AllFit;
      MatchChar('/', items, s, caps);
      var value, rest, more := SegmentMatched(segs[0], Items(segs[1..]), s[1..], caps);
      MatchHasValues(segs[1..], rest, more);
      var later :| StandFor(later, segs[1..], rest, more);
      assert s == "/" + s[1..];
      ValuesFirst(segs, value, later);
      assert StandFor([value] + later, segs, s, caps);
    }
  }

  /**
   For every template, with or without wildcards: the expression matches a path with some
   captures exactly when the path is made of one value per segment, each fitting its segment,
   and the captures are the values of the parameters.
   */
  lemma {:induction false} MatchesByValues(segs: seq<Segment>, s: string, caps: seq<Capture>)
    ensures Matches(Items(segs), s, caps)
            <==> exists values :: StandFor(values, segs, s, caps)
  {
    hide Matches, Items, Path, Captures;
    if Matches(Items(segs), s, caps) {
      MatchHasValues(segs, s, caps);
    }
    if values :| StandFor(values, segs, s, caps) {
      ValuesMatch(segs, values);
    }
  }

  // ------------------------------------------------------------ templates without wildcards

  ghost predicate NoWildcard(segs: seq<Segment>) {
    forall i :: 0 <= i < |segs| ==> !segs[i].Wildcard?
  }

  lemma {:induction false} PathIsJoin(values: seq<string>)
    requires values != []
    ensures Path(values) == "/" + Join(values, '/')
  {
    if |values| > 1 {
      PathIsJoin(values[1..]);
    } else {
      assert Path(values[1..]) == "";
    }
  }

  lemma LiteralsLackSlash(tpl: string, i: nat)
    requires i < |Segments(tpl)| && Segments(tpl)[i].Literal?
    ensures Lacks(Segments(tpl)[i].text, '/')
  {
    var trimmed := TrimPrefix(TrimSuffix(CutQuery(tpl), '/'), '/');
    SplitLacks(trimmed, '/');
    hide Split, CutQuery;
    assert Parts(tpl)[i] == Segments(tpl)[i].text;
  }

  /** Values that fit a template without wildcards are the segments of the path. */
  lemma {:induction false} ValuesAreSplit(tpl: string, values: seq<string>)
    requires NoWildcard(Segments(tpl)) && AllFit(Segments(tpl), values)
    ensures Path(values) != "" && Path(values)[0] == '/' && Split(Path(values)[1..], '/') == values
  {
    var segs := Segments(tpl);
    forall i | 0 <= i < |values|
      ensures Lacks(values[i], '/')
    {
      assert Fits(segs[i], values[i]) && !segs[i].Wildcard?;
      if segs[i].Literal? {
        LiteralsLackSlash(tpl, i);
      }
    }
    hide Segments;
    PathIsJoin(values);
    SplitOfJoin(values, '/');
    assert Path(values)[1..] == Join(values, '/');
  }

  /**
   For every template without a wildcard and every path that starts with a slash, the
   expression matches exactly when path and template have equally many segments, literals
   are equal and parameters non-empty, and then each parameter captures its segment.
   */
  lemma {:induction false} MatchesSegmentwise(tpl: string, path: string, caps: seq<Capture>)
    requires NoWildcard(Segments(tpl)) && path != "" && path[0] == '/'
    ensures var segs, values := Segments(tpl), Split(path[1..], '/');
            Matches(Items(segs), path, caps) <==> AllFit(segs, values) && caps == Captures(segs, values)
  {
    var segs, values := Segments(tpl), Split(path[1..], '/');
    PathIsJoin(values);
    JoinOfSplit(path[1..], '/');
    assert path == "/" + path[1..];
    hide Segments, Matches, Items, Captures, Split, Join;
    MatchesByValues(segs, path, caps);
    assert AllFit(segs, values) && caps == Captures(segs, values) ==> StandFor(values, segs, path, caps);
    if others :| StandFor(others, segs, path, caps) {
      ValuesAreSplit(tpl, others);
    }
  }

  /**
   End to end, from the template text: with valid keys the text compiles, and
   searching a path gives the parameter values when the path matches segment by segment and
   nothing otherwise.
   */
  lemma {:induction false} TemplateMeaning(tpl: string, path: string)
    requires NoWildcard(Segments(tpl)) && ValidNames(Keys(Segments(tpl))) && path != "" && path[0] == '/'
    ensures var segs, values := Segments(tpl), Split(path[1..], '/');
            var compiled := Compile(RegexText(segs));
            && compiled.Some?
            && Find(compiled.value, path) == if AllFit(segs, values) then Some(Captures(segs, values)) else None
  {
    var segs, values := Segments(tpl), Split(path[1..], '/');
    CompilesAsSegments(tpl);
    hide Segments, Compile, RegexText, Matches, Find, Items, Split, Captures, AllFit;
    FindIsExact(Items(segs), path);
    if AllFit(segs, values) {
      MatchesSegmentwise(tpl, path, Captures(segs, values));
    }
    if Find(Items(segs), path).Some? {
      MatchesSegmentwise(tpl, path, Find(Items(segs), path).value);
    }
  }

  // ---------------------------------------------------- exactly which templates mean this

  function NamesOf(caps: seq<Capture>): seq<string> {
    if caps == [] then [] else [caps[0].name] + NamesOf(caps[1..])
  }

  /** Every match captures all groups, in order. */
  lemma {:induction false} MatchNames(items: seq<Item>, s: string, caps: seq<Capture>)
    requires Matches(items, s, caps)
    ensures NamesOf(caps) == Names(items)
    decreases |items|
  {
    if items != [] {
      match items[0]
      case Plain(p) =>
        var k :| 0 <= k <= |s| && PieceMatches(p, s[..k]) && Matches(items[1..], s[k..], caps);
        MatchNames(items[1..], s[k..], caps);
        assert [] + Names(items[1..]) == Names(items);
      case Group(name, _) =>
        MatchNames(items[1..], s[|caps[0].text|..], caps[1..]);
    }
  }

  lemma {:induction false} CapturesNameKeys(segs: seq<Segment>, values: seq<string>)
    requires |segs| == |values|
    ensures NamesOf(Captures(segs, values)) == Keys(segs)
  {
    if segs != [] {
      var more := Captures(segs[1..], values[1..]);
      CapturesNameKeys(segs[1..], values[1..]);
      if segs[0].Param? {
        assert ([Capture(segs[0].key, values[0])] + more)[1..] == more;
      } else {
        assert [] + more == more && [] + Keys(segs[1..]) == Keys(segs[1..]);
      }
    }
  }

  /** The text compiles to an expression that finds in every path what the segments say. */
  ghost predicate MeansItsSegments(tpl: string) {
    var segs := Segments(tpl);
    var compiled := Compile(RegexText(segs));
    && compiled.Some?
    && (forall path: string :: path != "" && path[0] == '/' ==> FindsSegments(compiled.value, segs, path))
  }

  ghost predicate FindsSegments(items: seq<Item>, segs: seq<Segment>, path: string)
    requires path != ""
  {
    var values := Split(path[1..], '/');
    Find(items, path) == if AllFit(segs, values) then Some(Captures(segs, values)) else None
  }

  /** A path every template accepts: its literals, and a letter for each parameter. */
  function Sample(segs: seq<Segment>): (values: seq<string>)
    ensures |values| == |segs|
  {
    seq(|segs|, i requires 0 <= i < |segs| => if segs[i].Literal? then segs[i].text else "x")
  }

  /**
   A template without wildcards compiles to an expression with the meaning of its segments if
   and only if its keys are valid group names: whatever else it compiles to cannot capture the
   parameters under their keys.
   */
  lemma {:induction false} MeaningExactlyWithValidKeys(tpl: string)
    requires NoWildcard(Segments(tpl))
    ensures MeansItsSegments(tpl) <==> ValidNames(Keys(Segments(tpl)))
  {
    var segs := Segments(tpl);
    if ValidNames(Keys(segs)) {
      CompilesAsSegments(tpl);
      hide Segments, Compile, RegexText, Find, ValidNames;
      forall path: string | path != "" && path[0] == '/'
        ensures FindsSegments(Compile(RegexText(segs)).value, segs, path)
      {
        TemplateMeaning(tpl, path);
      }
    }
    if MeansItsSegments(tpl) {
      var values, items := Sample(segs), Compile(RegexText(segs)).value;
      SampleFits(segs);
      ValuesAreSplit(tpl, values);
      var path := Path(values);
      hide Segments, Find, RegexText, Path, Split, Matches, Captures, Sample, AllFit, ParseItems;
      assert FindsSegments(items, segs, path);
      FindIsExact(items, path);
      MatchNames(items, path, Captures(segs, values));
      CapturesNameKeys(segs, values);
    }
  }

  lemma SampleFits(segs: seq<Segment>)
    requires NoWildcard(segs)
    ensures AllFit(segs, Sample(segs))
  {
  }

  // ------------------------------------------------------ templates as they are written

  lemma {:induction false} CutQueryStops(s: string, rest: string)
    requires Lacks(s, '?') && (rest == "" || rest[0] == '?')
    ensures CutQuery(s + rest) == s
  {
    if s == "" {
      assert s + rest == rest;
    } else {
      CutQueryStops(s[1..], rest);
      assert (s + rest)[1..] == s[1..] + rest;
      assert [s[0]] + s[1..] == s;
    }
  }

  lemma {:induction false} JoinLacks(parts: seq<string>, sep: char, c: char)
    requires AllLack(parts, c) && c != sep
    ensures Lacks(Join(parts, sep), c)
  {
    if |parts| > 1 {
      JoinLacks(parts[1..], sep, c);
    }
  }

  /** A joined string ends as its last part does. */
  lemma {:induction false} JoinEnds(parts: seq<string>, sep: char)
    requires parts != [] && parts[|parts| - 1] != ""
    ensures var s, last := Join(parts, sep), parts[|parts| - 1];
            s != "" && s[|s| - 1] == last[|last| - 1]
  {
    if |parts| > 1 {
      JoinEnds(parts[1..], sep);
    }
  }

  /** The part is written as a parameter with that key. */
  predicate IsParam(part: string, key: string) {
    part == ":" + key || part == "{" + key + "}"
  }

  /** What a part stands for, by how it is written. */
  ghost predicate Written(part: string, seg: Segment) {
    && (part == "*" ==> seg == Wildcard)
    && (forall key :: IsParam(part, key) ==> seg == Param(key))
    && (part != "*" && (forall key :: !IsParam(part, key)) ==> seg == Literal(part))
  }

  /** The forms of a parameter, by their first and last characters. */
  lemma {:induction false} ParamsAreWritten(part: string)
    ensures (exists key :: IsParam(part, key))
            <==> part != "" && (part[0] == ':' || (part[0] == '{' && part[|part| - 1] == '}'))
  {
    if part != "" && part[0] == ':' {
      assert part == ":" + part[1..] && IsParam(part, part[1..]);
    } else if part != "" && part[0] == '{' && part[|part| - 1] == '}' {
      assert part == "{" + part[1..|part| - 1] + "}" && IsParam(part, part[1..|part| - 1]);
    }
  }

  lemma {:induction false} ClassifiedAsWritten(part: string)
    ensures Written(part, Classify(part))
  {
    ParamsAreWritten(part);
    forall key | IsParam(part, key)
      ensures Classify(part) == Param(key)
    {
      assert part == ":" + key ==> part[1..] == key;
      assert part == "{" + key + "}" ==> part[1..|part| - 1] == key;
    }
  }

  /** A template of some parts, with or without one more slash, and a query. */
  lemma {:induction false} PartsOfText(parts: seq<string>, slash: bool, query: Option<string>)
    requires parts != [] && AllLack(parts, '/') && AllLack(parts, '?')
    requires slash || |parts| == 1 || parts[|parts| - 1] != ""
    ensures var base := "/" + Join(parts, '/') + if slash then "/" else "";
            Parts(base + if query.Some? then "?" + query.value else "") == parts
  {
    var joined := Join(parts, '/');
    var s := "/" + joined + if slash then "/" else "";
    JoinLacks(parts, '/', '?');
    SplitOfJoin(parts, '/');
    CutQueryStops(s, if query.Some? then "?" + query.value else "");
    var q := if query.Some? then "?" + query.value else "";
    assert Lacks(s, '?') && ("/" + joined)[1..] == joined;
    if slash {
      assert s == "/" + joined + "/" && s[..|s| - 1] == "/" + joined;
      assert TrimPrefix(TrimSuffix(s, '/'), '/') == joined;
    } else if parts[|parts| - 1] == "" {
      assert joined == "" && s == "/" && s[..|s| - 1] == "";
      assert TrimPrefix(TrimSuffix(s, '/'), '/') == joined;
    } else {
      JoinEnds(parts, '/');
      var last := parts[|parts| - 1];
      assert Lacks(last, '/') && last[|last| - 1] != '/';
      assert s == "/" + joined && s[|s| - 1] == last[|last| - 1];
      assert TrimPrefix(TrimSuffix(s, '/'), '/') == joined;
    }
    hide Join, Split, CutQuery;
    assert CutQuery(s + q) == s;
  }

  /**
   For every template given as text: segment by segment, ":k" and "{k}" are the parameter k, "*" is
   the wildcard, and anything else is itself.
   */
  lemma {:induction false} SegmentsAreWritten(parts: seq<string>, slash: bool, query: Option<string>)
    requires parts != [] && AllLack(parts, '/') && AllLack(parts, '?')
    requires slash || |parts| == 1 || parts[|parts| - 1] != ""
    ensures var base := "/" + Join(parts, '/') + if slash then "/" else "";
            var segs := Segments(base + if query.Some? then "?" + query.value else "");
            |segs| == |parts| && forall i :: 0 <= i < |parts| ==> Written(parts[i], segs[i])
  {
    PartsOfText(parts, slash, query);
    hide Parts, Classify, Join, Written;
    forall i | 0 <= i < |parts|
      ensures Written(parts[i], Classify(parts[i]))
    {
      ClassifiedAsWritten(parts[i]);
    }
  }

  // -------------------------------------------------------------- a key that is not a name

  /** The expression that "/:id>x" compiles to: the key ends at the '>', the rest is literal. */
  const OddItems := [Slash, Group("id", [Piece(Char('x'), Once), Piece(Char('>'), Once), Piece(NotSlash, Plus)])]

  lemma OddBody()
    ensures ParseBody("x>[^/]+)") == Some(([Piece(Char('x'), Once), Piece(Char('>'), Once), Piece(NotSlash, Plus)], ""))
  {
    var x, gt, any := Piece(Char('x'), Once), Piece(Char('>'), Once), Piece(NotSlash, Plus);
    ParseParamBody("");
    assert "[^/]+)" + "" == "[^/]+)";
    assert ">[^/]+)"[1..] == "[^/]+)" && "x>[^/]+)"[1..] == ">[^/]+)";
    assert ParsePiece(">[^/]+)") == Some((gt, "[^/]+)"));
    assert [gt] + [any] == [gt, any];
    assert ParseBody(">[^/]+)") == Some(([gt, any], ""));
    assert ParsePiece("x>[^/]+)") == Some((x, ">[^/]+)"));
    assert [x] + [gt, any] == [x, gt, any];
  }

  lemma OddParts()
    ensures Parts("/:id>x") == [":id>x"]
  {
    PartsOfText([":id>x"], false, None);
    assert "/" + ":id>x" + "" + "" == "/:id>x";
    hide Parts;
  }

  lemma OddSegments()
    ensures Segments("/:id>x") == [Param("id>x")]
  {
    OddParts();
    hide Parts;
    assert ":id>x"[1..] == "id>x";
  }

  lemma OddText()
    ensures RegexText([Param("id>x")]) == "/" + "(?P<id>x>[^/]+)"
  {
    assert Rendered(Param("id>x")) == "(?P<id>x>[^/]+)";
    hide Rendered;
    assert RenderedAll([Param("id>x")]) == ["(?P<id>x>[^/]+)"];
  }

  lemma OddItem()
    ensures ParseItem("(?P<id>x>[^/]+)") == Some((OddItems[1], ""))
  {
    hide ParseName, ParseBody, ParsePiece;
    var inner := "(?P<id>x>[^/]+)";
    OddBody();
    ParseNameBack("id", "x>[^/]+)");
    assert inner[4..] == "id" + ">" + "x>[^/]+)";
    assert "(?P<" <= inner;
  }

  lemma OddNames()
    ensures ValidNames(Names(OddItems))
  {
    assert OddItems[1..] == [OddItems[1]] && [OddItems[1]][1..] == [];
    assert Names([OddItems[1]]) == ["id"] + Names([]);
    assert Names(OddItems) == [] + Names([OddItems[1]]);
    assert Names(OddItems) == ["id"];
  }

  lemma OddCompiles()
    ensures Compile("/" + "(?P<id>x>[^/]+)") == Some(OddItems)
  {
    var inner := "(?P<id>x>[^/]+)";
    OddItem();
    OddNames();
    assert ParseItems("") == Some([]);
    hide ParseItem, ParseItems, ValidNames;
    ParseFirst(inner, OddItems[1], "");
    ParseSlash(inner);
    assert [Slash] + ([OddItems[1]] + []) == OddItems;
  }

  lemma OddNeedsX(s: string, caps: seq<Capture>)
    requires Matches(OddItems, s, caps)
    ensures |s| >= 2 && s[1] == 'x'
  {
    assert OddItems == [Slash] + OddItems[1..];
    MatchChar('/', OddItems[1..], s, caps);
    var text, body := caps[0].text, OddItems[1].body;
    assert OddItems[1..][0] == Group("id", body) && PiecesMatch(body, text) && text <= s[1..];
    var k :| 0 <= k <= |text| && PieceMatches(body[0], text[..k]) && PiecesMatch(body[1..], text[k..]);
    assert AtomMatches(Char('x'), text[..k][0]);
    assert text[0] == s[1..][0];
  }

  /**
   Compiling is not enough. The template "/:id>x" compiles although "id>x" is no group name:
   its expression wants a literal "x>" before what it captures, so it does not match "/5",
   which the one parameter segment of the template should.
   */
  lemma CompilesWithAnotherMeaning(caps: seq<Capture>)
    ensures Segments("/:id>x") == [Param("id>x")] && Compile(RegexText(Segments("/:id>x"))) == Some(OddItems)
    ensures AllFit([Param("id>x")], ["5"]) && Split("/5"[1..], '/') == ["5"]
    ensures !Matches(OddItems, "/5", caps)
  {
    OddSegments();
    OddText();
    OddCompiles();
    SplitLast("5", '/');
    assert "/5"[1..] == "5";
    hide *;
    if Matches(OddItems, "/5", caps) {
      OddNeedsX("/5", caps);
    }
  }
}
