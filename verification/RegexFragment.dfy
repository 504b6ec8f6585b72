/**
 The part of Go's regular expression syntax that route templates compile to, with a parser
 from pattern strings, a matching relation, and the backtracking search that prefers the
 longest repetition, as FindStringSubmatch does.

 Patterns are anchored at both ends. The parser answers None for an invalid pattern and
 also for any pattern outside the fragment.
 */
module RegexFragment {
  import opened Options

  datatype Atom = Char(c: char) | Any | NotSlash

  datatype Quantifier = Once | Star | Plus

  datatype Piece = Piece(atom: Atom, quantifier: Quantifier)

  datatype Item = Plain(piece: Piece) | Group(name: string, body: seq<Piece>)

  /** The characters that regexp.QuoteMeta escapes. */
  predicate IsMeta(c: char) {
    || c == '\\' || c == '.' || c == '+' || c == '*' || c == '?' || c == '(' || c == ')' || c == '|'
    || c == '[' || c == ']' || c == '{' || c == '}' || c == '^' || c == '$'
  }

  function Quoted(c: char): string {
    if IsMeta(c) then ['\\', c] else [c]
  }

  function QuoteMeta(s: string): string {
    if s == "" then "" else Quoted(s[0]) + QuoteMeta(s[1..])
  }

  lemma MetaIsSpecial(c: char)
    ensures IsMeta(c) <==> c in "\\.+*?()|[]{}^$"
  {
    var special := "\\.+*?()|[]{}^$";
    assert special[0] == '\\' && special[1] == '.' && special[2] == '+' && special[3] == '*' && special[4] == '?';
    assert special[5] == '(' && special[6] == ')' && special[7] == '|' && special[8] == '[' && special[9] == ']';
    assert special[10] == '{' && special[11] == '}' && special[12] == '^' && special[13] == '$' && |special| == 14;
  }

  /** The fourteen special characters are escaped, every other one stands for itself. */
  lemma {:induction false} QuotedExactly(s: string, c: char)
    ensures QuoteMeta(s + [c]) == QuoteMeta(s) + if c in "\\.+*?()|[]{}^$" then "\\" + [c] else [c]
  {
    hide IsMeta;
    if s == "" {
      assert QuoteMeta([c][1..]) == "" && s + [c] == [c];
      MetaIsSpecial(c);
    } else {
      QuotedExactly(s[1..], c);
      assert (s + [c])[1..] == s[1..] + [c];
    }
  }

  // ----------------------------------------------------------------------------- parsing

  /** One atom and what follows it. */
  function ParseAtom(s: string): (r: Option<(Atom, string)>)
    ensures r.Some? ==> |r.value.1| < |s|
  {
    if s == "" then None
    else if s[0] == '\\' then (if |s| >= 2 && IsMeta(s[1]) then Some((Char(s[1]), s[2..])) else None)
    else if s[0] == '.' then Some((Any, s[1..]))
    else if "[^/]" <= s then Some((NotSlash, s[4..]))
    else if IsMeta(s[0]) then None
    else Some((Char(s[0]), s[1..]))
  }

  function ParsePiece(s: string): (r: Option<(Piece, string)>)
    ensures r.Some? ==> |r.value.1| < |s|
  {
    match ParseAtom(s)
    case None => None
    case Some((atom, rest)) =>
      if rest != "" && rest[0] == '*' then Some((Piece(atom, Star), rest[1..]))
      else if rest != "" && rest[0] == '+' then Some((Piece(atom, Plus), rest[1..]))
      else Some((Piece(atom, Once), rest))
  }

  /** The pieces of a group up to its closing parenthesis, and what follows that. */
  function ParseBody(s: string): (r: Option<(seq<Piece>, string)>)
    ensures r.Some? ==> |r.value.1| < |s|
    decreases |s|
  {
    if s != "" && s[0] == ')' then Some(([], s[1..]))
    else
      match ParsePiece(s)
      case None => None
      case Some((piece, rest)) =>
        match ParseBody(rest)
        case None => None
        case Some((pieces, after)) => Some(([piece] + pieces, after))
  }

  /** The characters up to the next '>', and what follows it. */
  function ParseName(s: string): (r: Option<(string, string)>)
    ensures r.Some? ==> |r.value.1| < |s|
  {
    if s == "" then None
    else if s[0] == '>' then Some(("", s[1..]))
    else match ParseName(s[1..])
      case None => None
      case Some((name, rest)) => Some(([s[0]] + name, rest))
  }

  function ParseItem(s: string): (r: Option<(Item, string)>)
    ensures r.Some? ==> |r.value.1| < |s|
  {
    if "(?P<" <= s then
      match ParseName(s[4..])
      case None => None
      case Some((name, rest)) =>
        match ParseBody(rest)
        case None => None
        case Some((body, after)) => Some((Group(name, body), after))
    else
      match ParsePiece(s)
      case None => None
      case Some((piece, rest)) => Some((Plain(piece), rest))
  }

  function ParseItems(s: string): Option<seq<Item>>
    decreases |s|
  {
    if s == "" then Some([])
    else match ParseItem(s)
      case None => None
      case Some((item, rest)) =>
        match ParseItems(rest)
        case None => None
        case Some(items) => Some([item] + items)
  }

  predicate IsWord(c: char) {
    'a' <= c <= 'z' || 'A' <= c <= 'Z' || '0' <= c <= '9' || c == '_'
  }

  /** A group name is a non-empty string of word characters. */
  predicate ValidName(name: string) {
    name != "" && forall i :: 0 <= i < |name| ==> IsWord(name[i])
  }

  function Names(items: seq<Item>): seq<string> {
    if items == [] then []
    else (if items[0].Group? then [items[0].name] else []) + Names(items[1..])
  }

  predicate ValidNames(names: seq<string>) {
    forall i :: 0 <= i < |names| ==> ValidName(names[i])
  }

  /** regexp.Compile of "^" + pattern + "$": group names must be valid; a name may be used again. */
  function Compile(pattern: string): Option<seq<Item>> {
    match ParseItems(pattern)
    case None => None
    case Some(items) => if ValidNames(Names(items)) then Some(items) else None
  }

  // ---------------------------------------------------------------------------- matching

  predicate AtomMatches(a: Atom, c: char) {
    match a
    case Char(x) => c == x
    case Any => c != '\n'
    case NotSlash => c != '/'
  }

  predicate PieceMatches(p: Piece, s: string) {
    && (forall i :: 0 <= i < |s| ==> AtomMatches(p.atom, s[i]))
    && match p.quantifier
       case Once => |s| == 1
       case Star => true
       case Plus => |s| >= 1
  }

  predicate PiecesMatch(ps: seq<Piece>, s: string)
    decreases |ps|
  {
    if ps == [] then s == ""
    else exists k :: 0 <= k <= |s| && PieceMatches(ps[0], s[..k]) && PiecesMatch(ps[1..], s[k..])
  }

  /** A named group and the text it captures. */
  datatype Capture = Capture(name: string, text: string)

  /** The whole of `s` matches, with the groups capturing `caps` in order. */
  predicate Matches(items: seq<Item>, s: string, caps: seq<Capture>)
    decreases |items|
  {
    if items == [] then s == "" && caps == []
    else match items[0]
      case Plain(p) =>
        exists k :: 0 <= k <= |s| && PieceMatches(p, s[..k]) && Matches(items[1..], s[k..], caps)
      case Group(name, body) =>
        && caps != [] && caps[0].name == name && caps[0].text <= s
        && PiecesMatch(body, caps[0].text) && Matches(items[1..], s[|caps[0].text|..], caps[1..])
  }

  // --------------------------------------------------------------------------- searching

  /** The match that backtracking finds first, trying the longest text for each item first. */
  function Find(items: seq<Item>, s: string): Option<seq<Capture>>
    decreases |items|, |s| + 1
  {
    if items == [] then (if s == "" then Some([]) else None)
    else FindUpTo(items, s, |s|)
  }

  /** The first item takes at most k characters. */
  function FindUpTo(items: seq<Item>, s: string, k: nat): Option<seq<Capture>>
    requires items != [] && k <= |s|
    decreases |items|, k
  {
    var here :=
      if ItemMatches(items[0], s[..k]) then
        match Find(items[1..], s[k..])
        case Some(caps) => Some((if items[0].Group? then [Capture(items[0].name, s[..k])] else []) + caps)
        case None => None
      else None;
    if here.Some? then here else if k == 0 then None else FindUpTo(items, s, k - 1)
  }

  predicate ItemMatches(item: Item, s: string) {
    match item
    case Plain(p) => PieceMatches(p, s)
    case Group(_, body) => PiecesMatch(body, s)
  }

  lemma {:induction false} FindUpToIsSound(items: seq<Item>, s: string, k: nat)
    requires items != [] && k <= |s|
    ensures forall caps :: FindUpTo(items, s, k) == Some(caps) ==> Matches(items, s, caps)
    decreases |items|, k
  {
    var rest, after := items[1..], s[k..];
    if ItemMatches(items[0], s[..k]) && Find(rest, after).Some? {
      if rest != [] {
        FindUpToIsSound(rest, after, |after|);
      }
      var caps := Find(rest, after).value;
      if items[0].Group? {
        var all := [Capture(items[0].name, s[..k])] + caps;
        assert all[1..] == caps;
      } else {
        assert [] + caps == caps;
      }
    } else if k > 0 {
      FindUpToIsSound(items, s, k - 1);
    }
  }

  lemma {:induction false} FindIsComplete(items: seq<Item>, s: string, caps: seq<Capture>)
    requires Matches(items, s, caps)
    ensures Find(items, s).Some?
    decreases |items|, |s| + 1
  {
    if items != [] {
      match items[0] {
        case Plain(p) =>
          var k :| 0 <= k <= |s| && PieceMatches(p, s[..k]) && Matches(items[1..], s[k..], caps);
          FindIsComplete(items[1..], s[k..], caps);
          FindUpToReaches(items, s, |s|, k);
        case Group(name, body) =>
          var k := |caps[0].text|;
          assert s[..k] == caps[0].text;
          FindIsComplete(items[1..], s[k..], caps[1..]);
          FindUpToReaches(items, s, |s|, k);
      }
    }
  }

  lemma {:induction false} FindUpToReaches(items: seq<Item>, s: string, k: nat, good: nat)
    requires items != [] && good <= k <= |s| && ItemMatches(items[0], s[..good]) && Find(items[1..], s[good..]).Some?
    ensures FindUpTo(items, s, k).Some?
    decreases k
  {
    if k > good {
      FindUpToReaches(items, s, k - 1, good);
    }
  }

  /** The search succeeds exactly on the strings that match, and what it captures is a match. */
  lemma FindIsExact(items: seq<Item>, s: string)
    ensures Find(items, s) == None <==> forall caps :: !Matches(items, s, caps)
    ensures forall caps :: Find(items, s) == Some(caps) ==> Matches(items, s, caps)
  {
    if Find(items, s).Some? {
      if items != [] {
        FindUpToIsSound(items, s, |s|);
      }
      assert Matches(items, s, Find(items, s).value);
    }
    hide Matches, Find;
    if caps :| Matches(items, s, caps) {
      FindIsComplete(items, s, caps);
    }
  }
}
