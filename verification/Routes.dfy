/**
Search path routes: from a public path to the url of a storage backend and back.  Static routes
map a location prefix; dynamic routes match a template such as /projects/{name}.
 */
module Routes {
  import opened Wrappers

  // ------------------------------------------------------------------
  // Paths
  // ------------------------------------------------------------------

  /** The components of an absolute path. */
  type Path = seq<string>

  predicate ValidPath(p: Path) {
    forall i | 0 <= i < |p| :: p[i] != "" && p[i] != "." && '/' !in p[i]
  }

  function FirstSlash(s: string): (i: nat)
    ensures i <= |s| && '/' !in s[..i] && (i < |s| ==> s[i] == '/')
  {
    if s == "" || s[0] == '/' then 0 else 1 + FirstSlash(s[1..])
  }

  /** Splits at slashes; empty components and dots disappear. */
  function Components(s: string): Path
    decreases |s|
  {
    if s == "" then []
    else
      var i := FirstSlash(s);
      (if i == 0 || s[..i] == "." then [] else [s[..i]]) + (if i < |s| then Components(s[i + 1..]) else [])
  }

  function Join(p: Path): string {
    if p == [] then "" else "/" + p[0] + Join(p[1..])
  }

  function Str(p: Path): string {
    if p == [] then "/" else Join(p)
  }

  lemma {:induction false} FirstSlashAt(c: string, rest: string)
    requires '/' !in c && (rest == "" || rest[0] == '/')
    ensures FirstSlash(c + rest) == |c|
    decreases |c|
  {
    if c == "" {
      assert c + rest == rest;
    } else {
      assert c[0] in c && (c + rest)[1..] == c[1..] + rest;
      FirstSlashAt(c[1..], rest);
    }
  }

  lemma {:induction false} ComponentsAfterSlash(s: string)
    ensures Components("/" + s) == Components(s)
  {
    assert ("/" + s)[1..] == s;
    assert FirstSlash("/" + s) == 0;
  }

  lemma {:induction false} ComponentsUnfold(s: string, i: nat)
    requires s != "" && i == FirstSlash(s) && i > 0 && s[..i] != "."
    ensures Components(s) == [s[..i]] + (if i < |s| then Components(s[i + 1..]) else [])
  {
  }

  lemma {:induction false} ComponentsHead(c: string, s: string)
    requires ValidPath([c]) && (s == "" || s[0] == '/')
    ensures Components(c + s) == [c] + Components(s)
  {
    assert [c][0] == c;
    FirstSlashAt(c, s);
    ComponentsUnfold(c + s, |c|);
    assert (c + s)[..|c|] == c;
    if s != "" {
      assert (c + s)[|c| + 1..] == s[1..] && "/" + s[1..] == s;
      ComponentsAfterSlash(s[1..]);
    }
  }

  /** Printing a path and parsing it again gives the same components. */
  lemma {:induction false} PathRoundTrip(p: Path)
    requires ValidPath(p)
    ensures Components(Join(p)) == p && Components(Str(p)) == p
    decreases |p|
  {
    if p == [] {
      ComponentsAfterSlash("");
      assert "/" + "" == "/";
    } else {
      var c, rest := p[0], Join(p[1..]);
      PathRoundTrip(p[1..]);
      assert Join(p) == "/" + (c + rest);
      ComponentsAfterSlash(c + rest);
      ComponentsHead(c, rest);
      assert p == [c] + p[1..];
    }
  }

  /** Whatever the text, its components are proper ones: empty ones and dots are gone. */
  lemma {:induction false} ComponentsAreValid(s: string)
    ensures ValidPath(Components(s))
    decreases |s|
  {
    if s != "" {
      var i := FirstSlash(s);
      if i < |s| {
        ComponentsAreValid(s[i + 1..]);
      }
    }
  }

  /** `is_relative_to`: component-wise prefix. */
  predicate IsRelativeTo(p: Path, location: Path) {
    location <= p
  }

  function RelativeTo(p: Path, location: Path): Path
    requires IsRelativeTo(p, location)
  {
    p[|location|..]
  }

  // ------------------------------------------------------------------
  // Formatting
  // ------------------------------------------------------------------

  predicate BraceFree(s: string) {
    '{' !in s && '}' !in s
  }

  function FirstClose(s: string): (i: nat)
    ensures i <= |s| && '}' !in s[..i] && (i < |s| ==> s[i] == '}')
  {
    if s == "" || s[0] == '}' then 0 else 1 + FirstClose(s[1..])
  }

  function Prepend(c: string, r: Option<string>): Option<string> {
    if r.Some? then Some(c + r.value) else None
  }

  /** `str.format_map` for plain replacement fields; None when it raises. */
  function Format(s: string, args: map<string, string>): Option<string>
    decreases |s|
  {
    if s == "" then Some("")
    else if s[0] == '{' then
      if |s| > 1 && s[1] == '{' then Prepend("{", Format(s[2..], args))
      else
        var i := FirstClose(s[1..]);
        if i == |s[1..]| || s[1..][..i] !in args then None
        else Prepend(args[s[1..][..i]], Format(s[1..][i + 1..], args))
    else if s[0] == '}' then
      if |s| > 1 && s[1] == '}' then Prepend("}", Format(s[2..], args)) else None
    else Prepend([s[0]], Format(s[1..], args))
  }

  /** The names of the replacement fields; None when the braces are malformed. */
  function Fields(s: string): Option<set<string>>
    decreases |s|
  {
    if s == "" then Some({})
    else if s[0] == '{' then
      if |s| > 1 && s[1] == '{' then Fields(s[2..])
      else
        var i := FirstClose(s[1..]);
        if i == |s[1..]| then None
        else
          var more := Fields(s[1..][i + 1..]);
          if more.Some? then Some(more.value + {s[1..][..i]}) else None
    else if s[0] == '}' then
      if |s| > 1 && s[1] == '}' then Fields(s[2..]) else None
    else Fields(s[1..])
  }

  /** A template can be formatted from values for `names`. */
  predicate Formattable(s: string, names: set<string>) {
    Fields(s).Some? && Fields(s).value <= names
  }

  /** Formatting raises exactly when the braces are malformed or a field has no value. */
  lemma {:induction false} FormatSucceedsIff(s: string, args: map<string, string>)
    ensures Format(s, args).Some? <==> Formattable(s, args.Keys)
    decreases |s|
  {
    if s != "" {
      if s[0] == '{' {
        if |s| > 1 && s[1] == '{' {
          FormatSucceedsIff(s[2..], args);
        } else {
          var i := FirstClose(s[1..]);
          if i < |s[1..]| {
            FormatSucceedsIff(s[1..][i + 1..], args);
          }
        }
      } else if s[0] == '}' {
        if |s| > 1 && s[1] == '}' {
          FormatSucceedsIff(s[2..], args);
        }
      } else {
        FormatSucceedsIff(s[1..], args);
      }
    }
  }

  lemma {:induction false} FormatPlainPrefix(text: string, rest: string, args: map<string, string>)
    requires BraceFree(text)
    ensures Format(text + rest, args) == Prepend(text, Format(rest, args))
    decreases |text|
  {
    if text == "" {
      assert text + rest == rest;
      assert Format(rest, args).Some? ==> "" + Format(rest, args).value == Format(rest, args).value;
    } else {
      var s := text + rest;
      assert s[0] == text[0] && s[1..] == text[1..] + rest;
      assert text[0] in text;
      FormatPlainPrefix(text[1..], rest, args);
      if Format(rest, args).Some? {
        assert [text[0]] + (text[1..] + Format(rest, args).value) == text + Format(rest, args).value;
      }
    }
  }

  function Doubled(c: char): string {
    if c == '{' || c == '}' then [c, c] else [c]
  }

  function DoubleBraces(text: string): string {
    if text == "" then "" else Doubled(text[0]) + DoubleBraces(text[1..])
  }

  lemma FormatFirst(c: char, rest: string, args: map<string, string>)
    ensures Format(Doubled(c) + rest, args) == Prepend([c], Format(rest, args))
  {
    assert ([c, c] + rest)[2..] == rest && ([c] + rest)[1..] == rest;
  }

  /** Any text can be put into a template: with its braces doubled it formats to itself. */
  lemma {:induction false} FormatUndoesDoubling(text: string, rest: string, args: map<string, string>)
    ensures Format(DoubleBraces(text) + rest, args) == Prepend(text, Format(rest, args))
    decreases |text|
  {
    if text == "" {
      assert DoubleBraces(text) + rest == rest;
      PrependNothing(Format(rest, args));
    } else {
      var c, more := text[0], text[1..];
      var tail := DoubleBraces(more) + rest;
      assert DoubleBraces(text) + rest == Doubled(c) + tail by {
        assert Doubled(c) + DoubleBraces(more) + rest == Doubled(c) + tail;
      }
      FormatFirst(c, tail, args);
      FormatUndoesDoubling(more, rest, args);
      PrependTwice([c], more, Format(rest, args));
      assert [c] + more == text;
    }
  }

  lemma PrependNothing(r: Option<string>)
    ensures Prepend("", r) == r
  {
    if r.Some? {
      assert "" + r.value == r.value;
    }
  }

  lemma {:induction false} FirstCloseAt(name: string, rest: string)
    requires BraceFree(name) && rest != "" && rest[0] == '}'
    ensures FirstClose(name + rest) == |name|
    decreases |name|
  {
    if name == "" {
      assert name + rest == rest;
    } else {
      assert name[0] in name && (name + rest)[1..] == name[1..] + rest;
      FirstCloseAt(name[1..], rest);
    }
  }

  lemma PrependTwice(a: string, b: string, r: Option<string>)
    ensures Prepend(a, Prepend(b, r)) == Prepend(a + b, r)
  {
    if r.Some? {
      assert a + (b + r.value) == (a + b) + r.value;
    }
  }

  lemma FormatField(name: string, rest: string, args: map<string, string>)
    requires name != "" && BraceFree(name) && name in args
    ensures Format("{" + name + "}" + rest, args) == Prepend(args[name], Format(rest, args))
  {
    var s := "{" + name + "}" + rest;
    var t := name + ("}" + rest);
    assert s[1..] == t && s[1] == name[0] && name[0] in name;
    FirstCloseAt(name, "}" + rest);
    assert t[..|name|] == name && t[|name| + 1..] == rest;
  }

  // ------------------------------------------------------------------
  // Templates
  // ------------------------------------------------------------------

  /** A piece of a template: literal text, or a variable with the expression it must match. */
  datatype Piece = Literal(text: string) | Variable(name: string, expr: string)

  /** What a part of a location turns out to be. */
  datatype Part = Good(piece: Piece) | Bad

  const GOOD: string := "[^{}/]+"

  predicate IsIdentStart(c: char) {
    c == '_' || 'a' <= c <= 'z' || 'A' <= c <= 'Z'
  }

  predicate IsIdent(s: string) {
    s != "" && IsIdentStart(s[0]) && forall i | 0 <= i < |s| :: IsIdentStart(s[i]) || '0' <= s[i] <= '9'
  }

  function FirstColon(s: string): (i: nat)
    ensures i <= |s|
  {
    if s == "" || s[0] == ':' then 0 else 1 + FirstColon(s[1..])
  }

  /** {name}, {name:expr}, or text without braces; anything else is refused. */
  function Classify(part: string): Part {
    var n := |part|;
    if n >= 2 && part[0] == '{' && part[n - 1] == '}' then
      var inner := part[1..n - 1];
      var i := FirstColon(inner);
      if IsIdent(inner) then Good(Variable(inner, GOOD))
      else if i + 1 < |inner| && IsIdent(inner[..i]) && '\n' !in inner[i + 1..] then
        Good(Variable(inner[..i], inner[i + 1..]))
      else Bad
    else if BraceFree(part) then Good(Literal(part))
    else Bad
  }

  function Shift(r: Option<nat>): Option<nat> {
    if r.Some? then Some(r.value + 1) else None
  }

  /** The length up to the closing brace of a variable; braces may be nested once. */
  function VariableEnd(s: string, nested: bool): (r: Option<nat>)
    ensures r.Some? ==> 0 < r.value <= |s|
  {
    if s == "" then None
    else if s[0] == '}' then if nested then Shift(VariableEnd(s[1..], false)) else Some(1)
    else if s[0] == '{' then if nested then None else Shift(VariableEnd(s[1..], true))
    else Shift(VariableEnd(s[1..], nested))
  }

  /** The length of the variable at the start of `s`, if there is one. */
  function VariableAt(s: string): (r: Option<nat>)
    ensures r.Some? ==> 1 < r.value <= |s|
  {
    if |s| > 1 && s[0] == '{' && IsIdentStart(s[1]) then Shift(VariableEnd(s[1..], false)) else None
  }

  /** Splits a location into text and variables in turn, `text` being the text read so far. */
  function SplitFrom(text: string, s: string): (r: seq<string>)
    ensures r != [] && text <= r[0]
    decreases |s|
  {
    if s == "" then [text]
    else
      var n := VariableAt(s);
      if n.Some? then [text, s[..n.value]] + SplitFrom("", s[n.value..]) else SplitFrom(text + [s[0]], s[1..])
  }

  function Split(location: string): seq<string> {
    SplitFrom("", location)
  }

  function Concat(parts: seq<string>): string {
    if parts == [] then "" else parts[0] + Concat(parts[1..])
  }

  /** Splitting loses nothing: the parts put together are the location. */
  lemma {:induction false} PartsMakeTheLocation(text: string, s: string)
    ensures Concat(SplitFrom(text, s)) == text + s
    decreases |s|
  {
    if s == "" {
      assert [text][1..] == [];
    } else if VariableAt(s).Some? {
      var n := VariableAt(s).value;
      var rest := SplitFrom("", s[n..]);
      var parts := [text, s[..n]] + rest;
      PartsMakeTheLocation("", s[n..]);
      assert parts[1..][1..] == rest;
      assert Concat(parts[1..]) == s[..n] + Concat(rest) == s;
    } else {
      PartsMakeTheLocation(text + [s[0]], s[1..]);
      assert (text + [s[0]]) + s[1..] == text + s;
    }
  }

  function FieldOf(p: Piece): string {
    match p
    case Literal(text) => text
    case Variable(name, _) => "{" + name + "}"
  }

  function Formatter(ps: seq<Piece>): string {
    if ps == [] then "" else Formatter(ps[..|ps| - 1]) + FieldOf(ps[|ps| - 1])
  }

  const SPECIAL: string := "()[]{}?*+-|^$\\.&~# \t\n\r\U{0B}\U{0C}"

  /** `re.escape`. */
  function Escape(text: string): string {
    if text == "" then "" else (if text[0] in SPECIAL then "\\" else "") + [text[0]] + Escape(text[1..])
  }

  function Unescape(s: string): string {
    if s == "" then ""
    else if s[0] == '\\' && |s| > 1 then [s[1]] + Unescape(s[2..])
    else [s[0]] + Unescape(s[1..])
  }

  /** Every special character has a backslash before it. */
  predicate NoBareSpecial(s: string) {
    s == "" ||
    (if s[0] == '\\' then |s| > 1 && NoBareSpecial(s[2..]) else s[0] !in SPECIAL && NoBareSpecial(s[1..]))
  }

  /** Escaped text stands for itself, with nothing left that the engine would interpret. */
  lemma {:induction false} EscapeIsLiteral(text: string)
    ensures Unescape(Escape(text)) == text && NoBareSpecial(Escape(text))
  {
    if text != "" {
      EscapeIsLiteral(text[1..]);
      var c, rest := text[0], Escape(text[1..]);
      assert '\\' in SPECIAL by { assert SPECIAL[12] == '\\' || SPECIAL[13] == '\\'; }
      if c in SPECIAL {
        var s := "\\" + [c] + rest;
        assert Escape(text) == s && s[0] == '\\' && s[1] == c && s[2..] == rest;
      } else {
        var s := "" + [c] + rest;
        assert Escape(text) == s && s[0] == c && s[1..] == rest;
      }
      assert [c] + text[1..] == text;
    }
  }

  function PatternOf(p: Piece): string {
    match p
    case Literal(text) => Escape(text)
    case Variable(name, expr) => "(?P<" + name + ">" + expr + ")"
  }

  /** The regular expression of a template. */
  function Pattern(ps: seq<Piece>): string {
    if ps == [] then "" else Pattern(ps[..|ps| - 1]) + PatternOf(ps[|ps| - 1])
  }

  function Names(ps: seq<Piece>): set<string> {
    set i | 0 <= i < |ps| && ps[i].Variable? :: ps[i].name
  }

  predicate DistinctNames(ps: seq<Piece>) {
    forall i, j | 0 <= i < j < |ps| && ps[i].Variable? && ps[j].Variable? :: ps[i].name != ps[j].name
  }

  predicate WellFormed(ps: seq<Piece>) {
    forall i | 0 <= i < |ps| :: if ps[i].Literal? then BraceFree(ps[i].text) else IsIdent(ps[i].name)
  }

  lemma ClassifyIsWellFormed(part: string)
    ensures Classify(part).Good? ==> WellFormed([Classify(part).piece])
  {
  }

  /** The outcome of building a dynamic route. */
  datatype Built =
    | Template(pieces: seq<Piece>, pattern: string, formatter: string)
    | InvalidPath
    | BadPattern
    | NotAbsolute

  predicate AllGood(parts: seq<string>) {
    forall i | 0 <= i < |parts| :: Classify(parts[i]).Good?
  }

  function PieceOf(part: string): Piece
    requires Classify(part).Good?
  {
    Classify(part).piece
  }

  function Pieces(parts: seq<string>): seq<Piece>
    requires AllGood(parts)
  {
    if parts == [] then [] else Pieces(parts[..|parts| - 1]) + [PieceOf(parts[|parts| - 1])]
  }

  /**
  What becomes of a location: every refusal, in the order in which they are raised.  `compiles` is
  the answer of the regular expression engine; two groups of one name never compile.
   */
  function Build(location: string, compiles: string -> bool): Built {
    var parts := Split(location);
    if !AllGood(parts) then InvalidPath
    else
      var ps := Pieces(parts);
      if !DistinctNames(ps) || !compiles(Pattern(ps)) then BadPattern
      else if !("/" <= Pattern(ps)) || !("/" <= Formatter(ps)) then NotAbsolute
      else Template(ps, Pattern(ps), Formatter(ps))
  }

  lemma PiecesSnoc(parts: seq<string>, n: nat)
    requires n < |parts| && AllGood(parts[..n]) && Classify(parts[n]).Good?
    ensures AllGood(parts[..n + 1]) && Pieces(parts[..n + 1]) == Pieces(parts[..n]) + [PieceOf(parts[n])]
  {
    assert parts[..n + 1] == parts[..n] + [parts[n]];
    assert parts[..n + 1][..n] == parts[..n];
  }

  /** The loop of `DynamicRoute.__init__` over the parts of a location. */
  method BuildPieces(parts: seq<string>) returns (ok: bool, pieces: seq<Piece>, pattern: string, formatter: string)
    ensures ok <==> AllGood(parts)
    ensures ok ==> pieces == Pieces(parts) && pattern == Pattern(pieces) && formatter == Formatter(pieces)
  {
    pieces, pattern, formatter := [], "", "";
    for n := 0 to |parts|
      invariant AllGood(parts[..n]) && pieces == Pieces(parts[..n])
      invariant pattern == Pattern(pieces) && formatter == Formatter(pieces)
    {
      var part := Classify(parts[n]);
      if part.Bad? {
        return false, [], "", "";
      }
      PiecesSnoc(parts, n);
      FormatterSnoc(pieces, part.piece);
      pieces := pieces + [part.piece];
      pattern := pattern + PatternOf(part.piece);
      formatter := formatter + FieldOf(part.piece);
    }
    assert parts[..|parts|] == parts;
    ok := true;
  }

  /** `DynamicRoute.__init__`. */
  method BuildRoute(location: string, compiles: string -> bool) returns (r: Built)
    ensures r == Build(location, compiles)
    ensures "/" <= location ==> r != NotAbsolute
  {
    var ok, pieces, pattern, formatter := BuildPieces(Split(location));
    if !ok {
      return InvalidPath;
    }
    if !DistinctNames(pieces) || !compiles(pattern) {
      return BadPattern;
    }
    if "/" <= location {
      AbsoluteLocationsGiveAbsoluteTemplates(location);
    }
    if !("/" <= pattern) || !("/" <= formatter) {
      return NotAbsolute;
    }
    r := Template(pieces, pattern, formatter);
  }

  lemma {:induction false} FirstPieceComesFirst(ps: seq<Piece>)
    requires ps != []
    ensures FieldOf(ps[0]) <= Formatter(ps) && PatternOf(ps[0]) <= Pattern(ps)
    decreases |ps|
  {
    if |ps| > 1 {
      FirstPieceComesFirst(ps[..|ps| - 1]);
    } else {
      assert ps[..0] == [];
      assert Formatter(ps) == FieldOf(ps[0]) && Pattern(ps) == PatternOf(ps[0]);
    }
  }

  lemma {:induction false} FirstPieceOf(parts: seq<string>)
    requires AllGood(parts) && parts != []
    ensures Pieces(parts) != [] && Pieces(parts)[0] == PieceOf(parts[0])
    decreases |parts|
  {
    if |parts| > 1 {
      FirstPieceOf(parts[..|parts| - 1]);
    } else {
      assert parts[..0] == [];
    }
  }

  /** Text that starts with a slash is a literal, and both of its renderings start with the slash. */
  lemma SlashPartIsLiteral(part: string)
    requires "/" <= part && Classify(part).Good?
    ensures "/" <= FieldOf(PieceOf(part)) && "/" <= PatternOf(PieceOf(part))
  {
    assert part[0] == '/';
    assert Escape(part) == "" + [part[0]] + Escape(part[1..]);
  }

  lemma FirstPartKeepsSlash(location: string)
    requires "/" <= location
    ensures "/" <= Split(location)[0]
  {
    assert location[0] == '/' && "" + [location[0]] == "/";
    assert Split(location) == SplitFrom("/", location[1..]);
  }

  /** The assertions at the end of `__init__` hold for every location that the configuration admits. */
  lemma AbsoluteLocationsGiveAbsoluteTemplates(location: string)
    requires "/" <= location && AllGood(Split(location))
    ensures "/" <= Pattern(Pieces(Split(location))) && "/" <= Formatter(Pieces(Split(location)))
  {
    var parts := Split(location);
    FirstPartKeepsSlash(location);
    SlashPartIsLiteral(parts[0]);
    FirstPieceOf(parts);
    FirstPieceComesFirst(Pieces(parts));
  }

  lemma FormatterSnoc(ps: seq<Piece>, p: Piece)
    ensures Formatter(ps + [p]) == Formatter(ps) + FieldOf(p)
    ensures Pattern(ps + [p]) == Pattern(ps) + PatternOf(p)
  {
    assert (ps + [p])[..|ps|] == ps;
  }

  /** The template of every route that can be built is well formed: the formatter needs no escaping. */
  lemma {:induction false} PiecesAreWellFormed(parts: seq<string>)
    requires AllGood(parts)
    ensures WellFormed(Pieces(parts))
    decreases |parts|
  {
    if parts != [] {
      PiecesAreWellFormed(parts[..|parts| - 1]);
      ClassifyIsWellFormed(parts[|parts| - 1]);
      assert [PieceOf(parts[|parts| - 1])][0] == PieceOf(parts[|parts| - 1]);
    }
  }

  // ------------------------------------------------------------------
  // Templates, printed and built again
  // ------------------------------------------------------------------

  /** How a piece is written in a location. */
  function Print(p: Piece): string {
    match p
    case Literal(text) => text
    case Variable(name, expr) => if expr == GOOD then "{" + name + "}" else "{" + Inner(name, expr) + "}"
  }

  function Inner(name: string, expr: string): string {
    name + (":" + expr)
  }

  predicate Printable(p: Piece) {
    match p
    case Literal(text) => BraceFree(text)
    case Variable(name, expr) =>
      IsIdent(name) && (expr == GOOD || (expr != "" && WellNested(expr, false) && '\n' !in expr))
  }

  /** Braces match and are nested at most once; `open` says that one is open at the start. */
  predicate WellNested(s: string, open: bool) {
    if s == "" then !open
    else if s[0] == '{' then !open && WellNested(s[1..], true)
    else if s[0] == '}' then open && WellNested(s[1..], false)
    else WellNested(s[1..], open)
  }

  lemma {:induction false} PlainThenNested(plain: string, s: string)
    requires BraceFree(plain) && WellNested(s, false)
    ensures WellNested(plain + s, false)
    decreases |plain|
  {
    if plain == "" {
      assert plain + s == s;
    } else {
      assert plain[0] in plain && (plain + s)[1..] == plain[1..] + s;
      PlainThenNested(plain[1..], s);
    }
  }

  /** Literals and variables in turn, a literal first and last. */
  predicate Alternates(ps: seq<Piece>) {
    |ps| > 0 && ps[0].Literal? && (|ps| == 1 || (ps[1].Variable? && Alternates(ps[2..])))
  }

  predicate AllPrintable(ps: seq<Piece>) {
    forall i | 0 <= i < |ps| :: Printable(ps[i])
  }

  function PrintAll(ps: seq<Piece>): string {
    if ps == [] then "" else Print(ps[0]) + PrintAll(ps[1..])
  }

  function PrintEach(ps: seq<Piece>): seq<string> {
    if ps == [] then [] else [Print(ps[0])] + PrintEach(ps[1..])
  }

  lemma {:induction false} FirstColonAt(name: string, rest: string)
    requires ':' !in name
    ensures FirstColon(name + (":" + rest)) == |name|
    decreases |name|
  {
    var s := name + (":" + rest);
    if name != "" {
      assert name[0] in name && s[0] == name[0] && s[1..] == name[1..] + (":" + rest);
      FirstColonAt(name[1..], rest);
    } else {
      assert s[0] == ':';
    }
  }

  lemma IdentHasNoColon(name: string, rest: string)
    requires IsIdent(name)
    ensures ':' !in name && !IsIdent(name + (":" + rest))
  {
    var s := name + (":" + rest);
    assert s[|name|] == ':';
  }

  /** What is recognised between braces. */
  function ClassifyInner(inner: string): Part {
    var i := FirstColon(inner);
    if IsIdent(inner) then Good(Variable(inner, GOOD))
    else if i + 1 < |inner| && IsIdent(inner[..i]) && '\n' !in inner[i + 1..] then
      Good(Variable(inner[..i], inner[i + 1..]))
    else Bad
  }

  lemma ClassifyBraces(inner: string)
    ensures Classify("{" + inner + "}") == ClassifyInner(inner)
  {
    var part := "{" + inner + "}";
    assert part[1..|part| - 1] == inner && part[0] == '{' && part[|part| - 1] == '}';
  }

  lemma ClassifyInnerPrinted(name: string, expr: string)
    requires IsIdent(name) && expr != "" && '\n' !in expr
    ensures ClassifyInner(Inner(name, expr)) == Good(Variable(name, expr))
  {
    var inner := Inner(name, expr);
    IdentHasNoColon(name, expr);
    FirstColonAt(name, expr);
    assert inner[..|name|] == name && inner[|name| + 1..] == expr;
  }

  /** A printed piece is recognised as itself. */
  lemma ClassifyPrinted(p: Piece)
    requires Printable(p)
    ensures Classify(Print(p)) == Good(p)
  {
    match p
    case Literal(text) =>
      if text != "" {
        assert text[0] in text;
      }
    case Variable(name, expr) =>
      if expr == GOOD {
        ClassifyBraces(name);
      } else {
        ClassifyBraces(Inner(name, expr));
        ClassifyInnerPrinted(name, expr);
      }
  }

  lemma {:induction false} SplitText(text: string, literal: string, rest: string)
    requires BraceFree(literal)
    ensures SplitFrom(text, literal + rest) == SplitFrom(text + literal, rest)
    decreases |literal|
  {
    if literal == "" {
      assert literal + rest == rest && text + literal == text;
    } else {
      var s := literal + rest;
      assert literal[0] in literal && s[0] == literal[0] && s[1..] == literal[1..] + rest;
      SplitText(text + [s[0]], literal[1..], rest);
      assert text + [s[0]] + literal[1..] == text + literal;
    }
  }

  lemma {:induction false} VariableEndAt(inner: string, rest: string, open: bool)
    requires WellNested(inner, open)
    ensures VariableEnd(inner + ("}" + rest), open) == Some(|inner| + 1)
    decreases |inner|
  {
    var s := inner + ("}" + rest);
    if inner == "" {
      assert s[0] == '}';
    } else {
      assert s[0] == inner[0] && s[1..] == inner[1..] + ("}" + rest);
      VariableEndAt(inner[1..], rest, if inner[0] == '{' then true else if inner[0] == '}' then false else open);
    }
  }

  lemma SplitVariable(text: string, inner: string, rest: string)
    requires WellNested(inner, false) && inner != "" && IsIdentStart(inner[0])
    ensures SplitFrom(text, ("{" + inner + "}") + rest) == [text, "{" + inner + "}"] + SplitFrom("", rest)
  {
    var v := "{" + inner + "}";
    var s := v + rest;
    assert s[0] == '{' && s[1] == inner[0] && s[1..] == inner + ("}" + rest);
    VariableEndAt(inner, rest, false);
    assert VariableAt(s) == Some(|v|);
    assert s[..|v|] == v && s[|v|..] == rest;
  }

  /** The inside of a printed variable. */
  lemma PrintedVariable(p: Piece) returns (inner: string)
    requires p.Variable? && Printable(p)
    ensures Print(p) == "{" + inner + "}" && inner != "" && WellNested(inner, false) && IsIdentStart(inner[0])
  {
    IdentsAreBraceFree(p.name);
    if p.expr == GOOD {
      inner := p.name;
      PlainThenNested(p.name, "");
      assert p.name + "" == p.name;
    } else {
      inner := Inner(p.name, p.expr);
      assert WellNested(":" + p.expr, false) by { assert (":" + p.expr)[1..] == p.expr; }
      PlainThenNested(p.name, ":" + p.expr);
    }
  }

  /** Splitting a printed template gives its pieces back, each as printed. */
  lemma {:induction false} SplitPrinted(text: string, ps: seq<Piece>)
    requires Alternates(ps) && AllPrintable(ps)
    ensures SplitFrom(text, PrintAll(ps)) == [text + Print(ps[0])] + PrintEach(ps[1..])
    decreases |ps|
  {
    assert Printable(ps[0]);
    SplitText(text, Print(ps[0]), PrintAll(ps[1..]));
    if |ps| > 1 {
      assert Printable(ps[1]) && ps[1..][0] == ps[1] && ps[1..][1..] == ps[2..];
      var inner := PrintedVariable(ps[1]);
      var rest := PrintAll(ps[2..]);
      SplitVariable(text + Print(ps[0]), inner, rest);
      SplitPrinted("", ps[2..]);
      assert "" + Print(ps[2]) == Print(ps[2]) && PrintEach(ps[2..]) == [Print(ps[2])] + PrintEach(ps[2..][1..]);
    }
  }

  lemma {:induction false} PiecesOfPrinted(ps: seq<Piece>)
    requires AllPrintable(ps)
    ensures |PrintEach(ps)| == |ps| && forall i | 0 <= i < |ps| :: PrintEach(ps)[i] == Print(ps[i])
    decreases |ps|
  {
    if ps != [] {
      PiecesOfPrinted(ps[1..]);
    }
  }

  lemma {:induction false} PiecesAt(parts: seq<string>)
    requires AllGood(parts)
    ensures |Pieces(parts)| == |parts| && forall i | 0 <= i < |parts| :: Pieces(parts)[i] == PieceOf(parts[i])
    decreases |parts|
  {
    if parts != [] {
      PiecesAt(parts[..|parts| - 1]);
    }
  }

  /** Every template can be written down: a location printed from pieces is built into those pieces. */
  lemma {:induction false} PrintedTemplatesAreBuilt(ps: seq<Piece>)
    requires Alternates(ps) && AllPrintable(ps)
    ensures AllGood(Split(PrintAll(ps))) && Pieces(Split(PrintAll(ps))) == ps
  {
    var parts := Split(PrintAll(ps));
    SplitPrinted("", ps);
    PiecesOfPrinted(ps);
    assert "" + Print(ps[0]) == Print(ps[0]) && parts == PrintEach(ps);
    forall i | 0 <= i < |parts|
      ensures Classify(parts[i]) == Good(ps[i])
    {
      ClassifyPrinted(ps[i]);
    }
    PiecesAt(parts);
  }

  /** The text a match stands for: literals as they are, variables as captured. */
  function Matched(ps: seq<Piece>, args: map<string, string>): string
    requires Names(ps) <= args.Keys
  {
    if ps == [] then ""
    else
      assert Names(ps[..|ps| - 1]) <= Names(ps);
      var p := ps[|ps| - 1];
      Matched(ps[..|ps| - 1], args) + match p
      case Literal(text) => text
      case Variable(name, _) => assert name in Names(ps); args[name]
  }

  /** A match of the pattern at the start of `input` captures a value for each variable. */
  predicate IsMatch(ps: seq<Piece>, args: map<string, string>, input: string) {
    args.Keys == Names(ps) && Matched(ps, args) <= input
  }

  lemma {:induction false} FormatterGivesMatchedText(ps: seq<Piece>, args: map<string, string>, rest: string)
    requires WellFormed(ps) && Names(ps) <= args.Keys
    ensures Format(Formatter(ps) + rest, args) == Prepend(Matched(ps, args), Format(rest, args))
    decreases |ps|
  {
    if ps == [] {
      assert Formatter(ps) + rest == rest;
      assert Format(rest, args).Some? ==> "" + Format(rest, args).value == Format(rest, args).value;
    } else {
      var init, p := ps[..|ps| - 1], ps[|ps| - 1];
      assert Names(init) <= Names(ps);
      assert forall i | 0 <= i < |init| :: init[i] == ps[i];
      var field := FieldOf(p);
      assert Formatter(ps) + rest == Formatter(init) + (field + rest);
      FormatterGivesMatchedText(init, args, field + rest);
      match p
      case Literal(text) =>
        FormatPlainPrefix(text, rest, args);
        PrependTwice(Matched(init, args), text, Format(rest, args));
      case Variable(name, _) =>
        assert name in Names(ps);
        IdentsAreBraceFree(name);
        FormatField(name, rest, args);
        PrependTwice(Matched(init, args), args[name], Format(rest, args));
    }
  }

  lemma IdentsAreBraceFree(name: string)
    requires IsIdent(name)
    ensures BraceFree(name)
  {
  }

  /** For every template and every match, formatting the captures gives exactly the text that was matched. */
  lemma LocationIsMatchedPrefix(ps: seq<Piece>, args: map<string, string>, input: string)
    requires WellFormed(ps) && IsMatch(ps, args, input)
    ensures Format(Formatter(ps), args) == Some(Matched(ps, args))
    ensures Format(Formatter(ps), args).value <= input
  {
    FormatterGivesMatchedText(ps, args, "");
    assert Formatter(ps) + "" == Formatter(ps) && Matched(ps, args) + "" == Matched(ps, args);
  }

  // ------------------------------------------------------------------
  // Resolving
  // ------------------------------------------------------------------

  datatype Url = Url(scheme: string, path: Path, query: string)

  /** A dynamic route carries the captures its pattern gives for a path, if it matches at all. */
  datatype Route =
    | Static(location: Path, url: Url)
    | Dynamic(pieces: seq<Piece>, matches: string -> Option<map<string, string>>, scheme: string, root: string,
              query: string)

  /** Resolving finds something, applies to nothing, or raises and thereby ends the search. */
  datatype Resolution<+T> = Found(value: T) | NoMatch | Raises

  ghost predicate ValidRoute(r: Route) {
    match r
    case Static(location, _) => ValidPath(location)
    case Dynamic(ps, matches, _, _, _) =>
      WellFormed(ps) && forall s: string :: matches(s).Some? ==> IsMatch(ps, matches(s).value, s)
  }

  /** `resolve_path` of one route: the location and the root url. */
  function ResolveRoute(r: Route, p: Path): Resolution<(Path, Url)> {
    match r
    case Static(location, url) => if IsRelativeTo(p, location) then Found((location, url)) else NoMatch
    case Dynamic(ps, matches, scheme, root, query) =>
      var m := matches(Str(p));
      if m.None? || m.value == map[] then NoMatch
      else
        var location := Format(Formatter(ps), m.value);
        if location.None? then Raises
        else if !IsRelativeTo(p, Components(location.value)) then NoMatch
        else
          var path, q := Format(root, m.value), Format(query, m.value);
          if path.None? || q.None? then Raises
          else Found((Components(location.value), Url(scheme, Components(path.value), q.value)))
  }

  /** The first route that does not pass decides. */
  function FindRoute(rs: seq<Route>, p: Path): Resolution<(Path, Url)> {
    if rs == [] then NoMatch
    else
      var r := ResolveRoute(rs[0], p);
      if r.NoMatch? then FindRoute(rs[1..], p) else r
  }

  /** `CacheManager.resolve_path`; `NoMatch` stands for the refusal of a path that no route applies to. */
  function ResolvePath(rs: seq<Route>, p: Path): Resolution<Url> {
    match FindRoute(rs, p)
    case NoMatch => NoMatch
    case Raises => Raises
    case Found((location, root)) =>
      if IsRelativeTo(p, location) then Below(root, RelativeTo(p, location)) else Raises
  }

  /** The url of a relative path below a root: in the query if that has a field for it, else appended. */
  function Below(root: Url, rel: Path): Resolution<Url> {
    var q := Format(root.query, PathField(rel));
    if q.None? then Raises
    else if q.value != root.query then Found(root.(query := q.value))
    else Found(root.(path := root.path + rel))
  }

  lemma BelowIff(root: Url, rel: Path)
    ensures Below(root, rel).Found? <==> Formattable(root.query, {"path"})
    ensures !Below(root, rel).NoMatch?
  {
    FormatSucceedsIff(root.query, PathField(rel));
    assert PathField(rel).Keys == {"path"};
  }

  /** `FileProtocolHandler.public_path`; None when the url is not below the root. */
  function PublicPath(url: Path, location: Path, root: Path): Option<Path> {
    if IsRelativeTo(url, root) then Some(location + RelativeTo(url, root)) else None
  }

  /** What a route resolves is always below its location; a dynamic location is also a text prefix of the path. */
  lemma ResolvedLocationIsPrefix(r: Route, p: Path)
    requires ValidRoute(r) && ResolveRoute(r, p).Found?
    ensures IsRelativeTo(p, ResolveRoute(r, p).value.0)
    ensures r.Dynamic? ==>
              && Names(r.pieces) <= r.matches(Str(p)).value.Keys
              && Matched(r.pieces, r.matches(Str(p)).value) <= Str(p)
              && ResolveRoute(r, p).value.0 == Components(Matched(r.pieces, r.matches(Str(p)).value))
  {
    if r.Dynamic? {
      LocationIsMatchedPrefix(r.pieces, r.matches(Str(p)).value, Str(p));
    }
  }

  /** The pattern of a dynamic route captures something, and the text it matched is a location of the path. */
  predicate Applies(r: Route, p: Path) {
    match r
    case Static(location, _) => IsRelativeTo(p, location)
    case Dynamic(ps, matches, _, _, _) =>
      var m := matches(Str(p));
      m.Some? && m.value != map[] && Names(ps) <= m.value.Keys && IsRelativeTo(p, Components(Matched(ps, m.value)))
  }

  /** The url of the route names only variables of its location, with its braces in order. */
  predicate UrlIsFormattable(r: Route) {
    r.Dynamic? ==> Formattable(r.root, Names(r.pieces)) && Formattable(r.query, Names(r.pieces))
  }

  /**
  The three outcomes of one route, exactly.  Whether a route that applies raises depends on its
  configuration alone: on whether its url names only variables of its location.
   */
  lemma RouteOutcome(r: Route, p: Path)
    requires ValidRoute(r)
    ensures ResolveRoute(r, p).NoMatch? <==> !Applies(r, p)
    ensures ResolveRoute(r, p).Found? <==> Applies(r, p) && UrlIsFormattable(r)
    ensures ResolveRoute(r, p).Raises? <==> Applies(r, p) && !UrlIsFormattable(r)
  {
    if r.Dynamic? && r.matches(Str(p)).Some? {
      var args := r.matches(Str(p)).value;
      LocationIsMatchedPrefix(r.pieces, args, Str(p));
      FormatSucceedsIff(r.root, args);
      FormatSucceedsIff(r.query, args);
    }
  }

  lemma TemplateGivesMatchedText(ps: seq<Piece>, args: map<string, string>)
    requires WellFormed(ps) && Names(ps) <= args.Keys
    ensures Format(Formatter(ps), args) == Some(Matched(ps, args))
  {
    FormatterGivesMatchedText(ps, args, "");
    assert Formatter(ps) + "" == Formatter(ps) && Matched(ps, args) + "" == Matched(ps, args);
  }

  /** The url of a dynamic route: its templates with each variable replaced by what the path has in its place. */
  lemma DynamicUrlIsFilledIn(r: Route, p: Path, root: seq<Piece>, query: seq<Piece>)
    requires ValidRoute(r) && r.Dynamic? && Applies(r, p)
    requires WellFormed(root) && WellFormed(query) && Names(root) <= Names(r.pieces) && Names(query) <= Names(r.pieces)
    requires r.root == Formatter(root) && r.query == Formatter(query)
    ensures var args := r.matches(Str(p)).value;
            var url := Url(r.scheme, Components(Matched(root, args)), Matched(query, args));
            ResolveRoute(r, p) == Found((Components(Matched(r.pieces, args)), url))
  {
    var args := r.matches(Str(p)).value;
    TemplateGivesMatchedText(r.pieces, args);
    TemplateGivesMatchedText(root, args);
    TemplateGivesMatchedText(query, args);
  }

  /** The first route in configuration order that applies decides, by a url or by raising, whatever comes after it. */
  lemma {:induction false} FirstMatchDecides(rs: seq<Route>, p: Path, i: nat)
    requires i < |rs| && !ResolveRoute(rs[i], p).NoMatch?
    requires forall j | 0 <= j < i :: ResolveRoute(rs[j], p).NoMatch?
    ensures FindRoute(rs, p) == ResolveRoute(rs[i], p)
    decreases i
  {
    if i > 0 {
      assert forall j | 0 <= j < i - 1 :: rs[1..][j] == rs[j + 1];
      FirstMatchDecides(rs[1..], p, i - 1);
    }
  }

  lemma {:induction false} NoRouteApplies(rs: seq<Route>, p: Path)
    ensures FindRoute(rs, p).NoMatch? <==> forall i | 0 <= i < |rs| :: ResolveRoute(rs[i], p).NoMatch?
    decreases |rs|
  {
    if rs != [] {
      NoRouteApplies(rs[1..], p);
      assert rs == [rs[0]] + rs[1..];
    }
  }

  /** Route `i` is the first that applies to the path. */
  predicate IsFirst(rs: seq<Route>, p: Path, i: nat) {
    i < |rs| && Applies(rs[i], p) && forall j | 0 <= j < i :: !Applies(rs[j], p)
  }

  /** The query of the root url that a route gives for a path. */
  function RootQuery(r: Route, p: Path): Option<string> {
    match r
    case Static(_, url) => Some(url.query)
    case Dynamic(_, matches, _, _, query) =>
      var m := matches(Str(p));
      if m.Some? then Format(query, m.value) else None
  }

  ghost predicate AllValid(rs: seq<Route>) {
    forall i | 0 <= i < |rs| :: ValidRoute(rs[i])
  }

  lemma {:induction false} SomeRouteIsFirst(rs: seq<Route>, p: Path, j: nat) returns (i: nat)
    requires j < |rs| && Applies(rs[j], p)
    ensures IsFirst(rs, p, i)
    decreases j
  {
    if earlier: nat :| earlier < j && Applies(rs[earlier], p) {
      i := SomeRouteIsFirst(rs, p, earlier);
    } else {
      i := j;
    }
  }

  lemma FirstDecides(rs: seq<Route>, p: Path, i: nat)
    requires AllValid(rs) && IsFirst(rs, p, i)
    ensures FindRoute(rs, p) == ResolveRoute(rs[i], p)
    ensures !FindRoute(rs, p).NoMatch? && (FindRoute(rs, p).Found? <==> UrlIsFormattable(rs[i]))
    ensures FindRoute(rs, p).Found? ==> RootQuery(rs[i], p) == Some(FindRoute(rs, p).value.1.query)
  {
    forall j | 0 <= j <= i
      ensures ResolveRoute(rs[j], p).NoMatch? <==> !Applies(rs[j], p)
    {
      RouteOutcome(rs[j], p);
    }
    FirstMatchDecides(rs, p, i);
    RouteOutcome(rs[i], p);
  }

  lemma UrlIff(rs: seq<Route>, p: Path, i: nat)
    requires AllValid(rs) && IsFirst(rs, p, i)
    ensures ResolvePath(rs, p).Found? <==>
              UrlIsFormattable(rs[i]) && RootQuery(rs[i], p).Some? && Formattable(RootQuery(rs[i], p).value, {"path"})
    ensures !ResolvePath(rs, p).NoMatch?
  {
    FirstDecides(rs, p, i);
    if FindRoute(rs, p).Found? {
      ResolvedLocationIsPrefix(rs[i], p);
      var (location, root) := FindRoute(rs, p).value;
      BelowIff(root, RelativeTo(p, location));
    }
  }

  /**
  When a path gets an url, exactly: some route applies, the first one that does has an url that
  names only its variables, and its query then names nothing but `path`.  It is refused exactly
  when no route applies, and resolution raises otherwise.
   */
  lemma ResolvesIff(rs: seq<Route>, p: Path)
    requires AllValid(rs)
    ensures ResolvePath(rs, p).Found? <==>
              exists i: nat :: IsFirst(rs, p, i) && UrlIsFormattable(rs[i]) && RootQuery(rs[i], p).Some?
                               && Formattable(RootQuery(rs[i], p).value, {"path"})
    ensures ResolvePath(rs, p).NoMatch? <==> forall i | 0 <= i < |rs| :: !Applies(rs[i], p)
  {
    if j: nat :| j < |rs| && Applies(rs[j], p) {
      var i := SomeRouteIsFirst(rs, p, j);
      UrlIff(rs, p, i);
      assert forall j: nat :: IsFirst(rs, p, j) ==> j == i;
    } else {
      forall j | 0 <= j < |rs|
        ensures ResolveRoute(rs[j], p).NoMatch?
      {
        RouteOutcome(rs[j], p);
      }
      NoRouteApplies(rs, p);
    }
  }

  lemma {:induction false} FindRouteIsBelowLocation(rs: seq<Route>, p: Path)
    requires (forall i | 0 <= i < |rs| :: ValidRoute(rs[i])) && FindRoute(rs, p).Found?
    ensures IsRelativeTo(p, FindRoute(rs, p).value.0)
    decreases |rs|
  {
    if ResolveRoute(rs[0], p).Found? {
      ResolvedLocationIsPrefix(rs[0], p);
    } else {
      FindRouteIsBelowLocation(rs[1..], p);
    }
  }

  /** The value of the `path` field in a query template. */
  function PathField(rel: Path): map<string, string> {
    map["path" := if rel == [] then "." else Join(rel)[1..]]
  }

  /** The `path` field stands for the relative path, the empty one included. */
  lemma PathFieldRoundTrip(rel: Path)
    requires ValidPath(rel)
    ensures Components(PathField(rel)["path"]) == rel
  {
    if rel == [] {
      assert Components(".") == [];
    } else {
      PathRoundTrip(rel);
      var text := Join(rel)[1..];
      assert Join(rel) == "/" + text;
      ComponentsAfterSlash(text);
    }
  }

  /**
  Route inverse, exactly: the public path of the url of a resolved path is the path itself if and
  only if formatting the query leaves it as it is, or the path is the location itself.
   */
  lemma InverseIffQueryIsPlain(rs: seq<Route>, p: Path)
    requires (forall i | 0 <= i < |rs| :: ValidRoute(rs[i])) && ResolvePath(rs, p).Found?
    ensures var (location, root) := FindRoute(rs, p).value;
            PublicPath(ResolvePath(rs, p).value.path, location, root.path) == Some(p)
            <==> Format(root.query, PathField(RelativeTo(p, location))) == Some(root.query) || p == location
  {
    var (location, root) := FindRoute(rs, p).value;
    var rel := RelativeTo(p, location);
    assert location + rel == p;
    assert (root.path + rel)[|root.path|..] == rel;
    assert location + RelativeTo(root.path, root.path) == location;
  }

  /**
  Route inverse: without a query template, a path that some route resolves gets an url, and the
  public path of that url is the path itself, component for component and character for character.
   */
  lemma PublicPathInvertsResolve(rs: seq<Route>, p: Path)
    requires (forall i | 0 <= i < |rs| :: ValidRoute(rs[i])) && ValidPath(p) && FindRoute(rs, p).Found?
    requires BraceFree(FindRoute(rs, p).value.1.query)
    ensures var (location, root) := FindRoute(rs, p).value;
            && ResolvePath(rs, p).Found?
            && PublicPath(ResolvePath(rs, p).value.path, location, root.path) == Some(p)
            && Components(Str(p)) == p
  {
    FindRouteIsBelowLocation(rs, p);
    PathRoundTrip(p);
    var (location, root) := FindRoute(rs, p).value;
    FormatPlainPrefix(root.query, "", PathField(RelativeTo(p, location)));
    assert root.query + "" == root.query;
    InverseIffQueryIsPlain(rs, p);
  }

  /** With a query template the url keeps the root path, so the inverse loses the relative part. */
  lemma {:induction false} QueryTemplateLosesPath(root: Path, location: Path, c: string)
    requires ValidPath([c]) && c != "{path}"
    ensures var rs := [Static(location, Url("postgres", root, "{path}"))];
            var p := location + [c];
            && ResolvePath(rs, p) == Found(Url("postgres", root, c))
            && PublicPath(ResolvePath(rs, p).value.path, location, root) == Some(location)
  {
    var rs := [Static(location, Url("postgres", root, "{path}"))];
    var p := location + [c];
    assert RelativeTo(p, location) == [c];
    assert [c][1..] == [] && Join([c]) == "/" + c && ("/" + c)[1..] == c;
    var args := map["path" := c];
    FormatField("path", "", args);
    assert "{" + "path" + "}" + "" == "{path}";
    assert c + "" == c;
    assert location + RelativeTo(root, root) == location;
  }
}
