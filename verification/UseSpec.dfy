/**
 The `use` specification parser of the import checker: a tokenizer and a recursive
 descent over nested groups that share one position. Printing any use tree and parsing
 the text gives back exactly its root-to-leaf paths.
 */
module UseSpec {
  import opened Sequences
  import opened Wrappers

  type Path = seq<string>

  datatype Token = Sep | LBrace | RBrace | Comma | Ident(name: string)

  datatype ParseError = UnexpectedToken | UnterminatedGroup | NotConsumed

  // ---- tokens ----

  predicate IdentStart(c: char) {
    'A' <= c <= 'Z' || 'a' <= c <= 'z' || c == '_'
  }

  predicate IdentChar(c: char) {
    IdentStart(c) || '0' <= c <= '9'
  }

  /** The characters of names, by their codes: letters and the underscore, and behind the first of them digits. */
  lemma NameCharacters(c: char)
    ensures IdentStart(c) <==> 65 <= c as int <= 90 || 97 <= c as int <= 122 || c as int == 95
    ensures IdentChar(c) <==> IdentStart(c) || 48 <= c as int <= 57
  {
  }

  /** The longest run of identifier characters at the front. */
  function IdentLength(text: string): (n: nat)
    ensures n <= |text|
  {
    if text == "" || !IdentChar(text[0]) then 0 else 1 + IdentLength(text[1..])
  }

  /** How many characters the token at the front takes; 0 if the first character starts no token. */
  function TokenLength(text: string): (n: nat)
    requires text != ""
    ensures n <= |text|
  {
    if |text| >= 2 && text[0] == ':' && text[1] == ':' then 2
    else if text[0] == '{' || text[0] == '}' || text[0] == ',' then 1
    else if IdentStart(text[0]) then 1 + IdentLength(text[1..])
    else 0
  }

  function FrontToken(text: string): Token
    requires text != "" && TokenLength(text) > 0
  {
    if text[0] == ':' then Sep
    else if text[0] == '{' then LBrace
    else if text[0] == '}' then RBrace
    else if text[0] == ',' then Comma
    else Ident(text[..TokenLength(text)])
  }

  /** The tokens of a text, left to right; characters that start no token are skipped. */
  function Tokenize(text: string): seq<Token>
    decreases |text|
  {
    if text == "" then []
    else if TokenLength(text) == 0 then Tokenize(text[1..])
    else [FrontToken(text)] + Tokenize(text[TokenLength(text)..])
  }

  // ---- the parser as functions of the tokens still to be read ----

  datatype Parsed = Parsed(paths: seq<Path>, rest: seq<Token>)

  function Prepend(paths: seq<Path>, r: Result<Parsed, ParseError>): Result<Parsed, ParseError> {
    match r
    case Failure(e) => Failure(e)
    case Success(p) => Success(Parsed(paths + p.paths, p.rest))
  }

  predicate StartsWith(tokens: seq<Token>, token: Token) {
    tokens != [] && tokens[0] == token
  }

  function SkipComma(tokens: seq<Token>): seq<Token> {
    if StartsWith(tokens, Comma) then tokens[1..] else tokens
  }

  /** The items of a group up to its closing brace or the end; what is left over is returned. */
  function ParseGroup(tokens: seq<Token>, prefix: Path): (r: Result<Parsed, ParseError>)
    ensures r.Success? ==> |r.value.rest| <= |tokens|
    decreases |tokens|, 1
  {
    if tokens == [] || tokens[0] == RBrace then Success(Parsed([], tokens))
    else if tokens[0] == Comma then ParseGroup(tokens[1..], prefix)
    else
      match ParseItem(tokens, prefix)
      case Failure(e) => Failure(e)
      case Success(item) => Prepend(item.paths, ParseGroup(SkipComma(item.rest), prefix))
  }

  /** One item: segments joined by `::`, ending in a name, a braced group, or nothing after a trailing `::`. */
  function ParseItem(tokens: seq<Token>, segments: Path): (r: Result<Parsed, ParseError>)
    ensures r.Success? ==> |r.value.rest| <= |tokens|
    ensures r.Success? && tokens != [] ==> |r.value.rest| < |tokens|
    decreases |tokens|, 0
  {
    if tokens == [] then Success(Parsed([], []))
    else if !tokens[0].Ident? then Failure(UnexpectedToken)
    else AfterName(tokens[1..], segments + [tokens[0].name])
  }

  function AfterName(tokens: seq<Token>, segments: Path): (r: Result<Parsed, ParseError>)
    ensures r.Success? ==> |r.value.rest| <= |tokens|
    decreases |tokens|, 2
  {
    if !StartsWith(tokens, Sep) then Success(Parsed([segments], tokens))
    else if !StartsWith(tokens[1..], LBrace) then ParseItem(tokens[1..], segments)
    else
      match ParseGroup(tokens[1..][1..], segments)
      case Failure(e) => Failure(e)
      case Success(group) =>
        if !StartsWith(group.rest, RBrace) then Failure(UnterminatedGroup)
        else Success(Parsed(group.paths, group.rest[1..]))
  }

  function ParseTokens(tokens: seq<Token>): Result<seq<Path>, ParseError> {
    match ParseGroup(tokens, [])
    case Failure(e) => Failure(e)
    case Success(p) => if p.rest != [] then Failure(NotConsumed) else Success(p.paths)
  }

  function ParseImportPaths(spec: string): Result<seq<Path>, ParseError> {
    ParseTokens(Tokenize(spec))
  }

  // ---- the parser as it runs: one shared position, advanced in place ----

  class Parser {
    const tokens: seq<Token>
    var position: nat

    constructor (tokens: seq<Token>)
      ensures this.tokens == tokens && position == 0
    {
      this.tokens := tokens;
      position := 0;
    }

    /** The result a run of the functions from an earlier position gives, and where it leaves the position. */
    ghost predicate Agrees(spec: Result<Parsed, ParseError>, r: Result<seq<Path>, ParseError>)
      reads this
    {
      position <= |tokens| &&
      match spec
      case Failure(e) => r == Failure(e)
      case Success(p) => r == Success(p.paths) && tokens[position..] == p.rest
    }

    method Group(prefix: Path) returns (r: Result<seq<Path>, ParseError>)
      requires position <= |tokens|
      modifies this`position
      ensures old(position) <= position
      ensures Agrees(ParseGroup(tokens[old(position)..], prefix), r)
      decreases |tokens| - position, 2
    {
      var paths: seq<Path> := [];
      ghost var whole := ParseGroup(tokens[position..], prefix);
      PrependNothing(whole);
      while position < |tokens| && tokens[position] != RBrace
        invariant old(position) <= position <= |tokens|
        invariant whole == Prepend(paths, ParseGroup(tokens[position..], prefix))
        decreases |tokens| - position
      {
        OneFurther(tokens, position);
        if tokens[position] == Comma {
          position := position + 1;
          continue;
        }
        var item := GroupItem(prefix);
        if item.Failure? {
          return Failure(item.error);
        }
        PrependTwice(paths, item.value, ParseGroup(tokens[position..], prefix));
        paths := paths + item.value;
      }
      assert paths + [] == paths;
      r := Success(paths);
    }

    /** One item of a group and the comma after it, if there is one. */
    method GroupItem(prefix: Path) returns (r: Result<seq<Path>, ParseError>)
      requires position < |tokens| && tokens[position] != Comma && tokens[position] != RBrace
      modifies this`position
      ensures old(position) <= position <= |tokens| && (r.Success? ==> old(position) < position)
      ensures ParseGroup(tokens[old(position)..], prefix) ==
              match r
              case Failure(e) => Failure(e)
              case Success(paths) => Prepend(paths, ParseGroup(tokens[position..], prefix))
      decreases |tokens| - position, 1
    {
      OneFurther(tokens, position);
      r := Item(prefix);
      if r.Success? && position < |tokens| && tokens[position] == Comma {
        OneFurther(tokens, position);
        position := position + 1;
      }
    }

    method Item(prefix: Path) returns (r: Result<seq<Path>, ParseError>)
      requires position < |tokens|
      modifies this`position
      ensures r.Success? ==> old(position) < position
      ensures old(position) <= position
      ensures Agrees(ParseItem(tokens[old(position)..], prefix), r)
      decreases |tokens| - position, 0
    {
      var segments := prefix;
      ghost var whole := ParseItem(tokens[position..], prefix);
      while position < |tokens|
        invariant old(position) <= position <= |tokens|
        invariant position == |tokens| ==> old(position) < position
        invariant whole == ParseItem(tokens[position..], segments)
        decreases |tokens| - position
      {
        var token := tokens[position];
        NextName(tokens, position, segments);
        if !token.Ident? {
          return Failure(UnexpectedToken);
        }
        segments := segments + [token.name];
        position := position + 1;
        if position < |tokens| && tokens[position] == Sep {
          NextSep(tokens, position, segments);
          position := position + 1;
          if position < |tokens| && tokens[position] == LBrace {
            r := Braces(segments, whole);
            return;
          }
          continue;
        }
        NameEnds(tokens, position, segments);
        return Success([segments]);
      }
      r := Success([]);
    }

    /** A braced group, from its opening brace on. */
    method Braces(segments: Path, ghost whole: Result<Parsed, ParseError>) returns (r: Result<seq<Path>, ParseError>)
      requires position < |tokens| && tokens[position] == LBrace
      requires whole == AfterName([Sep] + tokens[position..], segments)
      modifies this`position
      ensures old(position) < position
      ensures Agrees(whole, r)
      decreases |tokens| - position, 0
    {
      OneFurther(tokens, position);
      assert ([Sep] + tokens[position..])[1..] == tokens[position..];
      position := position + 1;
      r := Group(segments);
      if r.Failure? {
        return;
      }
      if position >= |tokens| || tokens[position] != RBrace {
        return Failure(UnterminatedGroup);
      }
      OneFurther(tokens, position);
      position := position + 1;
    }
  }

  lemma OneFurther(tokens: seq<Token>, position: nat)
    requires position < |tokens|
    ensures tokens[position..] != [] && tokens[position..][0] == tokens[position]
    ensures tokens[position..][1..] == tokens[position + 1..]
    ensures tokens[position..] == [tokens[position]] + tokens[position + 1..]
  {
  }

  lemma NextName(tokens: seq<Token>, position: nat, segments: Path)
    requires position < |tokens|
    ensures ParseItem(tokens[position..], segments) ==
            if tokens[position].Ident? then AfterName(tokens[position + 1..], segments + [tokens[position].name])
            else Failure(UnexpectedToken)
  {
    OneFurther(tokens, position);
  }

  lemma NextSep(tokens: seq<Token>, position: nat, segments: Path)
    requires position < |tokens| && tokens[position] == Sep
    ensures tokens[position..] == [Sep] + tokens[position + 1..]
    ensures !(position + 1 < |tokens| && tokens[position + 1] == LBrace) ==>
              AfterName(tokens[position..], segments) == ParseItem(tokens[position + 1..], segments)
  {
    OneFurther(tokens, position);
  }

  lemma NameEnds(tokens: seq<Token>, position: nat, segments: Path)
    requires position <= |tokens| && !(position < |tokens| && tokens[position] == Sep)
    ensures AfterName(tokens[position..], segments) == Success(Parsed([segments], tokens[position..]))
  {
  }

  lemma PrependNothing(r: Result<Parsed, ParseError>)
    ensures Prepend([], r) == r
  {
    assert r.Success? ==> [] + r.value.paths == r.value.paths;
  }

  lemma PrependTwice(a: seq<Path>, b: seq<Path>, r: Result<Parsed, ParseError>)
    ensures Prepend(a, Prepend(b, r)) == Prepend(a + b, r)
  {
    if r.Success? {
      Associates(a, b, r.value.paths);
    }
  }

  method RunParser(spec: string) returns (r: Result<seq<Path>, ParseError>)
    ensures r == ParseImportPaths(spec)
  {
    var tokens := Tokenize(spec);
    if tokens == [] {
      return Success([]);
    }
    var parser := new Parser(tokens);
    assert tokens[0..] == tokens;
    r := parser.Group([]);
    if r.Success? && parser.position != |tokens| {
      r := Failure(NotConsumed);
    }
  }

  // ---- use trees ----

  /** A use tree: a name, a name with one continuation, or a name with a braced group of continuations. */
  datatype Tree = Leaf(name: string) | Under(name: string, sub: Tree) | Group(name: string, subs: Forest)

  /** What a group holds: items and commas, in any order. */
  datatype Forest = Empty | More(first: Tree, rest: Forest) | Skip(rest: Forest)

  function Tokens(t: Tree): seq<Token> {
    match t
    case Leaf(name) => [Ident(name)]
    case Under(name, sub) => [Ident(name), Sep] + Tokens(sub)
    case Group(name, subs) => [Ident(name), Sep, LBrace] + ForestTokens(subs) + [RBrace]
  }

  function ForestTokens(f: Forest): seq<Token> {
    match f
    case Empty => []
    case More(t, rest) => Tokens(t) + ForestTokens(rest)
    case Skip(rest) => [Comma] + ForestTokens(rest)
  }

  /** Root-to-leaf paths, left to right. */
  function Paths(t: Tree, prefix: Path): seq<Path> {
    match t
    case Leaf(name) => [prefix + [name]]
    case Under(name, sub) => Paths(sub, prefix + [name])
    case Group(name, subs) => ForestPaths(subs, prefix + [name])
  }

  function ForestPaths(f: Forest, prefix: Path): seq<Path> {
    match f
    case Empty => []
    case More(t, rest) => Paths(t, prefix) + ForestPaths(rest, prefix)
    case Skip(rest) => ForestPaths(rest, prefix)
  }

  /** Names that each end in `::`, with nothing behind the last. */
  function Dangling(names: seq<string>): seq<Token> {
    if names == [] then [] else [Ident(names[0]), Sep] + Dangling(names[1..])
  }

  lemma NameThen(name: string, more: seq<Token>, segments: Path)
    ensures ParseItem([Ident(name)] + more, segments) == AfterName(more, segments + [name])
  {
    assert ([Ident(name)] + more)[1..] == more;
  }

  lemma SepThen(more: seq<Token>, segments: Path)
    requires !StartsWith(more, LBrace)
    ensures AfterName([Sep] + more, segments) == ParseItem(more, segments)
  {
    assert ([Sep] + more)[1..] == more;
  }

  /** A braced group whose items leave just the closing brace and `more`. */
  lemma BracesThen(body: seq<Token>, paths: seq<Path>, more: seq<Token>, segments: Path)
    requires ParseGroup(body + ([RBrace] + more), segments) == Success(Parsed(paths, [RBrace] + more))
    ensures AfterName([Sep] + ([LBrace] + (body + ([RBrace] + more))), segments) == Success(Parsed(paths, more))
  {
    var inner := body + ([RBrace] + more);
    assert ([Sep] + ([LBrace] + inner))[1..] == [LBrace] + inner;
    assert ([LBrace] + inner)[1..] == inner;
    assert ([RBrace] + more)[1..] == more;
  }

  lemma ItemThen(item: seq<Token>, paths: seq<Path>, more: seq<Token>, prefix: Path)
    requires item != [] && item[0].Ident? && ParseItem(item + more, prefix) == Success(Parsed(paths, more))
    ensures ParseGroup(item + more, prefix) == Prepend(paths, ParseGroup(SkipComma(more), prefix))
  {
    assert (item + more)[0] == item[0];
  }

  lemma CommaThen(more: seq<Token>, prefix: Path)
    ensures SkipComma([Comma] + more) == more
    ensures ParseGroup([Comma] + more, prefix) == ParseGroup(more, prefix)
  {
    assert ([Comma] + more)[1..] == more;
  }

  lemma TokensStartWithName(t: Tree)
    ensures Tokens(t) != [] && Tokens(t)[0] == Ident(t.name)
  {
  }

  lemma {:induction false} TreeParses(t: Tree, more: seq<Token>, prefix: Path)
    requires !StartsWith(more, Sep)
    ensures ParseItem(Tokens(t) + more, prefix) == Success(Parsed(Paths(t, prefix), more))
    decreases t
  {
    match t
    case Leaf(name) =>
      NameThen(name, more, prefix);
    case Under(name, sub) =>
      var tail := Tokens(sub) + more;
      assert Tokens(t) + more == [Ident(name)] + ([Sep] + tail);
      TokensStartWithName(sub);
      NameThen(name, [Sep] + tail, prefix);
      SepThen(tail, prefix + [name]);
      TreeParses(sub, more, prefix + [name]);
    case Group(name, subs) =>
      var body, close := ForestTokens(subs), [RBrace] + more;
      assert Tokens(t) + more == [Ident(name)] + ([Sep] + ([LBrace] + (body + close)));
      NameThen(name, [Sep] + ([LBrace] + (body + close)), prefix);
      ForestParses(subs, close, prefix + [name], body + close);
      PrependToNothing(ForestPaths(subs, prefix + [name]), close);
      BracesThen(body, ForestPaths(subs, prefix + [name]), more, prefix + [name]);
  }

  lemma PrependToNothing(paths: seq<Path>, rest: seq<Token>)
    ensures Prepend(paths, Success(Parsed([], rest))) == Success(Parsed(paths, rest))
  {
    assert paths + [] == paths;
  }

  lemma CommaIsSkipped(tokens: seq<Token>, prefix: Path)
    ensures ParseGroup(SkipComma(tokens), prefix) == ParseGroup(tokens, prefix)
  {
    if StartsWith(tokens, Comma) {
      assert tokens == [Comma] + tokens[1..];
      CommaThen(tokens[1..], prefix);
    }
  }

  lemma ForestStarts(f: Forest, more: seq<Token>)
    requires !StartsWith(more, Sep)
    ensures !StartsWith(ForestTokens(f) + more, Sep)
  {
    match f
    case Empty =>
      assert ForestTokens(f) + more == more;
    case More(t, _) =>
      TokensStartWithName(t);
    case Skip(_) =>
  }

  /** A forest's tokens, with anything but `::` behind them, parse to its paths and then whatever comes behind. */
  lemma {:induction false} ForestParses(f: Forest, more: seq<Token>, prefix: Path, all: seq<Token>)
    requires !StartsWith(more, Sep) && all == ForestTokens(f) + more
    ensures ParseGroup(all, prefix) == Prepend(ForestPaths(f, prefix), ParseGroup(more, prefix))
    decreases f
  {
    match f
    case Empty =>
      assert all == more;
      PrependNothing(ParseGroup(more, prefix));
    case More(t, rest) =>
      var tail := ForestTokens(rest) + more;
      Associates(Tokens(t), ForestTokens(rest), more);
      ForestStarts(rest, more);
      TreeParses(t, tail, prefix);
      ForestParses(rest, more, prefix, tail);
      ItemAndMore(t, tail, prefix);
      PrependTwice(Paths(t, prefix), ForestPaths(rest, prefix), ParseGroup(more, prefix));
    case Skip(rest) =>
      var tail := ForestTokens(rest) + more;
      Associates([Comma], ForestTokens(rest), more);
      CommaThen(tail, prefix);
      ForestParses(rest, more, prefix, tail);
  }

  lemma ItemAndMore(t: Tree, tail: seq<Token>, prefix: Path)
    requires ParseItem(Tokens(t) + tail, prefix) == Success(Parsed(Paths(t, prefix), tail))
    ensures ParseGroup(Tokens(t) + tail, prefix) == Prepend(Paths(t, prefix), ParseGroup(tail, prefix))
  {
    TokensStartWithName(t);
    ItemThen(Tokens(t), Paths(t, prefix), tail, prefix);
    CommaIsSkipped(tail, prefix);
  }

  /** Names that dangle at the end of all tokens are read and give no path. */
  lemma {:induction false} DanglingParses(names: seq<string>, segments: Path)
    requires names != []
    ensures ParseItem(Dangling(names), segments) == Success(Parsed([], []))
    decreases |names|
  {
    var more := Dangling(names[1..]);
    assert Dangling(names) == [Ident(names[0])] + ([Sep] + more);
    NameThen(names[0], [Sep] + more, segments);
    SepThen(more, segments + [names[0]]);
    if |names| > 1 {
      DanglingParses(names[1..], segments + [names[0]]);
    }
  }

  lemma DanglingGroup(names: seq<string>, prefix: Path)
    ensures ParseGroup(Dangling(names), prefix) == Success(Parsed([], []))
  {
    if names != [] {
      DanglingParses(names, prefix);
      assert Dangling(names) + [] == Dangling(names);
      ItemThen(Dangling(names), [], [], prefix);
      PrependNothing(ParseGroup([], prefix));
    }
  }

  /** Parsing the tokens of any forest, and of names that dangle behind it, consumes them all and returns exactly the
      forest's paths, in order. */
  lemma ForestRoundTrips(f: Forest, names: seq<string>)
    ensures ParseTokens(ForestTokens(f) + Dangling(names)) == Success(ForestPaths(f, []))
  {
    var more := Dangling(names);
    ForestParses(f, more, [], ForestTokens(f) + more);
    PrependToNothing(ForestPaths(f, []), []);
    DanglingGroup(names, []);
  }

  // ---- and nothing else parses ----

  /** The forest a successful parse has read, and the names that dangle behind it if it has read all tokens. */
  lemma {:induction false} GroupIsForest(tokens: seq<Token>, prefix: Path, p: Parsed)
    returns (f: Forest, names: seq<string>)
    requires ParseGroup(tokens, prefix) == Success(p)
    ensures tokens == ForestTokens(f) + Dangling(names) + p.rest && p.paths == ForestPaths(f, prefix)
    ensures names != [] ==> p.rest == []
    decreases |tokens|, 1
  {
    if tokens == [] || tokens[0] == RBrace {
      f, names := Empty, [];
    } else if tokens[0] == Comma {
      f, names := GroupIsForest(tokens[1..], prefix, p);
      f := SkipThen(tokens, f, names, p.rest);
    } else {
      var item := ParseItem(tokens, prefix).value;
      var tree, dangling := ItemIsTree(tokens, prefix, item);
      if tree.None? {
        f, names := Empty, dangling;
      } else {
        CommaIsSkipped(item.rest, prefix);
        var rest := ParseGroup(item.rest, prefix).value;
        f, names := GroupIsForest(item.rest, prefix, rest);
        f := More(tree.value, f);
        Regrouped(Tokens(tree.value), ForestTokens(f.rest), Dangling(names), p.rest);
      }
    }
  }

  lemma SkipThen(tokens: seq<Token>, f: Forest, names: seq<string>, rest: seq<Token>) returns (g: Forest)
    requires StartsWith(tokens, Comma) && tokens[1..] == ForestTokens(f) + Dangling(names) + rest
    ensures g == Skip(f) && tokens == ForestTokens(g) + Dangling(names) + rest
  {
    g := Skip(f);
    assert tokens == [Comma] + tokens[1..];
    Regrouped([Comma], ForestTokens(f), Dangling(names), rest);
  }

  lemma Regrouped(a: seq<Token>, b: seq<Token>, c: seq<Token>, d: seq<Token>)
    ensures a + (b + c + d) == (a + b) + c + d
  {
  }

  /** The tree an item has read, or the names that dangle at the end. */
  lemma {:induction false} ItemIsTree(tokens: seq<Token>, segments: Path, p: Parsed)
    returns (tree: Option<Tree>, names: seq<string>)
    requires tokens != [] && ParseItem(tokens, segments) == Success(p)
    ensures tree.Some? ==> tokens == Tokens(tree.value) + p.rest && p.paths == Paths(tree.value, segments)
    ensures tree.None? ==> names != [] && tokens == Dangling(names) && p == Parsed([], [])
    decreases |tokens|, 0
  {
    var name, more := tokens[0].name, tokens[1..];
    assert tokens == [Ident(name)] + more;
    NameThen(name, more, segments);
    if !StartsWith(more, Sep) {
      return Some(Leaf(name)), [];
    }
    var behind := more[1..];
    assert more == [Sep] + behind;
    if StartsWith(behind, LBrace) {
      var f := BracesAreGroup(name, behind, segments + [name], p);
      return Some(Group(name, f)), [];
    }
    SepThen(behind, segments + [name]);
    if behind == [] {
      DanglingFront(name, []);
      return None, [name];
    }
    tree, names := ItemIsTree(behind, segments + [name], p);
    if tree.Some? {
      UnderTokens(name, tree.value, tokens, behind, p.rest);
      tree := Some(Under(name, tree.value));
    } else {
      DanglingFront(name, names);
      names := [name] + names;
    }
  }

  lemma DanglingFront(name: string, names: seq<string>)
    ensures Dangling([name] + names) == [Ident(name)] + ([Sep] + Dangling(names))
    ensures names == [] ==> Dangling([name]) == [Ident(name)] + ([Sep] + [])
  {
    assert ([name] + names)[1..] == names;
    assert names == [] ==> [name] + names == [name];
  }

  lemma UnderTokens(name: string, sub: Tree, tokens: seq<Token>, behind: seq<Token>, rest: seq<Token>)
    requires behind == Tokens(sub) + rest && tokens == [Ident(name)] + ([Sep] + behind)
    ensures tokens == Tokens(Under(name, sub)) + rest
  {
    Associates([Ident(name), Sep], Tokens(sub), rest);
  }

  lemma {:induction false} BracesAreGroup(name: string, behind: seq<Token>, segments: Path, p: Parsed)
    returns (f: Forest)
    requires StartsWith(behind, LBrace) && AfterName([Sep] + behind, segments) == Success(p)
    ensures [Ident(name), Sep] + behind == Tokens(Group(name, f)) + p.rest && p.paths == ForestPaths(f, segments)
    decreases |behind|, 3
  {
    var inner := behind[1..];
    assert behind == [LBrace] + inner;
    BracesClose(behind, inner, segments, p);
    var names;
    f, names := GroupIsForest(inner, segments, Parsed(p.paths, [RBrace] + p.rest));
    assert Dangling([]) == [];
    BracedTokens(name, ForestTokens(f), inner, p.rest);
  }

  lemma BracesClose(behind: seq<Token>, inner: seq<Token>, segments: Path, p: Parsed)
    requires behind == [LBrace] + inner && AfterName([Sep] + behind, segments) == Success(p)
    ensures ParseGroup(inner, segments) == Success(Parsed(p.paths, [RBrace] + p.rest))
  {
    assert ([Sep] + behind)[1..] == behind && behind[1..] == inner;
    var group := ParseGroup(inner, segments).value;
    assert group.rest == [RBrace] + group.rest[1..];
  }

  lemma BracedTokens(name: string, body: seq<Token>, inner: seq<Token>, rest: seq<Token>)
    requires inner == body + [] + ([RBrace] + rest)
    ensures [Ident(name), Sep] + ([LBrace] + inner) == [Ident(name), Sep, LBrace] + body + [RBrace] + rest
  {
    var open := [Ident(name), Sep, LBrace];
    assert [Ident(name), Sep] + ([LBrace] + inner) == open + inner;
    assert body + [] == body;
    Associates(open, body, [RBrace] + rest);
    Associates(open + body, [RBrace], rest);
  }

  /** Exactly what the parser accepts, and the paths it gives: items and commas in any order, commas being optional even
      between items, and at the very end names that dangle, which are dropped. */
  lemma ParsesIff(tokens: seq<Token>, paths: seq<Path>)
    ensures ParseTokens(tokens) == Success(paths) <==>
            exists f, names :: tokens == ForestTokens(f) + Dangling(names) && paths == ForestPaths(f, [])
  {
    if ParseTokens(tokens) == Success(paths) {
      var f, names := GroupIsForest(tokens, [], Parsed(paths, []));
      assert tokens == ForestTokens(f) + Dangling(names);
    }
    if f, names :| tokens == ForestTokens(f) + Dangling(names) && paths == ForestPaths(f, []) {
      ForestRoundTrips(f, names);
    }
  }

  // ---- the written text ----

  predicate ValidName(name: string) {
    name != "" && IdentStart(name[0]) && forall i :: 0 <= i < |name| ==> IdentChar(name[i])
  }

  /** Valid names, and commas between the items of every group. */
  predicate WellFormed(t: Tree) {
    ValidName(t.name) &&
    match t
    case Leaf(_) => true
    case Under(_, sub) => WellFormed(sub)
    case Group(_, subs) => WellFormedForest(subs)
  }

  predicate WellFormedForest(f: Forest) {
    match f
    case Empty => true
    case More(t, rest) => WellFormed(t) && !rest.More? && WellFormedForest(rest)
    case Skip(rest) => WellFormedForest(rest)
  }

  function Spelling(token: Token): string {
    match token
    case Sep => "::"
    case LBrace => "{"
    case RBrace => "}"
    case Comma => ","
    case Ident(name) => name
  }

  /** White space, or anything else that neither starts nor goes on with a token. */
  predicate IsGap(gap: string) {
    forall c :: c in gap ==> !IdentChar(c) && c != ':' && c != '{' && c != '}' && c != ','
  }

  /** A text as it is written: tokens, a gap before each of them and one at the end. */
  datatype Writing = End(gap: string) | Next(gap: string, token: Token, rest: Writing)

  function Text(w: Writing): string {
    match w
    case End(gap) => gap
    case Next(gap, token, rest) => gap + (Spelling(token) + Text(rest))
  }

  function TokensOf(w: Writing): seq<Token> {
    match w
    case End(_) => []
    case Next(_, token, rest) => [token] + TokensOf(rest)
  }

  /** Gaps hold no token characters, names are valid, and there is a gap wherever two names meet. */
  predicate Readable(w: Writing) {
    IsGap(w.gap) &&
    match w
    case End(_) => true
    case Next(_, token, rest) =>
      (token.Ident? ==> ValidName(token.name) && (StartsWithName(rest) ==> rest.gap != "")) && Readable(rest)
  }

  predicate StartsWithName(w: Writing) {
    w.Next? && w.token.Ident?
  }

  predicate EndsName(text: string) {
    text == "" || !IdentChar(text[0])
  }

  lemma {:induction false} NameLength(name: string, rest: string)
    requires EndsName(rest) && forall i :: 0 <= i < |name| ==> IdentChar(name[i])
    ensures IdentLength(name + rest) == |name|
    decreases |name|
  {
    if name == "" {
      assert name + rest == rest;
    } else {
      assert (name + rest)[1..] == name[1..] + rest;
      NameLength(name[1..], rest);
    }
  }

  /** A token's spelling is read back as that token, all of it and no more. */
  lemma TokenReadsBack(token: Token, rest: string)
    requires token.Ident? ==> ValidName(token.name) && EndsName(rest)
    ensures var text := Spelling(token) + rest;
            && text != "" && TokenLength(text) == |Spelling(token)| && FrontToken(text) == token
            && Tokenize(text) == [token] + Tokenize(rest)
  {
    var text := Spelling(token) + rest;
    if token.Ident? {
      assert text[1..] == token.name[1..] + rest;
      NameLength(token.name[1..], rest);
      assert text[..|token.name|] == token.name;
    }
    assert text[|Spelling(token)|..] == rest;
  }

  lemma {:induction false} GapIsSkipped(gap: string, rest: string)
    requires IsGap(gap)
    ensures Tokenize(gap + rest) == Tokenize(rest)
    decreases |gap|
  {
    if gap == "" {
      assert gap + rest == rest;
    } else {
      assert gap[0] in gap;
      assert (gap + rest)[1..] == gap[1..] + rest;
      GapIsSkipped(gap[1..], rest);
    }
  }

  /** Unless a name comes at once, what is written does not go on with a name before it. */
  lemma NameIsEnded(w: Writing)
    requires IsGap(w.gap) && (StartsWithName(w) ==> w.gap != "")
    ensures EndsName(Text(w))
  {
    if w.gap != "" {
      assert w.gap[0] in w.gap;
    }
  }

  /** Written tokens are read back, whatever the gaps. */
  lemma {:induction false} WritingReadsBack(w: Writing)
    requires Readable(w)
    ensures Tokenize(Text(w)) == TokensOf(w)
  {
    match w
    case End(gap) =>
      assert gap + "" == gap;
      GapIsSkipped(gap, "");
    case Next(gap, token, rest) =>
      WritingReadsBack(rest);
      if token.Ident? {
        NameIsEnded(rest);
      }
      TokenReadsBack(token, Text(rest));
      GapIsSkipped(gap, Spelling(token) + Text(rest));
  }

  // ---- from written text to paths ----

  predicate NamesApart(tokens: seq<Token>) {
    forall i :: 0 < i < |tokens| && tokens[i].Ident? ==> !tokens[i - 1].Ident?
  }

  predicate NamesValid(tokens: seq<Token>) {
    forall i :: 0 <= i < |tokens| && tokens[i].Ident? ==> ValidName(tokens[i].name)
  }

  /** In the tokens of a tree no two names meet, and every name is valid. */
  lemma {:induction false} TreeIsWritable(t: Tree)
    requires WellFormed(t)
    ensures NamesApart(Tokens(t)) && NamesValid(Tokens(t))
    decreases t
  {
    match t
    case Leaf(_) =>
    case Under(name, sub) =>
      TreeIsWritable(sub);
      MarkBetween([Ident(name)], Sep, Tokens(sub));
      assert Tokens(t) == [Ident(name)] + [Sep] + Tokens(sub);
    case Group(name, subs) =>
      ForestIsWritable(subs);
      var front := [Ident(name), Sep] + [LBrace] + ForestTokens(subs);
      MarkBetween([Ident(name), Sep], LBrace, ForestTokens(subs));
      MarkBetween(front, RBrace, []);
      assert Tokens(t) == front + [RBrace] + [];
  }

  lemma {:induction false} ForestIsWritable(f: Forest)
    requires WellFormedForest(f)
    ensures NamesApart(ForestTokens(f)) && NamesValid(ForestTokens(f))
    decreases f
  {
    match f
    case Empty =>
    case More(t, Empty) =>
      TreeIsWritable(t);
      assert ForestTokens(f) == Tokens(t) + [] == Tokens(t);
    case More(t, Skip(rest)) =>
      TreeIsWritable(t);
      ForestIsWritable(rest);
      MarkBetween(Tokens(t), Comma, ForestTokens(rest));
      Associates(Tokens(t), [Comma], ForestTokens(rest));
    case Skip(rest) =>
      ForestIsWritable(rest);
      MarkBetween([], Comma, ForestTokens(rest));
      assert ForestTokens(f) == [] + [Comma] + ForestTokens(rest);
  }

  lemma MarkBetween(a: seq<Token>, mark: Token, b: seq<Token>)
    requires NamesApart(a) && NamesValid(a) && NamesApart(b) && NamesValid(b) && !mark.Ident?
    ensures NamesApart(a + [mark] + b) && NamesValid(a + [mark] + b)
  {
    var all := a + [mark] + b;
    forall i | 0 <= i < |all| && all[i].Ident?
      ensures ValidName(all[i].name) && (i > 0 ==> !all[i - 1].Ident?)
    {
      if i > |a| {
        assert all[i] == b[i - |a| - 1];
        assert i > |a| + 1 ==> all[i - 1] == b[i - |a| - 1 - 1];
      }
    }
  }

  predicate GapsHoldNoToken(w: Writing) {
    IsGap(w.gap) && (w.Next? ==> GapsHoldNoToken(w.rest))
  }

  lemma {:induction false} IsReadable(w: Writing, tokens: seq<Token>)
    requires GapsHoldNoToken(w) && TokensOf(w) == tokens && NamesApart(tokens) && NamesValid(tokens)
    ensures Readable(w)
    decreases w
  {
    match w
    case End(_) =>
    case Next(_, token, rest) =>
      assert tokens[0] == token && tokens[1..] == TokensOf(rest);
      if rest.Next? {
        assert tokens[1] == rest.token;
      }
      IsReadable(rest, tokens[1..]);
  }

  /** Where commas separate the items, any gaps will do. */
  lemma WellFormedIsReadable(f: Forest, w: Writing)
    requires WellFormedForest(f) && GapsHoldNoToken(w) && TokensOf(w) == ForestTokens(f)
    ensures Readable(w)
  {
    ForestIsWritable(f);
    IsReadable(w, ForestTokens(f));
  }

  /** From text to paths: any forest of any nesting, and names that dangle behind it, written with any gaps that keep
      names apart, parses to exactly the forest's root-to-leaf paths, in order. */
  lemma WrittenForestRoundTrips(f: Forest, names: seq<string>, w: Writing)
    requires Readable(w) && TokensOf(w) == ForestTokens(f) + Dangling(names)
    ensures Tokenize(Text(w)) == TokensOf(w) && ParseImportPaths(Text(w)) == Success(ForestPaths(f, []))
  {
    WritingReadsBack(w);
    ForestRoundTrips(f, names);
  }

  // ---- texts that begin with given tokens ----

  /** No character is skipped before the first n tokens or between them. */
  predicate NothingSkipped(text: string, n: nat)
    decreases n, text
  {
    n == 0 || (text != "" && TokenLength(text) > 0 && NothingSkipped(text[TokenLength(text)..], n - 1))
  }

  /** Tokens written out without gaps. */
  function Spelled(tokens: seq<Token>): string {
    if tokens == [] then "" else Spelling(tokens[0]) + Spelled(tokens[1..])
  }

  lemma FrontIsSpelled(text: string)
    requires text != "" && TokenLength(text) > 0
    ensures text == Spelling(FrontToken(text)) + text[TokenLength(text)..]
    ensures |Spelling(FrontToken(text))| == TokenLength(text)
  {
    if text[0] == ':' {
      assert text[..2] == "::";
    }
  }

  /** A text begins with the spelling of given tokens, the last of them no name, exactly when these are its first tokens
      and nothing is skipped up to there. */
  lemma BeginsIff(text: string, tokens: seq<Token>)
    requires NamesValid(tokens) && NamesApart(tokens) && (tokens != [] ==> !tokens[|tokens| - 1].Ident?)
    ensures Spelled(tokens) <= text <==> tokens <= Tokenize(text) && NothingSkipped(text, |tokens|)
  {
    if Spelled(tokens) <= text {
      SpelledIsRead(text, tokens, |tokens|);
    }
    if tokens <= Tokenize(text) && NothingSkipped(text, |tokens|) {
      ReadIsSpelled(text, tokens);
    }
  }

  lemma {:induction false} SpelledIsRead(text: string, tokens: seq<Token>, n: nat)
    requires NamesValid(tokens) && NamesApart(tokens) && (tokens != [] ==> !tokens[|tokens| - 1].Ident?)
    requires Spelled(tokens) <= text && n == |tokens|
    ensures tokens <= Tokenize(text) && NothingSkipped(text, n)
    decreases n
  {
    if n > 0 {
      var rest, more := text[|Spelling(tokens[0])|..], tokens[1..];
      SpelledBehind(text, tokens, rest, more);
      SpelledIsRead(rest, more, n - 1);
      FirstTokens(text, tokens, rest, more);
      NothingSkippedBefore(text, tokens[0], rest, n);
    }
  }

  lemma {:induction false} ReadIsSpelled(text: string, tokens: seq<Token>)
    requires tokens <= Tokenize(text) && NothingSkipped(text, |tokens|)
    ensures Spelled(tokens) <= text
    decreases |tokens|
  {
    if tokens != [] {
      var rest := text[TokenLength(text)..];
      FrontStands(text, tokens, rest);
      ReadIsSpelled(rest, tokens[1..]);
    }
  }

  lemma FrontStands(text: string, tokens: seq<Token>, rest: string)
    requires tokens != [] && tokens <= Tokenize(text)
    requires text != "" && TokenLength(text) > 0 && rest == text[TokenLength(text)..]
    ensures tokens[1..] <= Tokenize(rest)
    ensures Spelled(tokens[1..]) <= rest ==> Spelled(tokens) <= text
  {
    FrontIsSpelled(text);
    PrefixFrom(tokens, FrontToken(text), Tokenize(rest));
    if Spelled(tokens[1..]) <= rest {
      PrefixBehind(Spelling(tokens[0]), Spelled(tokens[1..]), rest);
    }
  }

  lemma PrefixFrom<T>(s: seq<T>, first: T, more: seq<T>)
    requires s != [] && s <= [first] + more
    ensures s[0] == first && s[1..] <= more
  {
    assert s[1..] == ([first] + more)[1..|s|];
  }

  lemma PrefixBehind<T>(front: seq<T>, s: seq<T>, more: seq<T>)
    requires s <= more
    ensures front + s <= front + more
  {
    assert more == s + more[|s|..];
  }

  lemma SpelledBehind(text: string, tokens: seq<Token>, rest: string, more: seq<Token>)
    requires NamesValid(tokens) && NamesApart(tokens) && tokens != [] && !tokens[|tokens| - 1].Ident?
    requires Spelled(tokens) <= text && rest == text[|Spelling(tokens[0])|..] && more == tokens[1..]
    ensures NamesValid(more) && NamesApart(more) && (more != [] ==> !more[|more| - 1].Ident?)
    ensures Spelled(more) <= rest && FrontIsRead(text, tokens[0], rest)
  {
    NamesBehind(tokens, more);
    BeginsAfter(text, tokens, rest);
  }

  /** The token at the front of a text, and the text behind it. */
  predicate FrontIsRead(text: string, token: Token, rest: string) {
    text != "" && TokenLength(text) > 0 && text[TokenLength(text)..] == rest &&
    Tokenize(text) == [token] + Tokenize(rest)
  }

  lemma FirstTokens(text: string, tokens: seq<Token>, rest: string, more: seq<Token>)
    requires tokens != [] && more == tokens[1..] && FrontIsRead(text, tokens[0], rest) && more <= Tokenize(rest)
    ensures tokens <= Tokenize(text)
  {
    PrefixWithFirst(tokens, Tokenize(rest));
  }

  lemma NothingSkippedBefore(text: string, token: Token, rest: string, n: nat)
    requires FrontIsRead(text, token, rest) && n > 0 && NothingSkipped(rest, n - 1)
    ensures NothingSkipped(text, n)
  {
  }

  lemma NamesBehind(tokens: seq<Token>, more: seq<Token>)
    requires NamesValid(tokens) && NamesApart(tokens) && tokens != [] && more == tokens[1..]
    ensures NamesValid(more) && NamesApart(more) && (more != [] ==> more[|more| - 1] == tokens[|tokens| - 1])
  {
    assert forall i :: 0 < i < |more| ==> more[i - 1] == tokens[i];
  }

  lemma PrefixWithFirst<T>(s: seq<T>, more: seq<T>)
    requires s != [] && s[1..] <= more
    ensures s <= [s[0]] + more
  {
    PrefixBehind([s[0]], s[1..], more);
    assert s == [s[0]] + s[1..];
  }

  lemma BeginsAfter(text: string, tokens: seq<Token>, rest: string)
    requires NamesValid(tokens) && NamesApart(tokens) && tokens != [] && !tokens[|tokens| - 1].Ident?
    requires Spelled(tokens) <= text && rest == text[|Spelling(tokens[0])|..]
    ensures text != "" && TokenLength(text) == |Spelling(tokens[0])| && text[TokenLength(text)..] == rest
    ensures Tokenize(text) == [tokens[0]] + Tokenize(rest) && Spelled(tokens[1..]) <= rest
  {
    SplitSpelled(text, Spelling(tokens[0]), Spelled(tokens[1..]));
    if tokens[0].Ident? {
      assert tokens[1..][0] == tokens[1] && rest[0] == Spelling(tokens[1])[0];
    }
    TokenReadsBack(tokens[0], rest);
  }

  lemma SplitSpelled(text: string, front: string, more: string)
    requires front + more <= text
    ensures text == front + text[|front|..] && more <= text[|front|..]
  {
    assert (front + more)[..|front|] == front && (front + more)[|front|..] == more;
  }

  /** The first token stands at the front exactly when the first gap is empty. */
  lemma FrontOfWriting(w: Writing)
    requires Readable(w) && w.Next?
    ensures Text(w) != "" && (w.gap != "" ==> TokenLength(Text(w)) == 0)
    ensures w.gap == "" ==> TokenLength(Text(w)) > 0 && Text(w)[TokenLength(Text(w))..] == Text(w.rest)
  {
    if w.gap == "" {
      if w.token.Ident? {
        NameIsEnded(w.rest);
      }
      TokenReadsBack(w.token, Text(w.rest));
      assert Text(w) == Spelling(w.token) + Text(w.rest);
    } else {
      assert w.gap[0] in w.gap;
      assert Text(w)[0] == w.gap[0];
    }
  }

  /** No gap up to the nth token. */
  predicate NoGaps(w: Writing, n: nat) {
    n == 0 || (w.Next? && w.gap == "" && NoGaps(w.rest, n - 1))
  }

  /** In written tokens nothing is skipped up to the nth exactly when there is no gap up to it. */
  lemma {:induction false} WritingSkips(w: Writing, n: nat)
    requires Readable(w) && n <= |TokensOf(w)|
    ensures NothingSkipped(Text(w), n) <==> NoGaps(w, n)
    decreases n
  {
    if n > 0 {
      FrontOfWriting(w);
      WritingSkips(w.rest, n - 1);
    }
  }
}
