/**
 Which imports of the simulation library the import checker reports, follows or does not look at: exact conditions on
 the tokens of a statement and on how they are written, and the imports that are missed.
 */
module SimImports {
  import opened ImportGraph
  import opened UseSpec
  import opened Wrappers

  const LIB_START := [Ident("lib"), Sep]
  const SIM_START := [Ident("lib"), Sep, Ident("sim"), Sep]

  predicate ReachesIntoSim(path: Path) {
    |path| >= 3 && path[0] == "lib" && path[1] == "sim"
  }

  /** What becomes of any statement, by its tokens: it is reported exactly when it begins with `lib::sim::` and no
      character is skipped up to there; it is looked at, reported or followed, exactly when it so begins with `lib::`.
      */
  lemma ReportedIff(spec: string)
    ensures IsSim(spec) <==> SIM_START <= Tokenize(spec) && NothingSkipped(spec, 4)
    ensures IsLib(spec) <==> LIB_START <= Tokenize(spec) && NothingSkipped(spec, 2)
    ensures IsFollowed(spec) <==> IsLib(spec) && !IsSim(spec)
  {
    StartsAreSpelled();
    BeginsIff(spec, SIM_START);
    BeginsIff(spec, LIB_START);
  }

  lemma StartsAreSpelled()
    ensures Spelled(LIB_START) == "lib::" && Spelled(SIM_START) == "lib::sim::"
    ensures NamesValid(SIM_START) && NamesApart(SIM_START) && NamesValid(LIB_START) && NamesApart(LIB_START)
  {
    assert LIB_START[1..] == [Sep] && [Sep][1..] == [];
    assert SIM_START[1..] == [Sep, Ident("sim"), Sep] && SIM_START[1..][1..] == [Ident("sim"), Sep];
    assert [Ident("sim"), Sep][1..] == [Sep];
    assert Spelled([Sep]) == "::" && Spelled([Ident("sim"), Sep]) == "sim::";
    assert Spelled(SIM_START[1..]) == "::sim::";
  }

  /** What becomes of the items of any forest, however written, that import something below `lib::sim`: they are
      reported exactly when the first tokens are `lib::sim::` and are written without a gap. */
  lemma SimImportReportedIff(f: Forest, names: seq<string>, w: Writing, path: Path)
    requires Readable(w) && TokensOf(w) == ForestTokens(f) + Dangling(names)
    requires path in ForestPaths(f, []) && ReachesIntoSim(path)
    ensures ParseImportPaths(Text(w)) == Success(ForestPaths(f, []))
    ensures IsSim(Text(w)) <==> SIM_START <= TokensOf(w) && NoGaps(w, 4)
    ensures IsLib(Text(w)) <==> LIB_START <= TokensOf(w) && NoGaps(w, 2)
  {
    WrittenForestRoundTrips(f, names, w);
    ReportedIff(Text(w));
    if SIM_START <= TokensOf(w) {
      WritingSkips(w, 4);
    }
    if LIB_START <= TokensOf(w) {
      WritingSkips(w, 2);
    }
  }

  /** Names that dangle at the end of a followed statement are dropped without an error: what they name is not found. */
  lemma DanglingImportIsDropped(names: seq<string>, w: Writing)
    requires Readable(w) && TokensOf(w) == Dangling(names)
    ensures ParseImportPaths(Text(w)) == Success([])
  {
    assert ForestTokens(Empty) + Dangling(names) == Dangling(names);
    WrittenForestRoundTrips(Empty, names, w);
  }

  // ---- imports that are missed ----

  lemma ThreeNames(a: string, b: string, c: string)
    ensures var t := Under(a, Under(b, Leaf(c)));
            ForestTokens(More(t, Empty)) == [Ident(a), Sep, Ident(b), Sep, Ident(c)] &&
            ForestPaths(More(t, Empty), []) == [[a, b, c]]
  {
    assert Tokens(Under(b, Leaf(c))) == [Ident(b), Sep] + [Ident(c)];
    assert [] + [a] == [a] && [a] + [b] == [a, b] && [a, b] + [c] == [a, b, c];
    assert Paths(Under(b, Leaf(c)), [a]) == Paths(Leaf(c), [a, b]);
  }

  lemma GroupedNames(a: string, b: string, c: string)
    ensures var t := Group(a, More(Under(b, Leaf(c)), Empty));
            ForestTokens(More(t, Empty)) == [Ident(a), Sep, LBrace, Ident(b), Sep, Ident(c), RBrace] &&
            ForestPaths(More(t, Empty), []) == [[a, b, c]]
  {
    var item := Under(b, Leaf(c));
    assert Tokens(item) == [Ident(b), Sep] + [Ident(c)];
    assert ForestTokens(More(item, Empty)) == [Ident(b), Sep, Ident(c)] + [];
    assert [] + [a] == [a] && [a] + [b] == [a, b] && [a, b] + [c] == [a, b, c];
    assert Paths(item, [a]) == Paths(Leaf(c), [a, b]) == [[a, b, c]];
    assert ForestPaths(More(item, Empty), [a]) == [[a, b, c]];
  }

  function Spaced(a: string, b: string, c: string): Writing {
    Next("", Ident(a), Next("", Sep, Next(" ", Ident(b), Next("", Sep, Next("", Ident(c), End(""))))))
  }

  function Grouped(a: string, b: string, c: string): Writing {
    Next("", Ident(a), Next("", Sep, Next("", LBrace,
      Next("", Ident(b), Next("", Sep, Next("", Ident(c), Next("", RBrace, End(""))))))))
  }

  /** A token added at the front without a gap. */
  lemma Fronted(token: Token, w: Writing, text: string, tokens: seq<Token>)
    requires Text(w) == text && TokensOf(w) == tokens && GapsHoldNoToken(w)
    ensures var v := Next("", token, w);
            Text(v) == Spelling(token) + text && TokensOf(v) == [token] + tokens && GapsHoldNoToken(v)
  {
    assert "" + (Spelling(token) + text) == Spelling(token) + text;
  }

  lemma SpacedText(a: string, b: string, c: string)
    ensures Text(Spaced(a, b, c)) == a + ("::" + (" " + (b + ("::" + c))))
    ensures TokensOf(Spaced(a, b, c)) == [Ident(a)] + ([Sep] + ([Ident(b)] + ([Sep] + [Ident(c)])))
    ensures GapsHoldNoToken(Spaced(a, b, c)) && !NoGaps(Spaced(a, b, c), 4) && NoGaps(Spaced(a, b, c), 2)
  {
    var w1 := Next("", Ident(c), End(""));
    Fronted(Ident(c), End(""), "", []);
    assert c + "" == c && [Ident(c)] + [] == [Ident(c)];
    Fronted(Sep, w1, c, [Ident(c)]);
    var w2 := Next("", Sep, w1);
    var w3 := Next(" ", Ident(b), w2);
    assert Text(w3) == " " + (b + Text(w2)) && TokensOf(w3) == [Ident(b)] + TokensOf(w2) && GapsHoldNoToken(w3);
    assert !NoGaps(w3, 2);
    assert !NoGaps(Next("", Sep, w3), 3);
    Fronted(Sep, w3, Text(w3), TokensOf(w3));
    Fronted(Ident(a), Next("", Sep, w3), "::" + Text(w3), [Sep] + TokensOf(w3));
  }

  lemma GroupedText(a: string, b: string, c: string)
    ensures Text(Grouped(a, b, c)) == a + ("::" + ("{" + (b + ("::" + (c + "}")))))
    ensures TokensOf(Grouped(a, b, c)) ==
            [Ident(a)] + ([Sep] + ([LBrace] + ([Ident(b)] + ([Sep] + ([Ident(c)] + [RBrace])))))
    ensures GapsHoldNoToken(Grouped(a, b, c)) && NoGaps(Grouped(a, b, c), 2)
  {
    var w1 := Next("", RBrace, End(""));
    Fronted(RBrace, End(""), "", []);
    assert "}" + "" == "}" && [RBrace] + [] == [RBrace];
    var w2 := Next("", Ident(c), w1);
    Fronted(Ident(c), w1, "}", [RBrace]);
    var w3 := Next("", Sep, w2);
    Fronted(Sep, w2, Text(w2), TokensOf(w2));
    var w4 := Next("", Ident(b), w3);
    Fronted(Ident(b), w3, Text(w3), TokensOf(w3));
    var w5 := Next("", LBrace, w4);
    Fronted(LBrace, w4, Text(w4), TokensOf(w4));
    Fronted(Sep, w5, Text(w5), TokensOf(w5));
    Fronted(Ident(a), Next("", Sep, w5), "::" + Text(w5), [Sep] + TokensOf(w5));
  }

  /** Written with a space, as a statement over two lines is joined, an import below `lib::sim` is followed. */
  lemma SpacedSimImportIsMissed(name: string)
    requires ValidName(name)
    ensures var spec := "lib:: sim::" + name;
            IsFollowed(spec) && ParseImportPaths(spec) == Success([["lib", "sim", name]])
  {
    var f, w := More(Under("lib", Under("sim", Leaf(name))), Empty), Spaced("lib", "sim", name);
    SpacedText("lib", "sim", name);
    ThreeNames("lib", "sim", name);
    assert "lib:: sim::" + name == Text(w);
    assert WellFormed(Under("sim", Leaf(name)));
    WellFormedIsReadable(f, w);
    assert ForestTokens(f) + Dangling([]) == ForestTokens(f);
    SimImportReportedIff(f, [], w, ["lib", "sim", name]);
  }

  /** Grouped right under `lib`, it is followed. */
  lemma GroupedSimImportIsMissed(name: string)
    requires ValidName(name)
    ensures var spec := "lib::{sim::" + name + "}";
            IsFollowed(spec) && ParseImportPaths(spec) == Success([["lib", "sim", name]])
  {
    var f, w := More(Group("lib", More(Under("sim", Leaf(name)), Empty)), Empty), Grouped("lib", "sim", name);
    GroupedText("lib", "sim", name);
    GroupedNames("lib", "sim", name);
    assert "lib::{sim::" + name + "}" == Text(w);
    assert WellFormed(Under("sim", Leaf(name)));
    assert WellFormedForest(More(Under("sim", Leaf(name)), Empty));
    assert ForestTokens(f)[2] == LBrace && SIM_START[2] == Ident("sim");
    WellFormedIsReadable(f, w);
    assert ForestTokens(f) + Dangling([]) == ForestTokens(f);
    SimImportReportedIff(f, [], w, ["lib", "sim", name]);
  }
}
