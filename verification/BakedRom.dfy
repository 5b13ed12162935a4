/**
 ROM images baked into generated Spade source: the printer, and the parser that reads identifier, size and payload back.
 The parser collects every byte token of the text, wherever it stands, and the last function line.
 */
module BakedRom {
  import opened Bits
  import opened Sequences
  import opened Text
  import opened Wrappers

  datatype BakedRom = BakedRom(romPath: string, symPath: string, identifier: string, payload: seq<byte>, title: string,
                               cartType: byte, romSizeByte: byte, ramSizeByte: byte, crc32: nat, sha256Hex: string)

  datatype Parsed = Parsed(identifier: string, size: nat, payload: seq<byte>)

  datatype ParseError = NoFunction | LengthMismatch(expected: nat, found: nat)

  // ---- digits ----

  function HexDigit(d: int): (c: char)
    requires 0 <= d < 16
    ensures IsHexDigit(c) && HexValue(c) == d
  {
    if d < 10 then '0' + d as char else 'a' + (d - 10) as char
  }

  predicate IsDigit(c: char) {
    '0' <= c <= '9'
  }

  predicate IsHexDigit(c: char) {
    IsDigit(c) || 'a' <= c <= 'f'
  }

  function HexValue(c: char): (d: int)
    requires IsHexDigit(c)
    ensures 0 <= d < 16
  {
    if IsDigit(c) then c as int - '0' as int else c as int - 'a' as int + 10
  }

  function DecimalText(n: nat): (text: string)
    ensures text != "" && forall c :: c in text ==> IsDigit(c)
  {
    if n < 10 then [HexDigit(n)] else DecimalText(n / 10) + [HexDigit(n % 10)]
  }

  function DecimalValue(text: string): nat
    requires forall c :: c in text ==> IsDigit(c)
  {
    if text == "" then 0 else 10 * DecimalValue(text[..|text| - 1]) + HexValue(text[|text| - 1])
  }

  lemma {:induction false} DecimalRoundTrips(n: nat)
    ensures DecimalValue(DecimalText(n)) == n
  {
    if n >= 10 {
      DecimalRoundTrips(n / 10);
    } else {
      assert DecimalText(n)[..0] == "";
    }
  }

  function HexText(n: nat, width: nat): (text: string)
    ensures |text| >= width && forall c :: c in text ==> IsHexDigit(c)
    decreases n, width
  {
    if n == 0 && width == 0 then ""
    else HexText(n / 16, if width == 0 then 0 else width - 1) + [HexDigit(n % 16)]
  }

  function HexLiteral(n: nat, width: nat): string {
    "0x" + HexText(n, width)
  }

  /** The number hexadecimal digits spell. */
  function HexNumber(text: string): nat
    requires forall c :: c in text ==> IsHexDigit(c)
  {
    if text == "" then 0 else 16 * HexNumber(text[..|text| - 1]) + HexValue(text[|text| - 1])
  }

  lemma HexNumberGrows(front: string, d: char)
    requires (forall c :: c in front ==> IsHexDigit(c)) && IsHexDigit(d)
    ensures forall c :: c in front + [d] ==> IsHexDigit(c)
    ensures HexNumber(front + [d]) == 16 * HexNumber(front) + HexValue(d)
  {
    assert (front + [d])[..|front|] == front;
  }

  /** A number is printed with its own digits. */
  lemma {:induction false} HexRoundTrips(n: nat, width: nat)
    ensures HexNumber(HexText(n, width)) == n
    decreases n, width
  {
    if n > 0 || width > 0 {
      var less := if width == 0 then 0 else width - 1;
      HexRoundTrips(n / 16, less);
      HexNumberGrows(HexText(n / 16, less), HexDigit(n % 16));
    }
  }

  /** They are filled up with zeros to the width and no further. */
  lemma {:induction false} HexIsShort(n: nat, width: nat)
    ensures |HexText(n, width)| > width ==> HexText(n, width)[0] != '0'
    decreases n, width
  {
    if n > 0 || width > 0 {
      var less := if width == 0 then 0 else width - 1;
      HexIsShort(n / 16, less);
      var front := HexText(n / 16, less);
      if front == "" {
        assert HexText(n, width) == [HexDigit(n % 16)];
        assert n / 16 == 0;
      }
    }
  }

  // ---- byte tokens ----

  predicate TokenAt(text: string, i: nat) {
    && i + 6 <= |text| && text[i] == '0' && text[i + 1] == 'x' && IsHexDigit(text[i + 2]) && IsHexDigit(text[i + 3])
    && text[i + 4] == 'u' && text[i + 5] == '8'
  }

  function TokenValue(text: string, i: nat): byte
    requires TokenAt(text, i)
  {
    16 * HexValue(text[i + 2]) + HexValue(text[i + 3])
  }

  /** The bytes of a text's tokens, found left to right without overlap. */
  function TokenBytes(text: string): seq<byte> {
    if |text| < 6 then []
    else if TokenAt(text, 0) then [TokenValue(text, 0)] + TokenBytes(text[6..])
    else TokenBytes(text[1..])
  }

  predicate HasToken(text: string) {
    exists i: nat :: i < |text| && TokenAt(text, i)
  }

  lemma {:induction false} TokensAreFound(text: string)
    ensures TokenBytes(text) == [] <==> !HasToken(text)
    decreases |text|
  {
    if |text| >= 6 && !TokenAt(text, 0) {
      var rest := text[1..];
      TokensAreFound(rest);
      forall i: nat | i < |text|
        ensures TokenAt(text, i) <==> i > 0 && TokenAt(rest, i - 1)
      {
      }
      if HasToken(rest) {
        var j: nat :| j < |rest| && TokenAt(rest, j);
        assert TokenAt(text, j + 1);
      }
    }
  }

  predicate TokenChar(c: char) {
    IsHexDigit(c) || c == 'x' || c == 'u'
  }

  /** No token reaches across a character that tokens do not hold. */
  lemma TokensSplit(a: string, c: char, b: string)
    requires !TokenChar(c)
    ensures TokenBytes(a + [c] + b) == TokenBytes(a) + TokenBytes(b)
  {
    SplitAt(a, c, b, a + [c] + b);
  }

  lemma {:induction false} SplitAt(a: string, c: char, b: string, text: string)
    requires !TokenChar(c) && text == a + [c] + b
    ensures TokenBytes(text) == TokenBytes(a) + TokenBytes(b)
    decreases |a|
  {
    if a == "" {
      assert text[1..] == b && text[0] == c;
    } else {
      SameToken(a, c, b, text);
      var n := if TokenAt(text, 0) then 6 else 1;
      BehindFront(a, c, b, text, n);
      SplitAt(a[n..], c, b, text[n..]);
    }
  }

  lemma SameToken(a: string, c: char, b: string, text: string)
    requires !TokenChar(c) && text == a + [c] + b
    ensures TokenAt(text, 0) <==> TokenAt(a, 0)
    ensures TokenAt(text, 0) ==> TokenValue(text, 0) == TokenValue(a, 0)
  {
    assert forall i :: 0 <= i < |a| ==> text[i] == a[i];
    assert text[|a|] == c;
    if TokenAt(text, 0) {
      TokenReachesNoFurther(text, |a|);
    }
  }

  lemma BehindFront(a: string, c: char, b: string, text: string, n: nat)
    requires text == a + [c] + b && n <= |a|
    ensures text[n..] == a[n..] + [c] + b
  {
  }

  lemma TokenReachesNoFurther(text: string, n: nat)
    requires n < |text| && !TokenChar(text[n]) && TokenAt(text, 0)
    ensures n >= 6
  {
  }

  lemma {:induction false} NoTokenWithout(text: string, c: char)
    requires c == 'x' || c == 'u'
    requires c !in text
    ensures TokenBytes(text) == []
    decreases |text|
  {
    if |text| >= 6 {
      assert text[1] != 'x' || text[4] != 'u';
      NoTokenWithout(text[1..], c);
    }
  }

  // ---- lines ----

  predicate IsBreak(c: char) {
    || '\n' <= c <= '\r' || '\U{1C}' <= c <= '\U{1E}' || c == '\U{85}' || c == '\U{2028}' || c == '\U{2029}'
  }

  predicate LineChar(c: char) {
    !IsBreak(c)
  }

  /** The length of the longest prefix whose characters all pass. */
  function Span(text: string, p: char -> bool): (n: nat)
    ensures n <= |text|
  {
    if text == "" || !p(text[0]) then 0 else 1 + Span(text[1..], p)
  }

  lemma {:induction false} SpanIs(text: string, p: char -> bool, n: nat)
    requires n <= |text| && (n < |text| ==> !p(text[n])) && forall i :: 0 <= i < n ==> p(text[i])
    ensures Span(text, p) == n
  {
    if n > 0 {
      assert p(text[0]);
      SpanIs(text[1..], p, n - 1);
    }
  }

  lemma {:induction false} SpanPasses(text: string, p: char -> bool)
    ensures forall c :: c in text[..Span(text, p)] ==> p(c)
    ensures Span(text, p) < |text| ==> !p(text[Span(text, p)])
  {
    if text != "" && p(text[0]) {
      SpanPasses(text[1..], p);
      assert text[..Span(text, p)] == [text[0]] + text[1..][..Span(text, p) - 1];
    }
  }

  /** The lines of a text, each without its break; a carriage return and a line feed together are one break. */
  function SplitLines(text: string): seq<string>
    decreases |text|
  {
    if text == "" then []
    else
      var n := Span(text, LineChar);
      if n == |text| then [text]
      else [text[..n]] + SplitLines(text[n + BreakLength(text[n..])..])
  }

  function BreakLength(text: string): (n: nat)
    requires text != ""
    ensures 1 <= n <= |text|
  {
    if text[0] == '\r' && |text| > 1 && text[1] == '\n' then 2 else 1
  }

  function Join(lines: seq<string>): string {
    if lines == [] then ""
    else if |lines| == 1 then lines[0]
    else lines[0] + "\n" + Join(lines[1..])
  }

  lemma {:induction false} JoinSplits(a: seq<string>, b: seq<string>)
    requires a != [] && b != []
    ensures Join(a + b) == Join(a) + "\n" + Join(b)
  {
    assert (a + b)[1..] == a[1..] + b;
    if |a| > 1 {
      JoinSplits(a[1..], b);
    } else {
      assert a[1..] + b == b;
    }
  }

  /** The first line of a text that goes on after a line feed ends where it did without what follows. */
  lemma FirstLineEnds(a: string, b: string, front: string, text: string)
    requires front == a + "\n" && text == front + b
    ensures var n := Span(front, LineChar);
            && n <= |a| && Span(text, LineChar) == n && text[..n] == front[..n]
            && BreakLength(text[n..]) == BreakLength(front[n..])
  {
    var n := Span(front, LineChar);
    SpanPasses(front, LineChar);
    assert front[|a|] == '\n';
    assert front[..|front|] == front;
    assert front[|a|] in front;
    forall i | 0 <= i < n
      ensures LineChar(text[i])
    {
      assert front[i] in front[..n];
    }
    SpanIs(text, LineChar, n);
    assert text[n..][0] == front[n..][0];
    assert n < |a| ==> text[n..][1] == front[n..][1];
  }

  lemma FirstLine(text: string, n: nat)
    requires n < |text| && Span(text, LineChar) == n
    ensures SplitLines(text) == [text[..n]] + SplitLines(text[n + BreakLength(text[n..])..])
  {
  }

  lemma RestsAfter(a: string, b: string, front: string, text: string, m: nat)
    requires front == a + "\n" && text == front + b && m <= |front|
    ensures text[m..] == front[m..] + b
    ensures m <= |a| ==> front[m..] == a[m..] + "\n"
  {
  }

  /** Reading on after a line feed reads a new line. */
  lemma {:induction false} LinesAfterBreak(a: string, b: string, front: string, text: string)
    requires front == a + "\n" && text == front + b
    ensures SplitLines(text) == SplitLines(front) + SplitLines(b)
    decreases |a|
  {
    var n := Span(front, LineChar);
    FirstLineEnds(a, b, front, text);
    var m := n + BreakLength(front[n..]);
    FirstLine(front, n);
    FirstLine(text, n);
    RestsAfter(a, b, front, text, m);
    if m <= |a| {
      LinesAfterBreak(a[m..], b, front[m..], text[m..]);
    } else {
      assert front[m..] == "" && text[m..] == b;
    }
    Associates([front[..n]], SplitLines(front[m..]), SplitLines(b));
  }

  lemma LineFirst(line: string, b: string)
    requires forall c :: c in line ==> !IsBreak(c)
    ensures SplitLines(line + "\n" + b) == [line] + SplitLines(b)
  {
    var text := line + "\n" + b;
    assert text[|line|] == '\n';
    SpanIs(text, LineChar, |line|);
    assert text[..|line|] == line;
    assert text[|line| + 1..] == b;
  }

  // ---- what the parser collects ----

  function LinesBytes(lines: seq<string>): seq<byte> {
    if lines == [] then [] else LinesBytes(lines[..|lines| - 1]) + TokenBytes(Strip(lines[|lines| - 1]))
  }

  lemma {:induction false} LinesBytesFirst(lines: seq<string>)
    requires lines != []
    ensures LinesBytes(lines) == TokenBytes(Strip(lines[0])) + LinesBytes(lines[1..])
    decreases |lines|
  {
    var n := |lines| - 1;
    if n > 0 {
      LinesBytesFirst(lines[..n]);
      assert lines[..n][1..] == lines[1..][..n - 1];
    } else {
      assert lines[..0] == [] && lines[1..] == [];
    }
  }

  lemma {:induction false} StripKeepsTokens(text: string)
    ensures TokenBytes(Strip(text)) == TokenBytes(text)
    decreases |text|
  {
    if text != "" {
      var n := |text| - 1;
      if IsSpace(text[0]) {
        assert text == "" + [text[0]] + text[1..];
        TokensSplit("", text[0], text[1..]);
        StripKeepsTokens(text[1..]);
      } else if IsSpace(text[n]) {
        assert text == text[..n] + [text[n]] + "";
        TokensSplit(text[..n], text[n], "");
        StripKeepsTokens(text[..n]);
      }
    }
  }

  /** Reading line by line finds just the tokens of the whole text. */
  lemma {:induction false} LinesCarryAllTokens(text: string)
    ensures LinesBytes(SplitLines(text)) == TokenBytes(text)
    decreases |text|
  {
    if text != "" {
      var n := Span(text, LineChar);
      var line := text[..n];
      StripKeepsTokens(line);
      LinesBytesFirst(SplitLines(text));
      SpanPasses(text, LineChar);
      if n == |text| {
        assert line == text && SplitLines(text)[1..] == [];
      } else {
        var m := n + BreakLength(text[n..]);
        LinesCarryAllTokens(text[m..]);
        assert SplitLines(text)[1..] == SplitLines(text[m..]);
        BreaksSplit(text, n, m);
      }
    }
  }

  lemma BreaksSplit(text: string, n: nat, m: nat)
    requires n < |text| && IsBreak(text[n]) && m == n + BreakLength(text[n..])
    ensures TokenBytes(text) == TokenBytes(text[..n]) + TokenBytes(text[m..])
  {
    assert text == text[..n] + [text[n]] + text[n + 1..];
    TokensSplit(text[..n], text[n], text[n + 1..]);
    if m == n + 2 {
      assert text[n + 1..] == "" + [text[n + 1]] + text[m..];
      TokensSplit("", text[n + 1], text[m..]);
    }
  }

  const PUB_FN := "pub fn "
  const RETURNS := "() -> [uint<8>; "
  const OPENS := "] {"

  predicate NameChar(c: char) {
    'a' <= c <= 'z' || 'A' <= c <= 'Z' || c == '_' || IsDigit(c)
  }

  predicate Legal(name: string) {
    name != "" && !IsDigit(name[0]) && forall c :: c in name ==> NameChar(c)
  }

  datatype Function = Function(name: string, size: nat)

  /** A function line, whole: its name and the size of the array it returns. */
  function MatchFunction(line: string): (r: Option<Function>)
    ensures r.Some? ==> Legal(r.value.name)
  {
    if !(PUB_FN <= line) then None
    else
      var rest := line[|PUB_FN|..];
      var n := Span(rest, NameChar);
      var tail := rest[n..];
      if n == 0 || IsDigit(rest[0]) || !(RETURNS <= tail) then None
      else
        var digits := tail[|RETURNS|..];
        var d := Span(digits, IsDigit);
        SpanPasses(rest, NameChar);
        SpanPasses(digits, IsDigit);
        if d == 0 || digits[d..] != OPENS then None
        else Some(Function(rest[..n], DecimalValue(digits[..d])))
  }

  function FunctionLine(name: string, size: nat): string {
    "pub fn " + name + "() -> [uint<8>; " + DecimalText(size) + "] {"
  }

  lemma FunctionLineMatches(name: string, size: nat)
    requires Legal(name)
    ensures MatchFunction(FunctionLine(name, size)) == Some(Function(name, size))
  {
    DecimalRoundTrips(size);
    LineMatches(FunctionLine(name, size), name, DecimalText(size));
  }

  /** A whole line that declares a function: its name and the digits of its size, and nothing else. */
  predicate Declares(line: string, name: string, digits: string) {
    digits != "" && (forall c :: c in digits ==> IsDigit(c)) && Legal(name) &&
    line == "pub fn " + name + "() -> [uint<8>; " + digits + "] {"
  }

  lemma LineMatches(line: string, name: string, digits: string)
    requires Declares(line, name, digits)
    ensures MatchFunction(line) == Some(Function(name, DecimalValue(digits)))
  {
    var sized := digits + OPENS;
    var rest := name + (RETURNS + sized);
    FiveParts(PUB_FN, name, RETURNS, digits, OPENS);
    FrontThen(PUB_FN, rest);
    SpanThen(name, RETURNS + sized, NameChar);
    FrontThen(RETURNS, sized);
    SpanThen(digits, OPENS, IsDigit);
  }

  lemma MatchedDigits(line: string, f: Function) returns (digits: string)
    requires MatchFunction(line) == Some(f)
    ensures Declares(line, f.name, digits) && DecimalValue(digits) == f.size
  {
    var rest := line[|PUB_FN|..];
    var n := Span(rest, NameChar);
    var behind := rest[n..][|RETURNS|..];
    SpanPasses(behind, IsDigit);
    digits := MatchedBehind(behind, f.size);
    Cut(line, PUB_FN, |PUB_FN|, rest);
    Cut(rest, f.name, n, rest[n..]);
    Cut(rest[n..], RETURNS, |RETURNS|, behind);
    Declared(line, f.name, digits, rest, behind);
  }

  lemma MatchedBehind(behind: string, size: nat) returns (digits: string)
    requires var d := Span(behind, IsDigit);
             && d > 0 && behind[d..] == OPENS && (forall c :: c in behind[..d] ==> IsDigit(c))
             && DecimalValue(behind[..d]) == size
    ensures digits != "" && (forall c :: c in digits ==> IsDigit(c)) && DecimalValue(digits) == size
    ensures behind == digits + OPENS
  {
    digits := behind[..Span(behind, IsDigit)];
  }

  lemma Declared(line: string, name: string, digits: string, rest: string, behind: string)
    requires digits != "" && (forall c :: c in digits ==> IsDigit(c)) && Legal(name)
    requires line == PUB_FN + rest && rest == name + (RETURNS + behind) && behind == digits + OPENS
    ensures Declares(line, name, digits)
  {
    FiveParts(PUB_FN, name, RETURNS, digits, OPENS);
  }

  lemma Cut(text: string, front: string, n: nat, back: string)
    requires n <= |text| && front == text[..n] && back == text[n..]
    ensures text == front + back
  {
  }

  /** Exactly which lines are matched, and as what. */
  lemma MatchIff(line: string, f: Function)
    ensures MatchFunction(line) == Some(f) <==>
            exists digits :: Declares(line, f.name, digits) && DecimalValue(digits) == f.size
  {
    if MatchFunction(line) == Some(f) {
      var digits := MatchedDigits(line, f);
    }
    if digits :| Declares(line, f.name, digits) && DecimalValue(digits) == f.size {
      LineMatches(line, f.name, digits);
    }
  }

  /** The characters of names and digits, by their codes. */
  lemma CharacterCodes(c: char)
    ensures IsDigit(c) <==> 48 <= c as int <= 57
    ensures IsHexDigit(c) <==> IsDigit(c) || 97 <= c as int <= 102
    ensures NameChar(c) <==> IsDigit(c) || 65 <= c as int <= 90 || c as int == 95 || 97 <= c as int <= 122
  {
  }

  lemma FiveParts(a: string, b: string, c: string, d: string, e: string)
    ensures a + b + c + d + e == a + (b + (c + (d + e)))
  {
    Associates(a + b + c, d, e);
    Associates(a + b, c, d + e);
    Associates(a, b, c + (d + e));
  }

  lemma FrontThen(front: string, more: string)
    ensures front <= front + more && (front + more)[|front|..] == more
  {
  }

  /** What passes, and then something that does not. */
  lemma SpanThen(front: string, more: string, p: char -> bool)
    requires (forall i :: 0 <= i < |front| ==> p(front[i])) && more != "" && !p(more[0])
    ensures Span(front + more, p) == |front|
    ensures (front + more)[..|front|] == front && (front + more)[|front|..] == more
  {
    SpanIs(front + more, p, |front|);
  }

  /** The last line that is a function line. */
  function LastFunction(lines: seq<string>): (r: Option<Function>)
    ensures r.Some? ==> Legal(r.value.name)
  {
    if lines == [] then None
    else
      var last := MatchFunction(Strip(lines[|lines| - 1]));
      if last.Some? then last else LastFunction(lines[..|lines| - 1])
  }

  lemma {:induction false} LastFunctionOf(a: seq<string>, line: string, b: seq<string>)
    requires MatchFunction(Strip(line)).Some?
    requires forall i :: 0 <= i < |b| ==> MatchFunction(Strip(b[i])).None?
    ensures LastFunction(a + [line] + b) == MatchFunction(Strip(line))
    decreases |b|
  {
    if b == [] {
      assert a + [line] + b == a + [line];
    } else {
      var n := |b| - 1;
      LastFunctionOf(a, line, b[..n]);
      LastIsNoFunction(a + [line] + b[..n], b[n]);
      Associates(a + [line], b[..n], [b[n]]);
      assert b == b[..n] + [b[n]];
    }
  }

  lemma LastIsNoFunction(lines: seq<string>, line: string)
    requires MatchFunction(Strip(line)).None?
    ensures LastFunction(lines + [line]) == LastFunction(lines)
  {
    assert (lines + [line])[..|lines|] == lines;
  }

  function Collect(lines: seq<string>): Result<Parsed, ParseError> {
    match LastFunction(lines)
    case None => Failure(NoFunction)
    case Some(f) =>
      var payload := LinesBytes(lines);
      if |payload| != f.size then Failure(LengthMismatch(f.size, |payload|))
      else Success(Parsed(f.name, f.size, payload))
  }

  method ParseGeneratedSpade(text: string) returns (r: Result<Parsed, ParseError>)
    ensures r == Collect(SplitLines(text))
  {
    var found: Option<Function> := None;
    var payload: seq<byte> := [];
    var lines := SplitLines(text);
    for i := 0 to |lines|
      invariant found == LastFunction(lines[..i]) && payload == LinesBytes(lines[..i])
    {
      OneMoreLine(lines, i);
      var line := Strip(lines[i]);
      var matched := MatchFunction(line);
      if matched.Some? {
        found := matched;
      }
      var bytes := FindBytes(line);
      payload := payload + bytes;
    }
    assert lines[..|lines|] == lines;
    if found.None? {
      return Failure(NoFunction);
    }
    if |payload| != found.value.size {
      return Failure(LengthMismatch(found.value.size, |payload|));
    }
    r := Success(Parsed(found.value.name, found.value.size, payload));
  }

  lemma OneMoreLine(lines: seq<string>, i: nat)
    requires i < |lines|
    ensures var matched := MatchFunction(Strip(lines[i]));
            LastFunction(lines[..i + 1]) == if matched.Some? then matched else LastFunction(lines[..i])
    ensures LinesBytes(lines[..i + 1]) == LinesBytes(lines[..i]) + TokenBytes(Strip(lines[i]))
  {
    assert lines[..i + 1][..i] == lines[..i];
  }

  method FindBytes(line: string) returns (bytes: seq<byte>)
    ensures bytes == TokenBytes(line)
  {
    bytes := [];
    var i := 0;
    while i < |line|
      invariant 0 <= i <= |line|
      invariant TokenBytes(line) == bytes + TokenBytes(line[i..])
    {
      if TokenAt(line, i) {
        assert line[i..][6..] == line[i + 6..];
        bytes := bytes + [TokenValue(line, i)];
        i := i + 6;
      } else {
        assert line[i..][1..] == line[i + 1..];
        i := i + 1;
      }
    }
  }

  // ---- the printer ----

  function ByteText(b: byte): string {
    "0x" + [HexDigit(b / 16), HexDigit(b % 16)] + "u8"
  }

  function ChunkText(chunk: seq<byte>): string {
    if chunk == [] then ""
    else if |chunk| == 1 then ByteText(chunk[0])
    else ByteText(chunk[0]) + ", " + ChunkText(chunk[1..])
  }

  function Chunk(payload: seq<byte>, start: nat): seq<byte>
    requires start <= |payload|
  {
    if start + 16 < |payload| then payload[start..start + 16] else payload[start..]
  }

  function RowText(payload: seq<byte>, start: nat): string
    requires start < |payload|
  {
    "        " + ChunkText(Chunk(payload, start)) + if start + 16 < |payload| then "," else ""
  }

  /** The payload from an offset on, sixteen bytes a row. */
  function Rows(payload: seq<byte>, start: nat): seq<string>
    decreases |payload| - start
  {
    if start >= |payload| then [] else [RowText(payload, start)] + Rows(payload, start + 16)
  }

  const TOOL_VERSION := "bake_rom_image.py v1"
  const GENERATED_AT := "1970-01-01T00:00:00Z"

  function HeaderLines(b: BakedRom): seq<string> {
    ["// Generated by " + TOOL_VERSION,
     "// Generated UTC: " + GENERATED_AT,
     "// Source ROM: " + b.romPath,
     "// Source SYM: " + b.symPath,
     "// ROM title: " + b.title,
     "// Cart type: " + HexLiteral(b.cartType, 2),
     "// ROM size byte: " + HexLiteral(b.romSizeByte, 2),
     "// RAM size byte: " + HexLiteral(b.ramSizeByte, 2),
     "// Truncated size: " + DecimalText(|b.payload|),
     "// CRC32: " + HexLiteral(b.crc32, 8),
     "// SHA256: " + b.sha256Hex,
     ""]
  }

  /** A label and a number in hexadecimal digits, as many as the width asks for or the number needs. */
  predicate ShowsHex(line: string, lead: string, width: nat, n: nat) {
    && lead <= line && |line| - |lead| >= width
    && (forall c :: c in line[|lead|..] ==> IsHexDigit(c)) && HexNumber(line[|lead|..]) == n
    && (|line| - |lead| > width ==> line[|lead|] != '0')
  }

  lemma HexLineShows(line: string, lead: string, n: nat, width: nat)
    requires line == lead + HexLiteral(n, width)
    ensures ShowsHex(line, lead + "0x", width, n)
  {
    var text := HexText(n, width);
    HexRoundTrips(n, width);
    HexIsShort(n, width);
    assert line == (lead + "0x") + text;
    assert line[|lead| + 2..] == text;
  }

  /** The numbers of the header, by line. */
  lemma HeaderNumbers(b: BakedRom, h: seq<string>)
    requires h == HeaderLines(b)
    ensures |h| == 12
    ensures ShowsHex(h[5], "// Cart type: " + "0x", 2, b.cartType)
    ensures ShowsHex(h[6], "// ROM size byte: " + "0x", 2, b.romSizeByte)
    ensures ShowsHex(h[7], "// RAM size byte: " + "0x", 2, b.ramSizeByte)
    ensures ShowsHex(h[9], "// CRC32: " + "0x", 8, b.crc32)
  {
    HexLineShows(h[5], "// Cart type: ", b.cartType, 2);
    HexLineShows(h[6], "// ROM size byte: ", b.romSizeByte, 2);
    HexLineShows(h[7], "// RAM size byte: ", b.ramSizeByte, 2);
    HexLineShows(h[9], "// CRC32: ", b.crc32, 8);
  }

  /** The texts of the header, by line. */
  lemma HeaderTexts(b: BakedRom, h: seq<string>)
    requires h == HeaderLines(b)
    ensures h[0] == "// Generated by " + "bake_rom_image.py v1" && h[1] == "// Generated UTC: " + "1970-01-01T00:00:00Z"
    ensures h[2] == "// Source ROM: " + b.romPath && h[3] == "// Source SYM: " + b.symPath
    ensures h[4] == "// ROM title: " + b.title && h[10] == "// SHA256: " + b.sha256Hex && h[11] == ""
    ensures h[8] == "// Truncated size: " + DecimalText(|b.payload|)
  {
  }

  /** As many rows as started sixteens. */
  lemma {:induction false} RowsCounted(payload: seq<byte>, start: nat)
    requires start < |payload| + 16
    ensures |Rows(payload, start)| == if start < |payload| then (|payload| - start + 15) / 16 else 0
    decreases |payload| - start
  {
    if start < |payload| {
      RowsCounted(payload, start + 16);
    }
  }

  lemma {:induction false} RowAt(payload: seq<byte>, start: nat, k: nat, at: nat)
    requires at == start + 16 * k && at < |payload|
    ensures k < |Rows(payload, start)| && Rows(payload, start)[k] == RowText(payload, at)
    decreases k
  {
    if k > 0 {
      RowAt(payload, start + 16, k - 1, at);
    }
  }

  /** Sixteen bytes to a row, and every row but the last ends in a comma. */
  lemma RowsHoldSixteen(payload: seq<byte>, k: nat, at: nat, row: string)
    requires at == 16 * k && at < |payload|
    requires k < |Rows(payload, 0)| ==> row == Rows(payload, 0)[k]
    ensures k < |Rows(payload, 0)| && TokenBytes(row) == RowBytes(payload, at)
    ensures row != "" && (row[|row| - 1] == ',' <==> at + 16 < |payload|)
  {
    RowAt(payload, 0, k, at);
    RowTokens(payload, at);
    RowEnds(payload, at);
  }

  function RowBytes(payload: seq<byte>, start: nat): seq<byte>
    requires start < |payload|
  {
    if |payload| < start + 16 then payload[start..] else payload[start..start + 16]
  }

  lemma RowEnds(payload: seq<byte>, start: nat)
    requires start < |payload|
    ensures var row := RowText(payload, start);
            row != "" && (row[|row| - 1] == ',' <==> start + 16 < |payload|)
  {
    var chunk := Chunk(payload, start);
    ChunkEnds(chunk);
    assert RowText(payload, start) ==
      if start + 16 < |payload| then "        " + ChunkText(chunk) + "," else "        " + ChunkText(chunk);
  }

  lemma {:induction false} ChunkEnds(chunk: seq<byte>)
    requires chunk != []
    ensures ChunkText(chunk) != "" && ChunkText(chunk)[|ChunkText(chunk)| - 1] == '8'
  {
    if |chunk| > 1 {
      ChunkEnds(chunk[1..]);
    }
  }

  function BodyLines(payload: seq<byte>): seq<string> {
    ["    ["] + Rows(payload, 0) + ["    ]", "}", ""]
  }

  function Rendered(b: BakedRom): string {
    Join(HeaderLines(b) + [FunctionLine(b.identifier, |b.payload|)] + BodyLines(b.payload))
  }

  method RenderSpade(b: BakedRom) returns (text: string)
    ensures text == Rendered(b)
  {
    var head := HeaderLines(b) + [FunctionLine(b.identifier, |b.payload|), "    ["];
    var lines := head;
    var start := 0;
    while start < |b.payload|
      invariant 0 <= start
      invariant lines + Rows(b.payload, start) == head + Rows(b.payload, 0)
      decreases |b.payload| - start
    {
      var rendered := ChunkText(Chunk(b.payload, start));
      var suffix := if start + 16 < |b.payload| then "," else "";
      lines := lines + ["        " + rendered + suffix];
      start := start + 16;
    }
    assert lines == head + Rows(b.payload, 0);
    lines := lines + ["    ]", "}", ""];
    var line := [FunctionLine(b.identifier, |b.payload|)];
    assert head == HeaderLines(b) + line + ["    ["];
    Associates(HeaderLines(b) + line, ["    ["], Rows(b.payload, 0));
    Associates(HeaderLines(b) + line, ["    ["] + Rows(b.payload, 0), ["    ]", "}", ""]);
    text := Join(lines);
  }

  // ---- the tokens of a printed text ----

  function AllTokens(lines: seq<string>): seq<byte> {
    if lines == [] then [] else TokenBytes(lines[0]) + AllTokens(lines[1..])
  }

  lemma {:induction false} AllTokensSplit(a: seq<string>, b: seq<string>)
    ensures AllTokens(a + b) == AllTokens(a) + AllTokens(b)
  {
    if a == [] {
      assert a + b == b;
    } else {
      AllTokensSplit(a[1..], b);
      assert (a + b)[1..] == a[1..] + b;
      Associates(TokenBytes(a[0]), AllTokens(a[1..]), AllTokens(b));
    }
  }

  lemma {:induction false} JoinKeepsTokens(lines: seq<string>)
    ensures TokenBytes(Join(lines)) == AllTokens(lines)
  {
    if |lines| > 1 {
      JoinKeepsTokens(lines[1..]);
      assert Join(lines) == lines[0] + ['\n'] + Join(lines[1..]);
      TokensSplit(lines[0], '\n', Join(lines[1..]));
    } else if |lines| == 1 {
      assert lines[1..] == [];
    }
  }

  lemma ByteIsToken(b: byte)
    ensures TokenBytes(ByteText(b)) == [b]
  {
    var text := ByteText(b);
    assert TokenAt(text, 0) && text[6..] == "";
  }

  lemma {:induction false} ChunkTokens(chunk: seq<byte>)
    ensures TokenBytes(ChunkText(chunk)) == chunk
  {
    if chunk != [] {
      ByteIsToken(chunk[0]);
      if |chunk| > 1 {
        var rest := ChunkText(chunk[1..]);
        ChunkTokens(chunk[1..]);
        assert ChunkText(chunk) == ByteText(chunk[0]) + [','] + (" " + rest);
        TokensSplit(ByteText(chunk[0]), ',', " " + rest);
        assert " " + rest == "" + [' '] + rest;
        TokensSplit("", ' ', rest);
      }
    }
  }

  lemma Indented(text: string)
    ensures TokenBytes("        " + text) == TokenBytes(text)
  {
    assert "        " + text == "       " + [' '] + text;
    TokensSplit("       ", ' ', text);
    NoTokenWithout("       ", 'x');
  }

  lemma RowTokens(payload: seq<byte>, start: nat)
    requires start < |payload|
    ensures TokenBytes(RowText(payload, start)) == Chunk(payload, start)
  {
    var text := ChunkText(Chunk(payload, start));
    ChunkTokens(Chunk(payload, start));
    if start + 16 < |payload| {
      assert RowText(payload, start) == "        " + (text + ",");
      Indented(text + ",");
      assert text + "," == text + [','] + "";
      TokensSplit(text, ',', "");
    } else {
      assert RowText(payload, start) == "        " + text;
      Indented(text);
    }
  }

  lemma {:induction false} RowsTokens(payload: seq<byte>, start: nat)
    requires start <= |payload|
    ensures AllTokens(Rows(payload, start)) == payload[start..]
    decreases |payload| - start
  {
    if start < |payload| {
      RowTokens(payload, start);
      var rows := Rows(payload, start);
      assert rows[1..] == Rows(payload, start + 16);
      if start + 16 <= |payload| {
        RowsTokens(payload, start + 16);
        assert payload[start..] == Chunk(payload, start) + payload[start + 16..];
      } else {
        assert rows[1..] == [];
      }
    }
  }

  lemma BodyTokens(payload: seq<byte>)
    ensures AllTokens(BodyLines(payload)) == payload
  {
    RowsTokens(payload, 0);
    AllTokensSplit(["    ["] + Rows(payload, 0), ["    ]", "}", ""]);
    AllTokensSplit(["    ["], Rows(payload, 0));
    assert ["    ]", "}", ""][1..] == ["}", ""] && ["}", ""][1..] == [""] && [""][1..] == [];
    assert ["    ["][1..] == [];
  }

  /** A label before a text adds no token. */
  lemma Labelled(lead: string, text: string)
    requires lead != "" && lead[|lead| - 1] == ' ' && 'x' !in lead
    ensures TokenBytes(lead + text) == TokenBytes(text)
  {
    var front := lead[..|lead| - 1];
    assert lead + text == front + [' '] + text;
    TokensSplit(front, ' ', text);
    NoTokenWithout(front, 'x');
  }

  lemma FunctionLineTokens(name: string, size: nat)
    ensures TokenBytes(FunctionLine(name, size)) == TokenBytes(name)
  {
    var tail := ARROW + (DecimalText(size) + OPENS);
    FunctionLineParts(name, size, tail);
    NoXBehindName(size);
    assert !TokenChar('(');
    NamedTokens(PUB_FN, name, '(', tail);
  }

  const ARROW := ") -> [uint<8>; "

  lemma FunctionLineParts(name: string, size: nat, tail: string)
    requires tail == ARROW + (DecimalText(size) + OPENS)
    ensures FunctionLine(name, size) == PUB_FN + (name + ['('] + tail)
  {
    assert RETURNS == ['('] + ARROW;
    FiveParts(PUB_FN, name, RETURNS, DecimalText(size), OPENS);
    Associates(['('], ARROW, DecimalText(size) + OPENS);
    Associates(name, ['('], tail);
  }

  lemma NoXBehindName(size: nat)
    ensures 'x' !in ARROW + (DecimalText(size) + OPENS)
  {
  }

  /** A label, a text that ends at a character tokens do not hold, and more without a token. */
  lemma NamedTokens(lead: string, name: string, c: char, tail: string)
    requires lead != "" && lead[|lead| - 1] == ' ' && 'x' !in lead && !TokenChar(c) && 'x' !in tail
    ensures TokenBytes(lead + (name + [c] + tail)) == TokenBytes(name)
  {
    Labelled(lead, name + [c] + tail);
    TokensSplit(name, c, tail);
    NoTokenWithout(tail, 'x');
  }

  lemma HexIsNoToken(n: nat, width: nat)
    ensures TokenBytes(HexLiteral(n, width)) == []
  {
    NoTokenWithout(HexLiteral(n, width), 'u');
  }

  lemma PathTokens(b: BakedRom)
    ensures var h := HeaderLines(b);
            TokenBytes(h[2]) == TokenBytes(b.romPath) && TokenBytes(h[3]) == TokenBytes(b.symPath)
  {
    Labelled("// Source ROM: ", b.romPath);
    Labelled("// Source SYM: ", b.symPath);
  }

  lemma TitleTokens(b: BakedRom)
    ensures var h := HeaderLines(b);
            TokenBytes(h[4]) == TokenBytes(b.title) && TokenBytes(h[10]) == TokenBytes(b.sha256Hex)
  {
    Labelled("// ROM title: ", b.title);
    Labelled("// SHA256: ", b.sha256Hex);
  }

  lemma TypeTokens(b: BakedRom)
    ensures var h := HeaderLines(b); TokenBytes(h[5]) == TokenBytes(h[9]) == []
  {
    HexIsNoToken(b.cartType, 2);
    HexIsNoToken(b.crc32, 8);
    Labelled("// Cart type: ", HexLiteral(b.cartType, 2));
    Labelled("// CRC32: ", HexLiteral(b.crc32, 8));
  }

  lemma SizeByteTokens(b: BakedRom)
    ensures var h := HeaderLines(b); TokenBytes(h[6]) == TokenBytes(h[7]) == []
  {
    HexIsNoToken(b.romSizeByte, 2);
    HexIsNoToken(b.ramSizeByte, 2);
    Labelled("// ROM size byte: ", HexLiteral(b.romSizeByte, 2));
    Labelled("// RAM size byte: ", HexLiteral(b.ramSizeByte, 2));
  }

  lemma SizeTokens(b: BakedRom)
    ensures var h := HeaderLines(b); TokenBytes(h[8]) == TokenBytes(h[11]) == []
  {
    Labelled("// Truncated size: ", DecimalText(|b.payload|));
    NoTokenWithout(DecimalText(|b.payload|), 'x');
  }

  lemma NoTokenWithoutX(text: string)
    requires 'x' !in text
    ensures !HasToken(text)
  {
  }

  lemma GeneratedByTokens()
    ensures !HasToken("// Generated by " + TOOL_VERSION)
  {
    NoTokenWithoutX("// Generated by " + TOOL_VERSION);
  }

  lemma GeneratedAtTokens()
    ensures !HasToken("// Generated UTC: " + GENERATED_AT)
  {
    NoTokenWithoutX("// Generated UTC: " + GENERATED_AT);
  }

  lemma GeneratorTokens(b: BakedRom)
    ensures var h := HeaderLines(b); !HasToken(h[0]) && !HasToken(h[1])
  {
    GeneratedByTokens();
    GeneratedAtTokens();
  }

  lemma AllTokensAt(lines: seq<string>, i: nat)
    requires i < |lines|
    ensures AllTokens(lines[i..]) == TokenBytes(lines[i]) + AllTokens(lines[i + 1..])
  {
    assert lines[i..][1..] == lines[i + 1..];
  }

  lemma {:induction false} EmptyStretch(lines: seq<string>, i: nat, j: nat)
    requires i <= j <= |lines| && forall k :: i <= k < j ==> TokenBytes(lines[k]) == []
    ensures AllTokens(lines[i..]) == AllTokens(lines[j..])
    decreases j - i
  {
    if i < j {
      AllTokensAt(lines, i);
      EmptyStretch(lines, i + 1, j);
    }
  }

  lemma LastLinesTokens(h: seq<string>)
    requires |h| == 12 && TokenBytes(h[8]) == TokenBytes(h[11]) == []
    requires TokenBytes(h[5]) == TokenBytes(h[6]) == TokenBytes(h[7]) == TokenBytes(h[9]) == []
    ensures AllTokens(h[5..]) == TokenBytes(h[10])
  {
    EmptyStretch(h, 5, 10);
    AllTokensAt(h, 10);
    EmptyStretch(h, 11, 12);
  }

  lemma FourTokenLines(h: seq<string>)
    requires |h| == 12
    requires !HasToken(h[0]) && !HasToken(h[1]) && TokenBytes(h[8]) == TokenBytes(h[11]) == []
    requires TokenBytes(h[5]) == TokenBytes(h[6]) == TokenBytes(h[7]) == TokenBytes(h[9]) == []
    ensures AllTokens(h) == TokenBytes(h[2]) + (TokenBytes(h[3]) + (TokenBytes(h[4]) + TokenBytes(h[10])))
  {
    TokensAreFound(h[0]);
    TokensAreFound(h[1]);
    EmptyStretch(h, 0, 2);
    AllTokensAt(h, 2);
    AllTokensAt(h, 3);
    AllTokensAt(h, 4);
    LastLinesTokens(h);
    assert h[0..] == h;
  }

  /** The header's tokens are those of its four free texts. */
  lemma HeaderTokens(b: BakedRom)
    ensures AllTokens(HeaderLines(b)) == FreeTokens(b)
  {
    GeneratorTokens(b);
    PathTokens(b);
    TitleTokens(b);
    TypeTokens(b);
    SizeByteTokens(b);
    SizeTokens(b);
    FourTokenLines(HeaderLines(b));
  }

  /** The tokens of the texts a header quotes. */
  function FreeTokens(b: BakedRom): seq<byte> {
    TokenBytes(b.romPath) + (TokenBytes(b.symPath) + (TokenBytes(b.title) + TokenBytes(b.sha256Hex)))
  }

  lemma PartsKeepTokens(head: seq<string>, line: string, body: seq<string>)
    ensures TokenBytes(Join(head + [line] + body)) == AllTokens(head) + TokenBytes(line) + AllTokens(body)
  {
    JoinKeepsTokens(head + [line] + body);
    AllTokensSplit(head + [line], body);
    AllTokensSplit(head, [line]);
    AllTokensOne(line);
  }

  lemma AllTokensOne(line: string)
    ensures AllTokens([line]) == TokenBytes(line)
  {
    assert [line][1..] == [];
  }

  /** Every token of a printed text: those of its free texts, then the payload. */
  lemma RenderedTokens(b: BakedRom)
    ensures TokenBytes(Rendered(b)) == FreeTokens(b) + TokenBytes(b.identifier) + b.payload
  {
    PartsKeepTokens(HeaderLines(b), FunctionLine(b.identifier, |b.payload|), BodyLines(b.payload));
    HeaderTokens(b);
    FunctionLineTokens(b.identifier, |b.payload|);
    BodyTokens(b.payload);
  }

  // ---- the function line of a printed text ----

  lemma {:induction false} StripAddsNothing(text: string)
    ensures forall c :: c in Strip(text) ==> c in text
    decreases |text|
  {
    if text != "" {
      if IsSpace(text[0]) {
        StripAddsNothing(text[1..]);
      } else if IsSpace(text[|text| - 1]) {
        StripAddsNothing(text[..|text| - 1]);
      }
    }
  }

  lemma NoMatchWithoutP(line: string)
    requires 'p' !in line
    ensures MatchFunction(Strip(line)).None?
  {
    var stripped := Strip(line);
    StripAddsNothing(line);
    assert PUB_FN[0] == 'p';
    if stripped != "" {
      assert stripped[0] in stripped;
    }
  }

  /** Without a `p` there is no function line. */
  lemma {:induction false} NoFunctionWithoutP(text: string)
    requires 'p' !in text
    ensures forall i :: 0 <= i < |SplitLines(text)| ==> MatchFunction(Strip(SplitLines(text)[i])).None?
    decreases |text|
  {
    if text != "" {
      var n := Span(text, LineChar);
      var line := text[..n];
      NoMatchWithoutP(line);
      if n == |text| {
        assert line == text;
      } else {
        NoFunctionWithoutP(text[n + BreakLength(text[n..])..]);
      }
    }
  }

  lemma {:induction false} JoinHolds(lines: seq<string>, c: char)
    requires c != '\n' && forall i :: 0 <= i < |lines| ==> c !in lines[i]
    ensures c !in Join(lines)
  {
    if |lines| > 1 {
      JoinHolds(lines[1..], c);
    }
  }

  lemma {:induction false} ChunkHasNoP(chunk: seq<byte>)
    ensures 'p' !in ChunkText(chunk)
  {
    if |chunk| > 1 {
      ChunkHasNoP(chunk[1..]);
    }
  }

  lemma {:induction false} RowsHaveNoP(payload: seq<byte>, start: nat)
    ensures forall i :: 0 <= i < |Rows(payload, start)| ==> 'p' !in Rows(payload, start)[i]
    decreases |payload| - start
  {
    if start < |payload| {
      ChunkHasNoP(Chunk(payload, start));
      RowsHaveNoP(payload, start + 16);
    }
  }

  lemma StripKeepsLine(line: string)
    requires line != "" && !IsSpace(line[0]) && !IsSpace(line[|line| - 1])
    ensures Strip(line) == line
  {
  }

  /** The function line stands alone between the header's lines and a body without another. */
  lemma MiddleLine(head: string, line: string, body: string)
    requires (forall c :: c in line ==> !IsBreak(c)) && MatchFunction(Strip(line)).Some? && 'p' !in body
    ensures LastFunction(SplitLines(head + "\n" + (line + "\n" + body))) == MatchFunction(Strip(line))
  {
    LinesAfterBreak(head, line + "\n" + body, head + "\n", head + "\n" + (line + "\n" + body));
    LineFirst(line, body);
    NoFunctionWithoutP(body);
    var before, after := SplitLines(head + "\n"), SplitLines(body);
    assert before + ([line] + after) == before + [line] + after;
    LastFunctionOf(before, line, after);
  }

  lemma RenderedParts(b: BakedRom)
    ensures var line := FunctionLine(b.identifier, |b.payload|);
            Rendered(b) == Join(HeaderLines(b)) + "\n" + (line + "\n" + Join(BodyLines(b.payload)))
  {
    ThreeParts(HeaderLines(b), FunctionLine(b.identifier, |b.payload|), BodyLines(b.payload));
  }

  lemma ThreeParts(head: seq<string>, line: string, body: seq<string>)
    requires head != [] && body != []
    ensures Join(head + [line] + body) == Join(head) + "\n" + (line + "\n" + Join(body))
  {
    JoinSplits(head, [line] + body);
    JoinSplits([line], body);
    assert head + [line] + body == head + ([line] + body);
  }

  lemma BodyHasNoP(payload: seq<byte>)
    ensures 'p' !in Join(BodyLines(payload))
  {
    RowsHaveNoP(payload, 0);
    JoinHolds(BodyLines(payload), 'p');
  }

  lemma FunctionLineIsWhole(name: string, size: nat)
    requires Legal(name)
    ensures Strip(FunctionLine(name, size)) == FunctionLine(name, size)
    ensures forall c :: c in FunctionLine(name, size) ==> !IsBreak(c)
  {
    var line := FunctionLine(name, size);
    assert line[0] == 'p' && line[|line| - 1] == '{';
    StripKeepsLine(line);
  }

  lemma RenderedFunction(b: BakedRom)
    requires Legal(b.identifier)
    ensures LastFunction(SplitLines(Rendered(b))) == Some(Function(b.identifier, |b.payload|))
  {
    RenderedParts(b);
    BodyHasNoP(b.payload);
    FunctionLineIsWhole(b.identifier, |b.payload|);
    FunctionLineMatches(b.identifier, |b.payload|);
    MiddleLine(Join(HeaderLines(b)), FunctionLine(b.identifier, |b.payload|), Join(BodyLines(b.payload)));
  }

  lemma NothingElse(free: seq<byte>, name: seq<byte>, payload: seq<byte>)
    ensures |free + name + payload| == |payload| <==> free == [] && name == []
    ensures free == [] && name == [] ==> free + name + payload == payload
  {
  }

  lemma FreeTokensAre(b: BakedRom)
    ensures FreeTokens(b) == []
            <==> !HasToken(b.romPath) && !HasToken(b.symPath) && !HasToken(b.title) && !HasToken(b.sha256Hex)
  {
    TokensAreFound(b.romPath);
    TokensAreFound(b.symPath);
    TokensAreFound(b.title);
    TokensAreFound(b.sha256Hex);
  }

  /** A printed image is read back whole exactly when its identifier is a legal name and neither the identifier nor any
      text of the header holds a byte token. */
  lemma RoundTripsIff(b: BakedRom)
    ensures Collect(SplitLines(Rendered(b))) == Success(Parsed(b.identifier, |b.payload|, b.payload))
            <==> && Legal(b.identifier) && !HasToken(b.identifier)
                 && !HasToken(b.romPath) && !HasToken(b.symPath) && !HasToken(b.title) && !HasToken(b.sha256Hex)
  {
    RenderedTokens(b);
    FreeTokensAre(b);
    TokensAreFound(b.identifier);
    CollectedOf(SplitLines(Rendered(b)), b);
    LinesCarryAllTokens(Rendered(b));
    NothingElse(FreeTokens(b), TokenBytes(b.identifier), b.payload);
    if Legal(b.identifier) {
      RenderedFunction(b);
    }
  }

  lemma CollectedOf(lines: seq<string>, b: BakedRom)
    ensures Collect(lines) == Success(Parsed(b.identifier, |b.payload|, b.payload))
            <==> LastFunction(lines) == Some(Function(b.identifier, |b.payload|)) && LinesBytes(lines) == b.payload
  {
  }
}
