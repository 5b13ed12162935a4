/**
 Whole frames of the per-pixel oracle: rendering 144 snapshots, and the comparison of a frame with them that reports
 the first differing pixels.
 */
module SpatialFrame {
  import opened Sequences
  import opened SpatialOracle
  import opened Wrappers

  const SCREEN_WIDTH := 160
  const SCREEN_HEIGHT := 144

  datatype FrameError = ScanlineCount | RowCount | RowWidth(y: int) | OfPixel(error: OracleError)

  datatype PixelDiff = PixelDiff(x: int, y: int, actualShade: int, expectedShade: int, expectedSource: PixelSource,
                                 bgTileId: int, windowTileId: Option<int>, objSpriteIndex: Option<int>,
                                 objTileId: Option<int>)

  function DmgGray(shade: int): (grey: int)
    ensures grey == 85 * (3 - shade % 4)
  {
    match shade % 4
    case 0 => 0xFF
    case 1 => 0xAA
    case 2 => 0x55
    case _ => 0x00
  }

  function Greys(row: seq<PixelResult>): (greys: seq<int>)
    ensures |greys| == |row|
  {
    seq(|row|, x requires 0 <= x < |row| => DmgGray(row[x].shade))
  }

  /** The first pixels of a snapshot's line. */
  ghost predicate DrawsRow(s: Snapshot, row: seq<PixelResult>, n: nat)
    requires Shaped(s)
  {
    |row| == n && forall x {:trigger Pixel(x, s)} :: 0 <= x < n ==> row[x] == Pixel(x, s)
  }

  predicate ShapedLines(scanlines: seq<Snapshot>) {
    forall y :: 0 <= y < |scanlines| ==> Shaped(scanlines[y])
  }

  /** The pixels of a frame's snapshots, row by row. */
  ghost predicate DrawsFrame(scanlines: seq<Snapshot>, drawn: seq<seq<PixelResult>>)
    requires ShapedLines(scanlines)
  {
    |drawn| == |scanlines| && forall y :: 0 <= y < |drawn| ==> DrawsRow(scanlines[y], drawn[y], 160)
  }

  method RenderScanline(s: Snapshot) returns (r: Result<seq<int>, OracleError>, ghost drawn: seq<PixelResult>)
    ensures !Shaped(s) ==> r == Failure(BadShape)
    ensures Shaped(s) ==> DrawsRow(s, drawn, 160) && r == Success(Greys(drawn))
  {
    var row: seq<int> := [];
    drawn := [];
    for x := 0 to SCREEN_WIDTH
      invariant row == Greys(drawn) && (x > 0 ==> Shaped(s))
      invariant Shaped(s) ==> DrawsRow(s, drawn, x)
    {
      var p;
      p, drawn := DrawNext(x, s, drawn);
      if p.Failure? {
        return Failure(p.error), drawn;
      }
      row := row + [DmgGray(p.value.shade)];
    }
    r := Success(row);
  }

  /** The next pixel of a line. */
  method DrawNext(x: nat, s: Snapshot, ghost before: seq<PixelResult>)
    returns (p: Result<PixelResult, OracleError>, ghost drawn: seq<PixelResult>)
    requires Shaped(s) ==> DrawsRow(s, before, x)
    ensures !Shaped(s) ==> p == Failure(BadShape)
    ensures Shaped(s) ==> p.Success? && drawn == before + [p.value] && DrawsRow(s, drawn, x + 1)
  {
    p := PixelShade(x, s.ly, s);
    drawn := if p.Success? then before + [p.value] else before;
  }

  /** The greys of 144 snapshots, which may be of any lines: a snapshot is drawn as its own line says. */
  method RenderFrame(scanlines: seq<Snapshot>)
    returns (r: Result<seq<seq<int>>, FrameError>, ghost drawn: seq<seq<PixelResult>>)
    ensures |scanlines| != 144 ==> r == Failure(ScanlineCount)
    ensures |scanlines| == 144 && !ShapedLines(scanlines) ==> r == Failure(OfPixel(BadShape))
    ensures |scanlines| == 144 && ShapedLines(scanlines) ==>
              DrawsFrame(scanlines, drawn) && r.Success? && |r.value| == |drawn| &&
              forall y :: 0 <= y < |drawn| ==> r.value[y] == Greys(drawn[y])
  {
    drawn := [];
    if |scanlines| != SCREEN_HEIGHT {
      return Failure(ScanlineCount), drawn;
    }
    var rows: seq<seq<int>> := [];
    for y := 0 to SCREEN_HEIGHT
      invariant |rows| == |drawn| == y
      invariant forall k :: 0 <= k < y ==> Shaped(scanlines[k]) && DrawsRow(scanlines[k], drawn[k], SCREEN_WIDTH)
      invariant forall k :: 0 <= k < y ==> rows[k] == Greys(drawn[k])
    {
      var row, pixels := RenderScanline(scanlines[y]);
      if row.Failure? {
        return Failure(OfPixel(row.error)), drawn;
      }
      rows, drawn := rows + [row.value], drawn + [pixels];
    }
    r := Success(rows);
  }

  // ---- what a comparison reports ----

  /** The report of one place: both greys, and where the expected one comes from. */
  function DiffOf(actual: int, x: int, y: int, p: PixelResult): PixelDiff {
    PixelDiff(x, y, actual, DmgGray(p.shade), p.source, p.bg.tileId,
              if p.window.Some? then Some(p.window.value.tileId) else None,
              if p.obj.Some? then Some(p.obj.value.spriteIndex) else None,
              if p.obj.Some? then Some(p.obj.value.tileId) else None)
  }

  /** The reports of the differing pixels among the first `n` of a row. */
  function RowDiffs(actual: seq<int>, drawn: seq<PixelResult>, y: int, n: nat): seq<PixelDiff>
    requires n <= |actual| && n <= |drawn|
  {
    if n == 0 then []
    else
      RowDiffs(actual, drawn, y, n - 1) +
      if actual[n - 1] == Greys(drawn)[n - 1] then [] else [DiffOf(actual[n - 1], n - 1, y, drawn[n - 1])]
  }

  function Shorter(actual: seq<int>, drawn: seq<PixelResult>): nat {
    if |actual| < |drawn| then |actual| else |drawn|
  }

  /** The reports of all differing pixels in the first `n` rows. */
  function FrameDiffs(actual: seq<seq<int>>, drawn: seq<seq<PixelResult>>, n: nat): seq<PixelDiff>
    requires n <= |actual| && n <= |drawn|
  {
    if n == 0 then []
    else
      FrameDiffs(actual, drawn, n - 1) +
      RowDiffs(actual[n - 1], drawn[n - 1], n - 1, Shorter(actual[n - 1], drawn[n - 1]))
  }

  function First<T>(s: seq<T>, n: nat): seq<T> {
    if |s| <= n then s else s[..n]
  }

  /** A row the comparison cannot pass: of the wrong width, or differing where its snapshot is of another line. */
  predicate RowFails(actual: seq<int>, drawn: seq<PixelResult>, ly: int, y: int) {
    |actual| != |drawn| || (ly != y && actual != Greys(drawn))
  }

  predicate FailsAt(actual: seq<seq<int>>, drawn: seq<seq<PixelResult>>, scanlines: seq<Snapshot>, y: int)
    requires |actual| == |drawn| == |scanlines|
  {
    0 <= y < |actual| && RowFails(actual[y], drawn[y], scanlines[y].ly, y)
  }

  predicate FailsFirst(actual: seq<seq<int>>, drawn: seq<seq<PixelResult>>, scanlines: seq<Snapshot>, y: int)
    requires |actual| == |drawn| == |scanlines|
  {
    FailsAt(actual, drawn, scanlines, y) && forall z :: 0 <= z < y ==> !FailsAt(actual, drawn, scanlines, z)
  }

  function RowError(actual: seq<int>, drawn: seq<PixelResult>, y: int): FrameError {
    if |actual| != |drawn| then RowWidth(y) else OfPixel(WrongLine)
  }

  /** The comparison's right answer for up to `cap` reports: the error of the first failing row if it is reached, that
      is if there are fewer than `cap` differences above it, and otherwise the first `cap` differences. */
  ghost predicate Outcome(actual: seq<seq<int>>, drawn: seq<seq<PixelResult>>, scanlines: seq<Snapshot>, cap: nat,
      r: Result<seq<PixelDiff>, FrameError>)
    requires |actual| == |drawn| == |scanlines|
  {
    match r
    case Success(diffs) =>
      && diffs == First(FrameDiffs(actual, drawn, |actual|), cap)
      && forall y :: FailsAt(actual, drawn, scanlines, y) ==> |FrameDiffs(actual, drawn, y)| >= cap
    case Failure(e) =>
      exists y :: FailsFirst(actual, drawn, scanlines, y) && |FrameDiffs(actual, drawn, y)| < cap &&
                  e == RowError(actual[y], drawn[y], y)
  }

  // ---- the comparison ----

  /** The limit is looked at after each report, so one is made even for a limit of 0 or less. */
  function Cap(limit: int): nat {
    if limit < 1 then 1 else limit
  }

  /** A place is drawn once more to describe it. */
  method DescribePixel(x: nat, y: int, s: Snapshot, ghost drawn: seq<PixelResult>)
    returns (p: Result<PixelResult, OracleError>)
    requires Shaped(s) && x < |drawn| && DrawsRow(s, drawn, |drawn|)
    ensures p == if y != s.ly then Failure(WrongLine) else Success(drawn[x])
  {
    p := PixelShade(x, y, s);
  }

  /** One row: what it adds to the reports so far, up to the limit. */
  method DiffRow(actual: seq<int>, expected: seq<int>, y: int, s: Snapshot, before: seq<PixelDiff>, limit: int,
      ghost drawn: seq<PixelResult>) returns (r: Result<seq<PixelDiff>, FrameError>)
    requires Shaped(s) && |actual| == |drawn| && DrawsRow(s, drawn, |drawn|) && expected == Greys(drawn)
    requires |before| < Cap(limit)
    ensures r == if RowFails(actual, drawn, s.ly, y) then Failure(OfPixel(WrongLine))
                 else Success(First(before + RowDiffs(actual, drawn, y, |drawn|), Cap(limit)))
  {
    var diffs := before;
    for x := 0 to |actual|
      invariant diffs == before + RowDiffs(actual, drawn, y, x) && |diffs| < Cap(limit)
      invariant s.ly == y || SameUpTo(actual, expected, x)
    {
      OneMorePixel(actual, expected, y, drawn, before, x);
      if actual[x] != expected[x] {
        DifferenceFails(actual, drawn, s.ly, y, x);
        var p := DescribePixel(x, y, s, drawn);
        if p.Failure? {
          return Failure(OfPixel(p.error));
        }
        diffs := diffs + [DiffOf(actual[x], x, y, p.value)];
        if |diffs| >= limit {
          RowStopsEarly(actual, drawn, y, x + 1, before, diffs);
          return Success(diffs);
        }
      }
    }
    SameRowPasses(actual, drawn, s.ly, y);
    r := Success(diffs);
  }

  lemma DifferenceFails(actual: seq<int>, drawn: seq<PixelResult>, ly: int, y: int, x: nat)
    requires x < |actual| == |drawn| && actual[x] != Greys(drawn)[x]
    ensures RowFails(actual, drawn, ly, y) <==> ly != y
  {
  }

  lemma SameRowPasses(actual: seq<int>, drawn: seq<PixelResult>, ly: int, y: int)
    requires |actual| == |drawn| && (ly == y || SameUpTo(actual, Greys(drawn), |actual|))
    ensures !RowFails(actual, drawn, ly, y)
  {
    SameRows(actual, Greys(drawn), |actual|);
  }

  predicate SameUpTo(actual: seq<int>, expected: seq<int>, x: nat)
    requires x <= |actual| == |expected|
  {
    x == 0 || (actual[x - 1] == expected[x - 1] && SameUpTo(actual, expected, x - 1))
  }

  lemma {:induction false} SameRows(actual: seq<int>, expected: seq<int>, x: nat)
    requires x <= |actual| == |expected|
    ensures SameUpTo(actual, expected, x) <==> actual[..x] == expected[..x]
    ensures x == |actual| ==> (actual[..x] == actual && expected[..x] == expected)
  {
    if x > 0 {
      SameRows(actual, expected, x - 1);
      assert actual[..x] == actual[..x - 1] + [actual[x - 1]];
      assert expected[..x] == expected[..x - 1] + [expected[x - 1]];
    }
  }

  lemma OneMorePixel(actual: seq<int>, expected: seq<int>, y: int, drawn: seq<PixelResult>, before: seq<PixelDiff>,
      x: nat)
    requires x < |actual| == |drawn| && expected == Greys(drawn)
    ensures before + RowDiffs(actual, drawn, y, x + 1) ==
            if actual[x] == expected[x] then before + RowDiffs(actual, drawn, y, x)
            else before + RowDiffs(actual, drawn, y, x) + [DiffOf(actual[x], x, y, drawn[x])]
  {
    if actual[x] == expected[x] {
      assert RowDiffs(actual, drawn, y, x) + [] == RowDiffs(actual, drawn, y, x);
    } else {
      Associates(before, RowDiffs(actual, drawn, y, x), [DiffOf(actual[x], x, y, drawn[x])]);
    }
  }

  lemma RowStopsEarly(actual: seq<int>, drawn: seq<PixelResult>, y: int, x: nat, before: seq<PixelDiff>,
      diffs: seq<PixelDiff>)
    requires x <= |actual| == |drawn| && diffs == before + RowDiffs(actual, drawn, y, x)
    ensures diffs == First(before + RowDiffs(actual, drawn, y, |drawn|), |diffs|)
  {
    RowDiffsGrow(actual, drawn, y, x, |drawn|);
    FirstOfPrefix(before, RowDiffs(actual, drawn, y, x), RowDiffs(actual, drawn, y, |drawn|));
  }

  lemma FirstOfPrefix<T>(a: seq<T>, b: seq<T>, c: seq<T>)
    requires b <= c
    ensures First(a + c, |a + b|) == a + b
  {
    assert a + c == (a + b) + c[|b|..];
  }

  lemma {:induction false} RowDiffsGrow(actual: seq<int>, drawn: seq<PixelResult>, y: int, m: nat, n: nat)
    requires m <= n <= |actual| && n <= |drawn|
    ensures RowDiffs(actual, drawn, y, m) <= RowDiffs(actual, drawn, y, n)
  {
    if m < n {
      RowDiffsGrow(actual, drawn, y, m, n - 1);
    }
  }

  lemma {:induction false} FrameDiffsGrow(actual: seq<seq<int>>, drawn: seq<seq<PixelResult>>, m: nat, n: nat)
    requires m <= n <= |actual| && n <= |drawn|
    ensures FrameDiffs(actual, drawn, m) <= FrameDiffs(actual, drawn, n)
  {
    if m < n {
      FrameDiffsGrow(actual, drawn, m, n - 1);
    }
  }

  /** The comparison, with the pixels it compares to. */
  method DiffFrame(actual: seq<seq<int>>, scanlines: seq<Snapshot>, limit: int)
    returns (r: Result<seq<PixelDiff>, FrameError>, ghost drawn: seq<seq<PixelResult>>)
    ensures |scanlines| != 144 ==> r == Failure(ScanlineCount)
    ensures |scanlines| == 144 && !ShapedLines(scanlines) ==> r == Failure(OfPixel(BadShape))
    ensures |scanlines| == 144 && ShapedLines(scanlines) ==>
              DrawsFrame(scanlines, drawn) &&
              if |actual| != 144 then r == Failure(RowCount)
              else Outcome(actual, drawn, scanlines, if limit < 1 then 1 else limit, r)
  {
    var expected;
    expected, drawn := RenderFrame(scanlines);
    if expected.Failure? {
      return Failure(expected.error), drawn;
    }
    if |actual| != |expected.value| {
      return Failure(RowCount), drawn;
    }
    r := DiffRows(actual, expected.value, scanlines, limit, drawn);
  }

  method DiffRows(actual: seq<seq<int>>, expected: seq<seq<int>>, scanlines: seq<Snapshot>, limit: int,
      ghost drawn: seq<seq<PixelResult>>) returns (r: Result<seq<PixelDiff>, FrameError>)
    requires ShapedLines(scanlines) && DrawsFrame(scanlines, drawn) && |actual| == |expected| == |drawn|
    requires forall y :: 0 <= y < |drawn| ==> expected[y] == Greys(drawn[y])
    ensures Outcome(actual, drawn, scanlines, Cap(limit), r)
  {
    var diffs: seq<PixelDiff> := [];
    for y := 0 to |actual|
      invariant diffs == FrameDiffs(actual, drawn, y) && |diffs| < Cap(limit)
      invariant forall z :: 0 <= z < y ==> !FailsAt(actual, drawn, scanlines, z)
    {
      if |actual[y]| != |expected[y]| {
        ReachedFailure(actual, drawn, scanlines, Cap(limit), y, RowWidth(y));
        return Failure(RowWidth(y));
      }
      var row := DiffRow(actual[y], expected[y], y, scanlines[y], diffs, limit, drawn[y]);
      if row.Failure? {
        ReachedFailure(actual, drawn, scanlines, Cap(limit), y, row.error);
        return Failure(row.error);
      }
      diffs := row.value;
      if |diffs| >= Cap(limit) {
        StopsEarly(actual, drawn, scanlines, Cap(limit), y, diffs);
        return Success(diffs);
      }
    }
    r := Success(diffs);
  }

  /** A failing row with fewer than `cap` differences and no failure above it. */
  lemma ReachedFailure(actual: seq<seq<int>>, drawn: seq<seq<PixelResult>>, scanlines: seq<Snapshot>, cap: nat, y: nat,
      e: FrameError)
    requires |actual| == |drawn| == |scanlines| && FailsFirst(actual, drawn, scanlines, y)
    requires |FrameDiffs(actual, drawn, y)| < cap && e == RowError(actual[y], drawn[y], y)
    ensures Outcome(actual, drawn, scanlines, cap, Failure(e))
  {
  }

  /** Once the cap is reached, the rows below can neither add to the answer nor spoil it. */
  lemma StopsEarly(actual: seq<seq<int>>, drawn: seq<seq<PixelResult>>, scanlines: seq<Snapshot>, cap: nat, y: nat,
      diffs: seq<PixelDiff>)
    requires |actual| == |drawn| == |scanlines| && y < |actual|
    requires forall z :: 0 <= z <= y ==> !FailsAt(actual, drawn, scanlines, z)
    requires diffs == First(FrameDiffs(actual, drawn, y + 1), cap) && |diffs| >= cap
    ensures Outcome(actual, drawn, scanlines, cap, Success(diffs))
  {
    FrameDiffsGrow(actual, drawn, y + 1, |actual|);
    forall z | FailsAt(actual, drawn, scanlines, z)
      ensures |FrameDiffs(actual, drawn, z)| >= cap
    {
      FrameDiffsGrow(actual, drawn, y + 1, z);
    }
  }

  // ---- what the reports are ----

  predicate Earlier(d: PixelDiff, e: PixelDiff) {
    d.y < e.y || (d.y == e.y && d.x < e.x)
  }

  predicate RowMajor(diffs: seq<PixelDiff>) {
    forall k, m :: 0 <= k < m < |diffs| ==> Earlier(diffs[k], diffs[m])
  }

  /** A true report of a differing pixel among the first of a row. */
  predicate InRow(actual: seq<int>, drawn: seq<PixelResult>, y: int, d: PixelDiff, n: nat)
    requires n <= |actual| && n <= |drawn|
  {
    && 0 <= d.x < n && d.y == y && d.actualShade == actual[d.x] && d.expectedShade == Greys(drawn)[d.x]
    && d.actualShade != d.expectedShade && Explains(d, drawn[d.x])
  }

  /** Where the expected shade comes from. */
  predicate Explains(d: PixelDiff, p: PixelResult) {
    && d.expectedSource == p.source && d.bgTileId == p.bg.tileId
    && (d.windowTileId.Some? <==> p.window.Some?) && (p.window.Some? ==> d.windowTileId.value == p.window.value.tileId)
    && (d.objSpriteIndex.Some? <==> p.obj.Some?) && (d.objTileId.Some? <==> p.obj.Some?)
    && (p.obj.Some? ==>
          d.objSpriteIndex.value == p.obj.value.spriteIndex && d.objTileId.value == p.obj.value.tileId)
  }

  /** A true report of a differing pixel in the first rows. */
  predicate Reports(actual: seq<seq<int>>, drawn: seq<seq<PixelResult>>, d: PixelDiff, n: nat)
    requires n <= |actual| && n <= |drawn|
  {
    0 <= d.y < n && InRow(actual[d.y], drawn[d.y], d.y, d, Shorter(actual[d.y], drawn[d.y]))
  }

  lemma {:induction false} RowDiffsExact(actual: seq<int>, drawn: seq<PixelResult>, y: int, n: nat)
    requires n <= |actual| && n <= |drawn|
    ensures RowMajor(RowDiffs(actual, drawn, y, n))
    ensures forall d :: d in RowDiffs(actual, drawn, y, n) <==> InRow(actual, drawn, y, d, n)
  {
    if n > 0 {
      RowDiffsExact(actual, drawn, y, n - 1);
      var before := RowDiffs(actual, drawn, y, n - 1);
      forall k | 0 <= k < |before|
        ensures before[k].x < n - 1 && before[k].y == y
      {
        assert before[k] in before;
      }
    }
  }

  /** The reports are, in row-major order and each once, exactly those of the differing pixels. */
  lemma {:induction false} FrameDiffsExact(actual: seq<seq<int>>, drawn: seq<seq<PixelResult>>, n: nat)
    requires n <= |actual| && n <= |drawn|
    ensures RowMajor(FrameDiffs(actual, drawn, n))
    ensures forall d :: d in FrameDiffs(actual, drawn, n) <==> Reports(actual, drawn, d, n)
  {
    if n > 0 {
      var y := n - 1;
      var above := FrameDiffs(actual, drawn, y);
      var here := RowDiffs(actual[y], drawn[y], y, Shorter(actual[y], drawn[y]));
      FrameDiffsExact(actual, drawn, y);
      RowDiffsExact(actual[y], drawn[y], y, Shorter(actual[y], drawn[y]));
      forall k | 0 <= k < |above|
        ensures above[k].y < y
      {
        assert above[k] in above;
      }
      forall k | 0 <= k < |here|
        ensures here[k].y == y
      {
        assert here[k] in here;
      }
    }
  }

  /** A frame has no differences exactly when it is the rendered one. */
  lemma NoDiffsIff(actual: seq<seq<int>>, drawn: seq<seq<PixelResult>>)
    requires |actual| == |drawn| && forall y :: 0 <= y < |actual| ==> |actual[y]| == |drawn[y]|
    ensures FrameDiffs(actual, drawn, |actual|) == [] <==>
            forall y :: 0 <= y < |actual| ==> actual[y] == Greys(drawn[y])
  {
    var diffs := FrameDiffs(actual, drawn, |actual|);
    FrameDiffsExact(actual, drawn, |actual|);
    if diffs == [] {
      forall y | 0 <= y < |actual|
        ensures actual[y] == Greys(drawn[y])
      {
        UnreportedRowIsEqual(actual, drawn, y, diffs);
      }
    } else {
      assert diffs[0] in diffs && Reports(actual, drawn, diffs[0], |actual|);
    }
  }

  lemma UnreportedRowIsEqual(actual: seq<seq<int>>, drawn: seq<seq<PixelResult>>, y: nat, diffs: seq<PixelDiff>)
    requires |actual| == |drawn| && y < |actual| && |actual[y]| == |drawn[y]|
    requires diffs == [] && forall d :: d in diffs <==> Reports(actual, drawn, d, |actual|)
    ensures actual[y] == Greys(drawn[y])
  {
    forall x | 0 <= x < |actual[y]|
      ensures actual[y][x] == Greys(drawn[y])[x]
    {
      assert DiffOf(actual[y][x], x, y, drawn[y][x]) !in diffs;
    }
  }

  /** The comparison reports nothing exactly for the rendered frame, whatever the limit and the snapshots' lines. */
  lemma AcceptsOnlyTheFrame(actual: seq<seq<int>>, drawn: seq<seq<PixelResult>>, scanlines: seq<Snapshot>, cap: nat,
      r: Result<seq<PixelDiff>, FrameError>)
    requires |actual| == |drawn| == |scanlines| && cap > 0 && Outcome(actual, drawn, scanlines, cap, r)
    ensures r == Success([]) <==> forall y :: 0 <= y < |actual| ==> actual[y] == Greys(drawn[y])
  {
    if r == Success([]) {
      forall y | 0 <= y < |actual|
        ensures |actual[y]| == |drawn[y]|
      {
        FrameDiffsGrow(actual, drawn, y, |actual|);
        assert !FailsAt(actual, drawn, scanlines, y);
      }
      NoDiffsIff(actual, drawn);
    } else if forall y :: 0 <= y < |actual| ==> actual[y] == Greys(drawn[y]) {
      NoDiffsIff(actual, drawn);
    }
  }

  /** The description allows one answer only. */
  lemma OutcomeIsUnique(actual: seq<seq<int>>, drawn: seq<seq<PixelResult>>, scanlines: seq<Snapshot>, cap: nat,
      a: Result<seq<PixelDiff>, FrameError>, b: Result<seq<PixelDiff>, FrameError>)
    requires |actual| == |drawn| == |scanlines|
    requires Outcome(actual, drawn, scanlines, cap, a) && Outcome(actual, drawn, scanlines, cap, b)
    ensures a == b
  {
    match (a, b)
    case (Failure(e), Failure(f)) =>
      var y :| FailsFirst(actual, drawn, scanlines, y) && e == RowError(actual[y], drawn[y], y);
      var z :| FailsFirst(actual, drawn, scanlines, z) && f == RowError(actual[z], drawn[z], z);
      assert y == z;
    case _ =>
  }
}
