/**
  analyzeEditAndMapLine (server/fastforward.go): maps a line of an old hunk
  to a line of the new hunk by aligning the two texts character by character.

  The alignment is a dynamic program over two tables, `score` and `track`,
  with one row per source character and one column per target character.
  Row 0 is seeded from the first source character; every later row is built
  from the row above it in one left-to-right sweep that carries a running
  best predecessor (`best_score`, `best_predecessor`) and the column where
  the last predecessor scan stopped (`k_restart`). A backward walk through
  `track` then assigns a target column to every source character, and the
  target lines receive one vote per character of the source line; the line
  with most votes (the first such) is the answer.

  The functions Row, Mapping and Vote below state, for all inputs, what those
  three phases compute; the methods fill arrays exactly as the Go code does
  and are proved to produce those values.
*/
module LineAlignment {
  import opened Wrappers
  import opened GoStrings

  /** SOURCE_CHUNK_MAX_CONTEXT: lines of context kept around the line to map. */
  const SourceChunkMaxContext: int := 10
  /** penaltyForSkipping: cost of leaving a source character unmatched. */
  const PenaltyForSkipping: int := 2
  /** penaltyForSkippingImportantLine: the same cost inside the line being mapped. */
  const PenaltyForSkippingImportantLine: int := 10

  /** The three ways analyzeEditAndMapLine can fail. */
  datatype MapError =
    | LineOutOfRange   // "Line number is out of range"
    | Deletion         // "Cannot propagate line number in a deletion"
    | IndexPanic       // the backward walk indexes `track` outside a row: Go panics

  /** penaltyForDistance: 0 for no gap, 1 for a gap of one, 2 for anything wider. */
  function PenaltyForDistance(distance: int): (p: int)
    ensures 0 <= p <= 2
    ensures p == 0 <==> distance < 1
    ensures p == 1 <==> distance == 1
  {
    if distance < 1 then 0 else if distance == 1 then 1 else 2
  }

  lemma PenaltyMonotone(d: int, e: int)
    requires d <= e
    ensures PenaltyForDistance(d) <= PenaltyForDistance(e)
  {
  }

  function Min(a: int, b: int): (r: int)
    ensures r <= a && r <= b && (r == a || r == b)
  {
    if a < b then a else b
  }

  function Max(a: int, b: int): (r: int)
    ensures r >= a && r >= b && (r == a || r == b)
  {
    if a > b then a else b
  }

  // ---------------------------------------------------------------------
  // Phase 1: the score/track tables.

  /** One cell of the tables: `score[i][j]` and `track[i][j]`. */
  datatype Cell = Cell(score: int, track: int)

  /** The running `best_score` / `best_predecessor` pair of a row sweep. */
  datatype Best = Best(score: int, pred: int)

  /** The cost of skipping source character `i`: higher inside [i1, i2). */
  function SkipPenalty(i: int, i1: int, i2: int): int
  {
    if i1 <= i < i2 then PenaltyForSkippingImportantLine else PenaltyForSkipping
  }

  /** Column `j` of row 0, seeded from the first source character `c`. */
  function FirstRowCell(c: char, tgt: string, j: nat, skip: int): Cell
    requires j < |tgt|
  {
    if c == tgt[j] then Cell(PenaltyForDistance(j), -1)
    else if j == 0 then Cell(skip, -1)
    else Cell(-1, -1)
  }

  /**
    The predecessor scan for a match in column `j`: columns `k` up to `j` of
    the previous row's scores, skipping negative ones, keep the cheapest
    `prev[k] + penaltyForDistance(j - k)` (the first on ties).
  */
  function ScanPredecessors(prev: seq<int>, j: nat, k: nat, b: Best): Best
    requires k <= j <= |prev|
    decreases j - k
  {
    if k == j then b
    else
      var candidate := prev[k] + PenaltyForDistance(j - k);
      var b' := if prev[k] < 0 then b
                else if b.score == -1 || candidate < b.score then Best(candidate, k)
                else b;
      ScanPredecessors(prev, j, k + 1, b')
  }

  /**
    Columns `j..` of a row after the first, given the previous row's scores
    `prev`, this row's source character `c`, the running best `b` and the
    restart column `restart`.
  */
  function RowTail(prev: seq<int>, c: char, tgt: string, skip: int, j: nat, b: Best, restart: nat): (r: seq<Cell>)
    requires |prev| == |tgt| && restart <= j <= |tgt|
    ensures |r| == |tgt| - j
    decreases |tgt| - j
  {
    if j == |tgt| then []
    else if c == tgt[j] then
      var b' := ScanPredecessors(prev, j, restart, b);
      [Cell(b'.score, b'.pred)] + RowTail(prev, c, tgt, skip, j + 1, b', j)
    else if prev[j] > -1 then
      [Cell(prev[j] + skip, j)] + RowTail(prev, c, tgt, skip, j + 1, b, restart)
    else
      [Cell(-1, -1)] + RowTail(prev, c, tgt, skip, j + 1, b, restart)
  }

  function Scores(row: seq<Cell>): seq<int>
  {
    seq(|row|, j requires 0 <= j < |row| => row[j].score)
  }

  /** Row `i` of the tables for source text `src` and target text `tgt`. */
  function Row(src: string, tgt: string, i1: int, i2: int, i: nat): (r: seq<Cell>)
    requires i < |src|
    ensures |r| == |tgt|
    decreases i
  {
    var skip := SkipPenalty(i, i1, i2);
    if i == 0 then seq(|tgt|, j requires 0 <= j < |tgt| => FirstRowCell(src[0], tgt, j, skip))
    else RowTail(Scores(Row(src, tgt, i1, i2, i - 1)), src[i], tgt, skip, 0, Best(-1, -1), 0)
  }

  /** Rows `0..upto` of `score` and `track` hold what Row says. */
  ghost predicate RowsFilled(score: array2<int>, track: array2<int>, src: string, tgt: string, i1: int, i2: int, upto: nat)
    reads score, track
    requires upto <= |src|
    requires score.Length0 == track.Length0 == |src| && score.Length1 == track.Length1 == |tgt|
  {
    forall i, j :: 0 <= i < upto && 0 <= j < |tgt| ==>
      score[i, j] == Row(src, tgt, i1, i2, i)[j].score && track[i, j] == Row(src, tgt, i1, i2, i)[j].track
  }

  /** Row `i` of `score` and `track` holds `row`. */
  ghost predicate RowIs(score: array2<int>, track: array2<int>, i: nat, row: seq<Cell>)
    reads score, track
    requires i < score.Length0 == track.Length0 && |row| == score.Length1 == track.Length1
  {
    forall j :: 0 <= j < |row| ==> score[i, j] == row[j].score && track[i, j] == row[j].track
  }

  /** Every row of `score` and `track` other than `i` is as it was at `old`. */
  twostate predicate OtherRowsUnchanged(score: array2<int>, track: array2<int>, i: nat)
    reads score, track
  {
    score.Length0 == track.Length0 && score.Length1 == track.Length1 &&
    forall i', j :: 0 <= i' < score.Length0 && i' != i && 0 <= j < score.Length1 ==>
      score[i', j] == old(score[i', j]) && track[i', j] == old(track[i', j])
  }

  /** Lines 87-90: set every cell of row `i` to -1. */
  method ClearRow(score: array2<int>, track: array2<int>, i: nat)
    requires score != track
    requires i < score.Length0 == track.Length0 && score.Length1 == track.Length1
    modifies score, track
    ensures OtherRowsUnchanged(score, track, i)
    ensures forall j :: 0 <= j < score.Length1 ==> score[i, j] == -1 && track[i, j] == -1
  {
    for j := 0 to score.Length1
      invariant OtherRowsUnchanged(score, track, i)
      invariant forall j' :: 0 <= j' < j ==> score[i, j'] == -1 && track[i, j'] == -1
    {
      score[i, j] := -1;
      track[i, j] := -1;
    }
  }

  /** Lines 91-98: seed row 0 from the first source character. */
  method FillFirstRow(score: array2<int>, track: array2<int>, src: string, tgt: string, i1: int, i2: int)
    requires |src| >= 1 && score != track
    requires score.Length0 == track.Length0 == |src| && score.Length1 == track.Length1 == |tgt|
    requires forall j :: 0 <= j < |tgt| ==> score[0, j] == -1 && track[0, j] == -1
    modifies score
    ensures OtherRowsUnchanged(score, track, 0)
    ensures RowIs(score, track, 0, Row(src, tgt, i1, i2, 0))
  {
    ghost var row := Row(src, tgt, i1, i2, 0);
    var skip := SkipPenalty(0, i1, i2);
    var c := src[0];
    for j := 0 to |tgt|
      invariant OtherRowsUnchanged(score, track, 0)
      invariant forall j' :: 0 <= j' < j ==> score[0, j'] == row[j'].score && track[0, j'] == row[j'].track
      invariant forall j' :: j <= j' < |tgt| ==> score[0, j'] == -1 && track[0, j'] == -1
    {
      assert row[j] == FirstRowCell(c, tgt, j, skip);
      if c == tgt[j] {
        score[0, j] := PenaltyForDistance(j);
      } else if j == 0 {
        score[0, j] := skip;
      }
    }
  }

  /**
    Lines 105-112: scan row `i - 1` for the cheapest predecessor of a match in
    column `j`, continuing from the running best `(bestScore, bestPredecessor)`.
  */
  method ScanRow(score: array2<int>, i: nat, j: nat, kRestart: nat, bestScore: int, bestPredecessor: int, ghost prev: seq<int>)
    returns (newScore: int, newPredecessor: int)
    requires 1 <= i < score.Length0 && |prev| == score.Length1
    requires kRestart <= j <= |prev|
    requires forall k :: 0 <= k < |prev| ==> score[i - 1, k] == prev[k]
    ensures Best(newScore, newPredecessor) == ScanPredecessors(prev, j, kRestart, Best(bestScore, bestPredecessor))
  {
    newScore, newPredecessor := bestScore, bestPredecessor;
    for k := kRestart to j
      invariant ScanPredecessors(prev, j, k, Best(newScore, newPredecessor))
             == ScanPredecessors(prev, j, kRestart, Best(bestScore, bestPredecessor))
    {
      if score[i - 1, k] < 0 {
        continue;
      }
      var candidateScore := score[i - 1, k] + PenaltyForDistance(j - k);
      if newScore == -1 || candidateScore < newScore {
        newScore := candidateScore;
        newPredecessor := k;
      }
    }
  }

  /** Lines 99-121: fill row `i >= 1` from row `i - 1` in one sweep. */
  method FillRow(score: array2<int>, track: array2<int>, src: string, tgt: string, i1: int, i2: int, i: nat)
    requires 1 <= i < |src| && score != track
    requires score.Length0 == track.Length0 == |src| && score.Length1 == track.Length1 == |tgt|
    requires RowIs(score, track, i - 1, Row(src, tgt, i1, i2, i - 1))
    requires forall j :: 0 <= j < |tgt| ==> score[i, j] == -1 && track[i, j] == -1
    modifies score, track
    ensures OtherRowsUnchanged(score, track, i)
    ensures RowIs(score, track, i, Row(src, tgt, i1, i2, i))
  {
    ghost var row := Row(src, tgt, i1, i2, i);
    ghost var prev := Scores(Row(src, tgt, i1, i2, i - 1));
    var skip := SkipPenalty(i, i1, i2);
    var c := src[i];
    var bestScore, bestPredecessor, kRestart := -1, -1, 0;
    for j := 0 to |tgt|
      invariant OtherRowsUnchanged(score, track, i)
      invariant forall k :: 0 <= k < |tgt| ==> score[i - 1, k] == prev[k]
      invariant kRestart <= j
      invariant RowTail(prev, c, tgt, skip, j, Best(bestScore, bestPredecessor), kRestart) == row[j..]
      invariant forall j' :: 0 <= j' < j ==> score[i, j'] == row[j'].score && track[i, j'] == row[j'].track
      invariant forall j' :: j <= j' < |tgt| ==> score[i, j'] == -1 && track[i, j'] == -1
    {
      ghost var rest := RowTail(prev, c, tgt, skip, j, Best(bestScore, bestPredecessor), kRestart);
      assert rest[0] == row[j] && rest[1..] == row[j + 1..];
      if c == tgt[j] {
        bestScore, bestPredecessor := ScanRow(score, i, j, kRestart, bestScore, bestPredecessor, prev);
        kRestart := j;
        score[i, j] := bestScore;
        track[i, j] := bestPredecessor;
      } else if score[i - 1, j] > -1 {
        score[i, j] := score[i - 1, j] + skip;
        track[i, j] := j;
      }
      assert score[i, j] == row[j].score && track[i, j] == row[j].track;
    }
  }

  /** Lines 68-122: allocate the score and track tables and fill them row by row. */
  method FillTables(src: string, tgt: string, i1: int, i2: int) returns (score: array2<int>, track: array2<int>)
    ensures fresh(score) && fresh(track)
    ensures score.Length0 == track.Length0 == |src| && score.Length1 == track.Length1 == |tgt|
    ensures RowsFilled(score, track, src, tgt, i1, i2, |src|)
  {
    score := new int[|src|, |tgt|];
    track := new int[|src|, |tgt|];
    for i := 0 to |src|
      invariant RowsFilled(score, track, src, tgt, i1, i2, i)
    {
      ClearRow(score, track, i);
      if i == 0 {
        FillFirstRow(score, track, src, tgt, i1, i2);
      } else {
        FillRow(score, track, src, tgt, i1, i2, i);
      }
    }
  }

  // ---------------------------------------------------------------------
  // Phase 2: the backward walk through `track`.

  /**
    Lines 128-135: the column of the last row to start walking back from: the
    cheapest non-negative score, counting its distance to the last target
    column, the first on ties; the initial `cursor` when none is non-negative.
  */
  function PickLastFrom(last: seq<int>, j: nat, best: int, cursor: int): int
    requires j <= |last|
    decreases |last| - j
  {
    if j == |last| then cursor
    else
      var candidate := last[j] + PenaltyForDistance(|last| - 1 - j);
      if last[j] >= 0 && (best == -1 || best > candidate) then PickLastFrom(last, j + 1, candidate, j)
      else PickLastFrom(last, j + 1, best, cursor)
  }

  /**
    The walk from row `i`, whose column is `cursor`, back to row 0; `acc`
    holds the columns already chosen for the rows below. None when the walk
    would read `track[i][cursor]` with `cursor` outside the row.
  */
  function Trace(src: string, tgt: string, i1: int, i2: int, i: nat, cursor: int, acc: seq<int>): (r: Option<seq<int>>)
    requires i < |src|
    ensures r.Some? ==> |r.value| == i + 1 + |acc|
    decreases i
  {
    if i == 0 then Some([cursor] + acc)
    else if 0 <= cursor < |tgt| then Trace(src, tgt, i1, i2, i - 1, Row(src, tgt, i1, i2, i)[cursor].track, [cursor] + acc)
    else None
  }

  /** Line 139: store `cursor` for row `i`, in front of the columns already stored for the rows below. */
  method Record(mapping: array<int>, i: nat, cursor: int, ghost tail: seq<int>)
    requires i < mapping.Length && mapping[i + 1..] == tail
    modifies mapping
    ensures mapping[..i] == old(mapping[..i]) && mapping[i..] == [cursor] + tail
  {
    mapping[i] := cursor;
    assert mapping[i..] == [cursor] + mapping[i + 1..];
  }

  /**
    Lines 137-139 for row `i`: move the cursor to `track[i+1][cursor]` and
    store it, which is one step of the specified walk.
  */
  method StepBack(score: array2<int>, track: array2<int>, ghost src: string, ghost tgt: string, ghost i1: int, ghost i2: int,
                  mapping: array<int>, i: nat, cursor: int, ghost acc: seq<int>, ghost spec: Option<seq<int>>)
    returns (cursor': int)
    requires score.Length0 == track.Length0 == |src| && score.Length1 == track.Length1 == |tgt|
    requires RowsFilled(score, track, src, tgt, i1, i2, |src|)
    requires mapping.Length == |src| && i + 1 < |src| && 0 <= cursor < |tgt|
    requires mapping[i + 1..] == [cursor] + acc
    requires Trace(src, tgt, i1, i2, i + 1, cursor, acc) == spec
    modifies mapping
    ensures mapping[i..] == [cursor'] + ([cursor] + acc)
    ensures Trace(src, tgt, i1, i2, i, cursor', [cursor] + acc) == spec
  {
    WalkStep(score, track, src, tgt, i1, i2, i, cursor, acc);
    cursor' := track[i + 1, cursor];
    Record(mapping, i, cursor', [cursor] + acc);
  }

  /** The walk has reached row 0: the columns collected are the mapping. */
  lemma WalkDone(src: string, tgt: string, i1: int, i2: int, cursor: int, acc: seq<int>, spec: Option<seq<int>>)
    requires |src| > 0
    requires Trace(src, tgt, i1, i2, 0, cursor, acc) == spec
    ensures spec == Some([cursor] + acc)
  {
  }

  /** A walk whose cursor has left the row fails, and so does the whole mapping it belongs to. */
  lemma WalkFails(src: string, tgt: string, i1: int, i2: int, i: nat, cursor: int, acc: seq<int>, spec: Option<seq<int>>)
    requires 0 < i < |src| && !(0 <= cursor < |tgt|)
    requires Trace(src, tgt, i1, i2, i, cursor, acc) == spec
    ensures spec.None?
  {
  }

  /** One step of the walk, reading row `i + 1` of the filled `track`. */
  lemma WalkStep(score: array2<int>, track: array2<int>, src: string, tgt: string, i1: int, i2: int,
                 i: nat, cursor: int, acc: seq<int>)
    requires score.Length0 == track.Length0 == |src| && score.Length1 == track.Length1 == |tgt|
    requires RowsFilled(score, track, src, tgt, i1, i2, |src|)
    requires i + 1 < |src| && 0 <= cursor < |tgt|
    ensures Trace(src, tgt, i1, i2, i + 1, cursor, acc) == Trace(src, tgt, i1, i2, i, track[i + 1, cursor], [cursor] + acc)
  {
    assert track[i + 1, cursor] == Row(src, tgt, i1, i2, i + 1)[cursor].track;
  }

  /** The target column chosen for every source character, or None when the walk fails. */
  function Mapping(src: string, tgt: string, i1: int, i2: int): (r: Option<seq<int>>)
    ensures r.Some? ==> |r.value| == |src|
  {
    if |src| == 0 then Some([])
    else Trace(src, tgt, i1, i2, |src| - 1, PickLastFrom(Scores(Row(src, tgt, i1, i2, |src| - 1)), 0, -1, 0), [])
  }

  /** Lines 128-135 over the last row of `score`. */
  method PickLastColumn(score: array2<int>, track: array2<int>, ghost src: string, ghost tgt: string, ghost i1: int, ghost i2: int)
    returns (cursor: int)
    requires score.Length0 == track.Length0 == |src| >= 1 && score.Length1 == track.Length1 == |tgt|
    requires RowsFilled(score, track, src, tgt, i1, i2, |src|)
    ensures cursor == PickLastFrom(Scores(Row(src, tgt, i1, i2, |src| - 1)), 0, -1, 0)
  {
    var i, m := score.Length0 - 1, score.Length1;
    ghost var last := Scores(Row(src, tgt, i1, i2, i));
    var bestScore := -1;
    cursor := 0;
    for j := 0 to m
      invariant PickLastFrom(last, j, bestScore, cursor) == PickLastFrom(last, 0, -1, 0)
    {
      var candidateScore := score[i, j] + PenaltyForDistance(m - 1 - j);
      if score[i, j] >= 0 && (bestScore == -1 || bestScore > candidateScore) {
        bestScore := candidateScore;
        cursor := j;
      }
    }
  }

  /**
    Lines 124-140: walk back from the last row, filling `mapping`. `walked` is
    false exactly where the Go code indexes `track` out of range and panics.
  */
  method TrackBackwards(score: array2<int>, track: array2<int>, ghost src: string, ghost tgt: string, ghost i1: int, ghost i2: int)
    returns (walked: bool, mapping: array<int>)
    requires score.Length0 == track.Length0 == |src| && score.Length1 == track.Length1 == |tgt|
    requires RowsFilled(score, track, src, tgt, i1, i2, |src|)
    ensures fresh(mapping)
    ensures walked <==> Mapping(src, tgt, i1, i2).Some?
    ensures walked ==> Mapping(src, tgt, i1, i2).value == mapping[..]
  {
    var n, m := score.Length0, score.Length1;
    mapping := new int[n];
    if n == 0 {
      assert mapping[..] == [];
      assert Mapping(src, tgt, i1, i2) == Some([]);
      return true, mapping;
    }
    // The iteration for the last row (i == n - 1) picks the starting column.
    var cursor := PickLastColumn(score, track, src, tgt, i1, i2);
    Record(mapping, n - 1, cursor, []);
    walked := WalkBack(score, track, src, tgt, i1, i2, mapping, cursor, Mapping(src, tgt, i1, i2));
  }

  /** Lines 136-140 for the rows below the last: the walk from the last row's column `start` down to row 0. */
  method WalkBack(score: array2<int>, track: array2<int>, ghost src: string, ghost tgt: string, ghost i1: int, ghost i2: int,
                  mapping: array<int>, start: int, ghost spec: Option<seq<int>>)
    returns (walked: bool)
    requires score.Length0 == track.Length0 == |src| >= 1 && score.Length1 == track.Length1 == |tgt|
    requires RowsFilled(score, track, src, tgt, i1, i2, |src|)
    requires mapping.Length == |src| && mapping[|src| - 1..] == [start]
    requires Trace(src, tgt, i1, i2, |src| - 1, start, []) == spec
    modifies mapping
    ensures walked <==> spec.Some?
    ensures walked ==> spec.value == mapping[..]
  {
    var n, m := score.Length0, score.Length1;
    var cursor := start;
    ghost var acc: seq<int> := [];
    assert [cursor] + acc == [start];
    var i := n - 2;
    while i >= 0
      invariant -1 <= i < n - 1
      invariant mapping[i + 1..] == [cursor] + acc
      invariant Trace(src, tgt, i1, i2, i + 1, cursor, acc) == spec
    {
      if cursor < 0 || cursor >= m {
        // track[i+1][cursor] is out of range: the Go code panics here.
        WalkFails(src, tgt, i1, i2, i + 1, cursor, acc, spec);
        return false;
      }
      var next := StepBack(score, track, src, tgt, i1, i2, mapping, i, cursor, acc, spec);
      acc := [cursor] + acc;
      cursor := next;
      i := i - 1;
    }
    assert mapping[..] == mapping[0..];
    WalkDone(src, tgt, i1, i2, cursor, acc, spec);
    walked := true;
  }

  // ---------------------------------------------------------------------
  // Phase 3: one vote per character of the mapped line, then the argmax.

  /** target_line_beginnings[k]: where target line `k` starts in the joined target text. */
  function LineStart(lines: seq<string>, k: nat): int
    requires k <= |lines|
  {
    if k == 0 then 0 else LineStart(lines, k - 1) + |lines[k - 1]| + 1
  }

  function Beginnings(lines: seq<string>): seq<int>
  {
    seq(|lines| + 1, k requires 0 <= k <= |lines| => LineStart(lines, k))
  }

  function Zeros(n: nat): seq<int>
  {
    seq(n, _ => 0)
  }

  /**
    Lines 151-155: move the bucket index `j` forward until it reaches the
    bucket holding column `m`, stopping at the last bucket `last`.
  */
  function Advance(beginnings: seq<int>, last: nat, m: int, j: nat): (r: nat)
    requires j <= last && last + 1 < |beginnings|
    ensures j <= r <= last
    ensures r < last ==> beginnings[r] <= m < beginnings[r + 1]
    decreases last - j
  {
    if j >= last then j
    else if beginnings[j] <= m < beginnings[j + 1] then j
    else Advance(beginnings, last, m, j + 1)
  }

  /** Lines 149-157: one vote per mapped column, with a bucket index that never moves back. */
  function Tally(ms: seq<int>, beginnings: seq<int>, j: nat, hist: seq<int>): (h: seq<int>)
    requires j < |hist| && |beginnings| == |hist| + 1
    ensures |h| == |hist|
    decreases |ms|
  {
    if |ms| == 0 then hist
    else
      var j' := Advance(beginnings, |hist| - 1, ms[0], j);
      Tally(ms[1..], beginnings, j', hist[j' := hist[j'] + 1])
  }

  /** Lines 158-165: the first index with the largest count, scanning from `i`. */
  function FirstArgMaxFrom(h: seq<int>, i: nat, bestScore: int, bestLine: nat): (r: nat)
    requires i <= |h| && bestLine < |h|
    ensures r < |h|
    decreases |h| - i
  {
    if i == |h| then bestLine
    else if bestScore < h[i] then FirstArgMaxFrom(h, i + 1, h[i], i)
    else FirstArgMaxFrom(h, i + 1, bestScore, bestLine)
  }

  function FirstArgMax(h: seq<int>): nat
    requires |h| >= 1
  {
    FirstArgMaxFrom(h, 0, 0, 0)
  }

  /** The 0-based target line that the mapped columns `ms` vote for. */
  function Vote(ms: seq<int>, targetLines: seq<string>): (r: nat)
    requires |targetLines| >= 1
    ensures r < |targetLines|
  {
    FirstArgMax(Tally(ms, Beginnings(targetLines), 0, Zeros(|targetLines|)))
  }

  /** Lines 142-148: where each target line begins, and one past the end. */
  method LineBeginnings(targetLines: seq<string>) returns (beginnings: array<int>)
    ensures fresh(beginnings)
    ensures beginnings[..] == Beginnings(targetLines)
  {
    var lineCount := |targetLines|;
    beginnings := new int[lineCount + 1];
    beginnings[0] := 0;
    for k := 0 to lineCount
      invariant forall q :: 0 <= q <= k ==> beginnings[q] == LineStart(targetLines, q)
    {
      beginnings[k + 1] := beginnings[k] + |targetLines[k]| + 1;
    }
    AreBeginnings(beginnings[..], targetLines);
  }

  lemma AreBeginnings(b: seq<int>, lines: seq<string>)
    requires |b| == |lines| + 1
    requires forall q :: 0 <= q <= |lines| ==> b[q] == LineStart(lines, q)
    ensures b == Beginnings(lines)
  {
  }

  /** Line 143: an all-zero histogram, one bucket per target line. */
  method EmptyHistogram(lineCount: nat) returns (histogram: array<int>)
    ensures fresh(histogram)
    ensures histogram[..] == Zeros(lineCount)
  {
    histogram := new int[lineCount](_ => 0);
    assert histogram[..] == Zeros(lineCount);
  }

  /** Lines 151-155: the bucket of column `m`, moving on from bucket `j`. */
  method AdvanceBucket(beginnings: array<int>, m: int, j: nat) returns (r: nat)
    requires j + 1 < beginnings.Length
    ensures r == Advance(beginnings[..], beginnings.Length - 2, m, j)
  {
    var last := beginnings.Length - 2;
    r := j;
    while r < last
      invariant j <= r <= last
      invariant Advance(beginnings[..], last, m, r) == Advance(beginnings[..], last, m, j)
    {
      if beginnings[r] <= m && m < beginnings[r + 1] {
        break;
      }
      r := r + 1;
    }
  }

  /** Lines 149-157: add one vote per column of `mapping[i1..i2]`. */
  method FillHistogram(mapping: array<int>, i1: nat, i2: nat, beginnings: array<int>, histogram: array<int>)
    requires i1 <= i2 <= mapping.Length
    requires histogram.Length >= 1 && beginnings.Length == histogram.Length + 1
    requires histogram != beginnings && histogram != mapping
    modifies histogram
    ensures histogram[..] == Tally(mapping[i1..i2], beginnings[..], 0, old(histogram[..]))
  {
    var lineCount := histogram.Length;
    ghost var b := beginnings[..];
    ghost var goal := Tally(mapping[i1..i2], b, 0, histogram[..]);
    ghost var rest := mapping[i1..i2];
    var j: nat := 0;
    for idx := i1 to i2
      invariant j < lineCount
      invariant beginnings[..] == b
      invariant rest == mapping[idx..i2]
      invariant Tally(rest, b, j, histogram[..]) == goal
    {
      var m := mapping[idx];
      ghost var j0 := j;
      j := AdvanceBucket(beginnings, m, j);
      ghost var h := histogram[..];
      CountVote(histogram, j);
      TallyStep(rest, b, j0, j, h, histogram[..], goal);
      rest := rest[1..];
    }
  }

  /** Line 156: one more vote for bucket `j`. */
  method CountVote(histogram: array<int>, j: nat)
    requires j < histogram.Length
    modifies histogram
    ensures histogram[..] == old(histogram[..])[j := old(histogram[j]) + 1]
  {
    histogram[j] := histogram[j] + 1;
  }

  /** One vote: the first column of `ms` moves the bucket index on from `j` and counts in the bucket it reaches. */
  lemma TallyStep(ms: seq<int>, b: seq<int>, j: nat, j': nat, h: seq<int>, h': seq<int>, goal: seq<int>)
    requires 0 < |ms| && j < |h| && |b| == |h| + 1
    requires j' == Advance(b, |h| - 1, ms[0], j) && h' == h[j' := h[j'] + 1]
    requires Tally(ms, b, j, h) == goal
    ensures Tally(ms[1..], b, j', h') == goal
  {
  }

  /** Lines 158-165: the first line with the most votes. */
  method BestTargetLine(histogram: array<int>) returns (best: nat)
    requires histogram.Length >= 1
    ensures best == FirstArgMax(histogram[..])
  {
    var bestScore := 0;
    best := 0;
    for k := 0 to histogram.Length
      invariant best < histogram.Length
      invariant FirstArgMaxFrom(histogram[..], k, bestScore, best) == FirstArgMax(histogram[..])
    {
      if bestScore < histogram[k] {
        bestScore := histogram[k];
        best := k;
      }
    }
  }

  /** Lines 142-166: vote for the target line of the mapped source line. */
  method VoteTargetLine(mapping: array<int>, i1: nat, i2: nat, targetLines: seq<string>) returns (line: int)
    requires i1 <= i2 <= mapping.Length && |targetLines| >= 1
    ensures line == Vote(mapping[i1..i2], targetLines) + 1
  {
    var histogram := EmptyHistogram(|targetLines|);
    var beginnings := LineBeginnings(targetLines);
    FillHistogram(mapping, i1, i2, beginnings, histogram);
    var best := BestTargetLine(histogram);
    line := best + 1;
  }

  // ---------------------------------------------------------------------
  // Properties of the vote.

  /** The total number of votes in a histogram. */
  function Sum(h: seq<int>): int
  {
    if |h| == 0 then 0 else Sum(h[..|h| - 1]) + h[|h| - 1]
  }

  lemma {:induction false} SumIncrement(h: seq<int>, j: nat)
    requires j < |h|
    ensures Sum(h[j := h[j] + 1]) == Sum(h) + 1
  {
    var h' := h[j := h[j] + 1];
    if j < |h| - 1 {
      assert h'[..|h| - 1] == h[..|h| - 1][j := h[j] + 1];
      SumIncrement(h[..|h| - 1], j);
    } else {
      assert h'[..|h| - 1] == h[..|h| - 1];
    }
  }

  lemma {:induction false} SumZeros(n: nat)
    ensures Sum(Zeros(n)) == 0
  {
    if n > 0 {
      assert Zeros(n)[..n - 1] == Zeros(n - 1);
      SumZeros(n - 1);
    }
  }

  /** Lines 149-157: every mapped column casts exactly one vote. */
  lemma {:induction false} TallyCountsEveryColumn(ms: seq<int>, beginnings: seq<int>, j: nat, hist: seq<int>)
    requires j < |hist| && |beginnings| == |hist| + 1
    ensures Sum(Tally(ms, beginnings, j, hist)) == Sum(hist) + |ms|
    decreases |ms|
  {
    if |ms| > 0 {
      var j' := Advance(beginnings, |hist| - 1, ms[0], j);
      SumIncrement(hist, j');
      TallyCountsEveryColumn(ms[1..], beginnings, j', hist[j' := hist[j'] + 1]);
    }
  }

  /** Votes only ever add to a histogram. */
  lemma {:induction false} TallyNonNegative(ms: seq<int>, beginnings: seq<int>, j: nat, hist: seq<int>)
    requires j < |hist| && |beginnings| == |hist| + 1
    requires forall k :: 0 <= k < |hist| ==> hist[k] >= 0
    ensures forall k :: 0 <= k < |hist| ==> Tally(ms, beginnings, j, hist)[k] >= hist[k]
    decreases |ms|
  {
    if |ms| > 0 {
      var j' := Advance(beginnings, |hist| - 1, ms[0], j);
      TallyNonNegative(ms[1..], beginnings, j', hist[j' := hist[j'] + 1]);
    }
  }

  /**
    Lines 158-165 over a histogram without negative counts: the scan ends on
    a largest count, and no earlier line has that count.
  */
  lemma {:induction false} FirstArgMaxFromIsFirstMaximum(h: seq<int>, i: nat, bestScore: int, bestLine: nat)
    requires i <= |h| && bestLine < |h|
    requires forall k :: 0 <= k < |h| ==> h[k] >= 0
    requires (i == 0 && bestScore == 0 && bestLine == 0) ||
             (bestLine < i && bestScore == h[bestLine] &&
              forall k :: 0 <= k < i ==> h[k] <= bestScore && (k < bestLine ==> h[k] < bestScore))
    ensures var r := FirstArgMaxFrom(h, i, bestScore, bestLine);
      (forall k :: 0 <= k < |h| ==> h[k] <= h[r]) && (forall k :: 0 <= k < r ==> h[k] < h[r])
    decreases |h| - i
  {
    if i < |h| {
      if bestScore < h[i] {
        FirstArgMaxFromIsFirstMaximum(h, i + 1, h[i], i);
      } else {
        FirstArgMaxFromIsFirstMaximum(h, i + 1, bestScore, bestLine);
      }
    }
  }

  /**
    Lines 142-166: the chosen line has the most votes, and every earlier line
    has fewer (ties go to the earliest line); the votes add up to `|ms|`.
  */
  lemma VoteIsFirstMaximum(ms: seq<int>, targetLines: seq<string>)
    requires |targetLines| >= 1
    ensures var h := Tally(ms, Beginnings(targetLines), 0, Zeros(|targetLines|));
      var r := Vote(ms, targetLines);
      Sum(h) == |ms| &&
      (forall k :: 0 <= k < |h| ==> 0 <= h[k] <= h[r]) &&
      (forall k :: 0 <= k < r ==> h[k] < h[r])
  {
    var n := |targetLines|;
    TallyNonNegative(ms, Beginnings(targetLines), 0, Zeros(n));
    TallyCountsEveryColumn(ms, Beginnings(targetLines), 0, Zeros(n));
    SumZeros(n);
    FirstArgMaxFromIsFirstMaximum(Tally(ms, Beginnings(targetLines), 0, Zeros(n)), 0, 0, 0);
  }

  // ---------------------------------------------------------------------
  // The whole of analyzeEditAndMapLine.

  /** Line 78: `i1`, the length of the joined text before line `lineno`. */
  function ImportantStart(lines: seq<string>, lineno: nat): nat
    requires 1 <= lineno <= |lines|
  {
    |Join(lines[..lineno - 1], "\n")|
  }

  /** Line 79: `i2`, `i1` plus the length of line `lineno`. */
  function ImportantEnd(lines: seq<string>, lineno: nat): nat
    requires 1 <= lineno <= |lines|
  {
    ImportantStart(lines, lineno) + |lines[lineno - 1]|
  }

  /** The span [i1, i2) ends inside the joined source text. */
  lemma ImportantSpanFits(lines: seq<string>, lineno: nat)
    requires 1 <= lineno <= |lines|
    ensures ImportantEnd(lines, lineno) <= |Join(lines, "\n")|
  {
    ImportantSpanInText(lines, lineno);
  }

  /**
    The span [i1, i2) lies inside the joined source text, so the slice of
    `mapping` at line 150 is in range. For a line other than the first, the
    span starts at the newline that precedes the line, not at its first
    character: it covers that newline and all but the line's last character.
  */
  lemma ImportantSpanInText(lines: seq<string>, lineno: nat)
    requires 1 <= lineno <= |lines|
    ensures ImportantEnd(lines, lineno) <= |Join(lines, "\n")|
    ensures lineno >= 2 ==> ImportantEnd(lines, lineno) + 1 <= |Join(lines, "\n")|
    ensures lineno >= 2 ==> Join(lines, "\n")[ImportantStart(lines, lineno)] == '\n'
    ensures lineno >= 2 ==> Join(lines, "\n")[ImportantStart(lines, lineno) + 1..ImportantEnd(lines, lineno) + 1] == lines[lineno - 1]
    ensures lineno == 1 ==> Join(lines, "\n")[..ImportantEnd(lines, lineno)] == lines[0]
  {
    var pre := lines[..lineno];
    assert pre[..lineno - 1] == lines[..lineno - 1];
    JoinPrefix(lines, "\n", lineno);
    if lineno >= 2 {
      assert Join(pre, "\n") == Join(lines[..lineno - 1], "\n") + "\n" + lines[lineno - 1];
    } else {
      assert Join(pre, "\n") == lines[0];
    }
  }

  /**
    Lines 66-166 for at most eight source lines, or any number once windowed:
    align the joined texts and vote. A walk that leaves the table (where Go
    panics) is IndexPanic.
  */
  function Align(sourceLines: seq<string>, targetLines: seq<string>, lineno: nat): (r: Result<int, MapError>)
    requires 1 <= lineno <= |sourceLines| && |targetLines| >= 1
    ensures r.Ok? ==> 1 <= r.value <= |targetLines|
    ensures r.Err? ==> r.error == IndexPanic
  {
    var src := Join(sourceLines, "\n");
    var tgt := Join(targetLines, "\n");
    var i1 := ImportantStart(sourceLines, lineno);
    var i2 := ImportantEnd(sourceLines, lineno);
    ImportantSpanFits(sourceLines, lineno);
    match Mapping(src, tgt, i1, i2)
    case None => Err(IndexPanic)
    case Some(ms) => Ok(Vote(ms[i1..i2], targetLines) + 1)
  }

  /**
    Lines 62-63: the lines kept around `lineno`, as 1-based bounds
    `(new_start, new_end)`: five lines either side, clipped to the hunk.
  */
  function Window(count: nat, lineno: int): (w: (int, int))
    requires 1 <= lineno <= count
    ensures 1 <= w.0 <= lineno <= w.1 <= count
    ensures w.1 - w.0 <= SourceChunkMaxContext
    ensures w.0 == 1 || w.0 == lineno - SourceChunkMaxContext / 2
    ensures w.1 == count || w.1 == lineno + SourceChunkMaxContext / 2
  {
    (Max(lineno - SourceChunkMaxContext / 2, 1), Min(lineno + SourceChunkMaxContext / 2, count))
  }

  /**
    Lines 58-65 as written, for a line already known to be in range and a
    non-empty target: a hunk of more than eight lines is cut to lines
    new_start..new_end-1 of line 64 and looked at again, until at most eight
    lines remain. None when the line falls outside the lines kept.
  */
  function Narrow(sourceLines: seq<string>, lineno: int): (r: Option<(seq<string>, nat)>)
    ensures r.Some? ==> 1 <= r.value.1 <= |r.value.0| <= 8
    decreases |sourceLines|
  {
    if lineno < 1 || lineno > |sourceLines| then None
    else if |sourceLines| > 8 then
      var w := Window(|sourceLines|, lineno);
      Narrow(sourceLines[w.0 - 1..w.1 - 1], lineno - w.0 + 1)
    else Some((sourceLines, lineno))
  }

  /**
    analyzeEditAndMapLine as written (lines 53-166): the range and deletion
    checks, the narrowing of lines 60-65, then the alignment of at most
    eight lines.
  */
  function MapLine(sourceLines: seq<string>, targetLines: seq<string>, lineno: int): (r: Result<int, MapError>)
    ensures lineno < 1 || lineno > |sourceLines| ==> r == Err(LineOutOfRange)
    ensures 1 <= lineno <= |sourceLines| && |targetLines| == 0 ==> r == Err(Deletion)
    ensures r.Ok? ==> 1 <= r.value <= |targetLines|
  {
    if lineno < 1 || lineno > |sourceLines| then Err(LineOutOfRange)
    else if |targetLines| < 1 then Err(Deletion)
    else
      match Narrow(sourceLines, lineno)
      case None => Err(LineOutOfRange)
      case Some((window, windowLineno)) => Align(window, targetLines, windowLineno)
  }

  /**
    The narrowing as written loses a line exactly when it is out of range
    or the last line of a hunk of more than eight lines: each cut keeps the
    line but drops line new_end, which is the hunk's last line only when the
    line is.
  */
  lemma {:induction false} NarrowFailsExactly(sourceLines: seq<string>, lineno: int)
    ensures Narrow(sourceLines, lineno).None? <==>
      lineno < 1 || lineno > |sourceLines| || (|sourceLines| > 8 && lineno == |sourceLines|)
    decreases |sourceLines|
  {
    if lineno < 1 || lineno > |sourceLines| {
      assert Narrow(sourceLines, lineno) == None;
    } else if |sourceLines| <= 8 {
      assert Narrow(sourceLines, lineno) == Some((sourceLines, lineno));
    } else {
      var w := Window(|sourceLines|, lineno);
      var sub, subLineno := sourceLines[w.0 - 1..w.1 - 1], lineno - w.0 + 1;
      assert subLineno > |sub| <==> lineno == |sourceLines|;
      assert |sub| > 8 ==> subLineno < |sub|;
      NarrowFailsExactly(sub, subLineno);
    }
  }

  /**
    As written, a hunk of more than eight lines reports its last line as out
    of range, and no other line in range.
  */
  lemma MapLineOutOfRangeExactly(sourceLines: seq<string>, targetLines: seq<string>, lineno: int)
    ensures MapLine(sourceLines, targetLines, lineno) == Err(LineOutOfRange) <==>
      lineno < 1 || lineno > |sourceLines| ||
      (|targetLines| >= 1 && |sourceLines| > 8 && lineno == |sourceLines|)
  {
    NarrowFailsExactly(sourceLines, lineno);
  }

  /**
    The case of fastforward_test.go line 45: in a hunk of more than eight
    lines, its last line cannot be mapped.
  */
  lemma LastLineOfLongHunkIsLost(sourceLines: seq<string>, targetLines: seq<string>)
    requires |sourceLines| > 8 && |targetLines| >= 1
    ensures MapLine(sourceLines, targetLines, |sourceLines|) == Err(LineOutOfRange)
  {
    MapLineOutOfRangeExactly(sourceLines, targetLines, |sourceLines|);
  }

  /**
    analyzeEditAndMapLine with the window of lines 62-64 taken as intended:
    lines new_start..new_end inclusive, cut once and aligned directly (the
    window has at most eleven lines; cutting again would not terminate, as
    Window(11, 6) is the whole window).
  */
  function MapLineWindowed(sourceLines: seq<string>, targetLines: seq<string>, lineno: int): (r: Result<int, MapError>)
    ensures r == Err(LineOutOfRange) <==> lineno < 1 || lineno > |sourceLines|
    ensures r == Err(Deletion) <==> 1 <= lineno <= |sourceLines| && |targetLines| == 0
    ensures r.Ok? ==> 1 <= r.value <= |targetLines|
  {
    if lineno < 1 || lineno > |sourceLines| then Err(LineOutOfRange)
    else if |targetLines| < 1 then Err(Deletion)
    else
      var (window, windowLineno) := WindowAround(sourceLines, lineno);
      Align(window, targetLines, windowLineno)
  }

  /**
    Lines 60-65 as intended: a hunk of more than eight lines is cut down to
    lines new_start..new_end inclusive, with `lineno` renumbered inside it;
    a shorter hunk is kept whole.
  */
  function WindowAround(sourceLines: seq<string>, lineno: int): (r: (seq<string>, nat))
    requires 1 <= lineno <= |sourceLines|
    ensures 1 <= r.1 <= |r.0| <= |sourceLines|
    ensures |sourceLines| <= 8 ==> r == (sourceLines, lineno)
    ensures r.1 <= lineno && lineno - r.1 + |r.0| <= |sourceLines|
    ensures r.0 == sourceLines[lineno - r.1..lineno - r.1 + |r.0|]
    ensures |sourceLines| > 8 ==> |r.0| <= SourceChunkMaxContext + 1
  {
    if |sourceLines| > 8 then
      var w := Window(|sourceLines|, lineno);
      (sourceLines[w.0 - 1..w.1], lineno - w.0 + 1)
    else (sourceLines, lineno)
  }

  /** Lines 66-166: the alignment and vote on arrays, proved to compute Align. */
  method AlignLines(sourceLines: seq<string>, targetLines: seq<string>, lineno: nat) returns (r: Result<int, MapError>)
    requires 1 <= lineno <= |sourceLines| && |targetLines| >= 1
    ensures r == Align(sourceLines, targetLines, lineno)
  {
    var src := Join(sourceLines, "\n");
    var tgt := Join(targetLines, "\n");
    var i1 := |Join(sourceLines[..lineno - 1], "\n")|;
    var i2 := i1 + |sourceLines[lineno - 1]|;
    ImportantSpanInText(sourceLines, lineno);
    var score, track := FillTables(src, tgt, i1, i2);
    var walked, mapping := TrackBackwards(score, track, src, tgt, i1, i2);
    if !walked {
      return Err(IndexPanic);
    }
    var line := VoteTargetLine(mapping, i1, i2, targetLines);
    r := Ok(line);
  }

  /**
    analyzeEditAndMapLine as written (lines 53-166): the range and deletion
    checks, then, for more than eight lines, the recursive call of line 64
    on lines new_start..new_end-1; otherwise the alignment of lines 66-166.
  */
  method AnalyzeEditAndMapLine(sourceLines: seq<string>, targetLines: seq<string>, lineno: int) returns (r: Result<int, MapError>)
    ensures r == MapLine(sourceLines, targetLines, lineno)
    decreases |sourceLines|
  {
    if lineno < 1 || lineno > |sourceLines| {
      return Err(LineOutOfRange);
    }
    if |targetLines| < 1 {
      return Err(Deletion);
    }
    if |sourceLines| > 8 {
      var w := Window(|sourceLines|, lineno);
      NarrowStep(sourceLines, targetLines, lineno);
      r := AnalyzeEditAndMapLine(sourceLines[w.0 - 1..w.1 - 1], targetLines, lineno - w.0 + 1);
      return;
    }
    assert Narrow(sourceLines, lineno) == Some((sourceLines, lineno));
    r := AlignLines(sourceLines, targetLines, lineno);
  }

  /** Line 64: a hunk of more than eight lines maps the line as its cut does. */
  lemma {:induction false} NarrowStep(sourceLines: seq<string>, targetLines: seq<string>, lineno: int)
    requires 1 <= lineno <= |sourceLines| && |targetLines| >= 1 && |sourceLines| > 8
    ensures var w := Window(|sourceLines|, lineno);
      MapLine(sourceLines, targetLines, lineno) == MapLine(sourceLines[w.0 - 1..w.1 - 1], targetLines, lineno - w.0 + 1)
  {
    var w := Window(|sourceLines|, lineno);
    var sub, subLineno := sourceLines[w.0 - 1..w.1 - 1], lineno - w.0 + 1;
    NarrowUnfolds(sourceLines, lineno);
    if subLineno > |sub| {
      NarrowedAwayIsOutOfRange(sourceLines, lineno, targetLines);
    } else {
      assert 1 <= subLineno <= |sub|;
      SameNarrowingSameMapping(sourceLines, lineno, sub, subLineno, targetLines);
    }
  }

  /** One level of the narrowing of a hunk of more than eight lines. */
  lemma {:induction false} NarrowUnfolds(xs: seq<string>, x: int)
    requires 1 <= x <= |xs| && |xs| > 8
    ensures var w := Window(|xs|, x); Narrow(xs, x) == Narrow(xs[w.0 - 1..w.1 - 1], x - w.0 + 1)
  {
  }

  /** An in-range line that the narrowing loses is reported out of range. */
  lemma {:induction false} NarrowedAwayIsOutOfRange(xs: seq<string>, x: int, targetLines: seq<string>)
    requires 1 <= x <= |xs| && |targetLines| >= 1 && Narrow(xs, x).None?
    ensures MapLine(xs, targetLines, x) == Err(LineOutOfRange)
  {
  }

  /** Two in-range lines whose narrowings agree are mapped alike. */
  lemma {:induction false} SameNarrowingSameMapping(xs: seq<string>, x: int, ys: seq<string>, y: int, targetLines: seq<string>)
    requires 1 <= x <= |xs| && 1 <= y <= |ys| && |targetLines| >= 1
    requires Narrow(xs, x) == Narrow(ys, y)
    ensures MapLine(xs, targetLines, x) == MapLine(ys, targetLines, y)
  {
  }

  /** The corrected analyzeEditAndMapLine on arrays: the window of MapLineWindowed, cut once, then aligned. */
  method AnalyzeEditAndMapLineWindowed(sourceLines: seq<string>, targetLines: seq<string>, lineno: int) returns (r: Result<int, MapError>)
    ensures r == MapLineWindowed(sourceLines, targetLines, lineno)
  {
    if lineno < 1 || lineno > |sourceLines| {
      return Err(LineOutOfRange);
    }
    if |targetLines| < 1 {
      return Err(Deletion);
    }
    if |sourceLines| > 8 {
      var w := Window(|sourceLines|, lineno);
      var window, windowLineno := sourceLines[w.0 - 1..w.1], lineno - w.0 + 1;
      assert WindowAround(sourceLines, lineno) == (window, windowLineno);
      r := AlignLines(window, targetLines, windowLineno);
    } else {
      r := AlignLines(sourceLines, targetLines, lineno);
    }
  }

  // ---------------------------------------------------------------------
  // Two small hunks worked through.

  /**
    A source line "aaa" against a target line "a": rows 1 and 2 find no
    predecessor, so the walk reads column -1 and Go panics at line 137.
  */
  lemma BacktrackingPanics()
    ensures MapLine(["aaa"], ["a"], 1) == Err(IndexPanic)
    ensures MapLineWindowed(["aaa"], ["a"], 1) == Err(IndexPanic)
  {
    var src, tgt := "aaa", "a";
    assert Join(["aaa"], "\n") == src && Join(["a"], "\n") == tgt;
    assert ImportantStart(["aaa"], 1) == 0;
    assert Row(src, tgt, 0, 3, 0) == [Cell(0, -1)];
    assert Row(src, tgt, 0, 3, 1) == [Cell(-1, -1)];
    assert Row(src, tgt, 0, 3, 2) == [Cell(-1, -1)];
    assert PickLastFrom([-1], 0, -1, 0) == 0;
    assert Trace(src, tgt, 0, 3, 1, -1, [0]) == None;
  }

  /** A line "a" that gains a line "b" above it maps to target line 2. */
  lemma InsertedLineShifts()
    ensures MapLine(["a"], ["b", "a"], 1) == Ok(2)
    ensures MapLineWindowed(["a"], ["b", "a"], 1) == Ok(2)
  {
    var src, tgt := "a", "b\na";
    assert Join(["a"], "\n") == src;
    assert Join(["b", "a"], "\n") == tgt by {
      assert ["b", "a"][..1] == ["b"];
    }
    assert ImportantStart(["a"], 1) == 0;
    assert Row(src, tgt, 0, 1, 0) == [Cell(10, -1), Cell(-1, -1), Cell(2, -1)];
    assert Scores(Row(src, tgt, 0, 1, 0)) == [10, -1, 2];
    assert PickLastFrom([10, -1, 2], 0, -1, 0) == 2;
    assert [2] + [] == [2];
    assert Trace(src, tgt, 0, 1, 0, 2, []) == Some([2]);
    assert Mapping(src, tgt, 0, 1).value[0..1] == [2];
    assert Mapping(src, tgt, 0, 1) == Some([2]);
    assert Beginnings(["b", "a"]) == [0, 2, 4];
    assert Tally([2], [0, 2, 4], 0, [0, 0]) == [0, 1];
    assert FirstArgMax([0, 1]) == 1;
    assert Zeros(2) == [0, 0];
    assert Vote([2], ["b", "a"]) == 1;
    assert ImportantEnd(["a"], 1) == 1;
    assert Mapping(src, tgt, 0, 1) == Some([2]);
    assert [2][0..1] == [2];
    assert Align(["a"], ["b", "a"], 1) == Ok(2);
  }

  /** A source character that never matches a one-character target keeps column 0 reachable: its score is non-negative and, past row 0, it comes from column 0. */
  lemma {:induction false} UnmatchedRows(src: string, tgt: string, i1: int, i2: int, i: nat)
    requires |tgt| == 1 && i < |src| && forall k :: 0 <= k <= i ==> src[k] != tgt[0]
    ensures Row(src, tgt, i1, i2, i)[0].score >= 0
    ensures i > 0 ==> Row(src, tgt, i1, i2, i)[0].track == 0
    decreases i
  {
    if i > 0 {
      UnmatchedRows(src, tgt, i1, i2, i - 1);
      var prev := Scores(Row(src, tgt, i1, i2, i - 1));
      var skip := SkipPenalty(i, i1, i2);
      assert RowTail(prev, src[i], tgt, skip, 0, Best(-1, -1), 0)[0] == Cell(prev[0] + skip, 0);
    }
  }

  /** With no character matching a one-character target, the walk back stays in column 0 all the way. */
  lemma {:induction false} UnmatchedWalk(src: string, tgt: string, i1: int, i2: int, i: nat, acc: seq<int>)
    requires |tgt| == 1 && i < |src| && forall k :: 0 <= k <= i ==> src[k] != tgt[0]
    ensures Trace(src, tgt, i1, i2, i, 0, acc) == Some(Zeros(i + 1) + acc)
    decreases i
  {
    if i > 0 {
      UnmatchedRows(src, tgt, i1, i2, i);
      UnmatchedWalk(src, tgt, i1, i2, i - 1, [0] + acc);
      assert Zeros(i) + ([0] + acc) == Zeros(i + 1) + acc;
    } else {
      assert [0] + acc == Zeros(1) + acc;
    }
  }

  /**
    The corrected window is not the as-written cut plus a harmless extra
    line: for line 1 of a nine-line hunk, the as-written cut keeps five "b"
    lines and maps the line to target line 1, while the corrected window
    also keeps line 6, an "a" that matches the target but has no
    predecessor, so the walk back leaves the table.
  */
  lemma CorrectedWindowDiffers()
    ensures MapLine(["b", "b", "b", "b", "b", "a", "b", "b", "b"], ["a"], 1) == Ok(1)
    ensures MapLineWindowed(["b", "b", "b", "b", "b", "a", "b", "b", "b"], ["a"], 1) == Err(IndexPanic)
  {
    var lines: seq<string> := ["b", "b", "b", "b", "b", "a", "b", "b", "b"];
    assert Window(9, 1) == (1, 6);
    AsWrittenCutMapsToFirstLine(lines);
    CorrectedWindowPanics(lines);
  }

  lemma AsWrittenCutMapsToFirstLine(lines: seq<string>)
    requires lines == ["b", "b", "b", "b", "b", "a", "b", "b", "b"]
    ensures MapLine(lines, ["a"], 1) == Ok(1)
  {
    var cut := lines[0..5];
    assert Narrow(lines, 1) == Narrow(cut, 1);
    assert Narrow(cut, 1) == Some((cut, 1));
    JoinOfFiveLines(cut);
    assert Join(["a"], "\n") == "a";
    assert ImportantStart(cut, 1) == 0 && ImportantEnd(cut, 1) == 1;
    UnmatchedTextMapsToColumnZero("b\nb\nb\nb\nb");
    assert Zeros(9)[0..1] == [0];
    VoteForFirstLine();
  }

  lemma JoinOfFiveLines(cut: seq<string>)
    requires cut == ["b", "b", "b", "b", "b"]
    ensures Join(cut, "\n") == "b\nb\nb\nb\nb"
  {
    assert Join(cut[..1], "\n") == "b";
    assert cut[..2][..1] == cut[..1];
    assert Join(cut[..2], "\n") == "b\nb";
    assert cut[..3][..2] == cut[..2];
    assert Join(cut[..3], "\n") == "b\nb\nb";
    assert cut[..4][..3] == cut[..3];
    assert Join(cut[..4], "\n") == "b\nb\nb\nb";
    assert cut[..|cut| - 1] == cut[..4];
  }

  lemma UnmatchedTextMapsToColumnZero(src: string)
    requires src == "b\nb\nb\nb\nb"
    ensures Mapping(src, "a", 0, 1) == Some(Zeros(9))
  {
    assert forall k :: 0 <= k <= 8 ==> src[k] != "a"[0];
    UnmatchedRows(src, "a", 0, 1, 8);
    assert PickLastFrom(Scores(Row(src, "a", 0, 1, 8)), 0, -1, 0) == 0;
    UnmatchedWalk(src, "a", 0, 1, 8, []);
    assert Zeros(9) + [] == Zeros(9);
  }

  lemma VoteForFirstLine()
    ensures Vote([0], ["a"]) == 0
  {
    assert Beginnings(["a"]) == [0, 2];
    assert Zeros(1) == [0];
    assert Tally([0], [0, 2], 0, [0]) == [1];
    assert FirstArgMax([1]) == 0;
  }

  lemma CorrectedWindowPanics(lines: seq<string>)
    requires lines == ["b", "b", "b", "b", "b", "a", "b", "b", "b"]
    ensures MapLineWindowed(lines, ["a"], 1) == Err(IndexPanic)
  {
    var win := lines[0..6];
    assert WindowAround(lines, 1) == (win, 1);
    var src := "b\nb\nb\nb\nb\na";
    assert Join(win[..1], "\n") == "b";
    assert win[..2][..1] == win[..1];
    assert Join(win[..2], "\n") == "b\nb";
    assert win[..3][..2] == win[..2];
    assert Join(win[..3], "\n") == "b\nb\nb";
    assert win[..4][..3] == win[..3];
    assert Join(win[..4], "\n") == "b\nb\nb\nb";
    assert win[..5][..4] == win[..4];
    assert Join(win[..5], "\n") == "b\nb\nb\nb\nb";
    assert win[..|win| - 1] == win[..5];
    assert Join(win, "\n") == src;
    assert Join(["a"], "\n") == "a";
    assert ImportantStart(win, 1) == 0 && ImportantEnd(win, 1) == 1;
    assert Row(src, "a", 0, 1, 10) == [Cell(-1, -1)];
    assert PickLastFrom([-1], 0, -1, 0) == 0;
    assert Trace(src, "a", 0, 1, 9, -1, [0]) == None;
    assert Mapping(src, "a", 0, 1) == None;
  }
}
