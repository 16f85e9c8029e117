/**
  FastForward (server/fastforward.go): follow a line of a file from a source
  commit to a target commit.

  The blame package and git are inputs here: a `History` holds, for one file
  of one repository, the blame vector of the file at each commit, the file's
  commit log (each commit with its diff hunks) and the 1-based position of
  each commit in that log; `blobs` maps a commit to the file's content there.
*/
module FastForward {
  import opened Wrappers
  import opened GoStrings
  import opened LineAlignment

  /** One line of a blame vector: the commit that last touched it and its line number there. */
  datatype BlameLine = BlameLine(commitHash: string, lineNumber: int)

  /** One diff hunk: lines [oldStart, oldStart + oldLength) became [newStart, newStart + newLength). */
  datatype Hunk = Hunk(oldStart: int, oldLength: int, newStart: int, newLength: int)

  /** A commit of the file's log, with the hunks it applied to the file. */
  datatype FileCommit = FileCommit(hash: string, hunks: seq<Hunk>)

  /**
    What the blame package answers for one file: FileBlameVectorBatch
    (`blame`), and FindCommitBatch (`log` and the 1-based `position` of a
    commit in it).
  */
  datatype History = History(blame: map<string, seq<BlameLine>>, log: seq<FileCommit>, position: map<string, int>)

  datatype Error =
    | RepoNotConfigured    // "Repo not configured for blame"
    | NoBlameInformation   // "unable to obtain blame information for commits"
    | InvalidLineNumber    // "Invalid line number %d in %s"
    | CommitNotFound       // FindCommitBatch fails or returns no index for a commit
    | BlobUnavailable      // the file is not a blob at that commit, or cannot be read
    | SliceOutOfRange      // "Unable to slice file content"
    | MapFailed(reason: MapError)
    | NotReached           // "Should not reach here"

  /** `position` and `log` describe the same list of commits. */
  ghost predicate Valid(h: History)
  {
    (forall c :: c in h.position ==> 1 <= h.position[c] <= |h.log|) &&
    (forall k :: 0 <= k < |h.log| ==> h.log[k].hash in h.position && h.position[h.log[k].hash] == k + 1)
  }

  function Lookup(blobs: map<string, string>, commit: string): Option<string>
  {
    if commit in blobs then Some(blobs[commit]) else None
  }

  /** getFileSlice, line 25: the blob's lines, split at each newline. */
  function FileLines(content: Option<string>): Option<seq<string>>
  {
    match content
    case None => None
    case Some(text) => Some(Split(text, '\n'))
  }

  /**
    getFileSlice, lines 26-29: `length` lines of the file starting at 1-based
    line `start`, when that window lies within the file's lines.
  */
  function SliceOf(lines: Option<seq<string>>, start: int, length: int): (r: Result<seq<string>, Error>)
    ensures lines.None? ==> r == Err(BlobUnavailable)
    ensures lines.Some? ==> (r.Ok? <==> 1 <= start && 0 <= length && start + length <= |lines.value| + 1)
    ensures r.Ok? ==> |r.value| == length && forall k :: 0 <= k < length ==> r.value[k] == lines.value[start - 1 + k]
    ensures r.Err? ==> r.error == BlobUnavailable || r.error == SliceOutOfRange
  {
    match lines
    case None => Err(BlobUnavailable)
    case Some(ls) =>
      if start >= 1 && length >= 0 && start + length <= |ls| + 1 then Ok(ls[start - 1..start - 1 + length])
      else Err(SliceOutOfRange)
  }

  /** getFileSlice, lines 12-30, for a blob read as `content` (None when it cannot be read). */
  function GetFileSlice(content: Option<string>, start: int, length: int): Result<seq<string>, Error>
  {
    SliceOf(FileLines(content), start, length)
  }

  /**
    A slice is read exactly when the window lies within the file's lines,
    and it holds those lines in order.
  */
  lemma SliceIsWindow(text: string, start: int, length: int)
    ensures var r := GetFileSlice(Some(text), start, length);
      (r.Ok? <==> 1 <= start && 0 <= length && start + length <= |Split(text, '\n')| + 1) &&
      (r.Ok? ==> forall k :: 0 <= k < length ==> r.value[k] == Split(text, '\n')[start - 1 + k])
  {
  }

  /** The whole file is a slice: its lines, which join back to the content. */
  lemma WholeFileSlice(text: string)
    ensures GetFileSlice(Some(text), 1, Count(text, '\n') + 1) == Ok(Split(text, '\n'))
    ensures Join(Split(text, '\n'), "\n") == text
  {
    SplitCount(text, '\n');
    JoinSplit(text, '\n');
    assert Split(text, '\n')[0..Count(text, '\n') + 1] == Split(text, '\n');
  }

  /** The lines of a slice hold no newline. */
  lemma SliceLinesLackNewline(content: Option<string>, start: int, length: int)
    requires GetFileSlice(content, start, length).Ok?
    ensures forall k, q :: 0 <= k < length && 0 <= q < |GetFileSlice(content, start, length).value[k]| ==>
      GetFileSlice(content, start, length).value[k][q] != '\n'
  {
    SplitPiecesLackSeparator(content.value, '\n');
  }

  /** Lines 189-193: the first line of the target's blame equal to `origin`. */
  function FindBlame(v: seq<BlameLine>, origin: BlameLine, i: nat): (r: Option<nat>)
    requires i <= |v|
    ensures r.Some? ==> i <= r.value < |v| && v[r.value] == origin
    ensures r.Some? ==> forall k :: i <= k < r.value ==> v[k] != origin
    ensures r.None? ==> forall k :: i <= k < |v| ==> v[k] != origin
    decreases |v| - i
  {
    if i == |v| then None
    else if v[i] == origin then Some(i)
    else FindBlame(v, origin, i + 1)
  }

  /** Line 223: whether the old side of `hunk` holds line `lineno`. */
  predicate Covers(hunk: Hunk, lineno: int)
  {
    hunk.oldStart <= lineno < hunk.oldStart + hunk.oldLength
  }

  /** Lines 222-223: the first hunk whose old side holds line `lineno`. */
  function FindHunk(hunks: seq<Hunk>, lineno: int, i: nat): (r: Option<Hunk>)
    requires i <= |hunks|
    ensures r.Some? ==> Covers(r.value, lineno)
    ensures r.Some? ==> exists k :: i <= k < |hunks| && hunks[k] == r.value && (forall q :: i <= q < k ==> !Covers(hunks[q], lineno))
    ensures r.None? ==> forall k :: i <= k < |hunks| ==> !Covers(hunks[k], lineno)
    decreases |hunks| - i
  {
    if i == |hunks| then None
    else if Covers(hunks[i], lineno) then Some(hunks[i])
    else FindHunk(hunks, lineno, i + 1)
  }

  /** Line 208: the log index halfway between two indices more than one apart. */
  function Midpoint(indexSource: int, indexTarget: int): (m: int)
    requires 0 <= indexSource && indexSource + 1 < indexTarget
    ensures indexSource < m < indexTarget
  {
    (indexSource + indexTarget) / 2
  }

  /**
    Lines 222-243: map the line through the first hunk of the target commit
    that holds it. The mapped hunk uses the line mapper of LineAlignment
    as written, narrowing included.
  */
  function ThroughHunk(hunks: seq<Hunk>, blobs: map<string, string>, source: string, target: string, lineno: int)
    : Result<(string, int), Error>
  {
    match FindHunk(hunks, lineno, 0)
    case None => Err(NotReached)
    case Some(hunk) =>
      if hunk.newLength == 0 then Ok((source, lineno))
      else MapInHunk(hunk, FileLines(Lookup(blobs, source)), FileLines(Lookup(blobs, target)), target, lineno)
  }

  /** Lines 225-243: slice both files' lines to the hunk and map the line between the slices. */
  function MapInHunk(hunk: Hunk, sourceFile: Option<seq<string>>, targetFile: Option<seq<string>>, target: string, lineno: int)
    : Result<(string, int), Error>
  {
    match SliceOf(sourceFile, hunk.oldStart, hunk.oldLength)
    case Err(e) => Err(e)
    case Ok(sourceLines) =>
      match SliceOf(targetFile, hunk.newStart, hunk.newLength)
      case Err(e) => Err(e)
      case Ok(targetLines) => Mapped(hunk, target, MapLine(sourceLines, targetLines, lineno - hunk.oldStart + 1))
  }

  /** Lines 236-243: the line mapper's answer, moved from the slice back into the target file. */
  function Mapped(hunk: Hunk, target: string, mapped: Result<int, MapError>): Result<(string, int), Error>
  {
    match mapped
    case Err(e) => Err(MapFailed(e))
    case Ok(result) => Ok((target, result + hunk.newStart - 1))
  }

  /**
    No covering hunk means the line was not reached; a hunk that adds no
    lines leaves the line where it is; a mapped line lands inside the
    hunk's new range of the target. The line mapper never reports a deleted
    hunk here, and it reports an out-of-range line exactly for the last line
    of a hunk of more than eight lines whose slices were read (see
    NarrowFailsExactly).
  */
  lemma ThroughHunkOutcomes(hunks: seq<Hunk>, blobs: map<string, string>, source: string, target: string, lineno: int)
    ensures var r := ThroughHunk(hunks, blobs, source, target, lineno);
      (FindHunk(hunks, lineno, 0).None? ==> r == Err(NotReached))
      && (FindHunk(hunks, lineno, 0).Some? && FindHunk(hunks, lineno, 0).value.newLength == 0 ==>
            r == Ok((source, lineno)))
      && (r.Ok? && r.value.0 != source ==> r.value.0 == target && FindHunk(hunks, lineno, 0).Some?)
      && (r.Ok? && r.value.0 != source ==>
            var hunk := FindHunk(hunks, lineno, 0).value;
            1 <= hunk.newStart <= r.value.1 < hunk.newStart + hunk.newLength)
      && r != Err(MapFailed(Deletion))
    ensures var r, found := ThroughHunk(hunks, blobs, source, target, lineno), FindHunk(hunks, lineno, 0);
      r == Err(MapFailed(LineOutOfRange)) <==>
        found.Some? && found.value.newLength != 0 &&
        SliceOf(FileLines(Lookup(blobs, source)), found.value.oldStart, found.value.oldLength).Ok? &&
        SliceOf(FileLines(Lookup(blobs, target)), found.value.newStart, found.value.newLength).Ok? &&
        found.value.oldLength > 8 && lineno == found.value.oldStart + found.value.oldLength - 1
  {
    var found := FindHunk(hunks, lineno, 0);
    if found.Some? && found.value.newLength != 0 {
      var hunk := found.value;
      var sourceSlice := SliceOf(FileLines(Lookup(blobs, source)), hunk.oldStart, hunk.oldLength);
      var targetSlice := SliceOf(FileLines(Lookup(blobs, target)), hunk.newStart, hunk.newLength);
      if sourceSlice.Ok? && targetSlice.Ok? {
        MapLineOutOfRangeExactly(sourceSlice.value, targetSlice.value, lineno - hunk.oldStart + 1);
      }
    }
  }

  /** A commit with a position is in the log. */
  lemma PositionInLog(h: History, commit: string)
    requires Valid(h) && commit in h.position
    ensures 1 <= h.position[commit] <= |h.log|
  {
  }

  /** How far apart the two commits are in the log, when the source comes first. */
  function Distance(h: History, source: string, target: string): nat
  {
    if source in h.position && target in h.position && h.position[source] < h.position[target]
    then h.position[target] - h.position[source]
    else 0
  }

  /**
    FastForward, lines 174-193: the same blame line in the target when there
    is one; otherwise the commits are looked up in the log.
  */
  function FastForwardSpec(histories: map<string, History>, repo: string, blobs: map<string, string>,
                           source: string, target: string, lineno: int): (r: Result<(string, int), Error>)
    requires forall name :: name in histories ==> Valid(histories[name])
    decreases if repo in histories then Distance(histories[repo], source, target) else 0, 1
  {
    if repo !in histories then Err(RepoNotConfigured)
    else
      var h := histories[repo];
      if source !in h.blame || target !in h.blame then Err(NoBlameInformation)
      else if lineno < 1 || lineno > |h.blame[source]| then Err(InvalidLineNumber)
      else
        match FindBlame(h.blame[target], h.blame[source][lineno - 1], 0)
        case Some(i) => Ok((target, i + 1))
        case None => FollowLogSpec(histories, repo, blobs, source, target, lineno)
  }

  /**
    FastForward, lines 195-243: both commits are looked up in the log; with
    commits strictly between them the log is bisected, and for adjacent
    commits the line is mapped through the hunk that holds it.
  */
  function FollowLogSpec(histories: map<string, History>, repo: string, blobs: map<string, string>,
                         source: string, target: string, lineno: int): (r: Result<(string, int), Error>)
    requires forall name :: name in histories ==> Valid(histories[name])
    requires repo in histories
    decreases Distance(histories[repo], source, target), 0
  {
    var h := histories[repo];
    assert Valid(h);
    if source !in h.position || target !in h.position then Err(CommitNotFound)
    else
      var indexSource := h.position[source] - 1;
      var indexTarget := h.position[target] - 1;
      if indexSource + 1 < indexTarget then
        var middle := h.log[Midpoint(indexSource, indexTarget)].hash;
        match FastForwardSpec(histories, repo, blobs, source, middle, lineno)
        case Err(e) => Err(e)
        case Ok(reached) =>
          if reached.0 != middle then Ok(reached)
          else FastForwardSpec(histories, repo, blobs, middle, target, reached.1)
      else
        ThroughHunk(h.log[indexTarget].hunks, blobs, source, target, lineno)
  }

  /** The commit at index `k` of the log has position `k + 1`. */
  lemma LogEntryPosition(h: History, k: int)
    requires Valid(h) && 0 <= k < |h.log|
    ensures h.log[k].hash in h.position && h.position[h.log[k].hash] == k + 1
  {
  }

  /**
    A line that is found lands on a line number of at least 1, in a
    configured repository, at the source, the target or a commit of the log.
  */
  lemma FastForwardOutcome(histories: map<string, History>, repo: string, blobs: map<string, string>,
                           source: string, target: string, lineno: int)
    requires forall name :: name in histories ==> Valid(histories[name])
    ensures var r := FastForwardSpec(histories, repo, blobs, source, target, lineno);
      (r.Ok? ==> r.value.1 >= 1 && repo in histories) &&
      (r.Ok? ==> r.value.0 == source || r.value.0 == target || r.value.0 in histories[repo].position)
    decreases if repo in histories then Distance(histories[repo], source, target) else 0, 1
  {
    if repo in histories {
      var h := histories[repo];
      if source in h.blame && target in h.blame && 1 <= lineno <= |h.blame[source]|
         && FindBlame(h.blame[target], h.blame[source][lineno - 1], 0).None? {
        FollowLogOutcome(histories, repo, blobs, source, target, lineno);
      }
    }
  }

  /** The outcome of FastForwardOutcome for a result `r` fast-forwarded from `source` to `target`. */
  ghost predicate Lands(histories: map<string, History>, repo: string, source: string, target: string,
                        r: Result<(string, int), Error>)
    requires repo in histories
  {
    r.Ok? ==>
      r.value.1 >= 1 && (r.value.0 == source || r.value.0 == target || r.value.0 in histories[repo].position)
  }

  /** The same outcomes, once the commits are looked up in the log. */
  lemma FollowLogOutcome(histories: map<string, History>, repo: string, blobs: map<string, string>,
                         source: string, target: string, lineno: int)
    requires forall name :: name in histories ==> Valid(histories[name])
    requires repo in histories && lineno >= 1
    ensures Lands(histories, repo, source, target, FollowLogSpec(histories, repo, blobs, source, target, lineno))
    decreases Distance(histories[repo], source, target), 0
  {
    var h := histories[repo];
    if source in h.position && target in h.position {
      PositionInLog(h, source);
      PositionInLog(h, target);
      if h.position[source] + 1 < h.position[target] {
        var m := Midpoint(h.position[source] - 1, h.position[target] - 1);
        var middle := h.log[m].hash;
        LogEntryPosition(h, m);
        FastForwardOutcome(histories, repo, blobs, source, middle, lineno);
        var first := FastForwardSpec(histories, repo, blobs, source, middle, lineno);
        if first.Ok? && first.value.0 == middle {
          FastForwardOutcome(histories, repo, blobs, middle, target, first.value.1);
        }
        BisectionOutcome(histories, repo, blobs, source, target, lineno, m);
      } else {
        FollowLogAdjacent(histories, repo, blobs, source, target, lineno);
      }
    }
  }

  /** The bisection lands where its legs land. */
  lemma BisectionOutcome(histories: map<string, History>, repo: string, blobs: map<string, string>,
                         source: string, target: string, lineno: int, m: int)
    requires forall name :: name in histories ==> Valid(histories[name])
    requires repo in histories
    requires var h := histories[repo];
      source in h.position && target in h.position && 1 <= h.position[source] &&
      h.position[source] + 1 < h.position[target] <= |h.log| &&
      m == Midpoint(h.position[source] - 1, h.position[target] - 1)
    requires var h := histories[repo];
      var first := FastForwardSpec(histories, repo, blobs, source, h.log[m].hash, lineno);
      Lands(histories, repo, source, h.log[m].hash, first) &&
      (first.Ok? && first.value.0 == h.log[m].hash ==>
        Lands(histories, repo, h.log[m].hash, target, FastForwardSpec(histories, repo, blobs, h.log[m].hash, target, first.value.1)))
    ensures Lands(histories, repo, source, target, FollowLogSpec(histories, repo, blobs, source, target, lineno))
  {
    var h := histories[repo];
    LogEntryPosition(h, m);
  }

  /** Adjacent commits land where the hunk mapping lands. */
  lemma FollowLogAdjacent(histories: map<string, History>, repo: string, blobs: map<string, string>,
                          source: string, target: string, lineno: int)
    requires forall name :: name in histories ==> Valid(histories[name])
    requires repo in histories && lineno >= 1
    requires var h := histories[repo];
      source in h.position && target in h.position && h.position[source] + 1 >= h.position[target] &&
      1 <= h.position[target] <= |h.log|
    ensures Lands(histories, repo, source, target, FollowLogSpec(histories, repo, blobs, source, target, lineno))
  {
    var h := histories[repo];
    var hunks := h.log[h.position[target] - 1].hunks;
    ThroughHunkLands(hunks, blobs, source, target, lineno);
    assert FollowLogSpec(histories, repo, blobs, source, target, lineno) == ThroughHunk(hunks, blobs, source, target, lineno);
  }

  /** Mapping through a hunk leaves the line at the source or moves it to the target, on a line of at least 1. */
  lemma ThroughHunkLands(hunks: seq<Hunk>, blobs: map<string, string>, source: string, target: string, lineno: int)
    requires lineno >= 1
    ensures var r := ThroughHunk(hunks, blobs, source, target, lineno);
      r.Ok? ==> r.value.1 >= 1 && (r.value.0 == source || r.value.0 == target)
  {
    ThroughHunkOutcomes(hunks, blobs, source, target, lineno);
  }

  /**
    Lines 188-193: when the target's blame holds the source line's blame
    entry, the result is the first target line carrying it.
  */
  lemma BlameMatchIsFirstEqualLine(histories: map<string, History>, repo: string, blobs: map<string, string>,
                                   source: string, target: string, lineno: int, k: nat)
    requires forall name :: name in histories ==> Valid(histories[name])
    requires repo in histories && source in histories[repo].blame && target in histories[repo].blame
    requires 1 <= lineno <= |histories[repo].blame[source]|
    requires k < |histories[repo].blame[target]|
    requires histories[repo].blame[target][k] == histories[repo].blame[source][lineno - 1]
    requires forall q :: 0 <= q < k ==> histories[repo].blame[target][q] != histories[repo].blame[source][lineno - 1]
    ensures FastForwardSpec(histories, repo, blobs, source, target, lineno) == Ok((target, k + 1))
  {
  }

  /**
    Fast-forwarding a line to the commit it is in changes nothing, when the
    commit's blame vector has no repeated entry.
  */
  lemma SameCommitIsIdentity(histories: map<string, History>, repo: string, blobs: map<string, string>,
                             commit: string, lineno: int)
    requires forall name :: name in histories ==> Valid(histories[name])
    requires repo in histories && commit in histories[repo].blame
    requires 1 <= lineno <= |histories[repo].blame[commit]|
    requires forall p, q :: 0 <= p < q < |histories[repo].blame[commit]| ==>
      histories[repo].blame[commit][p] != histories[repo].blame[commit][q]
    ensures FastForwardSpec(histories, repo, blobs, commit, commit, lineno) == Ok((commit, lineno))
  {
    BlameMatchIsFirstEqualLine(histories, repo, blobs, commit, commit, lineno, lineno - 1);
  }

  /**
    Lines 205-217: when the log holds commits strictly between the two, the
    line is fast-forwarded to the midpoint commit and from there on to the
    target; both legs span fewer commits, an error in the first leg is the
    answer, and so is a first leg that stops at another commit.
  */
  lemma BisectionComposesLegs(histories: map<string, History>, repo: string, blobs: map<string, string>,
                            source: string, target: string, lineno: int)
    requires forall name :: name in histories ==> Valid(histories[name])
    requires repo in histories
    requires var h := histories[repo];
      source in h.blame && target in h.blame && 1 <= lineno <= |h.blame[source]| &&
      FindBlame(h.blame[target], h.blame[source][lineno - 1], 0).None? &&
      source in h.position && target in h.position && h.position[source] + 1 < h.position[target] &&
      1 <= h.position[source] && h.position[target] <= |h.log|
    ensures var h := histories[repo];
      var middle := h.log[Midpoint(h.position[source] - 1, h.position[target] - 1)].hash;
      var first := FastForwardSpec(histories, repo, blobs, source, middle, lineno);
      var whole := FastForwardSpec(histories, repo, blobs, source, target, lineno);
      Distance(h, source, middle) < Distance(h, source, target) &&
      Distance(h, middle, target) < Distance(h, source, target) &&
      (first.Err? ==> whole == first) &&
      (first.Ok? && first.value.0 != middle ==> whole == first) &&
      (first.Ok? && first.value.0 == middle ==> whole == FastForwardSpec(histories, repo, blobs, middle, target, first.value.1))
  {
    var h := histories[repo];
    assert Valid(h);
    var m := Midpoint(h.position[source] - 1, h.position[target] - 1);
    assert h.position[h.log[m].hash] == m + 1;
  }

  /**
    Lines 219-243: with no commit of the log strictly between the two, the
    line is mapped through the hunk of the target commit that holds it.
  */
  lemma AdjacentCommitsMapThroughHunk(histories: map<string, History>, repo: string, blobs: map<string, string>,
                                      source: string, target: string, lineno: int)
    requires forall name :: name in histories ==> Valid(histories[name])
    requires repo in histories
    requires var h := histories[repo];
      source in h.blame && target in h.blame && 1 <= lineno <= |h.blame[source]| &&
      FindBlame(h.blame[target], h.blame[source][lineno - 1], 0).None? &&
      source in h.position && target in h.position && h.position[source] + 1 >= h.position[target] &&
      1 <= h.position[target] <= |h.log|
    ensures var h := histories[repo];
      FastForwardSpec(histories, repo, blobs, source, target, lineno)
        == ThroughHunk(h.log[h.position[target] - 1].hunks, blobs, source, target, lineno)
  {
  }

  /** Lines 222-243 on arrays: the hunk search, then the slices and the line mapper. */
  method MapThroughHunk(hunks: seq<Hunk>, blobs: map<string, string>, source: string, target: string, lineno: int)
    returns (r: Result<(string, int), Error>)
    ensures r == ThroughHunk(hunks, blobs, source, target, lineno)
  {
    var found := FindHunk(hunks, lineno, 0);
    if found.None? {
      return Err(NotReached);
    }
    var hunk := found.value;
    if hunk.newLength == 0 {
      return Ok((source, lineno));
    }
    r := MapInSlices(hunk, FileLines(Lookup(blobs, source)), FileLines(Lookup(blobs, target)), target, lineno);
  }

  /** Lines 225-243 on arrays: the two slices, and analyzeEditAndMapLine on them. */
  method MapInSlices(hunk: Hunk, sourceFile: Option<seq<string>>, targetFile: Option<seq<string>>, target: string, lineno: int)
    returns (r: Result<(string, int), Error>)
    ensures r == MapInHunk(hunk, sourceFile, targetFile, target, lineno)
  {
    var sourceLines := SliceOf(sourceFile, hunk.oldStart, hunk.oldLength);
    if sourceLines.Err? {
      return Err(sourceLines.error);
    }
    var targetLines := SliceOf(targetFile, hunk.newStart, hunk.newLength);
    if targetLines.Err? {
      return Err(targetLines.error);
    }
    var result := AnalyzeEditAndMapLine(sourceLines.value, targetLines.value, lineno - hunk.oldStart + 1);
    r := Mapped(hunk, target, result);
  }

  /** FastForward, lines 174-246, with analyzeEditAndMapLine run on arrays. */
  method FastForward(histories: map<string, History>, repo: string, blobs: map<string, string>,
                     source: string, target: string, lineno: int) returns (r: Result<(string, int), Error>)
    requires forall name :: name in histories ==> Valid(histories[name])
    ensures r == FastForwardSpec(histories, repo, blobs, source, target, lineno)
    decreases if repo in histories then Distance(histories[repo], source, target) else 0, 2
  {
    if repo !in histories {
      return Err(RepoNotConfigured);
    }
    var h := histories[repo];
    if source !in h.blame || target !in h.blame {
      return Err(NoBlameInformation);
    }
    if lineno < 1 || lineno > |h.blame[source]| {
      return Err(InvalidLineNumber);
    }
    var found := FindBlame(h.blame[target], h.blame[source][lineno - 1], 0);
    if found.Some? {
      return Ok((target, found.value + 1));
    }
    r := FollowLog(histories, repo, blobs, source, target, lineno);
  }

  /**
    Lines 195-243: with no blame match, find both commits in the log, then
    bisect or map through the target commit's hunk.
  */
  method FollowLog(histories: map<string, History>, repo: string, blobs: map<string, string>,
                   source: string, target: string, lineno: int) returns (r: Result<(string, int), Error>)
    requires forall name :: name in histories ==> Valid(histories[name])
    requires repo in histories
    requires var h := histories[repo];
      source in h.blame && target in h.blame && 1 <= lineno <= |h.blame[source]| &&
      FindBlame(h.blame[target], h.blame[source][lineno - 1], 0).None?
    ensures r == FollowLogSpec(histories, repo, blobs, source, target, lineno)
    decreases Distance(histories[repo], source, target), 1
  {
    var h := histories[repo];
    if source !in h.position || target !in h.position {
      return Err(CommitNotFound);
    }
    PositionInLog(h, source);
    PositionInLog(h, target);
    var indexSource := h.position[source] - 1;
    var indexTarget := h.position[target] - 1;
    if indexSource + 1 < indexTarget {
      BlameMissFollowsLog(histories, repo, blobs, source, target, lineno);
      r := Bisect(histories, repo, blobs, source, target, lineno);
      return;
    }
    assert FollowLogSpec(histories, repo, blobs, source, target, lineno)
      == ThroughHunk(h.log[indexTarget].hunks, blobs, source, target, lineno);
    r := MapThroughHunk(h.log[indexTarget].hunks, blobs, source, target, lineno);
  }

  /** Lines 188-195: a line whose blame the target does not hold is followed through the log. */
  lemma BlameMissFollowsLog(histories: map<string, History>, repo: string, blobs: map<string, string>,
                            source: string, target: string, lineno: int)
    requires forall name :: name in histories ==> Valid(histories[name])
    requires repo in histories
    requires var h := histories[repo];
      source in h.blame && target in h.blame && 1 <= lineno <= |h.blame[source]| &&
      FindBlame(h.blame[target], h.blame[source][lineno - 1], 0).None?
    ensures FastForwardSpec(histories, repo, blobs, source, target, lineno)
      == FollowLogSpec(histories, repo, blobs, source, target, lineno)
  {
  }

  /** Lines 205-217: fast-forward to the midpoint commit, then on from there to the target. */
  method Bisect(histories: map<string, History>, repo: string, blobs: map<string, string>,
                source: string, target: string, lineno: int) returns (r: Result<(string, int), Error>)
    requires forall name :: name in histories ==> Valid(histories[name])
    requires repo in histories
    requires var h := histories[repo];
      source in h.blame && target in h.blame && 1 <= lineno <= |h.blame[source]| &&
      FindBlame(h.blame[target], h.blame[source][lineno - 1], 0).None? &&
      source in h.position && target in h.position && h.position[source] + 1 < h.position[target] &&
      1 <= h.position[source] && h.position[target] <= |h.log|
    ensures r == FastForwardSpec(histories, repo, blobs, source, target, lineno)
    decreases Distance(histories[repo], source, target), 0
  {
    var h := histories[repo];
    BisectionComposesLegs(histories, repo, blobs, source, target, lineno);
    var middle := h.log[Midpoint(h.position[source] - 1, h.position[target] - 1)].hash;
    var first := FastForward(histories, repo, blobs, source, middle, lineno);
    if first.Err? {
      return first;
    }
    if first.value.0 != middle {
      return first;
    }
    r := FastForward(histories, repo, blobs, middle, target, first.value.1);
  }
}
