# livegrep web server core, modelled in Dafny

This project models the pure and array-based logic of the livegrep Go web
server:

- **Line fast-forwarding** (`server/fastforward.go`, modules `FastForward` and `LineAlignment`).
  - `FastForward` follows a line of a file from a source commit to a target commit. It first looks up the line's blame entry in the target. Failing that, it bisects over the file's commit log. For adjacent commits it maps the line through the diff hunk that holds it.
  - The hunk mapping is `analyzeEditAndMapLine`. It aligns the two hunks character by character with a dynamic-programming table (`score`/`track`, modelled as `array2<int>`), walks back through `track` to fill `mapping`, and lets the characters of the line vote for a target line.
  - Each imperative method (`FillRow`, `TrackBackwards`, `FillHistogram`, `BestTargetLine`, …) is proved to compute a specification function (`Row`, `Mapping`, `Tally`, `FirstArgMax`, `Vote`), and the properties the source promises are proved about those functions.
  - `server/fileview.go:201-435` repeats this code verbatim as `fastForward`, so it is modelled once, citing `server/fastforward.go`.
- **File-view helpers** (`server/fileview.go`, module `FileView`):
  - the language tables and the lookup by base name, then by extension;
  - the `git cat-file -p` tree-line parser and the line splitting of `gitListDir`;
  - the `DirListingSort` order, with an in-place sort of the listing;
  - view URLs and directory list entries;
  - breadcrumbs, the line count and the permalink/headlink of `buildFileData`.
- **Template helpers** (`server/templates/templates.go`, module `Templates`):
  - `prettyCommit`, including `fmt`'s `%04d`, `%02d` and `%.8s`;
  - `templatePath`;
  - `LoadAssetHashes`, as a class whose `hashes` map is emptied and refilled in place;
  - `TurnURLsIntoLinks`, with the regex matches, `url.Parse` and the HTML escaper as parameters;
  - the `href` of `LinkTag` and `scriptTag`.
- **Language-server selection** (`server/langserver/langserver.go`, module `LangServer`): `ForFile`, a first-match search by extension.

`GoStrings` models the Go standard-library string functions the code relies
on: `strings.Split`, `strings.Join`, `strings.SplitN(s, sep, 2)`,
`strings.TrimPrefix`, ASCII `strings.ToLower`, `filepath.Ext` and
`filepath.Base`. `Wrappers` holds `Option` and `Result`.

Go panics are modelled as error outcomes, so that callers see them:

- `analyzeEditAndMapLine` can read `track[i+1][-1]` at line 137. The model returns `IndexPanic` there. `BacktrackingPanics` gives an input that reaches it.
- A hash-file line without two spaces makes `LoadAssetHashes` index `pieces[1]` out of range. The model reports `MalformedLine(i)` and leaves the lines before it entered.
- `gitParseTreeEntry` and `commitHash[:16]` panic on short input. Their preconditions state the input shape they need.

Two behaviours are modelled as written, in the specification functions and in the methods that compute them:

- The character span `[i1, i2)` of the mapped line (fastforward.go:78-79) starts at the newline before the line rather than at its first character, for every line but the first. `ImportantSpanInText` states this.
- The narrowing of long hunks (fastforward.go:60-65) drops a line. `Narrow` and `MapLine` are the recursion as written, and the `AnalyzeEditAndMapLine` method is proved to compute `MapLine`. `ThroughHunk`, `MapInSlices`, `MapThroughHunk`, `FollowLog` and `FastForward` use it, so the whole fast-forward chain is the code as written. The corrected window (`WindowAround`, `MapLineWindowed`, and the method `AnalyzeEditAndMapLineWindowed` that computes it) stands beside it and is reported under Findings.

## Model

| member | source | states |
|---|---|---|
| LineAlignment.PenaltyForDistance | server/fastforward.go:32-40 | the penalty is 0 exactly for a distance below 1, 1 exactly for a distance of 1, and otherwise 2; it always lies in 0..2 |
| LineAlignment.PenaltyMonotone | server/fastforward.go:32-40 | the penalty never decreases as the distance grows |
| LineAlignment.Min | server/fastforward.go:42-44 | the result is one of the two arguments and no larger than either |
| LineAlignment.Max | server/fastforward.go:45-47 | the result is one of the two arguments and no smaller than either |
| LineAlignment.Row | server/fastforward.go:81-121 | row `i` of the score/track tables has one cell per target character |
| LineAlignment.RowTail | server/fastforward.go:103-120 | the cells from column `j` on number the columns left |
| LineAlignment.ClearRow | server/fastforward.go:87-90 | every cell of row `i` of both tables becomes -1, and every other row is unchanged |
| LineAlignment.FillFirstRow | server/fastforward.go:91-98 | row 0 becomes the specified first row, and the other rows are unchanged |
| LineAlignment.ScanRow | server/fastforward.go:105-112 | the scan of row `i - 1` from `k_restart` to `j` yields the running best score and predecessor that the specification function computes |
| LineAlignment.FillRow | server/fastforward.go:99-121 | row `i` becomes the specified row, computed from row `i - 1`, and the other rows are unchanged |
| LineAlignment.FillTables | server/fastforward.go:68-122 | fresh tables of size characters × characters, with every row the specified row |
| LineAlignment.Trace | server/fastforward.go:136-139 | a successful walk from row `i` yields one column per row from 0 up to `i`, followed by the columns already chosen |
| LineAlignment.Mapping | server/fastforward.go:124-140 | a successful backward walk yields one target column per source character |
| LineAlignment.PickLastColumn | server/fastforward.go:127-135 | the starting column is the one chosen by the specification scan over the last row's scores |
| LineAlignment.Record | server/fastforward.go:139 | row `i`'s column is stored in front of the columns of the rows below, and the entries before `i` are unchanged |
| LineAlignment.WalkStep | server/fastforward.go:137 | reading `track[i+1][cursor]` from the filled table takes exactly one step of the specified walk |
| LineAlignment.WalkFails | server/fastforward.go:137 | a cursor outside the row makes the walk, and so the mapping it stands for, fail where Go panics |
| LineAlignment.WalkDone | server/fastforward.go:126-140 | once row 0 is reached, the columns collected are the mapping |
| LineAlignment.StepBack | server/fastforward.go:137-139 | moving the cursor to `track[i+1][cursor]` and storing it in `mapping[i]` takes one step of the specified walk, with the columns of the rows below kept |
| LineAlignment.WalkBack | server/fastforward.go:136-140 | the walk from the last row's column down to row 0 succeeds exactly when the specified walk does, and then `mapping` holds its columns |
| LineAlignment.TrackBackwards | server/fastforward.go:123-140 | the walk succeeds exactly when the specified mapping exists, and then `mapping` holds it |
| LineAlignment.LineBeginnings | server/fastforward.go:142-148 | `target_line_beginnings[k]` is where target line `k` starts in the joined text, for k up to the line count |
| LineAlignment.AreBeginnings | server/fastforward.go:144-146 | a sequence that matches the start of every line, one past the end included, is the beginnings |
| LineAlignment.EmptyHistogram | server/fastforward.go:143-147 | a fresh histogram with one zero bucket per target line |
| LineAlignment.Advance | server/fastforward.go:151-155 | the bucket index only moves forward and never past the last bucket; when it stops before the last bucket, that bucket holds the column |
| LineAlignment.AdvanceBucket | server/fastforward.go:151-155 | the loop on arrays computes `Advance` |
| LineAlignment.CountVote | server/fastforward.go:156 | exactly bucket `j` gains one vote |
| LineAlignment.Tally | server/fastforward.go:149-157 | tallying keeps one bucket per target line |
| LineAlignment.TallyStep | server/fastforward.go:150-156 | one mapped column moves the bucket index and adds one vote, leaving the remaining tally unchanged |
| LineAlignment.FillHistogram | server/fastforward.go:149-157 | the histogram becomes the specified tally of `mapping[i1:i2]` over the previous counts |
| LineAlignment.SumIncrement | server/fastforward.go:156 | one increment raises the total number of votes by one |
| LineAlignment.SumZeros | server/fastforward.go:143-147 | a fresh histogram holds no votes |
| LineAlignment.TallyCountsEveryColumn | server/fastforward.go:149-157 | the tally adds exactly one vote per mapped column, so `i2 - i1` votes in all |
| LineAlignment.TallyNonNegative | server/fastforward.go:149-157 | no bucket ever loses votes |
| LineAlignment.FirstArgMaxFrom | server/fastforward.go:158-165 | the chosen index is a bucket of the histogram |
| LineAlignment.FirstArgMaxFromIsFirstMaximum | server/fastforward.go:158-165 | the scan returns a bucket no smaller than any other, with every earlier bucket strictly smaller, so ties go to the earliest line |
| LineAlignment.BestTargetLine | server/fastforward.go:158-165 | the argmax loop on the array computes the first maximal bucket |
| LineAlignment.Vote | server/fastforward.go:142-166 | the voted line is a valid 0-based target line |
| LineAlignment.VoteTargetLine | server/fastforward.go:142-166 | the returned line is the voted line plus one |
| LineAlignment.VoteIsFirstMaximum | server/fastforward.go:149-166 | the votes add up to the length of the mapped span, the chosen line has the most votes, and every earlier line has strictly fewer |
| LineAlignment.ImportantSpanFits | server/fastforward.go:78-79 | `i2` lies inside the joined source text, so `mapping[i1:i2]` is in range |
| LineAlignment.ImportantSpanInText | server/fastforward.go:78-79 | for lines after the first, the span starts at the newline before the line and covers the newline plus all but the line's last character; for the first line it is the line itself |
| LineAlignment.Align | server/fastforward.go:66-166 | an alignment yields a target line in 1..len(target_lines), or the backtracking panic |
| LineAlignment.AlignLines | server/fastforward.go:66-166 | the table filling, backward walk and vote on arrays compute `Align` |
| LineAlignment.Window | server/fastforward.go:62-63 | `new_start = max(lineno-5, 1)` and `new_end = min(lineno+5, len)` enclose the line, lie within the hunk and are at most 10 apart |
| LineAlignment.Narrow | server/fastforward.go:60-65 | the recursion as written ends with at most eight lines and the line inside them |
| LineAlignment.NarrowFailsExactly | server/fastforward.go:60-65 | the narrowing as written loses the line exactly when it is out of range or is the last line of a hunk of more than eight lines |
| LineAlignment.MapLine | server/fastforward.go:53-166 | a line out of range is an error; in range with no target lines it is a deletion error; a success lies in 1..len(target_lines) |
| LineAlignment.MapLineOutOfRangeExactly | server/fastforward.go:54-65 | as written, "out of range" is reported exactly for a line outside 1..len or for the last line of a hunk of more than eight lines |
| LineAlignment.LastLineOfLongHunkIsLost | server/fastforward.go:60-65 | as written, the last line of any hunk of more than eight lines cannot be mapped, which the test at fastforward_test.go line 45 contradicts |
| LineAlignment.WindowAround | server/fastforward.go:60-65 | the intended window is a contiguous run of at most 11 hunk lines that contains the line, renumbered inside it; a hunk of at most eight lines is kept whole |
| LineAlignment.MapLineWindowed | server/fastforward.go:53-166 | with the intended window, "out of range" is reported exactly for a line outside 1..len, "deletion" exactly for an in-range line with no target lines, and a success lies in 1..len(target_lines) |
| LineAlignment.AnalyzeEditAndMapLine | server/fastforward.go:53-166 | the method as written, with the range and deletion checks, the recursive call of line 64 on lines new_start..new_end-1 and the alignment on arrays, computes `MapLine` |
| LineAlignment.NarrowStep | server/fastforward.go:60-65 | for a hunk of more than eight lines, the line maps exactly as it does in the cut of line 64 |
| LineAlignment.AnalyzeEditAndMapLineWindowed | server/fastforward.go:53-166 | the corrected method, cutting once to lines new_start..new_end inclusive and aligning on arrays, computes `MapLineWindowed` |
| LineAlignment.UnmatchedRows | server/fastforward.go:99-121 | when no source character equals the one-character target, every row keeps a non-negative score in column 0, reached from column 0 of the row before |
| LineAlignment.UnmatchedWalk | server/fastforward.go:124-140 | in that case the walk back stays in column 0 for every row |
| LineAlignment.CorrectedWindowDiffers | server/fastforward.go:60-65 | line 1 of the nine lines b,b,b,b,b,a,b,b,b against the target "a" maps to line 1 as written, but the corrected window also keeps the "a" and reaches the backtracking panic |
| LineAlignment.BacktrackingPanics | server/fastforward.go:137 | source line "aaa" against target line "a" reaches the out-of-range read of `track` |
| LineAlignment.InsertedLineShifts | server/fastforward.go:53-166 | a line that gains a line above it moves down by one |
| FastForward.GetFileSlice | server/fastforward.go:12-30 | the blob's lines, split at newlines, sliced to the window; `SliceIsWindow` states when it succeeds and what it holds |
| FastForward.SliceOf | server/fastforward.go:25-29 | a slice succeeds exactly when start ≥ 1, length ≥ 0 and start+length ≤ lineCount+1, and then holds the `length` lines from `start` in order; otherwise it is an error |
| FastForward.SliceIsWindow | server/fastforward.go:12-29 | for a readable blob, the slice exists exactly within those bounds and holds the file's lines from `start` on |
| FastForward.WholeFileSlice | server/fastforward.go:25-27 | the slice from line 1 over all lines is the whole file, and its lines joined with newlines give the content back |
| FastForward.SliceLinesLackNewline | server/fastforward.go:25-27 | no sliced line contains a newline |
| FastForward.FindBlame | server/fastforward.go:188-193 | the index found holds the source line's blame entry and is the first such; none is found exactly when no line holds it |
| FastForward.FindHunk | server/fastforward.go:222-223 | the hunk found is the first whose old range holds the line; none is found exactly when no hunk holds it |
| FastForward.Midpoint | server/fastforward.go:207-208 | the midpoint lies strictly between two indices more than one apart |
| FastForward.ThroughHunk | server/fastforward.go:222-245 | the first hunk holding the line decides: none is "Should not reach here", NewLength 0 keeps the line, otherwise the line is mapped through the hunk; its outcomes are stated by `ThroughHunkOutcomes` |
| FastForward.MapInHunk | server/fastforward.go:225-243 | both slices are read, then the as-written mapper's 1-based answer is shifted by NewStart-1; its outcomes are stated by `ThroughHunkOutcomes` |
| FastForward.ThroughHunkOutcomes | server/fastforward.go:222-245 | no covering hunk means "Should not reach here"; a hunk with NewLength 0 returns the source commit and line unchanged; any other success is the target commit at a line inside the hunk's new range; the deletion error cannot occur; the mapper's "out of range" error occurs exactly when both slices were read and the line is the last of an old range of more than eight lines |
| FastForward.ThroughHunkLands | server/fastforward.go:222-243 | a line mapped through a hunk stays at the source commit or lands at the target commit, on a line of at least 1 |
| FastForward.PositionInLog | server/fastforward.go:198-206 | a commit with a position has an index inside the log |
| FastForward.LogEntryPosition | server/fastforward.go:205-208 | the commit at log index `k` has position `k + 1` |
| FastForward.BlameMatchIsFirstEqualLine | server/fastforward.go:188-193 | when the target's blame holds the source line's entry, the result is the target commit at the first line carrying it |
| FastForward.BlameMissFollowsLog | server/fastforward.go:188-198 | without a blame match, the result is that of following the commit log |
| FastForward.SameCommitIsIdentity | server/fastforward.go:174-193 | fast-forwarding a line to its own commit returns the same commit and line, when the blame vector has no repeated entry |
| FastForward.BisectionComposesLegs | server/fastforward.go:205-217 | with commits strictly between the two, both legs span fewer commits; an error or a first leg that stops short of the midpoint commit is the answer; otherwise the answer is the second leg from the midpoint |
| FastForward.AdjacentCommitsMapThroughHunk | server/fastforward.go:218-243 | with no commit strictly between them, the result is the mapping through the target commit's hunks |
| FastForward.FastForwardOutcome | server/fastforward.go:174-246 | a line that is found lands on a line of at least 1, in a configured repository, at the source, the target or a commit of the log |
| FastForward.FollowLogOutcome | server/fastforward.go:195-243 | the same outcome once the commits are looked up in the log |
| FastForward.BisectionOutcome | server/fastforward.go:205-217 | the bisection lands where its legs land |
| FastForward.FollowLogAdjacent | server/fastforward.go:218-243 | adjacent commits land where the hunk mapping lands |
| FastForward.MapInSlices | server/fastforward.go:229-241 | slicing both files and running the as-written line mapper on arrays computes the specified hunk mapping |
| FastForward.MapThroughHunk | server/fastforward.go:222-245 | the first-match hunk search (`FindHunk`) with its early returns computes the specified hunk outcome |
| FastForward.Bisect | server/fastforward.go:205-217 | the two recursive calls compute the specified fast-forward |
| FastForward.FollowLogSpec | server/fastforward.go:195-243 | both commits looked up in the log, then bisection or the hunk mapping; `BisectionComposesLegs`, `AdjacentCommitsMapThroughHunk` and `FollowLogOutcome` state what it gives |
| FastForward.FollowLog | server/fastforward.go:198-245 | the log lookup, bisection and hunk mapping compute the specified log-following result |
| FastForward.FastForwardSpec | server/fastforward.go:174-246 | the repository and blame checks, the line-number check, the blame match, then the log; `BlameMatchIsFirstEqualLine`, `BlameMissFollowsLog`, `SameCommitIsIdentity` and `FastForwardOutcome` state what it gives |
| FastForward.FastForward | server/fastforward.go:174-246 | the whole method computes the specified fast-forward: repository and blame checks, line-number check, blame match, then the log |
| FileView.Language | server/fileview.go:488-491 | the base-name table wins, then the extension table, and otherwise the language is "" |
| FileView.LanguageOfBuildFile | server/fileview.go:17-19 | example: "tools/BUILD" is Python by its name alone |
| FileView.LanguageByExtension | server/fileview.go:20-55 | example: "ff.go" is Go by its extension |
| FileView.LanguageIsCaseSensitive | server/fileview.go:20-55 | example: "a.GO" has no language, since the extension table is looked up case included |
| FileView.ParseTreeEntry | server/fileview.go:144-153 | the name is everything after the first tab, tabs included; mode, type and id are space-free fields that, joined with spaces, begin the line and are followed by a space or by that tab, so each is a whole field |
| FileView.FormatTreeEntry | server/fileview.go:144-153 | the line git prints for an entry, "mode type id\tname"; `ParseFormatTreeEntry` proves the parser inverts it |
| FileView.ParseFormatTreeEntry | server/fileview.go:144-153 | parsing "mode type id\tname" gives back the entry whenever mode, type and id hold no space, tab or newline |
| FileView.ListedLines | server/fileview.go:161-162 | the lines kept are as many as the newlines in git's output |
| FileView.ParseAll | server/fileview.go:163-166 | one parsed entry per listed line |
| FileView.ListDir | server/fileview.go:155-167 | `result[i]` is the parse of listed line `i`, for every `i` |
| FileView.ListedTerminatedLines | server/fileview.go:161-162 | n newline-terminated lines are listed as exactly those n lines, in order |
| FileView.ListFormattedEntries | server/fileview.go:155-167 | printing entries one per line and listing the output gives the entries back |
| FileView.Less | server/fileview.go:102-107 | directories before files, then names in byte order; `LessIsStrictWeakOrder` and `SortedListingOrder` state its properties |
| FileView.LessIsStrictWeakOrder | server/fileview.go:102-107 | `Less` is asymmetric and "not after" is transitive, as `sort.Sort` requires |
| FileView.SortedListingOrder | server/fileview.go:102-107 | in a sorted listing every directory precedes every file, and names ascend within each kind |
| FileView.Swap | server/fileview.go:98-100 | exactly entries `i` and `j` are exchanged, so the listing is a permutation of what it was |
| FileView.InsertionDone | server/fileview.go:479 | an insertion pass that stops leaves the listing sorted |
| FileView.SortListing | server/fileview.go:479 | the listing ends sorted by `Less` and is a permutation of the original |
| FileView.ViewUrl | server/fileview.go:170-172 | "/view/" + repo + "/" + path; `FileUrl` states the URLs built from it |
| FileView.FileUrl | server/fileview.go:170-180 | the URL is "/view/" + repo + "/" followed by the joined path, plus "/" for a directory |
| FileView.FileUrlEndsWithSlash | server/fileview.go:174-180 | when the joined path does not end in "/", the URL ends with "/" exactly for a directory |
| FileView.BuildDirEntry | server/fileview.go:182-199 | the name is the tree entry's name; the entry is a directory exactly for type "tree"; the path is empty exactly for mode 120000; only a symlink has a target |
| FileView.BuildDirEntries | server/fileview.go:475-478 | one listing entry per tree entry |
| FileView.BuildListing | server/fileview.go:475-479 | the listing is sorted and is a permutation of the entries built from the tree |
| FileView.ShownPath | server/fileview.go:456-459 | the clean path "." becomes "", and any other path is kept |
| FileView.FileContent | server/fileview.go:488-496 | the content is kept, the language is the lookup's, and the line count is the number of newlines |
| FileView.Breadcrumbs | server/fileview.go:499-506 | one breadcrumb per "/"-separated component, in order, named by it; breadcrumb `i`'s URL is "/view/<repo>/" followed by `join(clean(Join(splits[..i], "/")), clean(splits[i]))` and a trailing "/" |
| FileView.Crumb | server/fileview.go:500-505 | breadcrumb `i` is named by component `i`; its URL is "/view/<repo>/" followed by the join of the cleaned parent prefix `clean(Join(splits[..i], "/"))` with the cleaned component, and ends with "/" |
| FileView.BreadcrumbNamesRebuildPath | server/fileview.go:499-506 | the breadcrumb names joined with "/" give the path back |
| FileView.BuildBreadcrumbs | server/fileview.go:499-506 | the array loop fills exactly the specified breadcrumbs |
| FileView.PageLinks | server/fileview.go:513-525 | the permalink is non-empty exactly when the hash does not start with the ref asked for; otherwise the headlink is "." for a directory or the last segment's name; the fast-forward link uses the first 16 characters of the hash |
| Templates.Digits | server/templates/templates.go:35-36 | the decimal digits of a number denote it, with no leading zero |
| Templates.Padded | server/templates/templates.go:35-36 | `%0<width>d` gives digits that denote the number, at least `width` of them |
| Templates.FirstEight | server/templates/templates.go:35-37 | `%.8s` gives a prefix of at most eight characters |
| Templates.PrettyCommit | server/templates/templates.go:33-40 | "YYYY-MM-DD author" for a commit with an author and a positive date, otherwise the hash and three spaces; `PrettyCommitRoundTrip`, `PrettyCommitFallback` and `PrettyCommitWidth` state its shape |
| Templates.PrettyCommitRoundTrip | server/templates/templates.go:34-37 | with an author and a positive date below 10^8, the summary is "YYYY-MM-DD " and the author's first eight characters, and the three numbers recombine to the date |
| Templates.DateRecombines | server/templates/templates.go:36 | Date/10000, Date%10000/100 and Date%100 recombine to the date |
| Templates.PrettyCommitFallback | server/templates/templates.go:39 | without an author or a positive date the summary is the hash followed by three spaces, so 16 characters become 19 |
| Templates.PrettyCommitWidth | server/templates/templates.go:33-40 | a dated commit with an eight-digit date and an author of eight or more characters also takes 19 characters |
| Templates.TemplatePath | server/templates/templates.go:26-31 | the tag, or the lower-cased field name with ".html"; `TemplatePathShape` and `TemplatePathIgnoresCase` state its properties |
| Templates.TemplatePathShape | server/templates/templates.go:26-31 | a non-empty tag is the path; otherwise the path is the field name with ASCII capitals lowered, followed by ".html" |
| Templates.TemplatePathIgnoresCase | server/templates/templates.go:26-31 | field names that differ only in ASCII case give the same path |
| Templates.FirstMalformed | server/templates/templates.go:149-154 | the index of the first line without two spaces, with every earlier line well formed |
| Templates.HashesFrom | server/templates/templates.go:149-154 | the map that well-formed hash lines produce in order from an empty map; `HashesFromKeys` and `HashesFromLastWins` state its keys and values |
| Templates.HashesFromKeys | server/templates/templates.go:145-154 | after reading well-formed lines, the keys are exactly the assets the lines name, so nothing from before the load survives |
| Templates.HashesFromLastWins | server/templates/templates.go:149-154 | an asset maps to the hash of the last line that names it |
| Templates.HashesFromStep | server/templates/templates.go:150-153 | reading one more line sets its asset to its hash |
| Templates.AssetHashes.Clear | server/templates/templates.go:145-147 | the map becomes empty |
| Templates.AssetHashes.EnterLines | server/templates/templates.go:149-154 | the emptied map receives the lines up to the first malformed one, in order, and that line's index is reported |
| Templates.AssetHashes.Load | server/templates/templates.go:136-157 | a file that cannot be opened leaves the map alone; otherwise the map holds exactly what the lines up to the first malformed one say |
| Templates.Linked | server/templates/templates.go:46-69 | each gap before a match escaped, each match rendered, then the escaped tail; `LinkedStep`, `NoMatchesEscapesAll` and `UnlinkedTextIsEscapedText` state its properties |
| Templates.LinkedStep | server/templates/templates.go:49-67 | each match contributes the escaped gap before it and then its own HTML |
| Templates.TurnURLsIntoLinks | server/templates/templates.go:42-70 | the pieces appended in order and joined are the specified linked text |
| Templates.NoMatchesEscapesAll | server/templates/templates.go:46-69 | with no matches the output is the escaped input |
| Templates.UnlinkedTextIsEscapedText | server/templates/templates.go:46-69 | when no match parses as a URL and escaping distributes over concatenation, the output is the escaped input |
| Templates.HrefShape | server/templates/templates.go:73-74 | href is the asset name, "?v=", then the hash listed under the name with one leading "/" dropped, or nothing when it is not listed |
| Templates.LeadingSlashIsOptional | server/templates/templates.go:73 | "/x" and "x" get the same version, but only one "/" is dropped |
| Templates.VersionIsLastListedHash | server/templates/templates.go:73-74 | after a load, a tag's version is the hash on the last line that names the asset |
| Templates.LinkTag | server/templates/templates.go:72-78 | `<link rel=… href=… integrity=…>` of the asset; `HrefShape` and `TagsAgree` state its href and integrity |
| Templates.ScriptTag | server/templates/templates.go:80-86 | `<script src=… integrity=…>` of the asset; `HrefShape` and `TagsAgree` state its src and integrity |
| Templates.TagsAgree | server/templates/templates.go:72-87 | the `<link>` and `<script>` tags of one asset carry the same href and the same integrity value |
| LangServer.ListsFrom | server/langserver/langserver.go:18-22 | a server lists the extension exactly when one of its extensions equals it |
| LangServer.FirstServing | server/langserver/langserver.go:17-24 | the index found is the first server that lists the extension; none is found exactly when no server lists it |
| LangServer.ForFile | server/langserver/langserver.go:15-25 | the first configured server listing the path's extension, or nil; `ForFileIsFirstMatch` states this |
| LangServer.ForFileIsFirstMatch | server/langserver/langserver.go:15-25 | the chosen server lists the file's extension and no earlier server does; nil exactly when no server lists it |
| LangServer.FirstServerWins | server/langserver/langserver.go:17-21 | a first server that lists the extension is chosen, whatever follows it |
| LangServer.NonServingServerIsSkipped | server/langserver/langserver.go:17-23 | a first server that does not list the extension can be dropped without changing the choice |
| LangServer.SameExtensionSameServer | server/langserver/langserver.go:16 | paths with the same extension get the same server |
| LangServer.ForFileIsCaseSensitive | server/langserver/langserver.go:19 | a server listing ".go" is not chosen for "main.GO" |
| LangServer.ForFileUsesLastElement | server/langserver/langserver.go:16 | a dot in a directory name gives no extension |
| GoStrings.IndexOf | server/fileview.go:145 | the index of the first tab, where `SplitN(line, "\t", 2)` cuts: the index found holds the character, and `IndexOfIsFirst` proves none comes before it |
| GoStrings.Split | server/fastforward.go:25 | `strings.Split` always gives at least one piece |
| GoStrings.SplitCount | server/fileview.go:161-162 | a split gives one more piece than there are separators |
| GoStrings.Join | server/fastforward.go:66-67 | `strings.Join`; `JoinSplit` and `SplitJoin` prove it and `Split` undo each other |
| GoStrings.Count | server/fileview.go:494 | how many times the character occurs; `SplitCount` relates it to `Split` |
| GoStrings.JoinSplit | server/fastforward.go:25 | joining the pieces of a split with the separator gives the text back |
| GoStrings.SplitJoin | server/fileview.go:161 | splitting a join of separator-free pieces gives the pieces back |
| GoStrings.SplitTerminated | server/fileview.go:161-162 | splitting newline-terminated lines gives the lines and one empty last piece |
| GoStrings.Cut | server/templates/templates.go:150 | `SplitN(s, sep, 2)` with two pieces splits at the first occurrence of `sep`, and the pieces rebuild the text; there are no two pieces exactly when `sep` does not occur |
| GoStrings.TrimPrefix | server/templates/templates.go:73 | one leading prefix is removed if present, and the text is otherwise unchanged |
| GoStrings.ToLower | server/templates/templates.go:30 | each ASCII capital is lowered, one character for one |
| GoStrings.Ext | server/langserver/langserver.go:16 | the extension is a suffix of the path that starts with its only '.' and holds no '/'; it is "" exactly when the last element has no '.' |
| GoStrings.Base | server/fileview.go:488 | the base is never empty, holds no '/' unless it is "/", and is "." for the empty path; otherwise, once trailing slashes are trimmed, it is "/" when nothing is left and else the suffix after the last '/' |

## Left out

- Git and the blame package are inputs.
  - `gitObjectType`, `gitCatBlob`, `gitCommitHash`, `gitShowCommit` and the exec in `gitListDir` are left out; their output strings are parameters.
  - `FileBlameVectorBatch` and `FindCommitBatch` become the `History` datatype, which is required to be consistent: positions index the log. The Go code trusts the package the same way, and an index outside the log would panic.
  - An error from either call is modelled as a missing entry.
- `getFileSlice`'s `gitObjectType` check is folded into the blob map: an absent blob stands for "not a blob" and for a failed read alike.
- `path.Clean` and `filepath.Join` are parameters (`clean`, `join`), as are the regex matches, `url.Parse` and `template.HTMLEscapeString` in `TurnURLsIntoLinks`. Their effects are not modelled.
- The `integrity` attribute of `LinkTag`/`scriptTag` (hex decoding, SHA-256 and base64 from RFC 4648 section 4) is a parameter `sha256Base64`.
- The HEAD resolution (fileview.go:440-455) and the `ExternalDomain` lookup through `url.Parse` (fileview.go:508-511) depend on the blame history and the URL parser.
- `LoadTemplates`, `Load`, `getFuncs` and `ReloadHandler`: reflection, template parsing from disk and HTTP handling.
- `os.Open` and the `bufio.Scanner` of `LoadAssetHashes` are replaced by the file's lines, or None when it cannot be opened.
- The langserver `Client`, `NewClient`, `Initialize`, `JumpToDef`, `Hover` and `invoke` make up the network JSON-RPC client.
- The commented-out floating-point formula at fastforward.go:168-171 is dead code.
- Strings are sequences of characters. Go's byte lengths (`len` of a string, the indices `i1`/`i2`) equal character counts only for ASCII text. `%.8s` counts runes, which is what `FirstEight` does. Also, `for i := range source_chars` (fastforward.go:81) visits only the first byte of each rune, so for non-ASCII text the rows of continuation bytes are never cleared and keep score and track 0; the model fills every row.
- FileView.SortListing: `sort.Sort`'s algorithm is not specified by Go, so an insertion sort that uses only `Less` and `Swap` stands in for it. The result (sorted and a permutation) is the same, but the order of equal entries may differ.
- FastForward.FastForwardOutcome: states where a found line can land, not which line; the line itself is specified by `FastForwardSpec`, which the `FastForward` method computes.
- GoStrings.ToLower: lowers only 'A'..'Z'; Unicode case mapping of field names in `templatePath` (templates.go:30) is not modelled.
- LineAlignment.Align: states the range of the result; its value is specified by `Mapping` and `Vote`, which `AlignLines` is proved to compute.

## Findings

| source | as written | input that shows it | evidently intended | confidence | as-written member | corrected member |
|---|---|---|---|---|---|---|
| server/fastforward.go:60-65 | a hunk of more than eight lines is cut to `source_lines[new_start-1:new_end-1]`, which drops line `new_end`, so the last line of the hunk becomes out of range in the recursive call | ten source lines, `source_lineno` 10 (the test at fastforward_test.go line 45 expects 9) | the window keeps lines `new_start..new_end` inclusive and is cut only once, so every in-range line is mapped (cutting an inclusive window again would not terminate: `Window(11, 6)` is the whole window). Having one more line, the corrected window can also answer differently for other lines: `CorrectedWindowDiffers` | not executed | LineAlignment.LastLineOfLongHunkIsLost | LineAlignment.MapLineWindowed |
