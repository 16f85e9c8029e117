/**
  The file viewer's helpers (server/fileview.go): parsing `git cat-file -p`
  tree listings, ordering a directory listing, building view URLs, choosing
  a syntax-highlighting language, and the breadcrumbs and links of a page.

  `path.Clean` and `filepath.Join` are parameters `clean` and `join`; what
  git prints is an input string.
*/
module FileView {
  import opened Wrappers
  import opened GoStrings

  // ---------------------------------------------------------------------
  // Language tables, lines 16-55.

  /** filenameToLangMap: languages by exact base name. */
  const FilenameToLang: map<string, string> := map["BUILD" := "python"]

  /** extToLangMap: languages by extension. */
  const ExtToLang: map<string, string> := map[
    ".AppleScript" := "applescript",
    ".bzl" := "python",
    ".c" := "c",
    ".coffee" := "coffeescript",
    ".cpp" := "cpp",
    ".css" := "css",
    ".go" := "go",
    ".h" := "cpp",
    ".html" := "markup",
    ".java" := "java",
    ".js" := "javascript",
    ".json" := "json",
    ".jsx" := "jsx",
    ".m" := "objectivec",
    ".markdown" := "markdown",
    ".md" := "markdown",
    ".php" := "php",
    ".pl" := "perl",
    ".proto" := "go",
    ".py" := "python",
    ".pyst" := "python",
    ".rb" := "ruby",
    ".rs" := "rust",
    ".scala" := "scala",
    ".scpt" := "applescript",
    ".scss" := "scss",
    ".sh" := "bash",
    ".sql" := "sql",
    ".swift" := "swift",
    ".ts" := "typescript",
    ".tsx" := "tsx",
    ".xml" := "markup",
    ".yaml" := "yaml",
    ".yml" := "yaml"
  ]

  /** A Go map index: the zero value "" for a missing key. */
  function Get(m: map<string, string>, key: string): string
  {
    if key in m then m[key] else ""
  }

  /**
    Lines 488-491: the language of the file at `cleanPath`: by base name
    first, then by extension, otherwise "".
  */
  function Language(cleanPath: string): (lang: string)
    ensures Base(cleanPath) in FilenameToLang ==> lang == FilenameToLang[Base(cleanPath)]
    ensures Base(cleanPath) !in FilenameToLang && Ext(cleanPath) in ExtToLang ==> lang == ExtToLang[Ext(cleanPath)]
    ensures Base(cleanPath) !in FilenameToLang && Ext(cleanPath) !in ExtToLang ==> lang == ""
  {
    var byName := Get(FilenameToLang, Base(cleanPath));
    if byName == "" then Get(ExtToLang, Ext(cleanPath)) else byName
  }

  /** Example: a BUILD file is Python by its name alone. */
  lemma LanguageOfBuildFile()
    ensures Language("tools/BUILD") == "python"
  {
    var path := "tools/BUILD";
    assert ElementStart(path, 11) == 6;
    assert TrimTrailingSlashes(path) == path;
  }

  /** Example: a file with no listed name goes by its extension. */
  lemma LanguageByExtension()
    ensures Language("ff.go") == "go"
  {
    GoExtension();
    GoBase();
    GoIsListed();
  }

  lemma GoIsListed()
    ensures "ff.go" !in FilenameToLang && Get(ExtToLang, ".go") == "go"
  {
  }

  lemma GoExtension()
    ensures Ext("ff.go") == ".go"
  {
    var path := "ff.go";
    assert ExtFrom(path, 3) == ".go";
  }

  lemma GoBase()
    ensures Base("ff.go") == "ff.go"
  {
    var path := "ff.go";
    assert ElementStart(path, 5) == 0;
    assert TrimTrailingSlashes(path) == path;
  }

  /** Example: extensions are looked up exactly, so an upper-case ".GO" is not Go. */
  lemma LanguageIsCaseSensitive()
    ensures Language("a.GO") == ""
  {
    UpperCaseExtension();
    UpperCaseBase();
    UpperCaseUnknown();
  }

  lemma UpperCaseExtension()
    ensures Ext("a.GO") == ".GO"
  {
    var path := "a.GO";
    assert ExtFrom(path, 2) == ".GO";
  }

  lemma UpperCaseBase()
    ensures Base("a.GO") == "a.GO"
  {
    var path := "a.GO";
    assert ElementStart(path, 4) == 0;
    assert TrimTrailingSlashes(path) == path;
  }

  lemma UpperCaseUnknown()
    ensures ".GO" !in ExtToLang && "a.GO" !in FilenameToLang
  {
  }

  // ---------------------------------------------------------------------
  // Tree listings, lines 137-168.

  /** gitTreeEntry: one line of `git cat-file -p <tree>`. */
  datatype TreeEntry = TreeEntry(mode: string, objectType: string, objectId: string, objectName: string)

  /** What gitParseTreeEntry needs not to panic: a tab, and three space-separated fields before it. */
  predicate WellFormedTreeLine(line: string)
  {
    var k := IndexOf(line, '\t');
    k < |line| && |Split(line[..k], ' ')| >= 3
  }

  /**
    gitParseTreeEntry, lines 144-153: the name is everything after the first
    tab; mode, type and id are the first three space-separated fields
    before it.
  */
  function ParseTreeEntry(line: string): (e: TreeEntry)
    requires WellFormedTreeLine(line)
    ensures var k := |line| - |e.objectName| - 1;
      0 <= k && line[k] == '\t' && line[k + 1..] == e.objectName && (forall q :: 0 <= q < k ==> line[q] != '\t')
    ensures e.mode + " " + e.objectType + " " + e.objectId <= line
    ensures forall q :: 0 <= q < |e.mode| ==> e.mode[q] != ' '
    ensures forall q :: 0 <= q < |e.objectType| ==> e.objectType[q] != ' '
    ensures forall q :: 0 <= q < |e.objectId| ==> e.objectId[q] != ' '
    ensures var k := |line| - |e.objectName| - 1; var p := |e.mode| + |e.objectType| + |e.objectId| + 2;
      p == k || (p < k && line[p] == ' ')
  {
    var k := IndexOf(line, '\t');
    var fields := Split(line[..k], ' ');
    TreeLineShape(line);
    assert |line[k + 1..]| == |line| - k - 1;
    TreeEntry(fields[0], fields[1], fields[2], line[k + 1..])
  }

  /** What ParseTreeEntry promises, stated over the first tab and the fields before it. */
  lemma TreeLineShape(line: string)
    requires WellFormedTreeLine(line)
    ensures var k := IndexOf(line, '\t'); var fields := Split(line[..k], ' ');
      var p := |fields[0]| + |fields[1]| + |fields[2]| + 2;
      k < |line| && line[k] == '\t' && (forall q :: 0 <= q < k ==> line[q] != '\t')
      && fields[0] + " " + fields[1] + " " + fields[2] <= line
      && (forall q :: 0 <= q < |fields[0]| ==> fields[0][q] != ' ')
      && (forall q :: 0 <= q < |fields[1]| ==> fields[1][q] != ' ')
      && (forall q :: 0 <= q < |fields[2]| ==> fields[2][q] != ' ')
      && (p == k || (p < k && line[p] == ' '))
  {
    var k := IndexOf(line, '\t');
    IndexOfIsFirst(line, '\t');
    var data := line[..k];
    SplitPiecesLackSeparator(data, ' ');
    FieldsArePrefix(data);
    ThirdFieldEnds(data);
    assert data <= line;
  }

  /** The first field of a split with a separator after it, and the rest of the text. */
  lemma {:induction false} FirstFieldPrefix(data: string)
    requires |Split(data, ' ')| >= 2
    ensures var f := Split(data, ' ')[0];
      |f| < |data| && data == f + " " + data[|f| + 1..] && Split(data, ' ')[1..] == Split(data[|f| + 1..], ' ')
  {
    SplitFirst(data, ' ');
    var f := Split(data, ' ')[0];
    assert data == data[..|f|] + [data[|f|]] + data[|f| + 1..];
  }

  lemma {:induction false} ThreePieces(f0: string, f1: string, f2: string, rest0: string, rest1: string, data: string)
    requires data == f0 + " " + rest0 && rest0 == f1 + " " + rest1 && f2 <= rest1
    ensures f0 + " " + f1 + " " + f2 <= data
  {
    PrefixAppend(f1 + " ", f2, rest1);
    PrefixAppend(f0 + " ", f1 + " " + f2, rest0);
  }

  /** The first three fields, rejoined with spaces, begin the text they were split from. */
  lemma {:induction false} FieldsArePrefix(data: string)
    requires |Split(data, ' ')| >= 3
    ensures var fields := Split(data, ' '); fields[0] + " " + fields[1] + " " + fields[2] <= data
  {
    var fields := Split(data, ' ');
    FirstFieldPrefix(data);
    var rest0 := data[|fields[0]| + 1..];
    FirstFieldPrefix(rest0);
    var rest1 := rest0[|fields[1]| + 1..];
    SplitFirst(rest1, ' ');
    ThreePieces(fields[0], fields[1], fields[2], rest0, rest1, data);
  }

  /** The third field ends where the text does or at a space: it is the whole field. */
  lemma {:induction false} ThirdFieldEnds(data: string)
    requires |Split(data, ' ')| >= 3
    ensures var fields := Split(data, ' '); var p := |fields[0]| + |fields[1]| + |fields[2]| + 2;
      p == |data| || (p < |data| && data[p] == ' ')
  {
    var fields := Split(data, ' ');
    FirstFieldPrefix(data);
    var rest0 := data[|fields[0]| + 1..];
    FirstFieldPrefix(rest0);
    var rest1 := rest0[|fields[1]| + 1..];
    SplitFirst(rest1, ' ');
    assert fields[2] == Split(rest1, ' ')[0];
    assert |data| == |fields[0]| + |fields[1]| + 2 + |rest1|;
    var p := |fields[0]| + |fields[1]| + |fields[2]| + 2;
    if |Split(rest1, ' ')| >= 2 {
      assert data[p] == rest1[|fields[2]|];
    } else {
      assert Split(rest1, ' ') == [rest1];
    }
  }

  lemma {:induction false} PrefixAppend(a: string, x: string, y: string)
    requires x <= y
    ensures a + x <= a + y
  {
    assert (a + y)[..|a + x|] == a + x;
  }

  /** The line git prints for a tree entry. */
  function FormatTreeEntry(e: TreeEntry): string
  {
    e.mode + " " + e.objectType + " " + e.objectId + "\t" + e.objectName
  }

  /** Whether `s` can be a field of a tree line: no space, tab or newline. */
  predicate Field(s: string)
  {
    forall q :: 0 <= q < |s| ==> s[q] != ' ' && s[q] != '\t' && s[q] != '\n'
  }

  /** Parsing a printed entry gives it back, whatever tabs its name holds. */
  lemma ParseFormatTreeEntry(e: TreeEntry)
    requires Field(e.mode) && Field(e.objectType) && Field(e.objectId)
    ensures WellFormedTreeLine(FormatTreeEntry(e))
    ensures ParseTreeEntry(FormatTreeEntry(e)) == e
  {
    var line := FormatTreeEntry(e);
    var data := e.mode + " " + e.objectType + " " + e.objectId;
    assert line == data + "\t" + e.objectName;
    forall q | 0 <= q < |data|
      ensures line[q] == data[q] && data[q] != '\t'
    {
      if q < |e.mode| {
        assert data[q] == e.mode[q];
      } else if |e.mode| < q < |e.mode| + 1 + |e.objectType| {
        assert data[q] == e.objectType[q - |e.mode| - 1];
      } else if |e.mode| + 1 + |e.objectType| < q {
        assert data[q] == e.objectId[q - |e.mode| - |e.objectType| - 2];
      }
    }
    assert line[|data|] == '\t';
    IndexOfIsFirst(line, '\t');
    assert IndexOf(line, '\t') == |data|;
    assert line[..|data|] == data;
    var parts := [e.mode, e.objectType, e.objectId];
    var pair := [e.mode, e.objectType];
    assert parts[..2] == pair && pair[..1] == [e.mode];
    assert Join(pair, " ") == e.mode + " " + e.objectType;
    assert Join(parts, [' ']) == data;
    SplitJoin(parts, ' ');
    assert line[|data| + 1..] == e.objectName;
  }

  /** Lines 161-162: the lines of git's output, without the piece after the last newline. */
  function ListedLines(out: string): (lines: seq<string>)
    ensures |lines| == Count(out, '\n')
  {
    SplitCount(out, '\n');
    var pieces := Split(out, '\n');
    pieces[..|pieces| - 1]
  }

  /** The entries of a listing, in order. */
  function ParseAll(lines: seq<string>): (entries: seq<TreeEntry>)
    requires forall i :: 0 <= i < |lines| ==> WellFormedTreeLine(lines[i])
    ensures |entries| == |lines|
  {
    seq(|lines|, i requires 0 <= i < |lines| => ParseTreeEntry(lines[i]))
  }

  /** gitListDir, lines 161-167: parse every listed line into `result`. */
  method ListDir(out: string) returns (result: array<TreeEntry>)
    requires forall i :: 0 <= i < |ListedLines(out)| ==> WellFormedTreeLine(ListedLines(out)[i])
    ensures fresh(result)
    ensures result[..] == ParseAll(ListedLines(out))
  {
    var lines := Split(out, '\n');
    lines := lines[..|lines| - 1];
    assert lines == ListedLines(out);
    result := new TreeEntry[|lines|](_ => TreeEntry("", "", "", ""));
    for i := 0 to |lines|
      invariant forall q :: 0 <= q < i ==> result[q] == ParseTreeEntry(lines[q])
    {
      result[i] := ParseTreeEntry(lines[i]);
    }
  }

  /** n newline-terminated lines are listed as exactly those n lines, in order. */
  lemma ListedTerminatedLines(lines: seq<string>)
    requires forall i, k :: 0 <= i < |lines| && 0 <= k < |lines[i]| ==> lines[i][k] != '\n'
    ensures ListedLines(Terminated(lines, '\n')) == lines
  {
    SplitTerminated(lines, '\n');
  }

  /** Printing entries one per line and listing the output gives the entries back. */
  lemma ListFormattedEntries(entries: seq<TreeEntry>)
    requires forall i :: 0 <= i < |entries| ==>
      Field(entries[i].mode) && Field(entries[i].objectType) && Field(entries[i].objectId)
    requires forall i, k :: 0 <= i < |entries| && 0 <= k < |entries[i].objectName| ==> entries[i].objectName[k] != '\n'
    ensures var lines := seq(|entries|, i requires 0 <= i < |entries| => FormatTreeEntry(entries[i]));
      (forall i :: 0 <= i < |lines| ==> WellFormedTreeLine(lines[i])) &&
      ListedLines(Terminated(lines, '\n')) == lines && ParseAll(lines) == entries
  {
    var lines := seq(|entries|, i requires 0 <= i < |entries| => FormatTreeEntry(entries[i]));
    forall i | 0 <= i < |entries|
      ensures WellFormedTreeLine(lines[i]) && ParseTreeEntry(lines[i]) == entries[i]
    {
      ParseFormatTreeEntry(entries[i]);
    }
    forall i, k | 0 <= i < |lines| && 0 <= k < |lines[i]|
      ensures lines[i][k] != '\n'
    {
      var e := entries[i];
      var data := e.mode + " " + e.objectType + " " + e.objectId + "\t";
      assert lines[i] == data + e.objectName;
      if k >= |data| {
        assert lines[i][k] == e.objectName[k - |data|];
      } else {
        assert lines[i][k] == data[k];
      }
    }
    ListedTerminatedLines(lines);
  }

  // ---------------------------------------------------------------------
  // Directory listings, lines 57-107 and 170-199.

  /** directoryListEntry. */
  datatype DirEntry = DirEntry(name: string, path: string, isDir: bool, symlinkTarget: string)

  /** Go's `<` on strings: lexicographic by character. */
  predicate StrLess(a: string, b: string)
  {
    if |a| == 0 then |b| > 0
    else if |b| == 0 then false
    else if a[0] != b[0] then a[0] < b[0]
    else StrLess(a[1..], b[1..])
  }

  lemma {:induction false} StrLessAsymmetric(a: string, b: string)
    ensures StrLess(a, b) ==> !StrLess(b, a)
  {
    if |a| > 0 && |b| > 0 && a[0] == b[0] {
      StrLessAsymmetric(a[1..], b[1..]);
    }
  }

  lemma {:induction false} StrLessTotal(a: string, b: string)
    ensures a == b || StrLess(a, b) || StrLess(b, a)
  {
    if |a| > 0 && |b| > 0 && a[0] == b[0] {
      StrLessTotal(a[1..], b[1..]);
      if a[1..] == b[1..] {
        assert a == [a[0]] + a[1..] && b == [b[0]] + b[1..];
      }
    }
  }

  lemma {:induction false} StrLessTransitive(a: string, b: string, c: string)
    ensures StrLess(a, b) && StrLess(b, c) ==> StrLess(a, c)
  {
    if |a| > 0 && |b| > 0 && |c| > 0 && a[0] == b[0] == c[0] {
      StrLessTransitive(a[1..], b[1..], c[1..]);
    }
  }

  /** DirListingSort.Less, lines 102-107: directories first, then by name. */
  predicate Less(x: DirEntry, y: DirEntry)
  {
    if x.isDir != y.isDir then x.isDir else StrLess(x.name, y.name)
  }

  /** `Less` is a strict weak order: asymmetric, and "not after" is transitive. */
  lemma LessIsStrictWeakOrder(x: DirEntry, y: DirEntry, z: DirEntry)
    ensures Less(x, y) ==> !Less(y, x)
    ensures !Less(y, x) && !Less(z, y) ==> !Less(z, x)
  {
    StrLessAsymmetric(x.name, y.name);
    StrLessAsymmetric(x.name, z.name);
    StrLessAsymmetric(y.name, z.name);
    StrLessAsymmetric(x.name, x.name);
    StrLessTotal(x.name, y.name);
    StrLessTotal(y.name, z.name);
    StrLessTransitive(x.name, y.name, z.name);
  }

  /** No entry is placed before an entry that is Less than it. */
  predicate Sorted(s: seq<DirEntry>)
  {
    forall p, q :: 0 <= p < q < |s| ==> !Less(s[q], s[p])
  }

  /** A sorted listing has every directory before every file, names ascending within each kind. */
  lemma SortedListingOrder(s: seq<DirEntry>)
    requires Sorted(s)
    ensures forall p, q :: 0 <= p < q < |s| && s[q].isDir ==> s[p].isDir
    ensures forall p, q :: 0 <= p < q < |s| && s[p].isDir == s[q].isDir ==> !StrLess(s[q].name, s[p].name)
  {
  }

  /** DirListingSort.Swap, lines 98-100. */
  method Swap(a: array<DirEntry>, i: nat, j: nat)
    requires i < a.Length && j < a.Length
    modifies a
    ensures a[..] == old(a[..])[i := old(a[j])][j := old(a[i])]
    ensures multiset(a[..]) == multiset(old(a[..]))
  {
    a[i], a[j] := a[j], a[i];
  }

  /** After the insertion pass of `SortListing` stops at `j`, the prefix is sorted. */
  lemma InsertionDone(s: seq<DirEntry>, j: nat)
    requires j < |s|
    requires forall p, q :: 0 <= p < q < |s| && p != j && q != j ==> !Less(s[q], s[p])
    requires forall q :: j < q < |s| ==> Less(s[j], s[q])
    requires j > 0 ==> !Less(s[j], s[j - 1])
    ensures Sorted(s)
  {
    forall p, q | 0 <= p < q < |s|
      ensures !Less(s[q], s[p])
    {
      if q == j && p < j - 1 {
        LessIsStrictWeakOrder(s[p], s[j - 1], s[j]);
      } else if p == j {
        LessIsStrictWeakOrder(s[j], s[q], s[q]);
      }
    }
  }

  /**
    sort.Sort(DirListingSort(dirEntries)), line 479: reorder the listing in
    place, with Less and Swap only.
  */
  method SortListing(a: array<DirEntry>)
    modifies a
    ensures Sorted(a[..])
    ensures multiset(a[..]) == multiset(old(a[..]))
  {
    for i := 0 to a.Length
      invariant Sorted(a[..i])
      invariant multiset(a[..]) == multiset(old(a[..]))
    {
      var j := i;
      while j > 0 && Less(a[j], a[j - 1])
        invariant 0 <= j <= i
        invariant multiset(a[..]) == multiset(old(a[..]))
        invariant forall p, q :: 0 <= p < q <= i && p != j && q != j ==> !Less(a[q], a[p])
        invariant forall q :: j < q <= i ==> Less(a[j], a[q])
      {
        Swap(a, j - 1, j);
        j := j - 1;
      }
      InsertionDone(a[..i + 1], j);
    }
  }

  /** viewUrl, lines 170-172. */
  function ViewUrl(repo: string, path: string): string
  {
    "/view/" + repo + "/" + path
  }

  /**
    getFileUrl, lines 174-180: the view URL of `name` under `pathFromRoot`,
    with a trailing "/" for a directory.
  */
  function FileUrl(repo: string, pathFromRoot: string, name: string, isDir: bool,
                   clean: string -> string, join: (string, string) -> string): (u: string)
    ensures ViewUrl(repo, "") <= u
    ensures u[|ViewUrl(repo, "")|..] == join(pathFromRoot, clean(name)) + (if isDir then "/" else "")
    ensures isDir ==> u != "" && u[|u| - 1] == '/'
  {
    var fileUrl := ViewUrl(repo, join(pathFromRoot, clean(name)));
    if isDir then fileUrl + "/" else fileUrl
  }

  /** A URL ends with "/" exactly for a directory, when the joined path does not end with one. */
  lemma FileUrlEndsWithSlash(repo: string, pathFromRoot: string, name: string, isDir: bool,
                             clean: string -> string, join: (string, string) -> string)
    requires var p := join(pathFromRoot, clean(name)); p != "" && p[|p| - 1] != '/'
    ensures var u := FileUrl(repo, pathFromRoot, name, isDir, clean, join);
      u[|u| - 1] == '/' <==> isDir
  {
    var u := FileUrl(repo, pathFromRoot, name, isDir, clean, join);
    var prefix := ViewUrl(repo, "");
    assert u[..|prefix|] == prefix;
    var p := join(pathFromRoot, clean(name));
    if !isDir {
      assert u == prefix + p;
      assert u[|u| - 1] == p[|p| - 1];
    }
  }

  /**
    buildDirectoryListEntry, lines 182-199. `symlinks` maps an object id to
    what gitCatBlob reads for it; a symlink (mode 120000) gets no URL.
  */
  function BuildDirEntry(e: TreeEntry, pathFromRoot: string, repo: string, symlinks: map<string, string>,
                         clean: string -> string, join: (string, string) -> string): (d: DirEntry)
    ensures d.name == e.objectName
    ensures d.isDir <==> e.objectType == "tree"
    ensures d.path == "" <==> e.mode == "120000"
    ensures d.symlinkTarget != "" ==> e.mode == "120000"
  {
    var isDir := e.objectType == "tree";
    if e.mode == "120000" then DirEntry(e.objectName, "", isDir, Get(symlinks, e.objectId))
    else DirEntry(e.objectName, FileUrl(repo, pathFromRoot, e.objectName, isDir, clean, join), isDir, "")
  }

  function BuildDirEntries(entries: seq<TreeEntry>, pathFromRoot: string, repo: string, symlinks: map<string, string>,
                           clean: string -> string, join: (string, string) -> string): (ds: seq<DirEntry>)
    ensures |ds| == |entries|
  {
    seq(|entries|, i requires 0 <= i < |entries| => BuildDirEntry(entries[i], pathFromRoot, repo, symlinks, clean, join))
  }

  /** Lines 475-479: one listing entry per tree entry, then sorted. */
  method BuildListing(entries: seq<TreeEntry>, pathFromRoot: string, repo: string, symlinks: map<string, string>,
                      clean: string -> string, join: (string, string) -> string) returns (dirEntries: array<DirEntry>)
    ensures fresh(dirEntries)
    ensures Sorted(dirEntries[..])
    ensures multiset(dirEntries[..]) == multiset(BuildDirEntries(entries, pathFromRoot, repo, symlinks, clean, join))
  {
    dirEntries := new DirEntry[|entries|](_ => DirEntry("", "", false, ""));
    for i := 0 to |entries|
      invariant forall q :: 0 <= q < i ==> dirEntries[q] == BuildDirEntry(entries[q], pathFromRoot, repo, symlinks, clean, join)
    {
      dirEntries[i] := BuildDirEntry(entries[i], pathFromRoot, repo, symlinks, clean, join);
    }
    assert dirEntries[..] == BuildDirEntries(entries, pathFromRoot, repo, symlinks, clean, join);
    SortListing(dirEntries);
  }

  // ---------------------------------------------------------------------
  // The page data, lines 437-539.

  /** Lines 456-459: the path shown, with "." (the root) as "". */
  function ShownPath(cleanPath: string): (p: string)
    ensures p == "" <==> cleanPath == "" || cleanPath == "."
    ensures p != "" ==> p == cleanPath
  {
    if cleanPath == "." then "" else cleanPath
  }

  /** sourceFileContent. */
  datatype SourceFile = SourceFile(content: string, lineCount: int, language: string)

  /** Lines 488-496: the content of a file with its line count and language. */
  function FileContent(cleanPath: string, content: string): (f: SourceFile)
    ensures f.content == content && f.language == Language(cleanPath)
    ensures f.lineCount == |Split(content, '\n')| - 1
  {
    SplitCount(content, '\n');
    SourceFile(content, Count(content, '\n'), Language(cleanPath))
  }

  /** breadCrumbEntry. */
  datatype BreadCrumb = BreadCrumb(name: string, path: string)

  /** Lines 499-506: one breadcrumb per "/"-separated component of the path. */
  function Breadcrumbs(repo: string, cleanPath: string, clean: string -> string, join: (string, string) -> string)
    : (b: seq<BreadCrumb>)
    ensures |b| == |Split(cleanPath, '/')|
    ensures forall i :: 0 <= i < |b| ==> b[i].name == Split(cleanPath, '/')[i]
    ensures forall i :: 0 <= i < |b| ==> var p := b[i].path; p != "" && p[|p| - 1] == '/'
    ensures forall i :: 0 <= i < |b| ==> ViewUrl(repo, "") <= b[i].path
    ensures forall i :: 0 <= i < |b| ==>
      var splits := Split(cleanPath, '/');
      b[i].path[|ViewUrl(repo, "")|..] == join(clean(Join(splits[..i], "/")), clean(splits[i])) + "/"
  {
    var splits := Split(cleanPath, '/');
    seq(|splits|, i requires 0 <= i < |splits| => Crumb(repo, splits, i, clean, join))
  }

  /** The breadcrumb of the `i`-th component: its name, and the directory URL of the path up to it. */
  function Crumb(repo: string, splits: seq<string>, i: nat, clean: string -> string, join: (string, string) -> string)
    : (c: BreadCrumb)
    requires i < |splits|
    ensures c.name == splits[i]
    ensures c.path != "" && c.path[|c.path| - 1] == '/'
    ensures ViewUrl(repo, "") <= c.path
    ensures c.path[|ViewUrl(repo, "")|..] == join(clean(Join(splits[..i], "/")), clean(splits[i])) + "/"
  {
    BreadCrumb(splits[i], FileUrl(repo, clean(Join(splits[..i], "/")), splits[i], true, clean, join))
  }

  /** The breadcrumb names, joined with "/", give the path back. */
  lemma BreadcrumbNamesRebuildPath(repo: string, cleanPath: string, clean: string -> string, join: (string, string) -> string)
    ensures var b := Breadcrumbs(repo, cleanPath, clean, join);
      Join(seq(|b|, i requires 0 <= i < |b| => b[i].name), "/") == cleanPath
  {
    var b := Breadcrumbs(repo, cleanPath, clean, join);
    assert seq(|b|, i requires 0 <= i < |b| => b[i].name) == Split(cleanPath, '/');
    JoinSplit(cleanPath, '/');
  }

  /** Lines 499-506 on an array of segments. */
  method BuildBreadcrumbs(repo: string, cleanPath: string, clean: string -> string, join: (string, string) -> string)
    returns (segments: array<BreadCrumb>)
    ensures fresh(segments)
    ensures segments[..] == Breadcrumbs(repo, cleanPath, clean, join)
  {
    var pathSplits := Split(cleanPath, '/');
    segments := new BreadCrumb[|pathSplits|](_ => BreadCrumb("", ""));
    for i := 0 to |pathSplits|
      invariant forall q :: 0 <= q < i ==> segments[q] == Crumb(repo, pathSplits, q, clean, join)
    {
      var parentPath := clean(Join(pathSplits[0..i], "/"));
      assert pathSplits[0..i] == pathSplits[..i];
      var crumb := BreadCrumb(pathSplits[i], FileUrl(repo, parentPath, pathSplits[i], true, clean, join));
      assert crumb == Crumb(repo, pathSplits, i, clean, join);
      segments[i] := crumb;
    }
    ghost var b := Breadcrumbs(repo, cleanPath, clean, join);
    assert forall q :: 0 <= q < |b| ==> b[q] == Crumb(repo, pathSplits, q, clean, join);
  }

  /** The permalink, headlink and fast-forward link of a page. */
  datatype Links = Links(permalink: string, headlink: string, fastForwardLink: string)

  /**
    Lines 513-525. `commit` is the ref asked for, `commitHash` what it
    resolved to; `isDir` is whether the page lists a tree, and `lastName` is
    the name of the last breadcrumb.
  */
  function PageLinks(commit: string, commitHash: string, isDir: bool, lastName: string): (l: Links)
    requires |commitHash| >= 16
    ensures l.permalink != "" <==> !(commit <= commitHash)
    ensures l.permalink != "" ==> l.permalink == "?commit=" + commitHash[..16] && l.headlink == ""
    ensures commit <= commitHash ==> l.headlink == (if isDir then "." else lastName)
    ensures l.fastForwardLink == "?commit=" + commitHash[..16] + "&ffl=1"
  {
    var fastForwardLink := "?commit=" + commitHash[..16] + "&ffl=1";
    if !(commit <= commitHash) then Links("?commit=" + commitHash[..16], "", fastForwardLink)
    else Links("", if isDir then "." else lastName, fastForwardLink)
  }
}
