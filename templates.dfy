/**
  The helpers of server/templates/templates.go that the page templates call:
  the one-line commit summary of the blame column, the template file name of
  a struct field, the asset-hash map that versions static files, the
  URL-to-link rewriting of commit messages, and the `<link>`/`<script>` tags.

  The regular expression, `url.Parse`, `template.HTMLEscapeString` and the
  hex/base64 recoding of hashes are library code; they are parameters here.
*/
module Templates {
  import opened Wrappers
  import opened GoStrings

  // ---------------------------------------------------------------------
  // prettyCommit, lines 33-40.

  /** blameworthy.Commit: a commit hash, its author and its date as the number YYYYMMDD. */
  datatype Commit = Commit(hash: string, author: string, date: int)

  predicate IsDigit(c: char) { '0' <= c <= '9' }

  predicate AllDigits(s: string) { forall i :: 0 <= i < |s| ==> IsDigit(s[i]) }

  function DigitChar(d: nat): (c: char)
    requires d < 10
    ensures IsDigit(c)
  {
    ('0' as int + d) as char
  }

  function Pow10(k: nat): (p: nat)
    ensures p >= 1
  {
    if k == 0 then 1 else 10 * Pow10(k - 1)
  }

  /** The number a string of decimal digits denotes, leading zeros allowed. */
  function Value(s: string): nat
    requires AllDigits(s)
  {
    if |s| == 0 then 0 else 10 * Value(s[..|s| - 1]) + (s[|s| - 1] as int - '0' as int)
  }

  /** fmt's `%d` of a non-negative number: its decimal digits, without leading zeros. */
  function Digits(n: nat): (s: string)
    ensures |s| >= 1 && AllDigits(s)
    ensures Value(s) == n
    ensures s[0] == '0' ==> n == 0
  {
    if n < 10 then [DigitChar(n)]
    else
      var front := Digits(n / 10);
      var s := front + [DigitChar(n % 10)];
      assert s[..|s| - 1] == front;
      s
  }

  /** A number below 10^k needs at most k digits. */
  lemma {:induction false} DigitsWidth(n: nat, k: nat)
    requires 1 <= k && n < Pow10(k)
    ensures |Digits(n)| <= k
  {
    if n >= 10 {
      assert k >= 2;
      assert n / 10 < Pow10(k - 1);
      DigitsWidth(n / 10, k - 1);
    }
  }

  function Zeros(k: nat): (z: string)
    ensures |z| == k && AllDigits(z)
  {
    if k == 0 then "" else Zeros(k - 1) + "0"
  }

  /** fmt's `%0<width>d` of a non-negative number: at least `width` digits, padded with zeros. */
  function Padded(n: nat, width: nat): (s: string)
    ensures AllDigits(s)
    ensures |s| == if |Digits(n)| >= width then |Digits(n)| else width
    ensures Value(s) == n
  {
    var d := Digits(n);
    if |d| >= width then d
    else
      ValueAppend(Zeros(width - |d|), d);
      ZerosValue(width - |d|);
      Zeros(width - |d|) + d
  }

  lemma {:induction false} ZerosValue(k: nat)
    ensures Value(Zeros(k)) == 0
  {
    if k > 0 {
      assert Zeros(k)[..k - 1] == Zeros(k - 1);
      ZerosValue(k - 1);
    }
  }

  /** The value of two digit strings side by side. */
  lemma {:induction false} ValueAppend(a: string, b: string)
    requires AllDigits(a) && AllDigits(b)
    ensures AllDigits(a + b)
    ensures Value(a + b) == Value(a) * Pow10(|b|) + Value(b)
  {
    assert AllDigits(a + b) by {
      assert forall i :: 0 <= i < |a + b| ==> (a + b)[i] == if i < |a| then a[i] else b[i - |a|];
    }
    if |b| > 0 {
      var b' := b[..|b| - 1];
      var digit := b[|b| - 1] as int - '0' as int;
      assert (a + b)[..|a + b| - 1] == a + b';
      ValueAppend(a, b');
      var va, p := Value(a), Pow10(|b'|);
      assert Value(a + b) == 10 * (va * p + Value(b')) + digit;
      ShiftByTen(va, p);
      assert Value(b) == 10 * Value(b') + digit;
      assert Pow10(|b|) == 10 * p;
    } else {
      assert a + b == a;
    }
  }

  lemma ShiftByTen(x: nat, p: nat)
    ensures 10 * (x * p) == x * (10 * p)
  {
  }

  /** fmt's `%.8s`: at most the first eight characters. */
  function FirstEight(s: string): (r: string)
    ensures r <= s && |r| == if |s| < 8 then |s| else 8
  {
    if |s| <= 8 then s else s[..8]
  }

  /**
    The blame column's summary of a commit: "YYYY-MM-DD author" when the
    commit has an author and a positive date, otherwise the hash padded
    with three spaces.
  */
  function PrettyCommit(c: Commit): string
  {
    if |c.author| > 0 && c.date > 0 then
      Padded(c.date / 10000, 4) + "-" + Padded(c.date % 10000 / 100, 2) + "-" + Padded(c.date % 100, 2)
        + " " + FirstEight(c.author)
    else c.hash + "   "
  }

  /**
    The date part can be read back: for a commit with an author and a date
    whose year has at most four digits, the summary is "YYYY-MM-DD " followed
    by at most eight characters of the author, and the three numbers
    recombine to the date.
  */
  lemma PrettyCommitRoundTrip(c: Commit)
    requires |c.author| > 0 && 0 < c.date < 100000000
    ensures var out := PrettyCommit(c);
      |out| == 11 + |FirstEight(c.author)| && out[4] == '-' && out[7] == '-' && out[10] == ' '
      && AllDigits(out[..4]) && AllDigits(out[5..7]) && AllDigits(out[8..10])
      && Value(out[..4]) * 10000 + Value(out[5..7]) * 100 + Value(out[8..10]) == c.date
      && out[11..] == FirstEight(c.author)
  {
    var year, month, day := c.date / 10000, c.date % 10000 / 100, c.date % 100;
    DateRecombines(c.date);
    assert Pow10(4) == 10000 && Pow10(2) == 100;
    DigitsWidth(year, 4);
    DigitsWidth(month, 2);
    DigitsWidth(day, 2);
    DateLayout(Padded(year, 4), Padded(month, 2), Padded(day, 2), FirstEight(c.author));
  }

  /** Where the pieces of "YYYY-MM-DD author" sit. */
  lemma DateLayout(y: string, m: string, d: string, author: string)
    requires |y| == 4 && |m| == 2 && |d| == 2
    ensures var out := y + "-" + m + "-" + d + " " + author;
      |out| == 11 + |author| && out[4] == '-' && out[7] == '-' && out[10] == ' '
      && out[..4] == y && out[5..7] == m && out[8..10] == d && out[11..] == author
  {
  }

  /** Year, month and day taken apart with Go's `/` and `%` recombine to a positive date. */
  lemma DateRecombines(date: int)
    requires 0 < date
    ensures date / 10000 * 10000 + date % 10000 / 100 * 100 + date % 100 == date
  {
    var r := date % 10000;
    assert date == date / 10000 * 10000 + r;
    assert r == r / 100 * 100 + r % 100;
    assert r % 100 == date % 100;
  }

  /** Without an author or a date, the hash is padded with three spaces: a 16-character hash becomes 19. */
  lemma PrettyCommitFallback(c: Commit)
    requires |c.author| == 0 || c.date <= 0
    ensures var out := PrettyCommit(c);
      |out| == |c.hash| + 3 && out[..|c.hash|] == c.hash && out[|c.hash|..] == "   "
    ensures |c.hash| == 16 ==> |PrettyCommit(c)| == 19
  {
  }

  /**
    Both forms fill the same column: a dated commit with a four-digit year and
    an author of eight or more characters also takes 19 characters.
  */
  lemma PrettyCommitWidth(c: Commit)
    requires |c.author| >= 8 && 10000000 <= c.date < 100000000
    ensures |PrettyCommit(c)| == 19
  {
    PrettyCommitRoundTrip(c);
  }

  // ---------------------------------------------------------------------
  // templatePath, lines 26-31.

  /** The file a template field is loaded from: its `template` tag, or its lower-cased name with ".html". */
  function TemplatePath(tag: string, fieldName: string): string
  {
    if tag != "" then tag else ToLower(fieldName) + ".html"
  }

  lemma {:induction false} LowerCharIsLower(c: char)
    ensures !('A' <= LowerChar(c) <= 'Z')
    ensures LowerChar(LowerChar(c)) == LowerChar(c)
  {
  }

  /**
    A non-empty tag is used as is; otherwise the path is the field name with
    every ASCII capital lowered, followed by ".html".
  */
  lemma TemplatePathShape(tag: string, fieldName: string)
    ensures tag != "" ==> TemplatePath(tag, fieldName) == tag
    ensures tag == "" ==> var p := TemplatePath(tag, fieldName);
      |p| == |fieldName| + 5 && p[|fieldName|..] == ".html"
      && (forall i :: 0 <= i < |fieldName| ==> p[i] == LowerChar(fieldName[i]))
      && (forall i :: 0 <= i < |fieldName| ==> !('A' <= p[i] <= 'Z'))
  {
    if tag == "" {
      var p := TemplatePath(tag, fieldName);
      forall i | 0 <= i < |fieldName|
        ensures !('A' <= p[i] <= 'Z')
      {
        LowerCharIsLower(fieldName[i]);
      }
    }
  }

  /** Field names that differ only in ASCII case are loaded from the same file. */
  lemma TemplatePathIgnoresCase(fieldName: string)
    ensures TemplatePath("", ToLower(fieldName)) == TemplatePath("", fieldName)
  {
    var once := ToLower(fieldName);
    var twice := ToLower(once);
    forall i | 0 <= i < |fieldName|
      ensures twice[i] == once[i]
    {
      LowerCharIsLower(fieldName[i]);
    }
    assert twice == once;
  }

  // ---------------------------------------------------------------------
  // LoadAssetHashes, lines 136-157.

  /** A line of the asset hash file that the loader can split: it holds two spaces. */
  predicate HashLine(line: string)
  {
    Cut(line, "  ").Some?
  }

  /** The hash on a line: the text before the first two spaces. */
  function LineHash(line: string): string
    requires HashLine(line)
  {
    Cut(line, "  ").value.0
  }

  /** The asset on a line: the text after the first two spaces. */
  function LineAsset(line: string): string
    requires HashLine(line)
  {
    Cut(line, "  ").value.1
  }

  /** The index of the first line the loader cannot split, or the number of lines. */
  function FirstMalformed(lines: seq<string>): (n: nat)
    ensures n <= |lines|
    ensures forall i :: 0 <= i < n ==> HashLine(lines[i])
    ensures n < |lines| ==> !HashLine(lines[n])
  {
    if |lines| == 0 then 0
    else if !HashLine(lines[0]) then 0
    else 1 + FirstMalformed(lines[1..])
  }

  /** Lines that all split put the first malformed line after them. */
  lemma SplitLinesPrecedeMalformed(lines: seq<string>, i: nat)
    requires i < |lines| && forall j :: 0 <= j <= i ==> HashLine(lines[j])
    ensures i < FirstMalformed(lines)
  {
  }

  /** The asset-to-hash map that `lines` produce, read in order from an empty map. */
  function HashesFrom(lines: seq<string>): map<string, string>
    requires forall i :: 0 <= i < |lines| ==> HashLine(lines[i])
  {
    if |lines| == 0 then map[]
    else
      var last := lines[|lines| - 1];
      HashesFrom(lines[..|lines| - 1])[LineAsset(last) := LineHash(last)]
  }

  /** Every asset a line names is a key. */
  lemma {:induction false} ListedIsKey(lines: seq<string>, i: nat)
    requires forall j :: 0 <= j < |lines| ==> HashLine(lines[j])
    requires i < |lines|
    ensures LineAsset(lines[i]) in HashesFrom(lines)
  {
    if i < |lines| - 1 {
      var front := lines[..|lines| - 1];
      assert front[i] == lines[i];
      ListedIsKey(front, i);
    }
  }

  /** Every key is the asset of some line. */
  lemma {:induction false} KeyIsListed(lines: seq<string>, asset: string) returns (i: nat)
    requires forall j :: 0 <= j < |lines| ==> HashLine(lines[j])
    requires asset in HashesFrom(lines)
    ensures i < |lines| && LineAsset(lines[i]) == asset
  {
    var last := |lines| - 1;
    if LineAsset(lines[last]) == asset {
      i := last;
    } else {
      var front := lines[..last];
      i := KeyIsListed(front, asset);
      assert front[i] == lines[i];
    }
  }

  /** Exactly the assets the lines name are keys: nothing from an earlier load survives. */
  lemma HashesFromKeys(lines: seq<string>, asset: string)
    requires forall i :: 0 <= i < |lines| ==> HashLine(lines[i])
    ensures asset in HashesFrom(lines) <==> exists i :: 0 <= i < |lines| && LineAsset(lines[i]) == asset
  {
    if asset in HashesFrom(lines) {
      var i := KeyIsListed(lines, asset);
    }
    if i :| 0 <= i < |lines| && LineAsset(lines[i]) == asset {
      ListedIsKey(lines, i);
    }
  }

  /** An asset listed several times gets the hash of its last line. */
  lemma {:induction false} HashesFromLastWins(lines: seq<string>, i: nat)
    requires forall j :: 0 <= j < |lines| ==> HashLine(lines[j])
    requires i < |lines|
    requires forall j :: i < j < |lines| ==> LineAsset(lines[j]) != LineAsset(lines[i])
    ensures LineAsset(lines[i]) in HashesFrom(lines)
    ensures HashesFrom(lines)[LineAsset(lines[i])] == LineHash(lines[i])
  {
    if i < |lines| - 1 {
      var front := lines[..|lines| - 1];
      assert front[i] == lines[i];
      HashesFromLastWins(front, i);
    }
  }

  /** Reading one more line enters its asset and hash. */
  lemma HashesFromStep(lines: seq<string>, i: nat, hash: string, asset: string)
    requires i < |lines| && forall j :: 0 <= j < i ==> HashLine(lines[j])
    requires Cut(lines[i], "  ") == Some((hash, asset))
    ensures HashesFrom(lines[..i + 1]) == HashesFrom(lines[..i])[asset := hash]
  {
    assert lines[..i + 1][..i] == lines[..i];
  }

  /** Why loading stopped. */
  datatype LoadError = CannotOpen | MalformedLine(index: nat)

  /**
    The asset-hash map the server shares with its templates, which the
    reload handler refills in place before each request.
  */
  class AssetHashes {
    var hashes: map<string, string>

    constructor ()
      ensures hashes == map[]
    {
      hashes := map[];
    }

    /**
      Lines 136-157. `file` is the hash file's lines, or None when it cannot be
      opened; then the map is left alone. Otherwise every key is deleted and
      the lines are entered in order. A line without two spaces makes the
      indexing of line 152 panic: the lines before it have been entered and
      the rest are not.
    */
    method Load(file: Option<seq<string>>) returns (err: Option<LoadError>)
      modifies this
      ensures file.None? ==> err == Some(CannotOpen) && hashes == old(hashes)
      ensures file.Some? ==> var n := FirstMalformed(file.value);
        hashes == HashesFrom(file.value[..n])
        && (err == if n < |file.value| then Some(MalformedLine(n)) else None)
    {
      if file.None? {
        return Some(CannotOpen);
      }
      Clear();
      err := EnterLines(file.value);
    }

    /**
      Lines 148-156: the lines entered in order into the emptied map, up to
      the first line without two spaces, whose index is reported.
    */
    method EnterLines(lines: seq<string>) returns (err: Option<LoadError>)
      requires hashes == map[]
      modifies this
      ensures var n := FirstMalformed(lines);
        hashes == HashesFrom(lines[..n])
        && (err == if n < |lines| then Some(MalformedLine(n)) else None)
    {
      ghost var n := FirstMalformed(lines);
      assert lines[..0] == [];
      var i := 0;
      while i < |lines|
        invariant i <= n
        invariant forall j :: 0 <= j < i ==> HashLine(lines[j])
        invariant hashes == HashesFrom(lines[..i])
      {
        var pieces := Cut(lines[i], "  ");
        if pieces.None? {
          assert !HashLine(lines[i]) && i == n;
          return Some(MalformedLine(i));
        }
        assert HashLine(lines[i]);
        SplitLinesPrecedeMalformed(lines, i);
        HashesFromStep(lines, i, pieces.value.0, pieces.value.1);
        hashes := hashes[pieces.value.1 := pieces.value.0];
        i := i + 1;
      }
      assert i == n == |lines|;
      assert hashes == HashesFrom(lines[..n]);
      err := None;
    }

    /** Lines 145-147: every key is deleted, one at a time. */
    method Clear()
      modifies this
      ensures hashes == map[]
    {
      while hashes != map[]
        decreases |hashes|
      {
        var k :| k in hashes;
        hashes := hashes - {k};
      }
    }
  }

  // ---------------------------------------------------------------------
  // TurnURLsIntoLinks, lines 42-70.

  /**
    What the URL-like regular expression reports from position `from` on:
    [start, end) spans, in order, not overlapping, inside `s`.
  */
  predicate Spans(s: string, matches: seq<(nat, nat)>, from: nat)
    decreases |matches|
  {
    if |matches| == 0 then from <= |s|
    else from <= matches[0].0 <= matches[0].1 <= |s| && Spans(s, matches[1..], matches[0].1)
  }

  /** No span of `matches` parses as a URL. */
  predicate NoneParse(s: string, matches: seq<(nat, nat)>, from: nat, parses: string -> bool)
    requires Spans(s, matches, from)
    decreases |matches|
  {
    |matches| == 0 || (!parses(s[matches[0].0..matches[0].1]) && NoneParse(s, matches[1..], matches[0].1, parses))
  }

  /** A matched span: a link when `parses` accepts it as a URL, escaped text otherwise. */
  function MatchHtml(u: string, parses: string -> bool, escape: string -> string): string
  {
    if parses(u) then "<a href=\"" + u + "\">" + escape(u) + "</a>" else escape(u)
  }

  /**
    The HTML for `s` from `from` on: each gap before a match escaped, each
    match through MatchHtml, and the tail escaped.
  */
  function Linked(s: string, matches: seq<(nat, nat)>, from: nat, parses: string -> bool, escape: string -> string)
    : string
    requires Spans(s, matches, from)
    decreases |matches|
  {
    if |matches| == 0 then escape(s[from..])
    else
      var (j, k) := matches[0];
      escape(s[from..j]) + MatchHtml(s[j..k], parses, escape) + Linked(s, matches[1..], k, parses, escape)
  }

  /** strings.Join(h, "") grows by the appended piece. */
  lemma {:induction false} JoinAppend(h: seq<string>, x: string)
    ensures Join(h + [x], "") == Join(h, "") + x
  {
    if |h| > 0 {
      assert (h + [x])[..|h|] == h;
    }
  }

  /** One match further: the gap, the match, and the rest. */
  lemma LinkedStep(s: string, matches: seq<(nat, nat)>, n: nat, from: nat, parses: string -> bool, escape: string -> string)
    requires n < |matches| && Spans(s, matches[n..], from)
    ensures from <= matches[n].0 <= matches[n].1 <= |s| && Spans(s, matches[n + 1..], matches[n].1)
    ensures Linked(s, matches[n..], from, parses, escape)
      == escape(s[from..matches[n].0]) + MatchHtml(s[matches[n].0..matches[n].1], parses, escape)
         + Linked(s, matches[n + 1..], matches[n].1, parses, escape)
  {
    assert matches[n..][0] == matches[n] && matches[n..][1..] == matches[n + 1..];
  }

  /** Lines 42-70: the pieces are collected in `h` and joined at the end. */
  method TurnURLsIntoLinks(s: string, matches: seq<(nat, nat)>, parses: string -> bool, escape: string -> string)
    returns (html: string)
    requires Spans(s, matches, 0)
    ensures html == Linked(s, matches, 0, parses, escape)
  {
    var i: nat := 0;
    var h: seq<string> := [];
    for n := 0 to |matches|
      invariant Spans(s, matches[n..], i)
      invariant Join(h, "") + Linked(s, matches[n..], i, parses, escape) == Linked(s, matches, 0, parses, escape)
    {
      var (j, k) := matches[n];
      LinkedStep(s, matches, n, i, parses, escape);
      ghost var done := Join(h, "");
      ghost var rest := Linked(s, matches[n + 1..], k, parses, escape);
      var gap := escape(s[i..j]);
      JoinAppend(h, gap);
      h := h + [gap];
      var u := s[j..k];
      var link := MatchHtml(u, parses, escape);
      JoinAppend(h, link);
      h := h + [link];
      Regroup(done, gap, link, rest);
      i := k;
    }
    assert matches[|matches|..] == [];
    JoinAppend(h, escape(s[i..]));
    h := h + [escape(s[i..])];
    html := Join(h, "");
  }

  lemma Regroup(done: string, gap: string, link: string, rest: string)
    ensures done + (gap + link + rest) == done + gap + link + rest
  {
  }

  /** Without matches the whole text is escaped. */
  lemma NoMatchesEscapesAll(s: string, parses: string -> bool, escape: string -> string)
    ensures Spans(s, [], 0)
    ensures Linked(s, [], 0, parses, escape) == escape(s)
  {
    assert s[0..] == s;
  }

  /**
    When no span parses as a URL and escaping works piece by piece (as HTML
    escaping does, character by character), the result is the escaped text:
    gaps and spans together cover the text once, in order.
  */
  lemma {:induction false} UnlinkedTextIsEscapedText(s: string, matches: seq<(nat, nat)>, from: nat,
                                                    parses: string -> bool, escape: string -> string)
    requires Spans(s, matches, from)
    requires NoneParse(s, matches, from, parses)
    requires forall a, b :: escape(a + b) == escape(a) + escape(b)
    ensures Linked(s, matches, from, parses, escape) == escape(s[from..])
    decreases |matches|
  {
    if |matches| > 0 {
      var (j, k) := matches[0];
      UnlinkedTextIsEscapedText(s, matches[1..], k, parses, escape);
      assert !parses(s[j..k]);
      assert s[from..] == s[from..j] + s[j..k] + s[k..];
      assert escape(s[from..]) == escape(s[from..j] + s[j..k]) + escape(s[k..]);
    }
  }

  // ---------------------------------------------------------------------
  // LinkTag and scriptTag, lines 72-87.

  /** The version of asset `s`: its hash in `m` under `s` less one leading "/", or "" when it has none. */
  function AssetVersion(s: string, m: map<string, string>): string
  {
    var key := TrimPrefix(s, "/");
    if key in m then m[key] else ""
  }

  /** The URL of an asset, versioned by its hash. */
  function Href(s: string, m: map<string, string>): string
  {
    s + "?v=" + AssetVersion(s, m)
  }

  /**
    The subresource-integrity value of a hash; `sha256Base64` stands for the
    base64 encoding of the hex-decoded hash.
  */
  function Integrity(hash: string, sha256Base64: string -> string): string
  {
    "sha256-" + sha256Base64(hash)
  }

  /** A `<link>` tag for stylesheet `s` with relation `rel`. */
  function LinkTag(rel: string, s: string, m: map<string, string>, sha256Base64: string -> string): string
  {
    "<link rel=\"" + rel + "\" href=\"" + Href(s, m) + "\" integrity=\""
      + Integrity(AssetVersion(s, m), sha256Base64) + "\" />"
  }

  /** A `<script>` tag for script `s`. */
  function ScriptTag(s: string, m: map<string, string>, sha256Base64: string -> string): string
  {
    "<script src=\"" + Href(s, m) + "\" integrity=\"" + Integrity(AssetVersion(s, m), sha256Base64) + "\"></script>"
  }

  /**
    The asset URL is the name asked for with "?v=" and the hash listed for it
    with one leading "/" dropped; an unlisted asset gets an empty version.
  */
  lemma HrefShape(s: string, m: map<string, string>)
    ensures var h := Href(s, m); s + "?v=" <= h
    ensures var key := if "/" <= s then s[1..] else s;
      (key in m ==> Href(s, m) == s + "?v=" + m[key]) && (key !in m ==> Href(s, m) == s + "?v=")
  {
  }

  /** "/x" and "x" are versioned alike, but only one "/" is dropped. */
  lemma LeadingSlashIsOptional(x: string, m: map<string, string>)
    requires !("/" <= x)
    ensures AssetVersion("/" + x, m) == AssetVersion(x, m)
    ensures AssetVersion("//" + x, m) == if "/" + x in m then m["/" + x] else ""
  {
    assert TrimPrefix("/" + x, "/") == x;
    assert TrimPrefix("//" + x, "/") == "/" + x;
  }

  /**
    After a load that reads every line, a tag's version is the hash of the
    last line that lists the asset.
  */
  lemma VersionIsLastListedHash(lines: seq<string>, s: string, i: nat)
    requires forall j :: 0 <= j < |lines| ==> HashLine(lines[j])
    requires i < |lines| && LineAsset(lines[i]) == TrimPrefix(s, "/")
    requires forall j :: i < j < |lines| ==> LineAsset(lines[j]) != LineAsset(lines[i])
    ensures Href(s, HashesFrom(lines)) == s + "?v=" + LineHash(lines[i])
  {
    HashesFromLastWins(lines, i);
  }

  /** The `<link>` and `<script>` tags of one asset name the same URL and the same integrity value. */
  lemma TagsAgree(rel: string, s: string, m: map<string, string>, sha256Base64: string -> string)
    ensures var h, v := Href(s, m), Integrity(AssetVersion(s, m), sha256Base64);
      LinkTag(rel, s, m, sha256Base64)[|"<link rel=\"" + rel + "\" href=\""|..][..|h|] == h
      && ScriptTag(s, m, sha256Base64)[|"<script src=\""|..][..|h|] == h
      && LinkTag(rel, s, m, sha256Base64)[|"<link rel=\"" + rel + "\" href=\"" + h + "\" integrity=\""|..][..|v|] == v
      && ScriptTag(s, m, sha256Base64)[|"<script src=\"" + h + "\" integrity=\""|..][..|v|] == v
  {
  }
}
