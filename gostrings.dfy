/**
  The pieces of Go's `strings` and `path/filepath` packages that the server's
  pure logic relies on: Split, Join, SplitN(_, _, 2) (as Cut), Count,
  TrimPrefix, ToLower, filepath.Ext and filepath.Base.

  A Go string is a sequence of bytes; here it is a `string`, and every
  character stands for one byte.
*/
module GoStrings {
  import opened Wrappers

  /** Index of the first `c` in `s`, or `|s|` when `s` holds none. */
  function IndexOf(s: string, c: char): (k: nat)
    ensures k <= |s|
    ensures k < |s| ==> s[k] == c
  {
    if |s| == 0 then 0
    else if s[0] == c then 0
    else 1 + IndexOf(s[1..], c)
  }

  /** No `c` comes before IndexOf(s, c). */
  lemma {:induction false} IndexOfIsFirst(s: string, c: char)
    ensures forall i :: 0 <= i < IndexOf(s, c) ==> s[i] != c
    decreases |s|
  {
    if |s| > 0 && s[0] != c {
      IndexOfIsFirst(s[1..], c);
      assert forall i :: 1 <= i < IndexOf(s, c) ==> s[i] == s[1..][i - 1];
    }
  }

  /** strings.Split(s, string(c)): the pieces between the `c`s, always at least one. */
  function Split(s: string, c: char): (parts: seq<string>)
    ensures |parts| >= 1
    decreases |s|
  {
    var k := IndexOf(s, c);
    if k == |s| then [s] else [s[..k]] + Split(s[k + 1..], c)
  }

  /** The first piece of a split ends at the first separator; the rest split what follows it. */
  lemma SplitFirst(s: string, c: char)
    ensures var f := Split(s, c)[0]; |f| <= |s| && s[..|f|] == f
    ensures |Split(s, c)| >= 2 ==>
      var f := Split(s, c)[0]; |f| < |s| && s[|f|] == c && Split(s, c)[1..] == Split(s[|f| + 1..], c)
  {
  }

  /** strings.Join(parts, sep). */
  function Join(parts: seq<string>, sep: string): string
  {
    if |parts| == 0 then ""
    else if |parts| == 1 then parts[0]
    else Join(parts[..|parts| - 1], sep) + sep + parts[|parts| - 1]
  }

  /** strings.Count(s, string(c)): how many `c`s `s` holds. */
  function Count(s: string, c: char): nat
  {
    if |s| == 0 then 0 else (if s[0] == c then 1 else 0) + Count(s[1..], c)
  }

  /** Whether `sep` occurs in `s` starting at index `i`. */
  predicate OccursAt(s: string, sep: string, i: nat)
  {
    i + |sep| <= |s| && s[i..i + |sep|] == sep
  }

  /** The first index at or after `i` where `sep` occurs in `s`, or -1. */
  function FindFrom(s: string, sep: string, i: nat): (k: int)
    ensures k == -1 || (i <= k && OccursAt(s, sep, k))
    ensures forall j :: i <= j && (k == -1 || j < k) ==> !OccursAt(s, sep, j)
    decreases |s| + 1 - i
  {
    if i + |sep| > |s| then -1
    else if OccursAt(s, sep, i) then i
    else FindFrom(s, sep, i + 1)
  }

  /**
    strings.SplitN(s, sep, 2) when it yields two pieces: the text before the
    first `sep` and the text after it; None when `sep` does not occur.
  */
  function Cut(s: string, sep: string): (r: Option<(string, string)>)
    ensures r.Some? ==> r.value.0 + sep + r.value.1 == s
    ensures r.Some? ==> OccursAt(s, sep, |r.value.0|)
    ensures r.Some? ==> forall i :: 0 <= i < |r.value.0| ==> !OccursAt(s, sep, i)
    ensures r.None? ==> forall i :: 0 <= i ==> !OccursAt(s, sep, i)
  {
    var k := FindFrom(s, sep, 0);
    if k < 0 then None
    else
      assert s == s[..k] + sep + s[k + |sep|..];
      Some((s[..k], s[k + |sep|..]))
  }

  /** strings.TrimPrefix(s, prefix): removes ONE leading `prefix`, if there is one. */
  function TrimPrefix(s: string, prefix: string): (r: string)
    ensures prefix <= s ==> prefix + r == s
    ensures !(prefix <= s) ==> r == s
  {
    if prefix <= s then s[|prefix|..] else s
  }

  /** unicode.ToLower restricted to ASCII: 'A'..'Z' become 'a'..'z'. */
  function LowerChar(c: char): char
  {
    if 'A' <= c <= 'Z' then (c as int - 'A' as int + 'a' as int) as char else c
  }

  /** strings.ToLower over ASCII text. */
  function ToLower(s: string): (r: string)
    ensures |r| == |s|
    ensures forall i :: 0 <= i < |s| ==> r[i] == LowerChar(s[i])
  {
    if |s| == 0 then "" else [LowerChar(s[0])] + ToLower(s[1..])
  }

  /** No '/' occurs in `path` from index `k` on: `k` lies in the last path element. */
  predicate InLastElement(path: string, k: nat)
  {
    forall q :: k <= q < |path| ==> path[q] != '/'
  }

  /**
    The scan behind filepath.Ext: `i` moves left from the end of `path`; every
    character at or after `i` is already known to be neither '.' nor '/'.
  */
  function ExtFrom(path: string, i: nat): (e: string)
    requires i <= |path|
    requires forall q :: i <= q < |path| ==> path[q] != '.' && path[q] != '/'
    ensures e == "" || (|e| <= |path| && path[|path| - |e|..] == e && e[0] == '.')
    ensures forall k :: 0 <= k < |e| ==> e[k] != '/'
    ensures forall k :: 1 <= k < |e| ==> e[k] != '.'
    ensures e == "" ==> forall k :: 0 <= k < |path| && InLastElement(path, k) ==> path[k] != '.'
    decreases i
  {
    if i == 0 || path[i - 1] == '/' then ""
    else if path[i - 1] == '.' then path[i - 1..]
    else ExtFrom(path, i - 1)
  }

  /**
    filepath.Ext: the suffix of the last path element that starts at its final
    '.', or "" when that element holds no '.'.
  */
  function Ext(path: string): (e: string)
    ensures e == "" || (|e| <= |path| && path[|path| - |e|..] == e && e[0] == '.')
    ensures forall k :: 0 <= k < |e| ==> e[k] != '/'
    ensures forall k :: 1 <= k < |e| ==> e[k] != '.'
    ensures e == "" ==> forall k :: 0 <= k < |path| && InLastElement(path, k) ==> path[k] != '.'
  {
    ExtFrom(path, |path|)
  }

  /** `path` without the run of '/' at its end. */
  function TrimTrailingSlashes(path: string): (r: string)
    ensures r <= path
    ensures r == "" || r[|r| - 1] != '/'
    ensures forall k :: |r| <= k < |path| ==> path[k] == '/'
  {
    if |path| > 0 && path[|path| - 1] == '/' then TrimTrailingSlashes(path[..|path| - 1]) else path
  }

  /** Where the element ending at index `i` starts: just after the last '/' before `i`, or 0. */
  function ElementStart(path: string, i: nat): (k: nat)
    requires i <= |path|
    ensures k <= i
    ensures k > 0 ==> path[k - 1] == '/'
    ensures forall q :: k <= q < i ==> path[q] != '/'
    decreases i
  {
    if i == 0 || path[i - 1] == '/' then i else ElementStart(path, i - 1)
  }

  /** The text after the last '/' of `path` (all of it when there is none). */
  function LastElement(path: string): (r: string)
    ensures |r| <= |path| && path[|path| - |r|..] == r
    ensures forall k :: 0 <= k < |r| ==> r[k] != '/'
    ensures |r| < |path| ==> path[|path| - |r| - 1] == '/'
  {
    path[ElementStart(path, |path|)..]
  }

  /**
    filepath.Base on a Unix path: the last element after trailing slashes are
    removed; "." for the empty path and "/" for a path made only of slashes.
  */
  function Base(path: string): (b: string)
    ensures b != ""
    ensures b == "/" || forall k :: 0 <= k < |b| ==> b[k] != '/'
    ensures path == "" ==> b == "."
    ensures path != "" ==> var t := TrimTrailingSlashes(path);
      (t == "" ==> b == "/") &&
      (t != "" ==> |b| <= |t| && t[|t| - |b|..] == b && (|b| < |t| ==> t[|t| - |b| - 1] == '/'))
  {
    if path == "" then "."
    else
      var e := LastElement(TrimTrailingSlashes(path));
      if e == "" then "/" else e
  }

  // ---------------------------------------------------------------------
  // Split and Join undo each other.

  lemma {:induction false} JoinCons(x: string, rest: seq<string>, sep: string)
    requires |rest| >= 1
    ensures Join([x] + rest, sep) == x + sep + Join(rest, sep)
    decreases |rest|
  {
    var all := [x] + rest;
    if |rest| == 1 {
      assert all[..1] == [x];
    } else {
      assert all[..|all| - 1] == [x] + rest[..|rest| - 1];
      JoinCons(x, rest[..|rest| - 1], sep);
    }
  }

  /** strings.Join(strings.Split(s, c), c) == s. */
  lemma {:induction false} JoinSplit(s: string, c: char)
    ensures Join(Split(s, c), [c]) == s
    decreases |s|
  {
    var k := IndexOf(s, c);
    if k < |s| {
      var rest := Split(s[k + 1..], c);
      assert Split(s, c) == [s[..k]] + rest;
      JoinSplit(s[k + 1..], c);
      JoinCons(s[..k], rest, [c]);
      assert s == s[..k] + [c] + s[k + 1..];
    } else {
      assert Split(s, c) == [s];
    }
  }

  /** No piece of strings.Split(s, c) holds `c`. */
  lemma {:induction false} SplitPiecesLackSeparator(s: string, c: char)
    ensures forall i, k :: 0 <= i < |Split(s, c)| && 0 <= k < |Split(s, c)[i]| ==> Split(s, c)[i][k] != c
    decreases |s|
  {
    var k := IndexOf(s, c);
    IndexOfIsFirst(s, c);
    if k < |s| {
      SplitPiecesLackSeparator(s[k + 1..], c);
    }
  }

  /** strings.Split(s, c) yields one more piece than `s` has `c`s. */
  lemma {:induction false} SplitCount(s: string, c: char)
    ensures |Split(s, c)| == Count(s, c) + 1
    decreases |s|
  {
    var k := IndexOf(s, c);
    IndexOfIsFirst(s, c);
    assert s == s[..k] + s[k..];
    CountAppend(s[..k], s[k..], c);
    CountNone(s[..k], c);
    if k < |s| {
      SplitCount(s[k + 1..], c);
      assert s[k..][1..] == s[k + 1..];
    } else {
      assert s[..k] == s;
    }
  }

  lemma {:induction false} CountAppend(a: string, b: string, c: char)
    ensures Count(a + b, c) == Count(a, c) + Count(b, c)
    decreases |a|
  {
    if |a| > 0 {
      assert (a + b)[1..] == a[1..] + b;
      CountAppend(a[1..], b, c);
    } else {
      assert a + b == b;
    }
  }

  lemma {:induction false} CountNone(a: string, c: char)
    requires forall i :: 0 <= i < |a| ==> a[i] != c
    ensures Count(a, c) == 0
    decreases |a|
  {
    if |a| > 0 {
      CountNone(a[1..], c);
    }
  }

  /** Splitting a join of separator-free pieces gives the pieces back. */
  lemma {:induction false} SplitJoin(parts: seq<string>, c: char)
    requires |parts| >= 1
    requires forall i, k :: 0 <= i < |parts| && 0 <= k < |parts[i]| ==> parts[i][k] != c
    ensures Split(Join(parts, [c]), c) == parts
    decreases |parts|
  {
    if |parts| == 1 {
      assert IndexOf(parts[0], c) == |parts[0]|;
    } else {
      var rest := parts[1..];
      assert parts == [parts[0]] + rest;
      JoinCons(parts[0], rest, [c]);
      var s := Join(parts, [c]);
      assert s == parts[0] + [c] + Join(rest, [c]);
      assert IndexOf(s, c) == |parts[0]| by {
        IndexOfIsFirst(s, c);
        assert s[|parts[0]|] == c;
        assert forall i :: 0 <= i < |parts[0]| ==> s[i] == parts[0][i];
      }
      assert s[..|parts[0]|] == parts[0];
      assert s[|parts[0]| + 1..] == Join(rest, [c]);
      SplitJoin(rest, c);
    }
  }

  /** Joining the first `k` pieces gives a prefix of joining them all. */
  lemma {:induction false} JoinPrefix(parts: seq<string>, sep: string, k: nat)
    requires k <= |parts|
    ensures Join(parts[..k], sep) <= Join(parts, sep)
    decreases |parts| - k
  {
    if k < |parts| {
      JoinPrefix(parts, sep, k + 1);
      var p := parts[..k + 1];
      assert p[..k] == parts[..k];
      if k >= 1 {
        assert Join(p, sep) == Join(parts[..k], sep) + sep + parts[k];
      }
    } else {
      assert parts[..k] == parts;
    }
  }

  /** The concatenation of `lines`, each followed by `c` (a `c`-terminated text). */
  function Terminated(lines: seq<string>, c: char): string
  {
    if |lines| == 0 then "" else lines[0] + [c] + Terminated(lines[1..], c)
  }

  /** Splitting a `c`-terminated text yields its lines and one empty last piece. */
  lemma {:induction false} SplitTerminated(lines: seq<string>, c: char)
    requires forall i, k :: 0 <= i < |lines| && 0 <= k < |lines[i]| ==> lines[i][k] != c
    ensures Split(Terminated(lines, c), c) == lines + [""]
    decreases |lines|
  {
    if |lines| > 0 {
      var s := Terminated(lines, c);
      var l := lines[0];
      assert s == l + [c] + Terminated(lines[1..], c);
      assert IndexOf(s, c) == |l| by {
        IndexOfIsFirst(s, c);
        assert s[|l|] == c;
        assert forall i :: 0 <= i < |l| ==> s[i] == l[i];
      }
      assert s[..|l|] == l;
      assert s[|l| + 1..] == Terminated(lines[1..], c);
      SplitTerminated(lines[1..], c);
      assert lines + [""] == [l] + (lines[1..] + [""]);
    }
  }
}
