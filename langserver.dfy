/**
  Choosing the language server for a file (server/langserver/langserver.go,
  ForFile): the first configured server, in configuration order, that lists
  the file's extension.
*/
module LangServer {
  import opened Wrappers
  import opened GoStrings

  /** config.LangServer, reduced to what selection reads: the server's address and its extensions. */
  datatype LangServerConfig = LangServerConfig(address: string, extensions: seq<string>)

  /** Whether `server` lists extension `ext`, compared exactly. */
  predicate Serves(server: LangServerConfig, ext: string)
  {
    exists k :: 0 <= k < |server.extensions| && server.extensions[k] == ext
  }

  /** Lines 18-22: the inner loop over one server's extensions. */
  function ListsFrom(extensions: seq<string>, ext: string, k: nat): (found: bool)
    requires k <= |extensions|
    ensures found <==> exists q :: k <= q < |extensions| && extensions[q] == ext
    decreases |extensions| - k
  {
    if k == |extensions| then false
    else if extensions[k] == ext then true
    else ListsFrom(extensions, ext, k + 1)
  }

  /** Lines 17-24: the index of the first server from `from` on that lists `ext`. */
  function FirstServing(servers: seq<LangServerConfig>, ext: string, from: nat): (r: Option<nat>)
    requires from <= |servers|
    ensures r.Some? ==> from <= r.value < |servers| && Serves(servers[r.value], ext)
    ensures r.Some? ==> forall j :: from <= j < r.value ==> !Serves(servers[j], ext)
    ensures r.None? <==> forall j :: from <= j < |servers| ==> !Serves(servers[j], ext)
    decreases |servers| - from
  {
    if from == |servers| then None
    else if ListsFrom(servers[from].extensions, ext, 0) then Some(from)
    else FirstServing(servers, ext, from + 1)
  }

  /** ForFile: the server for `filePath`, or None (Go's nil) when no server lists its extension. */
  function ForFile(servers: seq<LangServerConfig>, filePath: string): (r: Option<LangServerConfig>)
  {
    match FirstServing(servers, Ext(filePath), 0)
    case None => None
    case Some(i) => Some(servers[i])
  }

  /**
    The server chosen is one that lists the file's extension, and every
    server configured before it does not; there is none exactly when no
    server lists the extension.
  */
  lemma ForFileIsFirstMatch(servers: seq<LangServerConfig>, filePath: string)
    ensures ForFile(servers, filePath).None? <==> forall j :: 0 <= j < |servers| ==> !Serves(servers[j], Ext(filePath))
    ensures ForFile(servers, filePath).Some? ==>
      exists i :: 0 <= i < |servers| && servers[i] == ForFile(servers, filePath).value
        && Serves(servers[i], Ext(filePath)) && forall j :: 0 <= j < i ==> !Serves(servers[j], Ext(filePath))
  {
    var r := FirstServing(servers, Ext(filePath), 0);
    if r.Some? {
      assert servers[r.value] == ForFile(servers, filePath).value;
    }
  }

  /** A server listed first that serves the extension is chosen, whatever follows it. */
  lemma {:induction false} FirstServerWins(server: LangServerConfig, rest: seq<LangServerConfig>, filePath: string)
    requires Serves(server, Ext(filePath))
    ensures ForFile([server] + rest, filePath) == Some(server)
  {
    var k :| 0 <= k < |server.extensions| && server.extensions[k] == Ext(filePath);
    assert ([server] + rest)[0] == server;
  }

  /** A server that does not serve the extension can be dropped from the front without changing the choice. */
  lemma {:induction false} NonServingServerIsSkipped(server: LangServerConfig, rest: seq<LangServerConfig>, filePath: string)
    requires !Serves(server, Ext(filePath))
    ensures ForFile([server] + rest, filePath) == ForFile(rest, filePath)
  {
    var all := [server] + rest;
    var ext := Ext(filePath);
    var a := FirstServing(all, ext, 1);
    var b := FirstServing(rest, ext, 0);
    FirstServingShift(server, rest, ext, 0);
  }

  /** Searching behind an extra first server finds the same server one index later. */
  lemma {:induction false} FirstServingShift(server: LangServerConfig, rest: seq<LangServerConfig>, ext: string, from: nat)
    requires from <= |rest|
    ensures var a, b := FirstServing([server] + rest, ext, from + 1), FirstServing(rest, ext, from);
      a.None? == b.None? && (a.Some? ==> a.value == b.value + 1)
    decreases |rest| - from
  {
    var all := [server] + rest;
    if from < |rest| {
      assert all[from + 1] == rest[from];
      FirstServingShift(server, rest, ext, from + 1);
    }
  }

  /** Two paths with the same extension get the same server. */
  lemma SameExtensionSameServer(servers: seq<LangServerConfig>, p: string, q: string)
    requires Ext(p) == Ext(q)
    ensures ForFile(servers, p) == ForFile(servers, q)
  {
  }

  /** A Go server is not chosen for "main.GO": extensions are compared case included. */
  lemma ForFileIsCaseSensitive()
    ensures ForFile([LangServerConfig("localhost:4389", [".go"])], "main.GO") == None
  {
    MainGoUpperExtension();
    var server := LangServerConfig("localhost:4389", [".go"]);
    assert !Serves(server, ".GO") by {
      assert server.extensions[0] != ".GO";
    }
  }

  lemma MainGoUpperExtension()
    ensures Ext("main.GO") == ".GO"
  {
    var path := "main.GO";
    assert ExtFrom(path, 5) == ".GO";
  }

  /** The extension is that of the last path element: a dot in a directory name does not count. */
  lemma ForFileUsesLastElement()
    ensures ForFile([LangServerConfig("localhost:4389", [".go"])], "cmd.go/x") == None
  {
    DirectoryDotIgnored();
    var server := LangServerConfig("localhost:4389", [".go"]);
    assert !Serves(server, "") by {
      assert server.extensions[0] != "";
    }
  }

  lemma DirectoryDotIgnored()
    ensures Ext("cmd.go/x") == ""
  {
    var path := "cmd.go/x";
    assert ExtFrom(path, 7) == "";
  }
}
