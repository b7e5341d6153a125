/** cmd/compress.go: the `compress` command's save step and its directory
    listing.  The save step names the output file by the rule shared with the
    API client (TinyPngApi.OutputPath) and then calls the api package's
    download helpers, one per requested option; those helpers are not part of
    this model, so a call is recorded as a DownloadCall and its outcome is
    supplied by the caller.  The listing filters a directory, flat or
    walked recursively, by a lower-cased suffix match. */
module Compress {
  import opened Wrappers
  import opened GoPath
  import opened TinyPngApi

  /** The options of the `compress` command that shape the download. */
  datatype SaveConfig = SaveConfig(
    metadata: seq<string>,
    convertTo: string,
    convertBG: string,
    resizeWidth: int,
    resizeHeight: int,
    resizeMethod: string)

  /** One call of a download helper of the api package, with its arguments:
      api.DownloadWithMetadata, api.DownloadWithConvert,
      api.DownloadWithResize and api.Download. */
  datatype DownloadCall =
    | MetadataCall(url: string, path: string, metadata: seq<string>)
    | ConvertCall(url: string, path: string, convertTo: string, convertBG: string)
    | ResizeCall(url: string, path: string, resizeMethod: string, width: int, height: int)
    | PlainCall(url: string, path: string)
  {
    /** The position of the helper in saveToLocal's fixed order. */
    function Rank(): nat {
      match this
      case MetadataCall(_, _, _) => 0
      case ConvertCall(_, _, _, _) => 1
      case ResizeCall(_, _, _, _, _) => 2
      case PlainCall(_, _) => 3
    }
  }

  /** No option asks for more than the compressed image. */
  predicate NoOption(c: SaveConfig) {
    |c.metadata| == 0 && c.convertTo == "" && c.resizeMethod == ""
  }

  /** The call serving one option, when that option is set. */
  function MetadataStep(c: SaveConfig, url: string, path: string): seq<DownloadCall> {
    if |c.metadata| > 0 then [MetadataCall(url, path, c.metadata)] else []
  }

  function ConvertStep(c: SaveConfig, url: string, path: string): seq<DownloadCall> {
    if c.convertTo != "" then [ConvertCall(url, path, c.convertTo, c.convertBG)] else []
  }

  function ResizeStep(c: SaveConfig, url: string, path: string): seq<DownloadCall> {
    if c.resizeMethod != "" then [ResizeCall(url, path, c.resizeMethod, c.resizeWidth, c.resizeHeight)] else []
  }

  /** The helpers saveToLocal calls when none fails: one per option that is
      set, in the order metadata, convert, resize; the plain download only
      when no option is set. */
  function Plan(c: SaveConfig, url: string, path: string): seq<DownloadCall> {
    if NoOption(c) then [PlainCall(url, path)]
    else MetadataStep(c, url, path) + ConvertStep(c, url, path) + ResizeStep(c, url, path)
  }

  /** The plan makes one to three calls, all for the same download URL and
      the same file. */
  lemma PlanShape(c: SaveConfig, url: string, path: string)
    ensures var r := Plan(c, url, path);
      1 <= |r| <= 3 &&
      forall i :: 0 <= i < |r| ==> r[i].url == url && r[i].path == path
  {
    var m := MetadataStep(c, url, path);
    var v := ConvertStep(c, url, path);
    var z := ResizeStep(c, url, path);
    if !NoOption(c) {
      var r := m + v + z;
      assert forall i :: 0 <= i < |r| ==> r[i] in m || r[i] in v || r[i] in z;
    }
  }

  /** Each option's call is in the plan exactly when the option is set, and
      the plain download exactly when none is. */
  lemma PlanMembers(c: SaveConfig, url: string, path: string)
    ensures var r := Plan(c, url, path);
      (MetadataCall(url, path, c.metadata) in r <==> |c.metadata| > 0) &&
      (ConvertCall(url, path, c.convertTo, c.convertBG) in r <==> c.convertTo != "") &&
      (ResizeCall(url, path, c.resizeMethod, c.resizeWidth, c.resizeHeight) in r <==> c.resizeMethod != "") &&
      (PlainCall(url, path) in r <==> NoOption(c))
  {
    var m := MetadataStep(c, url, path);
    var v := ConvertStep(c, url, path);
    var z := ResizeStep(c, url, path);
    if !NoOption(c) {
      assert PlainCall(url, path) !in m && PlainCall(url, path) !in v && PlainCall(url, path) !in z;
    }
  }

  /** The calls of the plan come in the fixed order metadata, convert,
      resize. */
  lemma PlanOrdered(c: SaveConfig, url: string, path: string)
    ensures var r := Plan(c, url, path);
      forall i, j :: 0 <= i < j < |r| ==> r[i].Rank() < r[j].Rank()
  {
    var m := MetadataStep(c, url, path);
    var v := ConvertStep(c, url, path);
    var z := ResizeStep(c, url, path);
    if !NoOption(c) {
      var r := m + v + z;
      forall i | 0 <= i < |r|
        ensures r[i].Rank() == (if i < |m| then 0 else if i < |m| + |v| then 1 else 2)
      {
        if i < |m| {
          assert r[i] == m[i];
        } else if i < |m| + |v| {
          assert r[i] == v[i - |m|];
        } else {
          assert r[i] == z[i - |m| - |v|];
        }
      }
    }
  }

  /** The calls that were made, in order, and the error that ended them. */
  datatype Issued = Issued(calls: seq<DownloadCall>, err: Option<Error>)

  /** Making the calls of `plan` in order, where `perform` gives each call's
      outcome: the first failure is returned at once and nothing after it
      is called. */
  function Run(plan: seq<DownloadCall>, perform: DownloadCall -> Option<Error>): Issued
    decreases |plan|
  {
    if plan == [] then Issued([], None)
    else
      var e := perform(plan[0]);
      if e.Some? then Issued([plan[0]], e)
      else
        var rest := Run(plan[1..], perform);
        Issued([plan[0]] + rest.calls, rest.err)
  }

  /** The calls made are a prefix of the plan; all but the last succeeded;
      the plan is finished exactly when no error is returned, and an error
      is the outcome of the last call made. */
  lemma {:induction false} RunStopsAtFirstFailure(plan: seq<DownloadCall>, perform: DownloadCall -> Option<Error>)
    ensures var r := Run(plan, perform);
      |r.calls| <= |plan| && r.calls == plan[..|r.calls|] &&
      (r.err.None? <==> r.calls == plan && forall i :: 0 <= i < |plan| ==> perform(plan[i]).None?) &&
      (r.err.Some? ==> r.calls != [] && r.err == perform(r.calls[|r.calls| - 1])) &&
      (forall i :: 0 <= i < |r.calls| - 1 ==> perform(r.calls[i]).None?)
    decreases |plan|
  {
    if plan != [] && perform(plan[0]).None? {
      RunStopsAtFirstFailure(plan[1..], perform);
      var rest := Run(plan[1..], perform);
      assert Run(plan, perform).calls == [plan[0]] + rest.calls;
      assert plan == [plan[0]] + plan[1..];
    }
  }

  /** Calls that all succeeded, followed by the rest of a plan, run as the
      whole plan does. */
  lemma {:induction false} RunAfter(done: seq<DownloadCall>, todo: seq<DownloadCall>, perform: DownloadCall -> Option<Error>)
    requires forall i :: 0 <= i < |done| ==> perform(done[i]).None?
    ensures Run(done + todo, perform) == Issued(done + Run(todo, perform).calls, Run(todo, perform).err)
    decreases |done|
  {
    if done == [] {
      assert done + todo == todo;
    } else {
      assert (done + todo)[1..] == done[1..] + todo;
      assert (done + todo)[0] == done[0];
      RunAfter(done[1..], todo, perform);
      assert [done[0]] + (done[1..] + Run(todo, perform).calls) == done + Run(todo, perform).calls;
    }
  }

  /** A plan whose first `|done|` calls succeed and whose next call fails
      stops right there. */
  lemma RunFailsAt(done: seq<DownloadCall>, call: DownloadCall, rest: seq<DownloadCall>, perform: DownloadCall -> Option<Error>)
    requires forall i :: 0 <= i < |done| ==> perform(done[i]).None?
    requires perform(call).Some?
    ensures Run(done + [call] + rest, perform) == Issued(done + [call], perform(call))
  {
    assert done + [call] + rest == done + ([call] + rest);
    RunAfter(done, [call] + rest, perform);
  }

  predicate AllSucceed(done: seq<DownloadCall>, perform: DownloadCall -> Option<Error>) {
    forall i :: 0 <= i < |done| ==> perform(done[i]).None?
  }

  lemma SucceedAppend(done: seq<DownloadCall>, call: DownloadCall, perform: DownloadCall -> Option<Error>)
    requires AllSucceed(done, perform) && perform(call).None?
    ensures AllSucceed(done + [call], perform)
  {
  }

  /** A plan whose calls all succeed is made in full. */
  lemma RunSucceeds(done: seq<DownloadCall>, perform: DownloadCall -> Option<Error>)
    requires forall i :: 0 <= i < |done| ==> perform(done[i]).None?
    ensures Run(done, perform) == Issued(done, None)
  {
    RunAfter(done, [], perform);
    assert done + [] == done;
  }

  /** saveConfig.saveToLocal: name the output file, then download it.  A
      URL that net/url refuses ends the call before any download. */
  method SaveToLocal(c: SaveConfig, savePath: string, result: CompressResult, perform: DownloadCall -> Option<Error>)
    returns (calls: seq<DownloadCall>, err: Option<Error>)
    requires NamingDefined(result.originalFile, result.input.typ)
    ensures OutputPath(savePath, result.originalFile, result.input.typ).Failure? ==>
      calls == [] && err == Some(OutputPath(savePath, result.originalFile, result.input.typ).error)
    ensures OutputPath(savePath, result.originalFile, result.input.typ).Success? ==>
      Issued(calls, err) == Run(Plan(c, result.downloadUrl, OutputPath(savePath, result.originalFile, result.input.typ).value), perform)
  {
    var named := OutputPath(savePath, result.originalFile, result.input.typ);
    if named.Failure? {
      return [], Some(named.error);
    }
    calls, err := Dispatch(c, result.downloadUrl, named.value, perform);
  }

  /** The download part of saveConfig.saveToLocal: call the helpers for the
      requested options in order, stopping at the first error; the flag
      `normalDownload` remembers whether any option was served, and only
      when none was is the plain download made. */
  method Dispatch(c: SaveConfig, url: string, fullPath: string, perform: DownloadCall -> Option<Error>)
    returns (calls: seq<DownloadCall>, err: Option<Error>)
    ensures Issued(calls, err) == Run(Plan(c, url, fullPath), perform)
  {
    ghost var m := MetadataStep(c, url, fullPath);
    ghost var v := ConvertStep(c, url, fullPath);
    ghost var z := ResizeStep(c, url, fullPath);
    calls := [];
    var normalDownload := true;

    if |c.metadata| > 0 {
      var call := MetadataCall(url, fullPath, c.metadata);
      calls := calls + [call];
      err := perform(call);
      if err.Some? {
        RunFailsAt([], call, v + z, perform);
        assert [] + [call] + (v + z) == m + v + z;
        return;
      }
      normalDownload := false;
    }
    assert calls == m && AllSucceed(calls, perform);

    if c.convertTo != "" {
      var call := ConvertCall(url, fullPath, c.convertTo, c.convertBG);
      calls := calls + [call];
      err := perform(call);
      if err.Some? {
        RunFailsAt(m, call, z, perform);
        return;
      }
      SucceedAppend(m, call, perform);
      normalDownload := false;
    }
    assert calls == m + v && AllSucceed(calls, perform);

    if c.resizeMethod != "" {
      var call := ResizeCall(url, fullPath, c.resizeMethod, c.resizeWidth, c.resizeHeight);
      calls := calls + [call];
      err := perform(call);
      if err.Some? {
        RunFailsAt(m + v, call, [], perform);
        assert m + v + [call] + [] == m + v + z;
        return;
      }
      SucceedAppend(m + v, call, perform);
      normalDownload := false;
    }
    assert calls == m + v + z && AllSucceed(calls, perform);
    assert normalDownload <==> NoOption(c);

    if normalDownload {
      var call := PlainCall(url, fullPath);
      calls := calls + [call];
      err := perform(call);
      if err.Some? {
        RunFailsAt([], call, [], perform);
        assert [] + [call] + [] == [call];
        return;
      }
    }
    err := None;
    RunSucceeds(calls, perform);
  }

  /** Whatever the helpers answer, saveToLocal makes at most three calls,
      all for the same download URL and the same file, in the fixed order
      metadata, convert, resize, and the plain download only when no option
      is set; it reports success exactly when every planned call succeeded. */
  lemma DispatchOutcome(c: SaveConfig, url: string, path: string, perform: DownloadCall -> Option<Error>)
    ensures var r := Run(Plan(c, url, path), perform);
      1 <= |r.calls| <= 3 &&
      (forall i :: 0 <= i < |r.calls| ==> r.calls[i].url == url && r.calls[i].path == path) &&
      (forall i, j :: 0 <= i < j < |r.calls| ==> r.calls[i].Rank() < r.calls[j].Rank()) &&
      (PlainCall(url, path) in r.calls ==> NoOption(c)) &&
      (r.err.None? <==> AllSucceed(Plan(c, url, path), perform))
  {
    var plan := Plan(c, url, path);
    PlanShape(c, url, path);
    PlanMembers(c, url, path);
    PlanOrdered(c, url, path);
    RunStopsAtFirstFailure(plan, perform);
    var r := Run(plan, perform);
    PrefixOfPlan(plan, |r.calls|, url, path);
  }

  /** The calls made before a stop keep the plan's target and order. */
  lemma PrefixOfPlan(plan: seq<DownloadCall>, k: int, url: string, path: string)
    requires 0 <= k <= |plan|
    requires forall i :: 0 <= i < |plan| ==> plan[i].url == url && plan[i].path == path
    requires forall i, j :: 0 <= i < j < |plan| ==> plan[i].Rank() < plan[j].Rank()
    ensures forall i :: 0 <= i < k ==> plan[..k][i].url == url && plan[..k][i].path == path
    ensures forall i, j :: 0 <= i < j < k ==> plan[..k][i].Rank() < plan[..k][j].Rank()
    ensures forall x :: x in plan[..k] ==> x in plan
  {
  }

  /** The `compress` command and CompressResult.SaveToLocal name the output
      alike, whatever the services answer: both fail with net/url's error on
      a refused URL; otherwise every call the command makes targets the one
      path OutputPath gives, and the client, when it saves, saves there. */
  lemma CommandAndClientWriteSameFile(
    c: SaveConfig, savePath: string, result: CompressResult, perform: DownloadCall -> Option<Error>,
    metadata: seq<string>, apiKey: string, environ: map<string, string>,
    reply: Result<HttpResponse, Error>, written: Option<Error>)
    requires NamingDefined(result.originalFile, result.input.typ)
    ensures var named := OutputPath(savePath, result.originalFile, result.input.typ);
      var client := TinyPngApi.SaveToLocal(result, savePath, metadata, apiKey, environ, reply, written);
      (named.Failure? ==> client.outcome == Failure(named.error)) &&
      (named.Success? ==>
        (forall i :: 0 <= i < |Run(Plan(c, result.downloadUrl, named.value), perform).calls| ==>
           Run(Plan(c, result.downloadUrl, named.value), perform).calls[i].path == named.value) &&
        (client.outcome.Success? ==> client.outcome.value == named.value))
  {
    var named := OutputPath(savePath, result.originalFile, result.input.typ);
    if named.Success? {
      DispatchOutcome(c, result.downloadUrl, named.value, perform);
    }
  }

  // ---------------------------------------------------------------------
  // listFiles.

  /** A directory entry as the listing sees it: a file, a directory with
      its entries in the order they are read, or a directory whose contents
      cannot be read (the error's text is `reason`). */
  datatype Node =
    | File(name: string)
    | Directory(name: string, entries: seq<Node>)
    | Unreadable(name: string, reason: string)
  {
    predicate IsDir() {
      !File?
    }
  }

  /** The filter of sendFile: the lower-cased path ends with one of the
      configured extensions, compared as given (no dot is required and the
      extension itself is not lower-cased). */
  predicate Matches(path: string, extensions: seq<string>): (m: bool)
    ensures m <==> exists i :: 0 <= i < |extensions| && EndsWithFolded(path, extensions[i])
  {
    exists i :: 0 <= i < |extensions| && HasSuffix(ToLower(path), extensions[i])
  }

  /** `path` ends with `ext` once each of its letters is lower-cased; `ext`
      is compared as given. */
  predicate EndsWithFolded(path: string, ext: string) {
    |ext| <= |path| && forall k :: 0 <= k < |ext| ==> LowerChar(path[|path| - |ext| + k]) == ext[k]
  }

  /** sendFile: try the extensions in order and queue the path at the first
      that matches; a path is queued at most once. */
  method SendFile(files: seq<string>, path: string, extensions: seq<string>) returns (queued: seq<string>)
    ensures queued == if Matches(path, extensions) then files + [path] else files
  {
    queued := files;
    var lower := ToLower(path);
    var i := 0;
    while i < |extensions|
      invariant 0 <= i <= |extensions|
      invariant forall k :: 0 <= k < i ==> !HasSuffix(lower, extensions[k])
      invariant queued == files
    {
      if HasSuffix(lower, extensions[i]) {
        queued := queued + [path];
        return;
      }
      i := i + 1;
    }
  }

  /** What a flat listing queues for `entries` of directory `dir`: the joined
      path of each file entry that matches, in listing order; directories are
      skipped. */
  function FlatListing(dir: string, entries: seq<Node>, extensions: seq<string>): seq<string>
    decreases |entries|
  {
    if entries == [] then []
    else
      Queued(dir, entries[0], extensions) + FlatListing(dir, entries[1..], extensions)
  }

  /** What one entry of directory `dir` contributes to a flat listing. */
  function Queued(dir: string, e: Node, extensions: seq<string>): seq<string> {
    if !e.IsDir() && Matches(Join(dir, e.name), extensions) then [Join(dir, e.name)] else []
  }

  /** The paths queued by a walk, in order, and the error that stopped it. */
  datatype Trace = Trace(sent: seq<string>, err: Option<Error>)

  /** filepath.WalkDir with listFiles' callback: a file is offered to
      sendFile under its joined path; a directory is entered and its entries
      walked in order; a directory that cannot be read makes the callback
      return the error, which ends the whole walk. */
  function Walk(path: string, node: Node, extensions: seq<string>): Trace
    decreases node
  {
    match node
    case File(_) => Trace(if Matches(path, extensions) then [path] else [], None)
    case Unreadable(_, reason) => Trace([], Some(FileError(reason)))
    case Directory(_, entries) => WalkEntries(path, entries, extensions)
  }

  function WalkEntries(dir: string, entries: seq<Node>, extensions: seq<string>): Trace
    decreases entries
  {
    if entries == [] then Trace([], None)
    else
      var first := Walk(Join(dir, entries[0].name), entries[0], extensions);
      if first.err.Some? then first
      else
        var rest := WalkEntries(dir, entries[1..], extensions);
        Trace(first.sent + rest.sent, rest.err)
  }

  /** The result of listFiles for the directory `root` found at `path`:
      every matching file, or the error that stopped the read or the walk. */
  function Listing(path: string, root: Node, recursive: bool, extensions: seq<string>): Result<seq<string>, Error> {
    if recursive then
      var t := Walk(path, root, extensions);
      if t.err.Some? then Failure(t.err.value) else Success(t.sent)
    else
      match root
      case File(_) => Failure(FileError("not a directory"))
      case Unreadable(_, reason) => Failure(FileError(reason))
      case Directory(_, entries) => Success(FlatListing(path, entries, extensions))
  }

  /** One turn of the flat listing loop: queueing entry `i` (or skipping it)
      keeps the queue a prefix of the listing of all entries. */
  lemma FlatListingStep(dir: string, entries: seq<Node>, i: int, extensions: seq<string>, before: seq<string>, after: seq<string>)
    requires 0 <= i < |entries|
    requires before + FlatListing(dir, entries[i..], extensions) == FlatListing(dir, entries, extensions)
    requires after == if !entries[i].IsDir() && Matches(Join(dir, entries[i].name), extensions)
      then before + [Join(dir, entries[i].name)] else before
    ensures after + FlatListing(dir, entries[i + 1..], extensions) == FlatListing(dir, entries, extensions)
  {
    var q := Queued(dir, entries[i], extensions);
    assert after == before + q;
    var rest := FlatListing(dir, entries[i + 1..], extensions);
    assert entries[i..][1..] == entries[i + 1..];
    assert FlatListing(dir, entries[i..], extensions) == q + rest;
    AppendAssociates(before, q, rest);
  }

  /** The flat branch of listFiles: the entries of `path`, files only, each
      offered to sendFile under its joined path. */
  method ListFlat(path: string, entries: seq<Node>, extensions: seq<string>) returns (files: seq<string>)
    ensures files == FlatListing(path, entries, extensions)
  {
    files := [];
    var i := 0;
    while i < |entries|
      invariant 0 <= i <= |entries|
      invariant files + FlatListing(path, entries[i..], extensions) == FlatListing(path, entries, extensions)
    {
      var entry := entries[i];
      ghost var before := files;
      if !entry.IsDir() {
        files := SendFile(files, Join(path, entry.name), extensions);
      }
      FlatListingStep(path, entries, i, extensions, before, files);
      i := i + 1;
    }
    assert entries[i..] == [];
  }

  /** The recursive branch of listFiles: filepath.WalkDir from `path`. */
  method WalkDir(path: string, node: Node, extensions: seq<string>) returns (t: Trace)
    ensures t == Walk(path, node, extensions)
    decreases node
  {
    match node {
      case File(_) =>
        var files := SendFile([], path, extensions);
        return Trace(files, None);
      case Unreadable(_, reason) =>
        return Trace([], Some(FileError(reason)));
      case Directory(_, entries) =>
        var sent := [];
        var i := 0;
        while i < |entries|
          invariant 0 <= i <= |entries|
          invariant WalkEntries(path, entries, extensions) == Then(sent, WalkEntries(path, entries[i..], extensions))
        {
          assert entries[i..][1..] == entries[i + 1..];
          var sub := WalkDir(Join(path, entries[i].name), entries[i], extensions);
          if sub.err.Some? {
            return Trace(sent + sub.sent, sub.err);
          }
          sent := sent + sub.sent;
          i := i + 1;
        }
        assert entries[i..] == [];
        return Trace(sent, None);
    }
  }

  /** Paths already queued followed by the rest of a walk. */
  function Then(sent: seq<string>, rest: Trace): Trace {
    Trace(sent + rest.sent, rest.err)
  }

  /** listFiles: queue the matching files of the directory at `path`, walked
      recursively or read flat; a read or walk error is returned instead of
      the files. */
  method ListFiles(path: string, root: Node, recursive: bool, extensions: seq<string>) returns (r: Result<seq<string>, Error>)
    ensures r == Listing(path, root, recursive, extensions)
  {
    if recursive {
      var t := WalkDir(path, root, extensions);
      if t.err.Some? {
        return Failure(t.err.value);
      }
      return Success(t.sent);
    }
    match root {
      case File(_) =>
        return Failure(FileError("not a directory"));
      case Unreadable(_, reason) =>
        return Failure(FileError(reason));
      case Directory(_, entries) =>
        var files := ListFlat(path, entries, extensions);
        return Success(files);
    }
  }

  // ---------------------------------------------------------------------
  // What the listing promises.

  /** The flat listing holds exactly the joined paths of the file entries
      that match. */
  lemma {:induction false} FlatListingExactly(dir: string, entries: seq<Node>, extensions: seq<string>, x: string)
    ensures x in FlatListing(dir, entries, extensions) <==>
      exists i :: 0 <= i < |entries| && !entries[i].IsDir() && x == Join(dir, entries[i].name) && Matches(x, extensions)
    decreases |entries|
  {
    if entries != [] {
      FlatListingExactly(dir, entries[1..], extensions, x);
      if exists i :: 0 <= i < |entries| && !entries[i].IsDir() && x == Join(dir, entries[i].name) && Matches(x, extensions) {
        var i :| 0 <= i < |entries| && !entries[i].IsDir() && x == Join(dir, entries[i].name) && Matches(x, extensions);
        if i > 0 {
          assert entries[1..][i - 1] == entries[i];
        }
      }
      if exists i :: 0 <= i < |entries[1..]| && !entries[1..][i].IsDir() && x == Join(dir, entries[1..][i].name) && Matches(x, extensions) {
        var i :| 0 <= i < |entries[1..]| && !entries[1..][i].IsDir() && x == Join(dir, entries[1..][i].name) && Matches(x, extensions);
        assert entries[i + 1] == entries[1..][i];
      }
    }
  }

  /** Each entry contributes at most one path, so the listing is never
      longer than the directory. */
  lemma {:induction false} FlatListingAtMostOnePerEntry(dir: string, entries: seq<Node>, extensions: seq<string>)
    ensures |FlatListing(dir, entries, extensions)| <= |entries|
    decreases |entries|
  {
    if entries != [] {
      FlatListingAtMostOnePerEntry(dir, entries[1..], extensions);
    }
  }

  /** The paths of every file under `node`, which sits at `path`. */
  function FilesUnder(path: string, node: Node): set<string>
    decreases node
  {
    match node
    case File(_) => {path}
    case Unreadable(_, _) => {}
    case Directory(_, entries) => FilesAmong(path, entries)
  }

  function FilesAmong(dir: string, entries: seq<Node>): set<string>
    decreases entries
  {
    if entries == [] then {}
    else FilesUnder(Join(dir, entries[0].name), entries[0]) + FilesAmong(dir, entries[1..])
  }

  /** Some directory under `node` cannot be read. */
  predicate HasUnreadable(node: Node)
    decreases node
  {
    match node
    case File(_) => false
    case Unreadable(_, _) => true
    case Directory(_, entries) => AnyUnreadable(entries)
  }

  predicate AnyUnreadable(entries: seq<Node>)
    decreases entries
  {
    entries != [] && (HasUnreadable(entries[0]) || AnyUnreadable(entries[1..]))
  }

  /** A walk queues only matching files under its root; it fails exactly
      when some directory under the root cannot be read; and when it does
      not fail it has queued every matching file under the root. */
  lemma {:induction false} WalkFindsMatchingFiles(path: string, node: Node, extensions: seq<string>)
    ensures var t := Walk(path, node, extensions);
      (forall x :: x in t.sent ==> x in FilesUnder(path, node) && Matches(x, extensions)) &&
      (t.err.Some? <==> HasUnreadable(node)) &&
      (t.err.None? ==> forall x :: x in FilesUnder(path, node) && Matches(x, extensions) ==> x in t.sent)
    decreases node
  {
    match node
    case File(_) =>
    case Unreadable(_, _) =>
    case Directory(_, entries) =>
      WalkEntriesFindMatchingFiles(path, entries, extensions);
  }

  lemma {:induction false} WalkEntriesFindMatchingFiles(dir: string, entries: seq<Node>, extensions: seq<string>)
    ensures var t := WalkEntries(dir, entries, extensions);
      (forall x :: x in t.sent ==> x in FilesAmong(dir, entries) && Matches(x, extensions)) &&
      (t.err.Some? <==> AnyUnreadable(entries)) &&
      (t.err.None? ==> forall x :: x in FilesAmong(dir, entries) && Matches(x, extensions) ==> x in t.sent)
    decreases entries
  {
    if entries != [] {
      WalkFindsMatchingFiles(Join(dir, entries[0].name), entries[0], extensions);
      var first := Walk(Join(dir, entries[0].name), entries[0], extensions);
      if first.err.None? {
        WalkEntriesFindMatchingFiles(dir, entries[1..], extensions);
      }
    }
  }

  /** The filter ignores the case of the path: paths that lower-case alike
      are treated alike ("photo.PNG" passes the default "png"). */
  lemma CaseOfPathIgnored(p: string, q: string, extensions: seq<string>)
    requires ToLower(p) == ToLower(q)
    ensures Matches(p, extensions) <==> Matches(q, extensions)
  {
  }

  /** An extension holding an upper-case letter never matches anything,
      because only the path is lower-cased. */
  lemma UpperCaseExtensionNeverMatches(path: string, ext: string, k: int)
    requires 0 <= k < |ext| && 'A' <= ext[k] <= 'Z'
    ensures !Matches(path, [ext])
  {
    var lower := ToLower(path);
    if |ext| <= |lower| {
      var j := |lower| - |ext| + k;
      assert lower[|lower| - |ext|..][k] == lower[j];
      assert lower[j] != ext[k];
    }
  }

  /** No dot is needed: a lower-case extension matches any path ending in
      its text ("manjpg" passes "jpg"). */
  lemma ExtensionMatchesWithoutDot(stem: string, ext: string)
    requires forall k :: 0 <= k < |ext| ==> !('A' <= ext[k] <= 'Z')
    ensures Matches(stem + ext, [ext])
  {
    var lower := ToLower(stem + ext);
    assert lower[|lower| - |ext|..] == ext;
    assert HasSuffix(lower, [ext][0]);
  }

  // ---------------------------------------------------------------------
  // No path is queued twice.

  /** No element of `s` occurs twice. */
  predicate Distinct(s: seq<string>) {
    forall i, j :: 0 <= i < j < |s| ==> s[i] != s[j]
  }

  /** A name os.ReadDir can report for an entry: non-empty, without a separator. */
  predicate ElementName(n: string) {
    n != [] && NoSlash(n)
  }

  /** The entries of one directory have element names, no two alike. */
  predicate NamesWellFormed(entries: seq<Node>) {
    (forall i :: 0 <= i < |entries| ==> ElementName(entries[i].name)) &&
    (forall i, j :: 0 <= i < j < |entries| ==> entries[i].name != entries[j].name)
  }

  /** Every directory under `node` has well-formed entry names. */
  predicate WellNamed(node: Node)
    decreases node
  {
    match node
    case Directory(_, entries) =>
      NamesWellFormed(entries) && forall i :: 0 <= i < |entries| ==> WellNamed(entries[i])
    case _ => true
  }

  /** `s` is `p` itself or lies below it. */
  predicate Under(p: string, s: string) {
    s == p || HasPrefix(s, p + [Separator])
  }

  /** A walk root: non-empty and not ending in a separator. */
  predicate Rooted(p: string) {
    p != [] && p[|p| - 1] != Separator
  }

  /** Within one directory, distinct element names give distinct joined paths. */
  lemma JoinInjective(dir: string, a: string, b: string)
    requires ElementName(a) && ElementName(b)
    requires Join(dir, a) == Join(dir, b)
    ensures a == b
  {
    if dir != [] {
      assert TrimLeadingSlashes(a) == a;
      assert TrimLeadingSlashes(b) == b;
      var head := TrimTrailingSlashes(dir) + [Separator];
      assert Join(dir, a) == head + a && Join(dir, b) == head + b;
      assert a == (head + a)[|head|..];
    }
  }

  lemma DistinctAppend(s: seq<string>, t: seq<string>)
    requires Distinct(s) && Distinct(t)
    requires forall x :: x in s ==> x !in t
    ensures Distinct(s + t)
  {
    var st := s + t;
    forall i, j | 0 <= i < j < |st|
      ensures st[i] != st[j]
    {
      if j >= |s| && i < |s| {
        assert st[i] in s && st[j] == t[j - |s|];
      } else if i >= |s| {
        assert st[i] == t[i - |s|] && st[j] == t[j - |s|];
      }
    }
  }

  /** When the names of a directory's entries are well formed, its flat
      listing queues no path twice. */
  lemma {:induction false} FlatListingDuplicateFree(dir: string, entries: seq<Node>, extensions: seq<string>)
    requires NamesWellFormed(entries)
    ensures Distinct(FlatListing(dir, entries, extensions))
    decreases |entries|
  {
    if entries != [] {
      var rest := entries[1..];
      NamesWellFormedTail(entries);
      FlatListingDuplicateFree(dir, rest, extensions);
      var q := Queued(dir, entries[0], extensions);
      forall x | x in q
        ensures x !in FlatListing(dir, rest, extensions)
      {
        FlatListingExactly(dir, rest, extensions, x);
        if x in FlatListing(dir, rest, extensions) {
          var i :| 0 <= i < |rest| && !rest[i].IsDir() && x == Join(dir, rest[i].name) && Matches(x, extensions);
          JoinInjective(dir, entries[0].name, rest[i].name);
        }
      }
      DistinctAppend(q, FlatListing(dir, rest, extensions));
    }
  }

  /** Under a root that does not end in a separator, joining an element
      name is appending it after one separator. */
  lemma JoinRooted(p: string, n: string)
    requires Rooted(p) && ElementName(n)
    ensures Join(p, n) == p + [Separator] + n
    ensures Rooted(Join(p, n))
  {
    JoinPlain(p, n);
  }

  /** A path below `p + "/" + n` is below `p`. */
  lemma UnderParent(p: string, n: string, s: string)
    requires Under(p + [Separator] + n, s)
    ensures HasPrefix(s, p + [Separator])
  {
    var q := p + [Separator];
    assert (q + n)[..|q|] == q;
    if s != q + n {
      assert (q + n + [Separator])[..|q|] == q;
    }
  }

  /** A path at or below `q + a` spells `a` right after `q`, followed by a
      separator when it goes on. */
  lemma SpellsEntry(q: string, a: string, s: string)
    requires Under(q + a, s)
    ensures |q| + |a| <= |s|
    ensures forall k :: 0 <= k < |a| ==> s[|q| + k] == a[k]
    ensures |q| + |a| < |s| ==> s[|q| + |a|] == Separator
  {
    if s != q + a {
      assert s[..|q + a| + 1] == q + a + [Separator];
    }
  }

  /** Only one entry of a directory has a given path at or below it. */
  lemma UnderOneEntry(p: string, a: string, b: string, s: string)
    requires ElementName(a) && ElementName(b)
    requires Under(p + [Separator] + a, s) && Under(p + [Separator] + b, s)
    ensures a == b
  {
    var q := p + [Separator];
    SpellsEntry(q, a, s);
    SpellsEntry(q, b, s);
  }

  /** Dropping the first entry keeps the names well formed, and no later
      entry shares the first one's name. */
  lemma NamesWellFormedTail(entries: seq<Node>)
    requires entries != [] && NamesWellFormed(entries)
    ensures NamesWellFormed(entries[1..])
    ensures forall j :: 0 <= j < |entries[1..]| ==> entries[1..][j].name != entries[0].name
  {
    var rest := entries[1..];
    forall i | 0 <= i < |rest|
      ensures ElementName(rest[i].name) && rest[i].name != entries[0].name
    {
      assert rest[i] == entries[i + 1];
    }
    forall i, j | 0 <= i < j < |rest|
      ensures rest[i].name != rest[j].name
    {
      assert rest[i] == entries[i + 1] && rest[j] == entries[j + 1];
    }
  }

  /** Everything a walk from a root queues lies at or below the root; from
      a directory, at or below one of its entries. */
  lemma {:induction false} WalkStaysUnder(p: string, node: Node, extensions: seq<string>)
    requires Rooted(p) && WellNamed(node)
    ensures forall s :: s in Walk(p, node, extensions).sent ==> Under(p, s)
    decreases node
  {
    match node
    case File(_) =>
    case Unreadable(_, _) =>
    case Directory(_, entries) =>
      WalkEntriesStayUnder(p, entries, extensions);
      assert Walk(p, node, extensions) == WalkEntries(p, entries, extensions);
      forall s | s in Walk(p, node, extensions).sent
        ensures Under(p, s)
      {
        var j :| 0 <= j < |entries| && Under(p + [Separator] + entries[j].name, s);
        UnderParent(p, entries[j].name, s);
      }
  }

  lemma {:induction false} WalkEntriesStayUnder(dir: string, entries: seq<Node>, extensions: seq<string>)
    requires Rooted(dir) && NamesWellFormed(entries)
    requires forall i :: 0 <= i < |entries| ==> WellNamed(entries[i])
    ensures forall s :: s in WalkEntries(dir, entries, extensions).sent ==>
      exists j :: 0 <= j < |entries| && Under(dir + [Separator] + entries[j].name, s)
    decreases entries
  {
    if entries != [] {
      var child := Join(dir, entries[0].name);
      JoinRooted(dir, entries[0].name);
      WalkStaysUnder(child, entries[0], extensions);
      var first := Walk(child, entries[0], extensions);
      if first.err.None? {
        var rest := entries[1..];
        NamesWellFormedTail(entries);
        WalkEntriesStayUnder(dir, rest, extensions);
        forall s | s in WalkEntries(dir, rest, extensions).sent
          ensures exists j :: 0 <= j < |entries| && Under(dir + [Separator] + entries[j].name, s)
        {
          var j :| 0 <= j < |rest| && Under(dir + [Separator] + rest[j].name, s);
          assert rest[j] == entries[j + 1];
        }
      }
      forall s | s in first.sent
        ensures Under(dir + [Separator] + entries[0].name, s)
      {
      }
    }
  }

  /** Trailing separators of a directory do not change its walk: its
      entries are joined under the trimmed directory either way. */
  lemma {:induction false} WalkEntriesTrimmed(dir: string, entries: seq<Node>, extensions: seq<string>)
    requires TrimTrailingSlashes(dir) != []
    ensures WalkEntries(dir, entries, extensions) == WalkEntries(TrimTrailingSlashes(dir), entries, extensions)
    decreases |entries|
  {
    if entries != [] {
      var trimmed := TrimTrailingSlashes(dir);
      assert TrimTrailingSlashes(trimmed) == trimmed;
      assert Join(dir, entries[0].name) == Join(trimmed, entries[0].name);
      WalkEntriesTrimmed(dir, entries[1..], extensions);
    }
  }

  /** A recursive walk from a root whose directories all have well-formed
      entry names queues no path twice.  The root may end in separators
      ("imgs/"), as long as something remains without them. */
  lemma {:induction false} WalkDuplicateFree(p: string, node: Node, extensions: seq<string>)
    requires TrimTrailingSlashes(p) != [] && WellNamed(node)
    ensures Distinct(Walk(p, node, extensions).sent)
    decreases node
  {
    match node
    case File(_) =>
    case Unreadable(_, _) =>
    case Directory(_, entries) =>
      WalkEntriesTrimmed(p, entries, extensions);
      WalkEntriesDuplicateFree(TrimTrailingSlashes(p), entries, extensions);
  }

  lemma {:induction false} WalkEntriesDuplicateFree(dir: string, entries: seq<Node>, extensions: seq<string>)
    requires Rooted(dir) && NamesWellFormed(entries)
    requires forall i :: 0 <= i < |entries| ==> WellNamed(entries[i])
    ensures Distinct(WalkEntries(dir, entries, extensions).sent)
    decreases entries
  {
    if entries != [] {
      var e := entries[0];
      var child := Join(dir, e.name);
      JoinRooted(dir, e.name);
      assert TrimTrailingSlashes(child) == child;
      WalkDuplicateFree(child, e, extensions);
      var first := Walk(child, e, extensions);
      if first.err.None? {
        var rest := entries[1..];
        NamesWellFormedTail(entries);
        WalkEntriesDuplicateFree(dir, rest, extensions);
        WalkStaysUnder(child, e, extensions);
        WalkEntriesStayUnder(dir, rest, extensions);
        var later := WalkEntries(dir, rest, extensions);
        forall s | s in first.sent
          ensures s !in later.sent
        {
          if s in later.sent {
            var j :| 0 <= j < |rest| && Under(dir + [Separator] + rest[j].name, s);
            UnderOneEntry(dir, e.name, rest[j].name, s);
          }
        }
        DistinctAppend(first.sent, later.sent);
      }
    }
  }

  // ---------------------------------------------------------------------
  // The buffered channel of listFiles.

  /** The buffer of the channel listFiles fills (cmd/compress.go:223). */
  const ChannelCapacity: nat := 100

  /** What the caller of listFiles gets: the listing, or nothing at all
      because a send blocked with the buffer full. */
  datatype ChannelOutcome = Delivered(listing: Result<seq<string>, Error>) | Blocked

  /** The paths listFiles sends into its channel before it returns. */
  function Sends(path: string, root: Node, recursive: bool, extensions: seq<string>): seq<string> {
    if recursive then Walk(path, root, extensions).sent
    else if root.Directory? then FlatListing(path, root.entries, extensions)
    else []
  }

  /** listFiles as written: each queued path is pushed, one at a time, into
      a channel with room for 100, and nothing receives from it until
      listFiles has returned. The first push onto a full buffer blocks, and
      with no other goroutine running the process deadlocks. */
  method ListFilesAsWritten(path: string, root: Node, recursive: bool, extensions: seq<string>) returns (r: ChannelOutcome)
    ensures r.Blocked? <==> |Sends(path, root, recursive, extensions)| > ChannelCapacity
    ensures r.Delivered? ==> r.listing == Listing(path, root, recursive, extensions)
  {
    var pending := Sends(path, root, recursive, extensions);
    var buffer: seq<string> := [];
    var i := 0;
    while i < |pending|
      invariant 0 <= i <= |pending|
      invariant buffer == pending[..i]
      invariant |buffer| <= ChannelCapacity
    {
      if |buffer| == ChannelCapacity {
        return Blocked;
      }
      buffer := buffer + [pending[i]];
      i := i + 1;
    }
    var listing := ListFiles(path, root, recursive, extensions);
    return Delivered(listing);
  }

  /** The name of the i-th image of the example directory: "a.png", "aa.png", ... */
  function Photo(i: nat): string {
    seq(i + 1, _ => 'a') + ".png"
  }

  /** A directory with `n` PNG files. */
  function Photos(n: nat): seq<Node> {
    seq(n, i requires 0 <= i < n => File(Photo(i)))
  }

  lemma PhotoMatches(i: nat)
    ensures Matches(Join("d", Photo(i)), ["png"])
  {
    var stem := seq(i + 1, _ => 'a');
    assert Photo(i)[0] == 'a';
    JoinPlain("d", Photo(i));
    assert Join("d", Photo(i)) == ("d" + [Separator] + stem + ".") + "png";
    ExtensionMatchesWithoutDot("d" + [Separator] + stem + ".", "png");
  }

  /** When every entry is a matching file, the flat listing has one path per entry. */
  lemma {:induction false} AllEntriesListed(dir: string, entries: seq<Node>, extensions: seq<string>)
    requires forall i :: 0 <= i < |entries| ==> entries[i].File? && Matches(Join(dir, entries[i].name), extensions)
    ensures |FlatListing(dir, entries, extensions)| == |entries|
    decreases |entries|
  {
    if entries != [] {
      AllEntriesListed(dir, entries[1..], extensions);
    }
  }

  /** A directory "d" holding more than 100 matching files (101 is the
      smallest such input) makes listFiles as written send more paths than
      its channel holds, so ListFilesAsWritten blocks on it, while the
      listing itself holds one path per file. */
  lemma MoreThanHundredFilesBlock(n: nat)
    requires n > ChannelCapacity
    ensures |Sends("d", Directory("d", Photos(n)), false, ["png"])| > ChannelCapacity
    ensures Listing("d", Directory("d", Photos(n)), false, ["png"]).Success?
    ensures |Listing("d", Directory("d", Photos(n)), false, ["png"]).value| == n
  {
    var entries := Photos(n);
    forall i | 0 <= i < |entries|
      ensures entries[i].File? && Matches(Join("d", entries[i].name), ["png"])
    {
      PhotoMatches(i);
    }
    AllEntriesListed("d", entries, ["png"]);
  }

  /** The listing that replaces the channel is never cut short: without an
      unreadable directory it succeeds in either mode, however many files
      match. */
  lemma ListingUnbounded(path: string, root: Node, recursive: bool, extensions: seq<string>)
    requires root.Directory? && !HasUnreadable(root)
    ensures Listing(path, root, recursive, extensions).Success?
    ensures Listing(path, root, recursive, extensions).value == Sends(path, root, recursive, extensions)
  {
    WalkFindsMatchingFiles(path, root, extensions);
  }
}
