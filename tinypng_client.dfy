/** internal/api/tinypng_client.go: the direct TinyPNG API client.  Network
    exchanges are modelled by the request the client builds and by the reply
    it is given (or the transport error in its place); file writes by their
    outcome. */
module TinyPngApi {
  import opened Wrappers
  import opened GoPath
  import opened NetUrl
  import Config

  const TinypngApiHost: string := "https://api.tinify.com"

  /** The separator put between the stripped source name and the new suffix
      (declared with the same value in package cmd and in package api). */
  const CompressedSuffix: string := "-compressed."

  const StatusOK: int := 200
  const StatusCreated: int := 201

  /** The timeout of the shared HTTP client, in seconds. */
  const ClientTimeoutSeconds: int := 60

  // ---------------------------------------------------------------------
  // strings.Split on one separator character.

  /** strings.Join of `parts` with `sep` between them. */
  function JoinWith(parts: seq<string>, sep: char): string
    decreases |parts|
  {
    if parts == [] then ""
    else if |parts| == 1 then parts[0]
    else parts[0] + [sep] + JoinWith(parts[1..], sep)
  }

  /** strings.Split: the fields between occurrences of `sep`; joining them
      back gives `s`, and there are two or more exactly when `sep` occurs. */
  function Split(s: string, sep: char): (parts: seq<string>)
    ensures |parts| >= 1
    ensures forall i :: 0 <= i < |parts| ==> sep !in parts[i]
    ensures JoinWith(parts, sep) == s
    ensures sep in s <==> |parts| >= 2
    decreases |s|
  {
    var head := Before(s, sep);
    if |head| == |s| then [s]
    else
      var rest := Split(s[|head| + 1..], sep);
      assert s == head + [sep] + s[|head| + 1..];
      [head] + rest
  }

  /** The second field of a split is the text between the first and the second separator. */
  lemma SecondField(s: string, sep: char)
    requires sep in s
    ensures Split(s, sep)[1] == Before(After(s, sep), sep)
  {
    var head := Before(s, sep);
    assert s == head + [sep] + s[|head| + 1..];
    CutAtFirst(head, s[|head| + 1..], sep);
  }

  // ---------------------------------------------------------------------
  // Response records.

  datatype CompressedFile = CompressedFile(size: int, typ: string) {

    /** Suffix: "jpg" for "image/jpeg"; otherwise field 1 of the type split at
        '/', i.e. the text between the first and the second '/'.  A type with
        no '/' makes the source index out of range and panic. */
    function Suffix(): (r: string)
      requires Separator in typ
      ensures NoSlash(r)
      ensures typ == "image/jpeg" ==> r == "jpg"
      ensures typ != "image/jpeg" ==> r == Before(After(typ, Separator), Separator)
    {
      if typ == "image/jpeg" then "jpg"
      else
        SecondField(typ, Separator);
        Split(typ, Separator)[1]
    }
  }

  /** The shrink endpoint's answer.  `output`/`input` come from the JSON body;
      `downloadUrl` is set from the Location header and `originalFile` by the
      caller. */
  datatype CompressResult = CompressResult(
    downloadUrl: string,
    originalFile: string,
    output: CompressedFile,
    input: CompressedFile)

  /** The file suffix of a `type/subtype` MIME type is the subtype. */
  lemma SuffixOfMimeType(kind: string, subtype: string)
    requires NoSlash(kind) && NoSlash(subtype)
    requires kind + "/" + subtype != "image/jpeg"
    ensures CompressedFile(0, kind + "/" + subtype).Suffix() == subtype
  {
    CutAtFirst(kind, subtype, Separator);
    assert Before(subtype, Separator) == subtype;
  }

  /** A type with several '/' contributes only its second field. */
  lemma SuffixIgnoresLaterFields(kind: string, subtype: string, more: string)
    requires NoSlash(kind) && NoSlash(subtype)
    ensures CompressedFile(0, kind + "/" + subtype + "/" + more).Suffix() == subtype
  {
    var t := kind + "/" + subtype + "/" + more;
    var rest := subtype + "/" + more;
    assert t == kind + [Separator] + rest;
    CutAtFirst(kind, rest, Separator);
    assert rest == subtype + [Separator] + more;
    CutAtFirst(subtype, more, Separator);
    assert Separator in After(t, Separator) by {
      assert rest[|subtype|] == Separator;
    }
    JpegTypeHasOneSeparator();
  }

  lemma JpegTypeHasOneSeparator()
    ensures Separator !in After("image/jpeg", Separator)
  {
    assert "image/jpeg" == "image" + [Separator] + "jpeg";
    CutAtFirst("image", "jpeg", Separator);
  }

  // ---------------------------------------------------------------------
  // Source classification.

  /** IsUrl: a case-sensitive prefix test for "http:" or "https:"; nothing
      else about the text is checked. */
  predicate IsUrl(s: string): (b: bool)
    ensures b <==> (5 <= |s| && s[0] == 'h' && s[1] == 't' && s[2] == 't' && s[3] == 'p' &&
                    (s[4] == ':' || (6 <= |s| && s[4] == 's' && s[5] == ':')))
  {
    HasPrefix(s, "http:") || HasPrefix(s, "https:")
  }

  /** A source is a URL exactly when it is "http:" or "https:" followed by anything. */
  lemma IsUrlIffHttpScheme(s: string)
    ensures IsUrl(s) <==> exists rest :: s == "http:" + rest || s == "https:" + rest
  {
    if HasPrefix(s, "http:") {
      assert s == "http:" + s[5..];
    } else if HasPrefix(s, "https:") {
      assert s == "https:" + s[6..];
    }
    if exists rest :: s == "http:" + rest || s == "https:" + rest {
      var rest :| s == "http:" + rest || s == "https:" + rest;
      if s == "http:" + rest {
        assert s[..5] == "http:";
      } else {
        assert s[..6] == "https:";
      }
    }
  }

  /** The prefix test does not fold case: upper-case schemes are local paths. */
  lemma IsUrlIsCaseSensitive(rest: string)
    ensures !IsUrl("HTTP:" + rest) && !IsUrl("HTTPS:" + rest) && !IsUrl("Https:" + rest)
  {
    assert ("HTTP:" + rest)[0] == 'H';
    assert ("HTTPS:" + rest)[0] == 'H';
    assert ("Https:" + rest)[0] == 'H';
  }

  // ---------------------------------------------------------------------
  // The lazily created client.

  class TinyPngClient {
    const timeoutSeconds: int

    constructor ()
      ensures timeoutSeconds == ClientTimeoutSeconds
    {
      timeoutSeconds := ClientTimeoutSeconds;
    }
  }

  /** The package-level variable `client` that GetTinyPNGClient fills once. */
  class ClientHolder {
    var client: TinyPngClient?

    constructor ()
      ensures client == null
    {
      client := null;
    }

    /** GetTinyPNGClient: returns the stored client; only when none is stored
        yet does it create one (with the 60-second timeout) and store it. */
    method GetTinyPNGClient() returns (c: TinyPngClient)
      modifies this
      ensures old(client) != null ==> c == old(client)
      ensures old(client) == null ==> fresh(c) && c.timeoutSeconds == ClientTimeoutSeconds
      ensures client == c
    {
      if client != null {
        return client;
      }
      c := new TinyPngClient();
      client := c;
    }
  }

  /** Every call after the first hands out the instance the first call stored. */
  method RepeatedCallsShareClient(holder: ClientHolder) returns (first: TinyPngClient, second: TinyPngClient)
    modifies holder
    ensures first == second && holder.client == first
    ensures old(holder.client) != null ==> first == old(holder.client)
  {
    first := holder.GetTinyPNGClient();
    second := holder.GetTinyPNGClient();
  }

  // ---------------------------------------------------------------------
  // HTTP exchanges.

  datatype HttpMethod = Get | Post

  /** What a request carries: nothing, an opened local file, the JSON
      {"source": {"url": ...}}, or the JSON {"preserve": [...]}. */
  datatype Body = NoBody | FileContents(path: string) | SourceUrl(url: string) | Preserve(metadata: seq<string>)

  datatype HttpRequest = HttpRequest(
    verb: HttpMethod,
    url: string,
    basicAuthKey: Option<string>,   // the password of basic auth user "api"
    contentType: Option<string>,
    body: Body)

  /** The parts of a response the client looks at. */
  datatype HttpResponse = HttpResponse(statusCode: int, status: string, location: string)

  /** The requests an operation sent, in order, and what it returned. */
  datatype Exchange<T> = Exchange(sent: seq<HttpRequest>, outcome: Result<T, Error>)

  /** The request sendCompressPost builds: a POST to /shrink, authenticated
      with the configured key.  Without a key the source panics before
      anything is sent. */
  function ShrinkRequest(apiKey: string, environ: map<string, string>, body: Body): (r: Result<HttpRequest, Error>)
    ensures r.Success? <==> Config.GetAPIKey(apiKey, environ).Success?
    ensures r.Success? ==> r.value.verb == Post && r.value.url == TinypngApiHost + "/shrink"
    ensures r.Success? ==> r.value.body == body && r.value.basicAuthKey == Some(Config.GetAPIKey(apiKey, environ).value)
    ensures r.Success? ==> r.value.basicAuthKey.value != ""
  {
    match Config.GetAPIKey(apiKey, environ)
    case Failure(e) => Failure(e)
    case Success(key) => Success(HttpRequest(Post, TinypngApiHost + "/shrink", Some(key), Some("application/json"), body))
  }

  /** How sendCompressPost reads the reply: any status but 201 Created is an
      error carrying the status text, decided before the body is decoded; on
      success the Location header becomes DownloadUrl, whatever the body said. */
  function ReadShrinkReply(reply: Result<HttpResponse, Error>, decoded: Result<CompressResult, string>): (r: Result<CompressResult, Error>)
    ensures r.Success? <==> reply.Success? && reply.value.statusCode == StatusCreated && decoded.Success?
    ensures reply.Failure? ==> r == Failure(reply.error)
    ensures reply.Success? && reply.value.statusCode != StatusCreated ==> r == Failure(StatusError(reply.value.status))
    ensures reply.Success? && reply.value.statusCode == StatusCreated && decoded.Failure? ==> r == Failure(DecodeError(decoded.error))
    ensures r.Success? ==> r.value.downloadUrl == reply.value.location
    ensures r.Success? ==> r.value.input == decoded.value.input && r.value.output == decoded.value.output
  {
    match reply
    case Failure(e) => Failure(e)
    case Success(resp) =>
      if resp.statusCode != StatusCreated then Failure(StatusError(resp.status))
      else
        match decoded
        case Failure(msg) => Failure(DecodeError(msg))
        case Success(body) => Success(body.(downloadUrl := resp.location))
  }

  /** Whatever URL the decoded body carried, the result's DownloadUrl is the
      Location header: bodies that differ only there give the same result. */
  lemma LocationOverridesDecodedUrl(reply: Result<HttpResponse, Error>, d1: CompressResult, d2: CompressResult)
    requires d1.(downloadUrl := "") == d2.(downloadUrl := "")
    ensures ReadShrinkReply(reply, Success(d1)) == ReadShrinkReply(reply, Success(d2))
  {
    if reply.Success? && reply.value.statusCode == StatusCreated {
      assert d1.(downloadUrl := reply.value.location) == d2.(downloadUrl := reply.value.location);
    }
  }

  /** sendCompressPost: build the request, send it, read the reply. */
  function SendCompressPost(
    apiKey: string, environ: map<string, string>, body: Body,
    reply: Result<HttpResponse, Error>, decoded: Result<CompressResult, string>): (x: Exchange<CompressResult>)
    ensures |x.sent| <= 1
    ensures x.sent == [] <==> Config.GetAPIKey(apiKey, environ).Failure?
    ensures x.sent == [] ==> x.outcome == Failure(ApiKeyNotSet)
    ensures x.sent != [] ==> x.sent == [ShrinkRequest(apiKey, environ, body).value]
    ensures x.sent != [] ==>
      (x.sent[0].verb == Post && x.sent[0].url == TinypngApiHost + "/shrink" &&
       x.sent[0].basicAuthKey == Some(Config.GetAPIKey(apiKey, environ).value) && x.sent[0].body == body)
    ensures x.sent != [] ==> x.outcome == ReadShrinkReply(reply, decoded)
  {
    match ShrinkRequest(apiKey, environ, body)
    case Failure(e) => Exchange([], Failure(e))
    case Success(req) => Exchange([req], ReadShrinkReply(reply, decoded))
  }

  /** CompressFromFile: the opened file is the request body; a file that does
      not open ends the call before anything is sent. */
  function CompressFromFile(
    apiKey: string, environ: map<string, string>, path: string, openError: Option<Error>,
    reply: Result<HttpResponse, Error>, decoded: Result<CompressResult, string>): (x: Exchange<CompressResult>)
    ensures openError.Some? ==> x == Exchange([], Failure(openError.value))
    ensures openError.None? ==> x == SendCompressPost(apiKey, environ, FileContents(path), reply, decoded)
  {
    if openError.Some? then Exchange([], Failure(openError.value))
    else SendCompressPost(apiKey, environ, FileContents(path), reply, decoded)
  }

  /** CompressFromUrl: the body names the source URL for the service to fetch. */
  function CompressFromUrl(
    apiKey: string, environ: map<string, string>, url: string,
    reply: Result<HttpResponse, Error>, decoded: Result<CompressResult, string>): (x: Exchange<CompressResult>)
    ensures |x.sent| <= 1
    ensures x.sent == [] <==> Config.GetAPIKey(apiKey, environ).Failure?
    ensures x.sent == [] ==> x.outcome == Failure(ApiKeyNotSet)
    ensures x.sent != [] ==> x.sent == [ShrinkRequest(apiKey, environ, SourceUrl(url)).value]
    ensures x.sent != [] ==>
      (x.sent[0].verb == Post && x.sent[0].url == TinypngApiHost + "/shrink" &&
       x.sent[0].basicAuthKey == Some(Config.GetAPIKey(apiKey, environ).value) && x.sent[0].body == SourceUrl(url))
    ensures x.sent != [] ==> x.outcome == ReadShrinkReply(reply, decoded)
  {
    SendCompressPost(apiKey, environ, SourceUrl(url), reply, decoded)
  }

  /** Uploading by URL and uploading an opened file differ only in the
      request body: the same key decides whether anything is sent, the
      same request line and headers are used, and the reply is read alike. */
  lemma UrlAndFileUploadsDifferOnlyInBody(
    apiKey: string, environ: map<string, string>, path: string, url: string,
    reply: Result<HttpResponse, Error>, decoded: Result<CompressResult, string>)
    ensures var byFile := CompressFromFile(apiKey, environ, path, None, reply, decoded);
      var byUrl := CompressFromUrl(apiKey, environ, url, reply, decoded);
      |byFile.sent| == |byUrl.sent| && byFile.outcome == byUrl.outcome &&
      (byUrl.sent != [] ==> byUrl.sent[0] == byFile.sent[0].(body := SourceUrl(url)))
  {
  }

  /** What the download helpers do with the reply: any status but 200 OK is
      an error carrying the status text and no file is created; otherwise the
      body is copied into `newFile`, whose outcome is `written`. */
  function ReadDownloadReply(newFile: string, reply: Result<HttpResponse, Error>, written: Option<Error>): (r: Result<string, Error>)
    ensures r.Success? <==> reply.Success? && reply.value.statusCode == StatusOK && written.None?
    ensures reply.Failure? ==> r == Failure(reply.error)
    ensures reply.Success? && reply.value.statusCode != StatusOK ==> r == Failure(StatusError(reply.value.status))
    ensures reply.Success? && reply.value.statusCode == StatusOK && written.Some? ==> r == Failure(written.value)
    ensures r.Success? ==> r.value == newFile
  {
    match reply
    case Failure(e) => Failure(e)
    case Success(resp) =>
      if resp.statusCode != StatusOK then Failure(StatusError(resp.status))
      else if written.Some? then Failure(written.value)
      else Success(newFile)
  }

  /** download: a plain, unauthenticated GET of the download URL. */
  function Download(url: string, newFile: string, reply: Result<HttpResponse, Error>, written: Option<Error>): (x: Exchange<string>)
    ensures x.sent == [HttpRequest(Get, url, None, None, NoBody)]
    ensures x.outcome.Success? <==> reply.Success? && reply.value.statusCode == StatusOK && written.None?
    ensures reply.Success? && reply.value.statusCode != StatusOK ==> x.outcome == Failure(StatusError(reply.value.status))
    ensures x.outcome == ReadDownloadReply(newFile, reply, written)
    ensures x.outcome.Success? ==> x.outcome.value == newFile
  {
    Exchange([HttpRequest(Get, url, None, None, NoBody)], ReadDownloadReply(newFile, reply, written))
  }

  /** downloadWithMetadata: an authenticated POST of {"preserve": metadata}
      to the download URL. */
  function DownloadWithMetadata(
    url: string, newFile: string, metadata: seq<string>, apiKey: string, environ: map<string, string>,
    reply: Result<HttpResponse, Error>, written: Option<Error>): (x: Exchange<string>)
    ensures x.sent == [] <==> Config.GetAPIKey(apiKey, environ).Failure?
    ensures x.sent != [] ==> x.sent == [HttpRequest(Post, url, Some(Config.GetAPIKey(apiKey, environ).value), Some("application/json"), Preserve(metadata))]
    ensures x.sent == [] ==> x.outcome == Failure(ApiKeyNotSet)
    ensures x.sent != [] ==> x.outcome == ReadDownloadReply(newFile, reply, written)
    ensures x.sent != [] ==> (x.outcome.Success? <==> reply.Success? && reply.value.statusCode == StatusOK && written.None?)
    ensures x.sent != [] && reply.Success? && reply.value.statusCode != StatusOK ==> x.outcome == Failure(StatusError(reply.value.status))
    ensures x.outcome.Success? ==> x.outcome.value == newFile
  {
    match Config.GetAPIKey(apiKey, environ)
    case Failure(e) => Exchange([], Failure(e))
    case Success(key) =>
      Exchange([HttpRequest(Post, url, Some(key), Some("application/json"), Preserve(metadata))],
               ReadDownloadReply(newFile, reply, written))
  }

  // ---------------------------------------------------------------------
  // The output file name.

  /** The source type's suffix is needed unless the source is a URL that net/url refuses. */
  predicate NamingDefined(original: string, mimeType: string) {
    (IsUrl(original) && UrlPath(original).Failure?) || Separator in mimeType
  }

  /** The naming rule for a local source (compress.go:176-181, the same lines
      in tinypng_client.go:107-112, and compress_web.go:99-103): with no
      output directory, the source path with its last extension replaced by
      "-compressed.<suffix>"; otherwise that new name built from the source's
      base name, joined under `savePath`. */
  function LocalOutputPath(savePath: string, original: string, suffix: string): (r: string)
    ensures HasSuffix(r, CompressedSuffix + suffix)
  {
    var tail := CompressedSuffix + suffix;
    if savePath == "" then TrimSuffix(original, Ext(original)) + tail
    else
      var filename := TrimSuffix(Base(original), Ext(original)) + tail;
      JoinKeepsSuffix(savePath, filename, tail);
      Join(savePath, filename)
  }

  /** The naming rule for a URL source, given the path component of the URL:
      its base name with the last extension replaced, joined under `savePath`. */
  function UrlOutputPath(savePath: string, urlPath: string, suffix: string): (r: string)
    ensures HasSuffix(r, CompressedSuffix + suffix)
  {
    var tail := CompressedSuffix + suffix;
    var filename := TrimSuffix(Base(urlPath), Ext(urlPath)) + tail;
    JoinKeepsSuffix(savePath, filename, tail);
    Join(savePath, filename)
  }

  /** Where the compressed copy of `original` is written (the rule shared,
      token for token, by CompressResult.SaveToLocal and cmd's
      saveConfig.saveToLocal).  A URL source is named from its path
      component, which fails when net/url refuses the URL; a local source
      follows LocalOutputPath.  The suffix is that of the source's type. */
  function OutputPath(savePath: string, original: string, mimeType: string): (r: Result<string, Error>)
    requires NamingDefined(original, mimeType)
    ensures r.Failure? <==> IsUrl(original) && UrlPath(original).Failure?
    ensures r.Failure? ==> r.error == UrlPath(original).error
    ensures !IsUrl(original) ==> r == Success(LocalOutputPath(savePath, original, CompressedFile(0, mimeType).Suffix()))
    ensures IsUrl(original) && UrlPath(original).Success? ==>
      r == Success(UrlOutputPath(savePath, UrlPath(original).value, CompressedFile(0, mimeType).Suffix()))
    ensures r.Success? ==> HasSuffix(r.value, CompressedSuffix + CompressedFile(0, mimeType).Suffix())
  {
    if IsUrl(original) then
      match UrlPath(original)
      case Failure(e) => Failure(e)
      case Success(path) => Success(UrlOutputPath(savePath, path, CompressedFile(0, mimeType).Suffix()))
    else Success(LocalOutputPath(savePath, original, CompressedFile(0, mimeType).Suffix()))
  }

  /** The text appended after the stem holds no separator. */
  lemma TailNoSlash(suffix: string)
    requires NoSlash(suffix)
    ensures NoSlash(CompressedSuffix + suffix)
  {
    assert NoSlash(CompressedSuffix);
  }

  /** The new file name built from a one-element name is itself one element. */
  lemma NameNoSlash(leaf: string, suffix: string)
    requires NoSlash(leaf) && NoSlash(suffix)
    ensures NoSlash(TrimSuffix(leaf, Ext(leaf)) + (CompressedSuffix + suffix))
  {
    var stem := TrimSuffix(leaf, Ext(leaf));
    assert forall i :: 0 <= i < |stem| ==> stem[i] == leaf[i];
    TailNoSlash(suffix);
  }

  /** A one-element leaf has the same extension wherever it sits. */
  lemma {:induction false} ExtSameUnderDir(dir: string, leaf: string)
    requires NoSlash(leaf)
    requires dir == [] || dir[|dir| - 1] == Separator
    ensures Ext(dir + leaf) == Ext(leaf)
    decreases |leaf|
  {
    var s := dir + leaf;
    if leaf == [] {
      assert s == dir;
    } else {
      var init := leaf[..|leaf| - 1];
      assert s[..|s| - 1] == dir + init;
      assert s[|s| - 1] == leaf[|leaf| - 1];
      ExtSameUnderDir(dir, init);
    }
  }

  /** With no output directory a local source's copy lands in the source's own
      directory, named after the source's last element with its extension
      replaced. */
  lemma {:induction false} LocalCopyBesideSource(original: string, suffix: string)
    requires NoSlash(suffix)
    ensures Dir(LocalOutputPath("", original, suffix)) == Dir(original)
    ensures LastElem(LocalOutputPath("", original, suffix))
         == TrimSuffix(LastElem(original), Ext(original)) + (CompressedSuffix + suffix)
  {
    var stem := TrimSuffix(original, Ext(original));
    assert LocalOutputPath("", original, suffix) == stem + (CompressedSuffix + suffix);
    StemOfSource(original);
    TailAppended(stem, suffix);
  }

  /** Dropping the extension keeps the directory and shortens the last element by it. */
  lemma StemOfSource(original: string)
    ensures Dir(TrimSuffix(original, Ext(original))) == Dir(original)
    ensures TrimSuffix(LastElem(original), Ext(original)) == LastElem(TrimSuffix(original, Ext(original)))
  {
    var ext := Ext(original);
    var stem := TrimSuffix(original, ext);
    assert stem + ext == original;
    LastElemAppend(stem, ext);
    DirAppend(stem, ext);
    TrimAppended(LastElem(stem), ext);
  }

  /** Appending "-compressed.<suffix>" keeps the directory and extends the last element. */
  lemma TailAppended(stem: string, suffix: string)
    requires NoSlash(suffix)
    ensures Dir(stem + (CompressedSuffix + suffix)) == Dir(stem)
    ensures LastElem(stem + (CompressedSuffix + suffix)) == LastElem(stem) + (CompressedSuffix + suffix)
  {
    TailNoSlash(suffix);
    LastElemAppend(stem, CompressedSuffix + suffix);
    DirAppend(stem, CompressedSuffix + suffix);
  }

  /** LocalOutputPath, unfolded for a source that is its own base name. */
  lemma LocalOutputPathOfElem(savePath: string, leaf: string, suffix: string)
    requires savePath != "" && Base(leaf) == leaf
    ensures LocalOutputPath(savePath, leaf, suffix)
         == Join(savePath, TrimSuffix(leaf, Ext(leaf)) + (CompressedSuffix + suffix))
  {
  }

  /** With an output directory, a local source contributes only its base
      name: the source's directory components are dropped, and the copy's
      directory is the output directory. */
  lemma LocalCopyUnderOutput(savePath: string, dir: string, leaf: string, suffix: string)
    requires savePath != "" && NoSlash(suffix)
    requires leaf != [] && NoSlash(leaf)
    requires dir == [] || dir[|dir| - 1] == Separator
    ensures LocalOutputPath(savePath, dir + leaf, suffix) == LocalOutputPath(savePath, leaf, suffix)
    ensures Dir(LocalOutputPath(savePath, leaf, suffix)) == TrimTrailingSlashes(savePath) + [Separator]
    ensures LastElem(LocalOutputPath(savePath, leaf, suffix))
         == TrimSuffix(leaf, Ext(leaf)) + (CompressedSuffix + suffix)
  {
    BaseOfElem(dir, leaf);
    BaseOfElem([], leaf);
    assert [] + leaf == leaf;
    ExtSameUnderDir(dir, leaf);
    var name := TrimSuffix(leaf, Ext(leaf)) + (CompressedSuffix + suffix);
    NameNoSlash(leaf, suffix);
    JoinPlacesName(savePath, name);
    LocalOutputPathOfElem(savePath, leaf, suffix);
  }

  /** Only the last extension is replaced: `p.x` becomes `p-compressed.<s>`
      (so `a.tar.gz` becomes `a.tar-compressed.<s>`). */
  lemma OnlyLastExtensionReplaced(p: string, x: string, suffix: string)
    requires NoSlash(x) && NoDot(x)
    ensures LocalOutputPath("", p + "." + x, suffix) == p + (CompressedSuffix + suffix)
  {
    ExtOfDotted(p, x);
    assert (p + "." + x)[..|p + "." + x| - |"." + x|] == p;
  }

  /** A source whose last element has no dot keeps its whole name as the stem. */
  lemma UndottedNameKept(dir: string, name: string, suffix: string)
    requires NoSlash(name) && NoDot(name)
    requires dir == [] || dir[|dir| - 1] == Separator
    ensures LocalOutputPath("", dir + name, suffix) == dir + name + (CompressedSuffix + suffix)
  {
    ExtOfUndotted(dir, name);
  }

  /** UrlOutputPath, unfolded for a path whose last element is `leaf`. */
  lemma UrlOutputPathOfElem(savePath: string, dirs: string, leaf: string, suffix: string)
    requires Base(dirs + leaf) == leaf && Ext(dirs + leaf) == Ext(leaf)
    ensures UrlOutputPath(savePath, dirs + leaf, suffix)
         == Join(savePath, TrimSuffix(leaf, Ext(leaf)) + (CompressedSuffix + suffix))
  {
  }

  /** A URL source is named from the last element of its path alone, and
      with no output directory the copy is that bare file name (written to
      the working directory). */
  lemma UrlCopyNamedFromPath(savePath: string, dirs: string, leaf: string, suffix: string)
    requires dirs != [] && dirs[|dirs| - 1] == Separator
    requires leaf != [] && NoSlash(leaf)
    requires NoSlash(suffix)
    ensures UrlOutputPath(savePath, dirs + leaf, suffix)
         == Join(savePath, TrimSuffix(leaf, Ext(leaf)) + (CompressedSuffix + suffix))
    ensures savePath == "" ==> NoSlash(UrlOutputPath(savePath, dirs + leaf, suffix))
  {
    BaseOfElem(dirs, leaf);
    ExtSameUnderDir(dirs, leaf);
    NameNoSlash(leaf, suffix);
    UrlOutputPathOfElem(savePath, dirs, leaf, suffix);
  }

  /** For a well-formed `http(s)://host/dirs/leaf` source, with or without
      a query and a fragment, OutputPath uses the URL's path `/dirs/leaf`
      and nothing else. */
  lemma UrlSourceUsesPathOnly(
    scheme: string, host: string, path: string, query: Option<string>, fragment: Option<string>,
    savePath: string, mimeType: string)
    requires scheme == "http" || scheme == "https"
    requires NoSlash(host) && '?' !in host && '#' !in host && NoCtl(host)
    requires path != [] && path[0] == Separator && '?' !in path && '#' !in path && NoCtl(path)
    requires query.Some? ==> '#' !in query.value && NoCtl(query.value)
    requires Separator in mimeType
    ensures OutputPath(savePath, HttpUrl(scheme, host, path, query, fragment), mimeType)
         == Success(UrlOutputPath(savePath, path, CompressedFile(0, mimeType).Suffix()))
  {
    UrlPathOfHierarchical(scheme, host, path, query, fragment);
    HierarchicalIsUrl(scheme, host, path, query, fragment);
  }

  /** Text after an "http:" or "https:" prefix does not change IsUrl. */
  lemma UrlExtended(s: string, t: string)
    requires IsUrl(s)
    ensures IsUrl(s + t)
  {
    if HasPrefix(s, "http:") {
      assert (s + t)[..5] == s[..5];
    } else {
      assert (s + t)[..6] == s[..6];
    }
  }

  lemma HierarchicalIsUrl(scheme: string, host: string, path: string, query: Option<string>, fragment: Option<string>)
    requires scheme == "http" || scheme == "https"
    ensures IsUrl(HttpUrl(scheme, host, path, query, fragment))
  {
    assert IsUrl(scheme + ":");
    var s := scheme + ":";
    UrlExtended(s, "//");
    UrlExtended(s + "//", host);
    UrlExtended(s + "//" + host, path);
    UrlExtended(s + "//" + host + path, Part('?', query));
    UrlExtended(s + "//" + host + path + Part('?', query), Part('#', fragment));
  }

  lemma LocalPhotoIsNotUrl()
    ensures !IsUrl("photo.PNG") && !IsUrl("/a/b/photo.png")
  {
    assert "photo.PNG"[0] == 'p';
    assert "/a/b/photo.png"[0] == '/';
  }

  lemma PhotoRenamed(suffix: string)
    ensures LocalOutputPath("", "photo.PNG", suffix) == "photo" + (CompressedSuffix + suffix)
    ensures TrimSuffix("photo.png", Ext("photo.png")) == "photo"
  {
    assert "photo" + "." + "PNG" == "photo.PNG";
    OnlyLastExtensionReplaced("photo", "PNG", suffix);
    assert "photo" + "." + "png" == "photo.png";
    ExtOfDotted("photo", "png");
  }

  lemma JpegSpelled()
    ensures Separator in "image/jpeg"
    ensures "photo" + (CompressedSuffix + "jpg") == "photo-compressed.jpg"
  {
    assert "image/jpeg"[5] == Separator;
  }

  /** `photo.PNG` with no output directory and a JPEG result becomes `photo-compressed.jpg`. */
  lemma ExamplePhotoBesideSource()
    ensures OutputPath("", "photo.PNG", "image/jpeg") == Success("photo-compressed.jpg")
  {
    LocalPhotoIsNotUrl();
    JpegSpelled();
    PhotoRenamed("jpg");
  }

  lemma WebpSuffix()
    ensures CompressedFile(0, "image/webp").Suffix() == "webp"
  {
    assert "image" + "/" + "webp" == "image/webp";
    SuffixOfMimeType("image", "webp");
  }

  lemma PhotoBaseName(suffix: string)
    requires NoSlash(suffix)
    ensures LocalOutputPath("/tmp/out", "/a/b/photo.png", suffix) == LocalOutputPath("/tmp/out", "photo.png", suffix)
    ensures Base("photo.png") == "photo.png"
  {
    PhotoPathSpelled();
    LocalCopyUnderOutput("/tmp/out", "/a/b/", "photo.png", suffix);
    BaseOfElem([], "photo.png");
  }

  lemma PhotoPathSpelled()
    ensures "/a/b/" + "photo.png" == "/a/b/photo.png" && [] + "photo.png" == "photo.png"
    ensures NoSlash("photo.png") && "/a/b/"[4] == Separator
  {
  }

  lemma PhotoUnderOutput(suffix: string)
    requires NoSlash(suffix)
    ensures LocalOutputPath("/tmp/out", "/a/b/photo.png", suffix) == "/tmp/out" + [Separator] + ("photo" + (CompressedSuffix + suffix))
  {
    PhotoBaseName(suffix);
    PhotoRenamed(suffix);
    LocalOutputPathOfElem("/tmp/out", "photo.png", suffix);
    assert "/tmp/out"[7] == 't';
    assert "photo"[0] == 'p';
    JoinPlain("/tmp/out", "photo" + (CompressedSuffix + suffix));
  }

  lemma WebpSpelled()
    ensures "/tmp/out" + [Separator] + ("photo" + (CompressedSuffix + "webp")) == "/tmp/out/photo-compressed.webp"
    ensures NoSlash("webp")
  {
  }

  /** `/a/b/photo.png` under `/tmp/out` with a WebP result becomes `/tmp/out/photo-compressed.webp`. */
  lemma ExamplePhotoUnderOutput()
    ensures OutputPath("/tmp/out", "/a/b/photo.png", "image/webp") == Success("/tmp/out/photo-compressed.webp")
  {
    LocalPhotoIsNotUrl();
    WebpSuffix();
    WebpSpelled();
    PhotoUnderOutput("webp");
  }

  // ---------------------------------------------------------------------
  // CompressResult.SaveToLocal.

  /** CompressResult.SaveToLocal: derive the output path, then issue exactly
      one download of DownloadUrl to it: downloadWithMetadata when metadata
      was requested, the plain download otherwise. */
  function SaveToLocal(
    result: CompressResult, savePath: string, metadata: seq<string>,
    apiKey: string, environ: map<string, string>,
    reply: Result<HttpResponse, Error>, written: Option<Error>): (x: Exchange<string>)
    requires NamingDefined(result.originalFile, result.input.typ)
    ensures |x.sent| <= 1
    ensures OutputPath(savePath, result.originalFile, result.input.typ).Failure? ==>
      x == Exchange([], Failure(OutputPath(savePath, result.originalFile, result.input.typ).error))
    ensures OutputPath(savePath, result.originalFile, result.input.typ).Success? && x.sent == [] ==>
      |metadata| > 0 && x.outcome == Failure(ApiKeyNotSet)
    ensures x.sent != [] ==> (x.outcome.Success? <==> reply.Success? && reply.value.statusCode == StatusOK && written.None?)
    ensures x.sent != [] && reply.Success? && reply.value.statusCode != StatusOK ==> x.outcome == Failure(StatusError(reply.value.status))
    ensures x.outcome.Success? ==> x.outcome == OutputPath(savePath, result.originalFile, result.input.typ)
    ensures OutputPath(savePath, result.originalFile, result.input.typ).Success? && |metadata| > 0 ==>
      x == DownloadWithMetadata(result.downloadUrl, OutputPath(savePath, result.originalFile, result.input.typ).value,
                                metadata, apiKey, environ, reply, written)
    ensures OutputPath(savePath, result.originalFile, result.input.typ).Success? && |metadata| == 0 ==>
      x == Download(result.downloadUrl, OutputPath(savePath, result.originalFile, result.input.typ).value, reply, written)
    ensures (OutputPath(savePath, result.originalFile, result.input.typ).Success? && |metadata| > 0 &&
             Config.GetAPIKey(apiKey, environ).Failure?) ==> x == Exchange([], Failure(ApiKeyNotSet))
  {
    match OutputPath(savePath, result.originalFile, result.input.typ)
    case Failure(e) => Exchange([], Failure(e))
    case Success(fullPath) =>
      if |metadata| > 0 then
        DownloadWithMetadata(result.downloadUrl, fullPath, metadata, apiKey, environ, reply, written)
      else Download(result.downloadUrl, fullPath, reply, written)
  }

  /** SaveToLocal never issues both kinds of download: a request is sent once
      the path is known (and, for metadata, a key is set), and it is a POST
      of the metadata exactly when metadata is non-empty, otherwise a bare GET. */
  lemma SaveToLocalSendsOneDownload(
    result: CompressResult, savePath: string, metadata: seq<string>,
    apiKey: string, environ: map<string, string>,
    reply: Result<HttpResponse, Error>, written: Option<Error>)
    requires NamingDefined(result.originalFile, result.input.typ)
    requires OutputPath(savePath, result.originalFile, result.input.typ).Success?
    requires |metadata| > 0 ==> Config.GetAPIKey(apiKey, environ).Success?
    ensures var x := SaveToLocal(result, savePath, metadata, apiKey, environ, reply, written);
      |x.sent| == 1 && x.sent[0].url == result.downloadUrl &&
      (x.sent[0].verb == Post <==> |metadata| > 0) &&
      (x.sent[0].verb == Post ==>
        (x.sent[0].body == Preserve(metadata) && x.sent[0].basicAuthKey == Some(Config.GetAPIKey(apiKey, environ).value))) &&
      (x.sent[0].verb == Get ==> x.sent[0].body == NoBody && x.sent[0].basicAuthKey == None)
  {
  }
}
