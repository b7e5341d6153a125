/** cmd/compress_web.go: saving a result of the web-page API.  The file is
    named by the local-source rule of TinyPngApi.LocalOutputPath with the
    suffix that api.SuffixFromMIME gives for the result's type; that
    function is not part of this model and is a parameter here.  The
    download is an unauthenticated GET of the result's URL. */
module CompressWeb {
  import opened Wrappers
  import opened GoPath
  import opened TinyPngApi

  /** The fields of api.WebDownloadResult. */
  datatype WebDownloadResult = WebDownloadResult(
    key: string, url: string, size: int, typ: string, width: int, height: int)

  /** saveToLocal: name the copy after `originalFile`, GET the result's URL,
      and write the body when the status is 200 OK. */
  function WebSaveToLocal(
    output: string, originalFile: string, result: WebDownloadResult, suffixFromMime: string -> string,
    reply: Result<HttpResponse, Error>, written: Option<Error>): (x: Exchange<string>)
    ensures x.sent == [HttpRequest(Get, result.url, None, None, NoBody)]
    ensures x.outcome.Success? <==> reply.Success? && reply.value.statusCode == StatusOK && written.None?
    ensures reply.Success? && reply.value.statusCode != StatusOK ==> x.outcome == Failure(StatusError(reply.value.status))
    ensures reply.Failure? ==> x.outcome == Failure(reply.error)
    ensures reply.Success? && reply.value.statusCode == StatusOK && written.Some? ==> x.outcome == Failure(written.value)
    ensures x.outcome.Success? ==> x.outcome.value == LocalOutputPath(output, originalFile, suffixFromMime(result.typ))
    ensures x.outcome.Success? ==> HasSuffix(x.outcome.value, CompressedSuffix + suffixFromMime(result.typ))
  {
    Download(result.url, LocalOutputPath(output, originalFile, suffixFromMime(result.typ)), reply, written)
  }

  /** A reply other than 200 OK fails the save with its status text, and the
      file writer's outcome plays no part: nothing is written. */
  lemma NonOkWritesNothing(
    output: string, originalFile: string, result: WebDownloadResult, suffixFromMime: string -> string,
    resp: HttpResponse, w1: Option<Error>, w2: Option<Error>)
    requires resp.statusCode != StatusOK
    ensures WebSaveToLocal(output, originalFile, result, suffixFromMime, Success(resp), w1)
         == WebSaveToLocal(output, originalFile, result, suffixFromMime, Success(resp), w2)
    ensures WebSaveToLocal(output, originalFile, result, suffixFromMime, Success(resp), w1).outcome
         == Failure(StatusError(resp.status))
  {
  }

  /** A saved local source lands where the `compress` command puts it when
      both commands derive the same suffix from the type. */
  lemma SameNameAsCompress(
    output: string, originalFile: string, result: WebDownloadResult, suffixFromMime: string -> string,
    mimeType: string, reply: Result<HttpResponse, Error>, written: Option<Error>)
    requires !IsUrl(originalFile) && Separator in mimeType
    requires suffixFromMime(result.typ) == CompressedFile(0, mimeType).Suffix()
    requires WebSaveToLocal(output, originalFile, result, suffixFromMime, reply, written).outcome.Success?
    ensures Success(WebSaveToLocal(output, originalFile, result, suffixFromMime, reply, written).outcome.value)
         == OutputPath(output, originalFile, mimeType)
  {
  }

  /** With no output directory the copy sits beside the source, named from
      the source's last element with its last extension replaced. */
  lemma SavedBesideSource(
    originalFile: string, result: WebDownloadResult, suffixFromMime: string -> string,
    reply: Result<HttpResponse, Error>, written: Option<Error>)
    requires NoSlash(suffixFromMime(result.typ))
    requires WebSaveToLocal("", originalFile, result, suffixFromMime, reply, written).outcome.Success?
    ensures var saved := WebSaveToLocal("", originalFile, result, suffixFromMime, reply, written).outcome.value;
      Dir(saved) == Dir(originalFile) &&
      LastElem(saved) == TrimSuffix(LastElem(originalFile), Ext(originalFile)) + (CompressedSuffix + suffixFromMime(result.typ))
  {
    LocalCopyBesideSource(originalFile, suffixFromMime(result.typ));
  }
}
