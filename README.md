# tinypng-cli: output naming, download dispatch and directory listing

This project is a Dafny model of the core of `tinypng-cli`, a command-line
client for the TinyPNG image-compression service. The model covers:

- **API key lookup** (`Config`). The `--api-key` flag wins. Otherwise the
  key comes from `TINYPNG_API_KEY`. With neither, the program panics; here
  that is the error `ApiKeyNotSet`.
- **The API client** (`TinyPngApi`):
  - the shrink request and how its reply is read (201 Created is required,
    and the `Location` header becomes the download URL);
  - the two download helpers (200 OK is required before anything is
    written);
  - `IsUrl`, `CompressedFile.Suffix` and the lazily created shared client;
  - `CompressResult.SaveToLocal`;
  - the output-file naming rule that the client and both commands share
    (`OutputPath`, `LocalOutputPath`, `UrlOutputPath`).
- **The `compress` command** (`Compress`):
  - `saveConfig.saveToLocal`: one download-helper call per requested
    option (metadata, then convert, then resize), or the plain download
    when none is set, stopping at the first error;
  - `listFiles` and its `sendFile` filter, flat and recursive.
- **The `web-compress` command** (`CompressWeb`): its `saveToLocal`.
- **Library pieces** the rules are built from, with `/` as the separator:
  - `GoPath`: Go's `strings` and `path/filepath` functions;
  - `NetUrl`: the path component of `net/url.Parse`.

How I/O is represented:

- A network exchange is the requests sent plus the reply, or the
  transport error in its place, which the caller supplies.
- Writing a file is the writer's outcome.
- A directory is a tree of `Node` values.
- The api package's download helpers that `cmd/compress.go` calls are not
  part of this model. A call is recorded as a `DownloadCall`, and its
  outcome comes from a caller-supplied function.

Three behaviours of the code are worth stating on their own:

- **Separate downloads per option.** `saveToLocal` calls a separate
  download helper for each requested option (metadata, convert, resize),
  so one compressed image can be fetched up to three times, and every
  helper writes the same file.
- **Only the path is lower-cased.** The extension filter lower-cases the
  path but not the configured extension, so an extension written in upper
  case never matches.
- **The suffix comes from the source's type.** The output name takes its
  suffix from the response's `input.type`, so a converted file keeps the
  suffix of the source's type.

## Model

| member | source | states |
|---|---|---|
| Config.GetAPIKey | internal/config/config.go:10-21 | A non-empty flag is the key, whatever the environment holds. With an empty flag, a non-empty TINYPNG_API_KEY is the key. With both empty the result is ApiKeyNotSet. A returned key is never empty. |
| Config.EnvironmentOnlyBacksUpFlag | internal/config/config.go:12-18 | The environment matters only when the flag is empty, and then only TINYPNG_API_KEY matters. |
| Config.EnvironmentKeyUsed | internal/config/config.go:16-18 | With an empty flag, the environment's non-empty key is returned. |
| Config.Getenv | internal/config/config.go:16 | os.Getenv: a non-empty value comes only from a variable that is set; an unset variable reads as "". |
| Config.GetenvAfterSetenv | internal/config/config.go:16 | A variable's value is what was last set for it, and setting one variable leaves every other one as it was. |
| TinyPngApi.Split | internal/api/tinypng_client.go:93 | strings.Split: joining the fields back gives the input, no field holds the separator, and there are two or more fields exactly when the separator occurs. |
| TinyPngApi.CompressedFile.Suffix | internal/api/tinypng_client.go:89-94 | "image/jpeg" gives "jpg". Any other type gives the text between its first and second '/'. The result holds no '/'. A type without '/' is excluded, because the source would index out of range. |
| TinyPngApi.SuffixOfMimeType | internal/api/tinypng_client.go:93 | For kind/subtype other than image/jpeg, the suffix is the subtype. |
| TinyPngApi.SuffixIgnoresLaterFields | internal/api/tinypng_client.go:93 | For a type with a second '/', only the second field counts, and the jpeg special case cannot apply. |
| TinyPngApi.IsUrlIffHttpScheme | internal/api/tinypng_client.go:203-205 | A source is a URL exactly when it is "http:" or "https:" followed by anything. |
| TinyPngApi.IsUrlIsCaseSensitive | internal/api/tinypng_client.go:204 | Upper-case schemes are not URLs. |
| TinyPngApi.IsUrl | internal/api/tinypng_client.go:203-205 | A source is a URL exactly when it starts with the five characters "http:" or the six characters "https:". |
| TinyPngApi.TinyPngClient.constructor | internal/api/tinypng_client.go:30-32 | A new client has the 60-second timeout. |
| TinyPngApi.ClientHolder.constructor | internal/api/tinypng_client.go:23 | Before the first call, no client is stored. |
| TinyPngApi.ClientHolder.GetTinyPNGClient | internal/api/tinypng_client.go:26-34 | A stored client is returned unchanged. Otherwise a fresh client with the 60-second timeout is created, stored and returned. |
| TinyPngApi.RepeatedCallsShareClient | internal/api/tinypng_client.go:26-34 | Two calls hand out the same instance, and it is the stored one. |
| TinyPngApi.ShrinkRequest | internal/api/tinypng_client.go:47-53 | Without a key nothing is built. With one, the request is a POST to https://api.tinify.com/shrink that carries the given body and authenticates with the key GetAPIKey returns, which is never empty. |
| TinyPngApi.ReadShrinkReply | internal/api/tinypng_client.go:55-74 | Success exactly for 201 Created with a decodable body. A transport error is passed on. Any other status is an error with the status text, decided before decoding. A body that does not decode is a decode error. On success the download URL is the Location header, and input and output come from the body. |
| TinyPngApi.LocationOverridesDecodedUrl | internal/api/tinypng_client.go:64-72 | The download URL in the decoded body never reaches the result. |
| TinyPngApi.SendCompressPost | internal/api/tinypng_client.go:46-75 | At most one request, none exactly when no key is set, and then the outcome is ApiKeyNotSet. The request sent is the one ShrinkRequest builds: a POST to https://api.tinify.com/shrink carrying the body and authenticated with GetAPIKey's key. Its outcome is ReadShrinkReply of the reply. |
| TinyPngApi.CompressFromFile | internal/api/tinypng_client.go:36-44 | A file that does not open fails before anything is sent. Otherwise the file is the shrink body. |
| TinyPngApi.CompressFromUrl | internal/api/tinypng_client.go:130-139 | At most one request, none exactly when no key is set, and then the outcome is ApiKeyNotSet. The request sent is ShrinkRequest's authenticated POST to https://api.tinify.com/shrink with the source URL as its body, and its outcome is ReadShrinkReply of the reply. |
| TinyPngApi.UrlAndFileUploadsDifferOnlyInBody | internal/api/tinypng_client.go:130-139 | Compressing a URL and compressing an opened file send the same number of requests with the same outcome, and the requests differ only in their body. |
| TinyPngApi.ReadDownloadReply | internal/api/tinypng_client.go:148-156 | Success exactly for 200 OK with a successful write, and it names the new file. A transport error is passed on. Any other status is an error with the status text, and the write plays no part. On 200 a failed write is the error. |
| TinyPngApi.Download | internal/api/tinypng_client.go:141-157 | The only request is a bodyless, unauthenticated GET of the URL. Success exactly for 200 OK with a successful write, and it names the new file. Any other status is an error with its text. The outcome is ReadDownloadReply of the reply. |
| TinyPngApi.DownloadWithMetadata | internal/api/tinypng_client.go:159-187 | Nothing is sent exactly when no key is set, and then the outcome is ApiKeyNotSet. Otherwise the only request is an authenticated POST to the URL with body {"preserve": metadata}; success exactly for 200 OK with a successful write; any other status is an error with its text; the outcome is ReadDownloadReply of the reply. |
| TinyPngApi.LocalOutputPath | internal/api/tinypng_client.go:107-112 | The local naming rule. The result always ends with "-compressed." followed by the suffix. |
| TinyPngApi.UrlOutputPath | internal/api/tinypng_client.go:98-104 | The URL naming rule from the parsed path. The result always ends with "-compressed." followed by the suffix. |
| TinyPngApi.OutputPath | internal/api/tinypng_client.go:97-113 | Fails exactly when the source is a URL that net/url refuses, and then with that error. A URL that parses follows UrlOutputPath on its parsed path; a local source follows LocalOutputPath. Every successful name ends with "-compressed." followed by the suffix of the source's type. |
| TinyPngApi.LocalCopyBesideSource | cmd/compress.go:176-177 | With no output directory, the copy stays in the source's directory. Its name is the source's last element, with the extension replaced by "-compressed.<suffix>". |
| TinyPngApi.LocalCopyUnderOutput | cmd/compress.go:178-180 | With an output directory, the source's directories are dropped. The copy's directory is the output directory, and its name is the base name with the extension replaced. |
| TinyPngApi.OnlyLastExtensionReplaced | cmd/compress_web.go:100 | Only the last extension is replaced: p.x becomes p-compressed.<suffix>. |
| TinyPngApi.UndottedNameKept | cmd/compress_web.go:100 | A last element without a dot keeps its whole name as the stem. |
| TinyPngApi.UrlCopyNamedFromPath | cmd/compress.go:172-173 | A URL source is named from the last element of its path alone. With no output directory, the copy is that bare file name. |
| TinyPngApi.UrlSourceUsesPathOnly | cmd/compress.go:167-173 | For http(s)://host/path, with or without ?query and #fragment, the name comes from /path only. Host, query and fragment play no part. |
| TinyPngApi.ExamplePhotoBesideSource | cmd/compress.go:177 | "photo.PNG" with a JPEG type and no output directory becomes "photo-compressed.jpg". |
| TinyPngApi.ExamplePhotoUnderOutput | cmd/compress.go:179-180 | "/a/b/photo.png" under "/tmp/out" with a WebP type becomes "/tmp/out/photo-compressed.webp". |
| TinyPngApi.SaveToLocal | internal/api/tinypng_client.go:96-128 | At most one download. A URL that net/url refuses fails with its error and nothing is sent. Otherwise, with metadata the exchange is exactly DownloadWithMetadata to the path OutputPath gives (so nothing is sent and the outcome is ApiKeyNotSet exactly when no key is set), and without metadata it is exactly Download to that path. A sent download succeeds exactly for 200 OK with a successful write, and any other status is an error with its text. A success saves to the path OutputPath gives. |
| TinyPngApi.SaveToLocalSendsOneDownload | internal/api/tinypng_client.go:116-126 | With a key set, exactly one request goes to DownloadUrl. It is a POST of {"preserve": metadata} authenticated with GetAPIKey's key when metadata is non-empty, otherwise a bodyless, unauthenticated GET. Never both. |
| NetUrl.UrlPath | cmd/compress.go:168 | Fails exactly when the text before '#' holds a control character. A path is empty or starts with '/', and never holds '?' or '#'. |
| NetUrl.UrlPathOfHierarchical | cmd/compress.go:168-172 | The path of scheme://host/path is /path, whether or not a ?query and a #fragment follow. |
| NetUrl.UrlPathOfPlainHttps | cmd/compress.go:168-172 | The path of https://host/path, with neither query nor fragment, is /path. |
| GoPath.TrimSuffix | cmd/compress.go:177 | The suffix is dropped once, and only when present. |
| GoPath.HasPrefixByChars | internal/api/tinypng_client.go:204 | strings.HasPrefix: the prefix fits and agrees with the string character by character from the front, and only then. |
| GoPath.HasSuffixByChars | cmd/compress.go:226 | strings.HasSuffix: the suffix fits and agrees with the string's last characters one by one, and only then. |
| GoPath.ToLower | cmd/compress.go:226 | Letter by letter, and the result has no upper-case ASCII letter. |
| GoPath.Ext | cmd/compress.go:177 | The extension is a suffix of the path, within the last element, and either empty or a dot followed by dot-free text. |
| GoPath.ExtOfDotted | cmd/compress.go:177 | The extension of p.x is .x, whatever p holds. |
| GoPath.ExtOfUndotted | cmd/compress.go:177 | A last element without a dot has no extension. |
| GoPath.Base | cmd/compress.go:179 | Never empty. Either "/" or free of separators. |
| GoPath.BaseOfElem | cmd/compress.go:179 | The base name of d/n is n. |
| GoPath.Join | cmd/compress.go:180 | An empty directory leaves the name alone. Otherwise the directory, without trailing separators, and one separator come first. |
| GoPath.JoinKeepsSuffix | cmd/compress.go:180 | Joining keeps the end of the name. |
| GoPath.JoinPlacesName | cmd/compress.go:180 | A one-element name joined under a directory is the result's last element, and the directory part comes from the directory alone. |
| GoPath.CutAtFirst | internal/api/tinypng_client.go:93 | Cutting a+c+b at the first c gives back a and b. |
| Compress.PlanShape | cmd/compress.go:186-217 | One to three calls, all to the same URL and the same file. |
| Compress.PlanMembers | cmd/compress.go:186-217 | Each option's call is present exactly when that option is set. The plain download is present exactly when no option is set. |
| Compress.PlanOrdered | cmd/compress.go:188-210 | The planned calls come in the order metadata, convert, resize. |
| Compress.RunStopsAtFirstFailure | cmd/compress.go:188-219 | The calls made are a prefix of the plan and all but the last succeeded. An error is the last call's outcome. No error means the whole plan ran and every call succeeded. |
| Compress.SaveToLocal | cmd/compress.go:165-220 | A URL that net/url refuses fails with no call made. Otherwise the calls made and the error equal Run of Plan for the path OutputPath gives. |
| Compress.Dispatch | cmd/compress.go:186-219 | The flag-driven sequence of helper calls, with its early returns, issues exactly Run of Plan: the calls made and the error that ended them. |
| Compress.DispatchOutcome | cmd/compress.go:186-217 | Whatever the helpers answer: 1 to 3 calls, same URL and file, in increasing order. A plain download only without options. Success exactly when every planned call succeeds. |
| Compress.CommandAndClientWriteSameFile | cmd/compress.go:166-182 | Whatever the services answer: a URL that net/url refuses makes CompressResult.SaveToLocal fail with that error; otherwise every call of the command's saveToLocal targets the path OutputPath gives, and a client success saves to that same path. |
| Compress.SendFile | cmd/compress.go:224-231 | The path is queued once when some extension matches, and nothing is queued otherwise. |
| Compress.Matches | cmd/compress.go:224-230 | A path matches when, for some configured extension, the path's last characters, each lower-cased, spell that extension as written. |
| Compress.ListFlat | cmd/compress.go:247-257 | The loop queues FlatListing of the entries. |
| Compress.FlatListingStep | cmd/compress.go:251-256 | One turn of the flat loop keeps the queue a prefix of the listing of all entries. |
| Compress.WalkDir | cmd/compress.go:234-245 | The walk returns Walk of the node: matching files in order, stopping at the first unreadable directory. |
| Compress.ListFiles | cmd/compress.go:222-259 | Returns Listing: the queued paths, or the read or walk error instead. |
| Compress.FlatListingExactly | cmd/compress.go:251-256 | A path is listed flat exactly when it is the joined path of a file entry and matches. |
| Compress.FlatListingAtMostOnePerEntry | cmd/compress.go:251-256 | Each entry contributes at most one path. |
| Compress.FlatListingDuplicateFree | cmd/compress.go:247-257 | When a directory's entries have non-empty, separator-free, pairwise distinct names, the flat listing holds no path twice. |
| Compress.JoinInjective | cmd/compress.go:251 | Within one directory, different entry names give different joined paths. |
| Compress.WalkStaysUnder | cmd/compress.go:234-245 | A walk from a root not ending in a separator queues only the root itself or paths below it. |
| Compress.WalkEntriesStayUnder | cmd/compress.go:234-245 | Every path queued for a directory's entries lies at or below one of those entries. |
| Compress.UnderOneEntry | cmd/compress.go:234-245 | No path lies at or below two differently named entries of one directory. |
| Compress.WalkDuplicateFree | cmd/compress.go:234-245 | When every directory under the root has well-formed, distinct entry names, a recursive walk queues no path twice. The root may end in separators ("imgs/"); only a root made of separators alone is outside. |
| Compress.WalkEntriesTrimmed | cmd/compress.go:234-245 | Trailing separators on a directory do not change what its walk queues, since filepath.Join trims them. |
| Compress.WalkEntriesDuplicateFree | cmd/compress.go:234-245 | The same for the entries of one directory whose path does not end in a separator (WalkEntriesTrimmed reduces any other directory to that case). |
| Compress.WalkFindsMatchingFiles | cmd/compress.go:234-245 | Only matching files under the root are queued. The walk fails exactly when some directory under the root is unreadable. Without failure, every matching file is queued. |
| Compress.WalkEntriesFindMatchingFiles | cmd/compress.go:234-245 | The same three facts for the entries of one directory. |
| Compress.CaseOfPathIgnored | cmd/compress.go:226 | Paths that lower-case alike are filtered alike. |
| Compress.UpperCaseExtensionNeverMatches | cmd/compress.go:226 | An extension that holds an upper-case letter matches no path. |
| Compress.ExtensionMatchesWithoutDot | cmd/compress.go:226 | A lower-case extension matches any path ending in its text, so "manjpg" passes "jpg". |
| Compress.ListFilesAsWritten | cmd/compress.go:223-227 | Each queued path is pushed into a 100-slot channel that nothing drains; the first push onto the full buffer blocks. It blocks exactly when more than 100 paths are sent, and otherwise delivers Listing. |
| Compress.MoreThanHundredFilesBlock | cmd/compress.go:223-227 | A flat directory of more than 100 matching PNG files (101 is the least) sends more paths than the channel holds, so ListFilesAsWritten blocks on it, while the listing succeeds with one path per file. |
| Compress.ListingUnbounded | cmd/compress.go:222-259 | Without an unreadable directory, the listing succeeds in both modes and holds every path sent. |
| CompressWeb.WebSaveToLocal | cmd/compress_web.go:97-119 | The only request is a bodyless GET of the result's URL. Success exactly for 200 OK with a successful write. A transport error is returned as it is; any other status is an error with its text; on 200 a failed write is the error. A success names LocalOutputPath of the source with the MIME-derived suffix, which ends with "-compressed." and that suffix. |
| CompressWeb.NonOkWritesNothing | cmd/compress_web.go:112-114 | A non-200 reply fails with its status text, whatever the writer would do. |
| CompressWeb.SameNameAsCompress | cmd/compress_web.go:98-104 | For a local source, the web command saves where `compress` would, given the same suffix. |
| CompressWeb.SavedBesideSource | cmd/compress_web.go:99-100 | With no output directory, the copy is beside the source with its last extension replaced. |

## Findings

| source | as written | input that shows it | evidently intended | confidence | as-written member | corrected member |
|---|---|---|---|---|---|---|
| cmd/compress.go:223-227 | listFiles sends every match into a channel with room for 100. The workers that receive from it start only after listFiles returns (cmd/compress.go:108, 114). | A directory holding 101 files that pass the filter. | Every matching file reaches the workers, however many there are. | not executed | Compress.ListFilesAsWritten | Compress.ListFiles |

`Compress.MoreThanHundredFilesBlock` exhibits the blocking input.
`Compress.ListingUnbounded` and `Compress.WalkFindsMatchingFiles` state the
intended behaviour of the corrected listing.

## Left out

- The worker pools of both commands (goroutines, WaitGroup, closing and draining the channel): concurrency. Their only modelled consequence is the channel-capacity finding above.
- A failed compress in a worker leaves the result nil, and the worker then dereferences it (cmd/compress.go:120-124, cmd/compress_web.go:64-68). The pool is not modelled, so this defect is noted here only.
- HTTP transport, JSON encoding and decoding, and file creation and copying: foreign I/O. They are represented by the reply, the decoded body and the writer's outcome, which the caller supplies.
- `download` uses Go's default HTTP client rather than the shared client with the 60-second timeout. Timeouts are not modelled.
- `sendCompressPost` and `downloadWithMetadata` use the package-global client without checking that it was created. The commands always create it first, so this is not modelled.
- api.DownloadWithConvert, api.DownloadWithResize, api.SuffixFromMIME, api.WriteFileFromResp and the client in internal/api/tinypng_web_client.go are not part of this model. The commands' calls to them are recorded, with their arguments, and their outcomes are parameters.
- cmd/root.go and cmd/flag_completion.go: command and flag registration only. The flag enumerations are not checked.
- Logging (`log.Printf`, `fmt.Println`).
- GoPath.Join: the lexical cleaning of "." and ".." elements and of repeated separators inside names is not modelled. Only trailing separators of the directory and leading separators of the name are removed.
- NetUrl.UrlPath: the scheme is taken to be the text before the first ':', which is how url.Parse reads the "http:" and "https:" sources it is given here; other text is not modelled. Percent-decoding of the path, host and port validation, and the other error cases of net/url.Parse are not modelled. Only control characters make it fail.
- GoPath.ToLower: only ASCII letters are lower-cased. Unicode case mapping is not modelled.
- Compress.Listing: os.ReadDir's sorting by name is not modelled. Entries are taken in the order the tree gives them. Symbolic links, and the error text for a non-directory root, are not modelled either.
- TinyPngApi.ShrinkRequest: http.NewRequest cannot fail for the fixed shrink URL, so no error path is modelled there.
- TinyPngApi.DownloadWithMetadata: a download URL that http.NewRequest refuses is not modelled. The source returns that error before reading the key and before sending anything; the model reads the key first (ApiKeyNotSet with no key) and otherwise records the request as sent, with any failure coming from the supplied reply. The URL comes from the service's Location header.
- TinyPngApi.Download: a URL that http.Get refuses before sending is likewise recorded as a sent request whose failure is the supplied transport error.
- TinyPngApi.CompressedFile.Suffix: requires a '/' in the type. The source panics without one, and that panic is not modelled.
