# Learning-path data: health checks, topics and import files

A Dafny model of three parts of the `packages/data` package of the
learning-path repository.

- **Health-check runners** (`packages/data/scripts/resources/healthcheck.ts`).
  A runner checks a resource URL at most once. It keeps a registry from URL
  to deferred result, queues a crawler request on the first `run`, and
  settles the deferred from `success`, `failure` or the crawler's
  `failedRequestHandler`. Each of the six runners (PDF, HTTP, E2E, YouTube
  Data API, Zenscrape, Udemy Affiliate API) turns what its crawler observes
  into a title, a failure, a `noRetry` failure, or a throw that makes the
  crawler retry. The model also covers the URL helpers those runners use:
  - the three YouTube patterns and the Udemy course pattern;
  - the three API request URLs, including `encodeURIComponent`;
  - the PDF title taken from the URL's last path segment;
  - `filterEntities`, the `he` encode/replace/decode pipeline that strips
    soft hyphens.
- **Topic model** (`packages/data/src/topic/model.ts`).
  - `getByName`.
  - `data`, which is the document without `_id`.
  - `getResources`: `main`, then `resources`, then each child's resources in
    order.
  - `populate`: the same tree with resources and child topics resolved.
  - `update` and `change`.
- **Import files** (`packages/data/scripts/start/topic.ts`). The file is
  split on `'\n'`, and every line contributes the first group of the
  leftmost match of `\[[^\]]+\]\(([^\]]+)\)`, or nothing.

Modules, one per file:

| module | file | contents |
|---|---|---|
| `Wrappers` | wrappers.dfy | `Option`, `Result` |
| `Text` | text.dfy | ECMAScript white space, `trim`, `split`/`join`, last path segment, hex digits |
| `Entities` | entities.dfy | `he.encode`, `he.decode` on hex references, global replace, `filterEntities` |
| `UriComponent` | uri_component.dfy | `encodeURIComponent` (UTF-8, then percent-encoding) |
| `ApiUrls` | api_urls.dfy | URL patterns and the API request URLs |
| `Registry` | registry.dfy | the runner base class: `run`, `success`, `failure`, `teardown` |
| `Runners` | runners.dfy | every runner's `requestHandler` and `failedRequestHandler` |
| `Topics` | topics.dfy | the topic model |
| `ImportFile` | import_file.dfy | link extraction from an import file |

The runner's asynchronous state is modelled as an immutable value:
- a `Runner` holds the registry, the crawler queue, the `running` flag and
  an allocation counter;
- each `Deferred` carries the number it was allocated under;
- a promise is a URL plus that number.

This makes "a promise handed out before `teardown` is never settled" a
statement about values. Handlers take what the outside world returns as
parameters:
- the sniffed file type;
- the selector's text;
- the environment's credentials;
- the API reply.

The API handlers also return the data-request URL they sent, if any, so
the model can state which configuration errors end a check before any
request is sent.

The topic store is a map from topic name to document, and the resource
store is a map from URL to resource data. `getResources` and `populate`
recurse through child names with no cycle check. The model therefore takes
a ghost ranking of topics that every child link must descend. Without one,
the source does not terminate.

## Model

| member | source | states |
|---|---|---|
| Text.Trim | packages/data/scripts/resources/healthcheck.ts:159 | `trim()` drops leading and trailing ECMAScript white space, leaving a contiguous slice that starts and ends with a non-space character |
| Text.TrimEmptyIffAllSpace | packages/data/scripts/resources/healthcheck.ts:159 | `title.trim() === ''` holds exactly when every character of the title is white space |
| Text.Split | packages/data/scripts/start/topic.ts:28 | `split` yields at least one piece, no piece holds the separator, and joining the pieces with the separator gives back the string |
| Text.SplitCount | packages/data/scripts/start/topic.ts:28 | a string with n separators splits into n + 1 pieces |
| Text.SplitJoin | packages/data/scripts/start/topic.ts:28 | splitting the join of separator-free pieces gives back the pieces |
| Text.LastPiece | packages/data/scripts/resources/healthcheck.ts:124 | `split(sep).pop()` is the suffix after the last separator: it holds no separator and is the whole string or preceded by one |
| Entities.ParseHexOfHex | packages/data/scripts/resources/healthcheck.ts:31 | reading back the uppercase hex digits of a code point gives the code point |
| Entities.DecodeEncode | packages/data/scripts/resources/healthcheck.ts:31 | `decode(encode(s))` is `s` for every string |
| Entities.ReplaceEncode | packages/data/scripts/resources/healthcheck.ts:26-31 | replacing `&#xAD;` in `encode(s)` gives the encoding of `s` with its soft hyphens removed, because no other reference or plain text can contain that pattern |
| Entities.HexInjective | packages/data/scripts/resources/healthcheck.ts:26-31 | only U+00AD is encoded as `&#xAD;` |
| Entities.FilterEntitiesRemovesSoftHyphens | packages/data/scripts/resources/healthcheck.ts:25-32 | `filterEntities(html)` is `html` with every soft hyphen removed and nothing else changed |
| Entities.FilterEntitiesIdentity | packages/data/scripts/resources/healthcheck.ts:25-32 | text without soft hyphens passes through `filterEntities` unchanged |
| Entities.RemoveSoftHyphens | packages/data/scripts/resources/healthcheck.ts:25-32 | the result holds no soft hyphen and is no longer than the input |
| UriComponent.Encode | packages/data/scripts/resources/healthcheck.ts:391-393 | `encodeURIComponent` emits only unreserved characters and `%XX` escapes, between one and twelve characters per input character |
| UriComponent.EncodedHasNoDelimiters | packages/data/scripts/resources/healthcheck.ts:391-393 | an encoded URL holds no `&`, `=`, `#` or `?`, so it stays one query parameter |
| UriComponent.EncodeUnreserved | packages/data/scripts/resources/healthcheck.ts:391-393 | unreserved text is left as it is |
| ApiUrls.AfterScheme | packages/data/scripts/resources/healthcheck.ts:256 | `^https?:\/\/` matches exactly the URLs starting with `https://` or `http://` |
| ApiUrls.CaptureAfter | packages/data/scripts/resources/healthcheck.ts:255-264 | a capture of `^https?:\/\/<path>(\S+)$` is a non-empty run of non-white-space that makes up the rest of the URL |
| ApiUrls.CaptureAfterComplete | packages/data/scripts/resources/healthcheck.ts:255-264 | every URL of the form scheme, path, non-space run yields that run |
| ApiUrls.VideoId | packages/data/scripts/resources/healthcheck.ts:255-264 | `getVideoId` returns the `watch?v=` id of a video URL, and only of one |
| ApiUrls.PlaylistId | packages/data/scripts/resources/healthcheck.ts:266-275 | `getPlaylistId` returns the `playlist?list=` id of a playlist URL, and only of one |
| ApiUrls.ChannelId | packages/data/scripts/resources/healthcheck.ts:277-286 | `getChannelId` returns the handle after `@` or `c/` of a URL whose host matches the pattern, each unescaped dot taking one UTF-16 code unit other than a line terminator |
| ApiUrls.ChannelIdComplete | packages/data/scripts/resources/healthcheck.ts:277-286 | every channel URL of that shape yields its handle |
| ApiUrls.ChannelDotTakesOneCodeUnit | packages/data/scripts/resources/healthcheck.ts:278-285 | a character outside the Basic Multilingual Plane at a dot position leaves the URL unmatched, so `getChannelId` returns null |
| ApiUrls.ChannelPatternAcceptsOtherHosts | packages/data/scripts/resources/healthcheck.ts:278 | the unescaped dots let `https://wwwXyoutubeXcom/@sherpa` through as channel `sherpa` |
| ApiUrls.YoutubePatternsExclusive | packages/data/scripts/resources/healthcheck.ts:299-321 | no URL matches two of the three YouTube patterns, so the order they are tried in is immaterial |
| ApiUrls.YoutubeDataUrl | packages/data/scripts/resources/healthcheck.ts:299-321 | a request URL exists exactly when one of the patterns matches; a video, playlist or channel search request carries the captured id, key, `part=snippet` and `maxResults=1` |
| ApiUrls.YoutubeDataUrlShape | packages/data/scripts/resources/healthcheck.ts:299-321 | every YouTube request starts with the API base and ends with the common query |
| ApiUrls.ZenscrapeQueryParameters | packages/data/scripts/resources/healthcheck.ts:390-406 | splitting the query on `&` gives the encoded URL parameter, then `render=true` when rendering, then `premium=true` when premium |
| ApiUrls.ZenscrapeNeverSendsFalse | packages/data/scripts/resources/healthcheck.ts:395-403 | no request carries `render=false` or `premium=false`, and each `=true` flag is present exactly when asked for |
| ApiUrls.CourseSlug | packages/data/scripts/resources/healthcheck.ts:459-468 | `getCourseSlug` returns the slug of a `www.udemy.com/course/` URL, and only of one |
| ApiUrls.UdemyDataUrl | packages/data/scripts/resources/healthcheck.ts:481-490 | a request exists exactly when the URL is a course URL; it asks for the course's title by slug |
| ApiUrls.UdemyDataUrlOfCourse | packages/data/scripts/resources/healthcheck.ts:481-490 | every course URL becomes its course's title lookup |
| ApiUrls.PdfTitle | packages/data/scripts/resources/healthcheck.ts:124 | the PDF title is the URL's text after its last `/`, empty when the URL ends in `/` |
| Registry.Await | packages/data/scripts/resources/healthcheck.ts:80-90 | a promise only ever yields a result held by its own deferred |
| Registry.Run | packages/data/scripts/resources/healthcheck.ts:80-90 | a URL already registered returns its existing promise and changes nothing; a fresh URL gets a pending deferred, its request is queued if the crawler accepts it, and the crawler is started exactly when it was idle |
| Registry.RunDeduplicates | packages/data/scripts/resources/healthcheck.ts:80-84 | a second `run` of a URL returns the same promise, whatever its data, and changes nothing |
| Registry.RunFresh | packages/data/scripts/resources/healthcheck.ts:86-89 | a fresh URL adds one deferred, at most one request, a still-pending promise |
| Registry.Settle | packages/data/scripts/resources/healthcheck.ts:58-72 | resolving settles only a pending deferred of that URL; unknown or already settled URLs leave the runner unchanged |
| Registry.Succeeded | packages/data/scripts/resources/healthcheck.ts:58-64 | `success` settles a pending deferred with a success for the request's URL and title |
| Registry.Failed | packages/data/scripts/resources/healthcheck.ts:66-72 | `failure` settles a pending deferred with a failure for the request's URL and error |
| Registry.Teardown | packages/data/scripts/resources/healthcheck.ts:74-78 | `teardown` drops the queue, stops the crawler and clears the registry |
| Registry.RunKeepsValid | packages/data/scripts/resources/healthcheck.ts:80-90 | `run` keeps deferred numbers distinct and every settled result filed under its own URL |
| Registry.SucceededKeepsValid | packages/data/scripts/resources/healthcheck.ts:58-64 | `success` keeps the registry well formed |
| Registry.FailedKeepsValid | packages/data/scripts/resources/healthcheck.ts:66-72 | `failure` keeps the registry well formed |
| Registry.TeardownKeepsValid | packages/data/scripts/resources/healthcheck.ts:74-78 | `teardown` keeps the registry well formed |
| Registry.AwaitMatchesUrl | packages/data/scripts/resources/healthcheck.ts:58-72 | a settled promise carries the result of its own URL |
| Registry.CallbackSettles | packages/data/scripts/resources/healthcheck.ts:58-72 | a callback settles the pending promise of its request's URL with the matching success or failure |
| Registry.CallbackForUnknownUrl | packages/data/scripts/resources/healthcheck.ts:59 | a callback for a URL never run is ignored (`results.get(url)?.`) |
| Registry.SettleOnce | packages/data/scripts/resources/healthcheck.ts:58-72 | a second callback for a URL changes nothing: the first result stands |
| Registry.SettleIsolated | packages/data/scripts/resources/healthcheck.ts:58-72 | settling one URL leaves every promise of another URL as it was |
| Registry.SettledIsStable | packages/data/scripts/resources/healthcheck.ts:58-90 | a settled promise keeps its result across later runs and callbacks |
| Registry.TeardownAbandons | packages/data/scripts/resources/healthcheck.ts:74-78 | after `teardown` every earlier promise is unreachable and only newer deferreds exist |
| Registry.AbandonedStaysAbandoned | packages/data/scripts/resources/healthcheck.ts:58-90 | runs and callbacks after a teardown never reach a promise handed out before it |
| Registry.TeardownInitial | packages/data/scripts/resources/healthcheck.ts:74-78 | tearing down a fresh runner leaves it fresh |
| Registry.InitialValid | packages/data/scripts/resources/healthcheck.ts:50-54 | a newly constructed runner satisfies the registry invariant |
| Runners.PdfVerdict | packages/data/scripts/resources/healthcheck.ts:105-125 | the PDF check succeeds exactly when the sniffed type is `pdf` / `application/pdf`, with the URL's last segment as title; otherwise it fails with the sniffed type |
| Runners.HttpVerdict | packages/data/scripts/resources/healthcheck.ts:149-173 | the HTTP check fails exactly when the selector text without soft hyphens is all white space, and otherwise succeeds with that text |
| Runners.E2EVerdict | packages/data/scripts/resources/healthcheck.ts:204-231 | the rendered check fails exactly when the text content is missing or empty, and otherwise succeeds with it untrimmed |
| Runners.YoutubeStep | packages/data/scripts/resources/healthcheck.ts:323-362 | a missing key, an unrecognised URL or no results each end the check as a `noRetry` failure, the first two before any request; success exactly when results are announced and listed, with the first item's title; announced results with no items throw, as reading `items[0].snippet` does |
| Runners.ZenscrapeStep | packages/data/scripts/resources/healthcheck.ts:408-444 | a missing key is a `noRetry` failure without a request; the request carries the `render` and `premium` flags of the request's `userData`; a 429 reply throws for a retry; otherwise a failure not marked `noRetry` exactly when the selected text is blank |
| Runners.UdemyStep | packages/data/scripts/resources/healthcheck.ts:492-543 | the client id is checked, then the secret, then the URL, each a `noRetry` failure before any request; a request is sent exactly when the check succeeds |
| Runners.Deliver | packages/data/scripts/resources/healthcheck.ts:58-72 | a success or failure verdict settles the request's pending promise with the matching result; a throw leaves the runner unchanged |
| Runners.FailedRequest | packages/data/scripts/resources/healthcheck.ts:127-129 | once the crawler gives up, the error settles the pending promise |
| Runners.RemoveSoftHyphensAllSpace | packages/data/scripts/resources/healthcheck.ts:157-159 | removing soft hyphens leaves white-space-only text unchanged |
| Runners.WhitespaceTitleDivergence | packages/data/scripts/resources/healthcheck.ts:159 | white-space-only text fails the HTTP check, which trims, and passes the rendered check, which does not |
| Runners.SoftHyphensOnlyIsEmpty | packages/data/scripts/resources/healthcheck.ts:157-159 | a title of soft hyphens only counts as empty for the HTTP check |
| Runners.EmptyTitleRetryPolicies | packages/data/scripts/resources/healthcheck.ts:350-441 | a blank Zenscrape title settles the check as a failure not marked `noRetry`, while an empty YouTube result settles it as one marked `noRetry` |
| Runners.RateLimitKeepsCheckPending | packages/data/scripts/resources/healthcheck.ts:427-430 | a rate-limited Zenscrape reply throws and leaves the check pending |
| Runners.UdemyReportsClientIdFirst | packages/data/scripts/resources/healthcheck.ts:498-504 | with the client id missing or empty, that is the error reported, whatever the secret |
| Runners.YoutubeUnrecognisedUrl | packages/data/scripts/resources/healthcheck.ts:332-342 | a URL of none of the three shapes fails with `noRetry` and no request |
| Topics.ListField | packages/data/src/topic/model.ts:85 | a list field is present exactly when a list is stored there; null and absent fields read as missing |
| Topics.Data | packages/data/src/topic/model.ts:70-74 | `data` is the document with every field but `_id` |
| Topics.GetByName | packages/data/src/topic/model.ts:23-29 | `getByName` returns the stored document, and fails with "not found" exactly when the name is missing |
| Topics.Resources | packages/data/src/topic/model.ts:118-139 | `getResources` starts with the topic's own `main` then `resources` ids |
| Topics.LeafResources | packages/data/src/topic/model.ts:118-126 | a topic without children lists exactly its `main` then its `resources`, an absent list adding nothing |
| Topics.MissingChildFails | packages/data/src/topic/model.ts:128-131 | a child name with no stored topic makes `getResources` fail |
| Topics.LookupAll | packages/data/src/topic/model.ts:88-92 | resolving a list succeeds exactly when every id is stored, and then yields the resources in order |
| Topics.LookupField | packages/data/src/topic/model.ts:85-103 | a null or absent list stays null; a stored list resolves element by element |
| Topics.Populate | packages/data/src/topic/model.ts:76-116 | `populate` keeps every field but `_id` and the three lists, resolves `main` and `resources` element by element, keeps absent lists null, and populates each child name, in order, into the child at the same position |
| Topics.PopulateChildren | packages/data/src/topic/model.ts:105-113 | the populated children are, position by position, the populated topics of the remaining child names |
| Topics.PopulateAgreesWithResources | packages/data/src/topic/model.ts:76-139 | when `populate` succeeds, `getResources` yields the URLs of the populated tree, depth first in the same order |
| Topics.PopulateSucceedsIff | packages/data/src/topic/model.ts:76-116 | `populate` succeeds exactly when `getResources` does and every resource it lists is stored |
| Topics.ChildrenSucceedIff | packages/data/src/topic/model.ts:105-113 | the children are populated exactly when their resources are collected and every one is stored |
| Topics.CataloguedField | packages/data/src/topic/model.ts:88-92 | a list field resolves exactly when every id it lists is stored |
| Topics.UpdateRequestOf | packages/data/src/topic/model.ts:55-61 | `update` sends the document's `_id` and its other fields overlaid with the update |
| Topics.Stored | packages/data/src/path/store.ts:51-66 | the store answers with the payload under the original `_id` |
| Topics.Update | packages/data/src/topic/model.ts:55-64 | the new document keeps the topic's `_id` |
| Topics.Change | packages/data/src/topic/model.ts:141-145 | `change` returns the data with every updated field at its new value, every other field unchanged, and no `_id` |
| Topics.ChangeIdempotent | packages/data/src/topic/model.ts:141-145 | applying the same change twice is the same as applying it once |
| Topics.ChangeNothing | packages/data/src/topic/model.ts:141-145 | an empty change returns the data as it was |
| ImportFile.FirstFrom | packages/data/scripts/start/topic.ts:29 | the first position of a character at or after a point, or the end |
| ImportFile.FirstFromIs | packages/data/scripts/start/topic.ts:29 | that position is the only one with those properties |
| ImportFile.LastBefore | packages/data/scripts/start/topic.ts:29 | the last position of a character in a range, if any |
| ImportFile.MatchSpan | packages/data/scripts/start/topic.ts:29 | the backtracking reading of the pattern at a position produces a match |
| ImportFile.MatchSpanGreedy | packages/data/scripts/start/topic.ts:29 | whenever the pattern matches at a position, the reading finds a match there, and its target is the longest |
| ImportFile.MatchAt | packages/data/scripts/start/topic.ts:29 | the capture at a position is the text between `](` and the match's closing `)` |
| ImportFile.Link | packages/data/scripts/start/topic.ts:29-31 | a found link target is non-empty and holds no `]` |
| ImportFile.LinkIsLeftmost | packages/data/scripts/start/topic.ts:29-33 | a line yields a target exactly when the pattern matches somewhere in it, and the target is the longest one at the leftmost match |
| ImportFile.LinkTargetsSnoc | packages/data/scripts/start/topic.ts:28-36 | each further line appends its link, if any, after the earlier ones |
| ImportFile.LinkTargetsBound | packages/data/scripts/start/topic.ts:28-36 | there are no more targets than lines, and each target is the link of some line |
| ImportFile.ExtractUrls | packages/data/scripts/start/topic.ts:28-36 | the URLs are the first link targets of the file's `'\n'`-separated lines, in line order, at most one per line, each non-empty and without `]` |
| ImportFile.LeadingLink | packages/data/scripts/start/topic.ts:29 | a line starting with `[caption](target)` yields `target`, whatever links follow, as long as no `)` precedes the next `]` |

## Left out

- Crawlee itself is not modelled: crawler engines, request queues on disk, retries and their delays, `keepAlive`, `retryOnBlocked` and session pools. A crawler request is an entry of the runner's `queue`, and "the crawler gave up" is a call of `Runners.FailedRequest`.
- Registry.Run: the model does not capture interleavings of concurrent `run` calls. Each call is one atomic step; in the source, a call can be suspended at `await addRequests` after registering its deferred. `addRequests` failing is the `accepted` parameter, and `crawler.run()` failing is not modelled.
- `Deferred` (in `_utils/defer`) is not part of this model. It is taken to behave like a promise: the first `resolve` wins.
- The `HealthCheck` facade, the `update.ts` script and the CLI loop around the import file are outside the modelled core.
- `fileTypeFromBuffer`, cheerio's `text()`, Playwright's `textContent`, `sendRequest` and JSON parsing become parameters of the handlers. The handlers' own `catch` blocks (logging, rethrow) are not modelled. A YouTube reply whose first item has no snippet is not modelled.
- Entities.Decode: only the hexadecimal references that the modelled encoder produces are decoded, and `decode(encode(s)) == s` is assumed of `he`. The real `he.decode` follows the HTML rules for numeric references: `&#x0;` becomes U+FFFD and most of `&#x80;` to `&#x9F;` become Windows-1252 characters (`&#x80;` becomes `€`). Named and decimal references and the decoder's error modes are not modelled either.
- Entities.FilterEntitiesRemovesSoftHyphens: rests on the assumed round trip. Wherever `he.encode` writes U+0000 or a C1 control character as a reference, the real `filterEntities` replaces that character, while `Entities.FilterEntities` keeps it; the same holds for `Entities.FilterEntitiesIdentity`.
- Entities.Encode: escapes every character above U+007E and the six characters & < > " ' \`, and leaves the C0 control characters as they are; `he.encode` also escapes most of them. Under the assumed round trip the difference does not change what `filterEntities` returns.
- UriComponent.Encode: Dafny characters are Unicode scalar values, so the `URIError` that `encodeURIComponent` throws on a lone surrogate cannot arise in the model.
- Runners.UdemyStep: the `Authentication` header carrying the Basic credentials is not modelled; the reply's `title` is taken as given.
- Runners.YoutubeStep: `pageInfo.totalResults` is taken to be an integer; a missing `pageInfo` is not modelled.
- ApiUrls.ChannelId: strings are sequences of Unicode scalar values, not of UTF-16 code units. The regular expressions have no `u` flag, so a dot is modelled as matching one character of the Basic Multilingual Plane; `\S` matches both halves of a surrogate pair, so the captures of the other patterns are unaffected.
- ApiUrls.ZenscrapeNeverSendsFalse: stated per flag parameter, not as "the query never contains `=false`". A page URL equal to `false` is encoded as `url=false`, which is a legitimate parameter.
- Topics.Resources: the source has no cycle check, so a topic that is its own descendant makes `getResources` and `populate` recurse forever. The model requires a ranking that every child link descends (`Topics.Ranked`), so it says nothing about cyclic stores.
- Topics.Resources: its own contract states only that the topic's `main` and `resources` ids come first. The children's part, in `children` order, is stated through `Topics.PopulateAgreesWithResources`, against the populated tree.
- Topics.LookupAll: the resource store (`getById`) is not part of this model. A missing resource is taken to be an error, as a missing topic is in `getByName`.
- Topics.Stored: the topic store is not part of this model. Its `updateOne` is taken to answer with `{...update, _id: id}`, as `packages/data/src/path/store.ts` does. Writing the new document back into the topic map is not modelled.
- Topics.ListField: a `main`, `resources` or `children` field holding anything other than a list or null is not modelled; the document type only allows lists.
- ImportFile.ExtractUrls: reading the file, expanding `~` and resolving the path are I/O and are left out. Line terminators other than `'\n'` stay inside lines, as they do in the source, where `[^\]]` also matches them.
