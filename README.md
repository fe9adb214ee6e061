# bitbucket-npm-scanner: a verified model of the content-script scanner

The browser extension's content script (`src/content.tsx`) holds one
`BitbucketScanner` object. The scanner:

- watches a Bitbucket pull-request page;
- picks out the diff containers whose header names `package.json` or
  `package-lock.json`;
- extracts a `"name": "version"` pair from each diff line;
- filters the name through a package-name grammar and a fixed skip list;
- looks up the latest version of the package in a session cache, asking
  the npm registry on a miss;
- when the latest version is truthy and differs from the one in the line,
  gives an unmarked line one version marker: at the line end when the text
  does not end with a quoted token; otherwise in the parent of the first
  text node holding the current version, or none at all when no text node
  holds it (for instance when the version is split over two text nodes). A
  line that already has a marker is left as it is.

This project models that pipeline in Dafny and proves what each stage
promises:

- `wrappers.dfy`: the `Option` type.
- `js_text.dfy`: the JavaScript notions the code relies on:
  - the `\s` class (the full ECMAScript white-space and line-terminator set);
  - `String.prototype.includes`;
  - `textContent` as the concatenation of a line's text nodes.
- `line_match.dfy`: the dependency-line pattern `/[+\s]*"([^"]+)":\s*"([^"]+)"/`.
  - It is written as a hand-made greedy parser (`ParseLine`).
  - It is checked against a positional definition of a match of the whole
    pattern (`RegexMatchAt`).
  - `String.prototype.match` reports the groups of the match that starts
    leftmost, and that is what `ParseLine` yields.
- `package_name.dfy`: `isValidPackageName`, with its regular expression read
  as a language, and `shouldSkipPackage` with its sixteen keys.
- `version_cache.dfy`: `getLatestVersion` as a function of the cache and one
  registry answer.
  - The cache maps a name to `Option<string>`, so that a stored `undefined`
    is representable.
  - The registry is an oracle, `FetchOutcome`.
- `annotation.dfy`: lines as values (text-node pieces plus the markers they
  hold) and `addVersionIndicator`.
  - It covers the marker gate, the trailing quoted-token test and the
    placement rule.
  - The text-node loop of the method is proved against the `Annotate`
    function.
- `scanner.dfy`: the `BitbucketScanner` class.
  - `processed` stands for `processedElements` (by container id) and
    `cache` for the version cache.
  - Its methods `GetLatestVersion`, `ProcessLine` (the body of the per-line
    loop), `ProcessPackageFile` and `ScanForPackageFiles` are proved against
    the functions `LookupLatest`, `LineStep`, `ProcessLines` and `Scan`.
  - The lemmas about those functions state the properties of a whole file
    and of a whole scan.
- `observer.dfy`: the `shouldScan` decision of the mutation-observer
  callback and the 500 ms rescan it schedules.

Registry answers are inputs. `ProcessPackageFile` receives one
`FetchOutcome` per line, and that answer is used only when the line actually
sends a request. `Failed` stands for:

- a non-ok HTTP status;
- a body that is not JSON;
- a network error;
- any other exception inside the `try`.

`Fetched(v)` stands for a parsed body whose `version` field is `v`.

Where a description of the extension and the code disagree, the model
follows the code:

- The callback does not debounce or coalesce rescans. Every batch of
  mutations that contains a `childList` record with added nodes schedules
  its own scan after 500 ms.
- Lines of one file are not resolved concurrently. The `for...of` loop
  awaits each lookup before the next line.
- A cache hit whose stored value is empty or `undefined` returns `null`. It
  never refetches, because the code tests `has`, not the value.
- A successful fetch stores `data.version` even when it is `undefined`.

## Model

| member | source | states |
|---|---|---|
| LineMatch.MatchAt | src/content.tsx:74 | a match of the quoted part at `q` starts with a quote there, and both captured groups are non-empty and free of `"` |
| LineMatch.FirstPairFrom | src/content.tsx:74 | the position found is the leftmost one at or after `i` where the quoted part matches; no position before it matches |
| LineMatch.ParseLine | src/content.tsx:74 | when the line matches, the extracted name and version are both non-empty and contain no `"` |
| LineMatch.MatchAtSound | src/content.tsx:74 | every success of the parser at `q` is a pair `"name":ws"version"` in the positional sense |
| LineMatch.MatchAtComplete | src/content.tsx:74 | every such pair at `q` is found by the parser with exactly those groups (greedy runs need no backtracking) |
| LineMatch.LeadStart | src/content.tsx:74 | the `[+\s]*` run before a quote: all lead characters, and maximal to the left |
| LineMatch.ParseLineNoneIffNoMatch | src/content.tsx:74-75 | a line yields no dependency exactly when the pattern matches at no start and with no groups, so it triggers no lookup |
| LineMatch.ParseDependencyLine | src/content.tsx:74 | a diff line `lead "name": "version"rest`, with `lead` made of `+` and white space and anything after the closing quote, yields exactly that name and version |
| LineMatch.ParseLineIsLeftmostMatch | src/content.tsx:74 | the groups returned are those of a match of the whole pattern, and no match starts earlier (the first match `String.prototype.match` reports) |
| PackageName.IsValidPackageName | src/content.tsx:94-97 | `isValidPackageName`; its properties are stated by ValidNameIffInLanguage, UppercaseRejected, LeadingDotOrUnderscoreRejected and EmptyScopeRejected |
| PackageName.IndexOf | src/content.tsx:96 | the first occurrence of a character, or none in the string |
| PackageName.ValidNameIffInLanguage | src/content.tsx:96 | `isValidPackageName` accepts exactly `(@segment/)?segment`, where a segment is `[a-z0-9-~][a-z0-9-._~]*` |
| PackageName.UppercaseRejected | src/content.tsx:96 | a name with an upper-case letter anywhere is rejected |
| PackageName.LeadingDotOrUnderscoreRejected | src/content.tsx:96 | a bare or scoped name whose name part starts with `.` or `_` is rejected |
| PackageName.EmptyScopeRejected | src/content.tsx:96 | `@/...` is rejected |
| PackageName.SkipListKeys | src/content.tsx:99-118 | the skip list has 16 keys; the three camel-case keys in it are already rejected by the name grammar |
| PackageName.ShouldSkipPackage | src/content.tsx:99-119 | `shouldSkipPackage`, membership in the fixed list; its properties are stated by SkipListKeys |
| VersionCache.OrNull | src/content.tsx:124 | `v \|\| null` is `v` when `v` is truthy and null otherwise |
| VersionCache.LookupLatest | src/content.tsx:121-141 | a request is sent exactly on a miss; a hit returns the cached value or null and changes nothing; a failed request returns null and caches nothing; a parsed body's `version` is cached, even when undefined, and returned; no entry is overwritten; only the name can be added |
| VersionCache.LookupTwice | src/content.tsx:121-141 | after a hit or a stored value, a second lookup sends no request, changes nothing and returns the same answer up to truthiness; after a failure, the second lookup behaves as if the first never happened (it retries) |
| Annotation.TrimEnd | src/content.tsx:161 | the result is the text with its maximal trailing `\s` run removed |
| Annotation.LastIndexOf | src/content.tsx:161 | the last occurrence of a character, or none in the string |
| Annotation.EndsWithQuotedTokenIff | src/content.tsx:161 | the trailing-token test holds exactly when the text has `"token"` with a non-empty, quote-free token followed only by white space |
| Annotation.FirstPieceWith | src/content.tsx:164-171 | the first text node whose content includes the current version; no earlier node includes it, or none does |
| Annotation.EndsWithQuotedToken | src/content.tsx:161 | the test `/"([^"]+)"\s*$/` on the line text; stated against the pattern's positional reading by EndsWithQuotedTokenIff |
| Annotation.Annotate | src/content.tsx:150-175 | what `addVersionIndicator` leaves on the line; stated by AnnotatePlacement, AnnotateIdempotent and AnnotateSinglePiece, and met by AddVersionIndicator |
| Annotation.AddVersionIndicator | src/content.tsx:143-176 | the text-node loop leaves the line exactly as the placement rule `Annotate` says |
| Annotation.AnnotatePlacement | src/content.tsx:150-175 | the text is never changed and a marked line is left alone; otherwise the line gets its one marker at the line end (when the text does not end with a quoted token), or in the parent of the first text node including the current version; when no text node includes it, the line gets no marker |
| Annotation.AnnotateIdempotent | src/content.tsx:150 | annotating adds at most one marker, and annotating a marked line again with any versions changes nothing |
| Annotation.AnnotateSinglePiece | src/content.tsx:161-175 | a line held in one text node that includes the current version always gets its marker: beside that node when the text ends with a quoted token, at the line end otherwise |
| Scanner.IsManifest | src/content.tsx:55-60 | a container is a manifest when it has a header whose text includes `package.json` or `package-lock.json`; used by ScanProcessedSet and ScanStartsNewManifests |
| Scanner.LineStep | src/content.tsx:71-90 | one pass of the per-line loop as a value; its properties are stated by LineStepFacts and OutdatedLineIsMarked, and ProcessLine meets it |
| Scanner.LineStepFacts | src/content.tsx:70-91 | one line keeps its text; a resolvable pair is looked up, and the line is annotated by the placement rule exactly when the latest version is truthy and differs from the line's version; a line without a pair, or with an invalid or skip-listed name, changes no cache entry or marker and sends nothing; at most one request is sent, for a resolvable name not cached; no entry is overwritten; a new entry was requested; an answered request is cached; a marker is added only to an unmarked, matching line, showing a non-empty latest version that differs from the line's version |
| Scanner.OutdatedLineIsMarked | src/content.tsx:74-85 | an unmarked line `lead "name": "version"` in one text node, with a resolvable uncached name and a registry answer that is newer, sends one request, caches the answer and gets one marker showing it: at the line end when the text goes on to a trailing comma, beside the text node when it ends with the quoted version |
| Scanner.DependencyLineText | src/content.tsx:161-166 | such a line's text includes its version, and ends with a quoted token exactly when nothing follows the version |
| Scanner.ProcessLines | src/content.tsx:70-91 | one file's lines processed in order as a value; its properties are stated by ProcessLinesLength, ProcessLinesLineAt, ProcessLinesCache, ProcessLinesFetchesOnce and ProcessLinesMarkers, and ProcessPackageFile meets it |
| Scanner.ProcessLinesLength | src/content.tsx:70-91 | processing a file yields one line for each of its lines |
| Scanner.ProcessLinesLineAt | src/content.tsx:70-91 | every line of the file is visited in order, whatever earlier lookups returned; line `i` comes out as one step leaves it, given the cache built by the lines before it |
| Scanner.ProcessLinesCache | src/content.tsx:75-141 | processing a file keeps every cache entry, adds only names it requested, and requests only resolvable names that were not cached |
| Scanner.ProcessLinesFetchesOnce | src/content.tsx:83-135 | when the registry answers every request, each requested name ends up cached and no name is requested twice in one file |
| Scanner.ProcessLinesMarkers | src/content.tsx:84-150 | processing never changes a line's text or an already marked line, and adds at most one marker to a line; lines with at most one marker keep at most one |
| Scanner.Scan | src/content.tsx:52-64 | one scan over the containers as a value; its properties are stated by ScanProcessedSet, ScanStartsNewManifests, ScanCoversNewManifests, ScanCoveredIsNoop and RescanStartsNothing, and ScanForPackageFiles meets it |
| Scanner.ScanProcessedSet | src/content.tsx:52-63 | a scan grows the processed set by exactly the ids of the manifest containers; others stay unprocessed and are re-examined next time |
| Scanner.ScanStartsNewManifests | src/content.tsx:53-62 | each container a scan starts processing is one of the scanned ones, has a manifest header and was not processed before; no two share an id; the set grows by exactly their ids |
| Scanner.ScanCoversNewManifests | src/content.tsx:52-63 | every manifest container not processed before is started, or one with the same id is |
| Scanner.ScanCoveredIsNoop | src/content.tsx:53 | a scan over containers whose manifests are all processed starts nothing and changes nothing |
| Scanner.RescanStartsNothing | src/content.tsx:38-53 | scanning the same containers again starts nothing, so a rescan never processes a container twice |
| Scanner.BitbucketScanner.constructor | src/content.tsx:9-14 | the scanner starts with no processed container and an empty cache |
| Scanner.BitbucketScanner.GetLatestVersion | src/content.tsx:121-141 | the method's result, request flag and new cache are those of `LookupLatest` on the old cache |
| Scanner.BitbucketScanner.ProcessLine | src/content.tsx:71-90 | one pass of the loop body returns the line and requests, and leaves the cache, as `LineStep` says; only resolvable names enter the cache |
| Scanner.BitbucketScanner.ProcessPackageFile | src/content.tsx:67-92 | the loop over the file's lines returns the lines, the requests and the new cache that `ProcessLines` gives on the old cache; only resolvable names enter the cache |
| Scanner.BitbucketScanner.ScanForPackageFiles | src/content.tsx:48-64 | keeps the scanner's invariant (only resolvable names are cached); the loop over the containers returns the containers it starts and the new processed set that `Scan` gives; the set grows by exactly the manifest ids |
| Observer.ShouldScan | src/content.tsx:31-36 | some record of the batch is a `childList` change with added nodes; OnMutations decides exactly this and ShouldScanConcat relates batches |
| Observer.OnMutations | src/content.tsx:30-40 | a rescan is scheduled exactly when some record is a `childList` change with added nodes, and it is scheduled after 500 ms |
| Observer.ShouldScanConcat | src/content.tsx:31-36 | a batch triggers exactly when one of its parts does, so the decision does not depend on how records are grouped |

## Left out

- `src/popup.tsx` and the background script are not part of this model. They hold UI state, `chrome.storage`, tab messaging and the statistics store, and the content script reads none of their state.
- The `fetch` call and JSON parsing are an oracle. A body whose `version` field is not a string is not modelled: `data.version` is a string or `undefined`.
- DOM queries (`querySelectorAll`, `querySelector`, `createElement`, `innerHTML`) are not modelled. A container is its id, its header text (absent when there is no header element) and its lines. A line is its text nodes and the markers it holds.
- The `getTextNodes` tree walk is replaced by the sequence of a line's text nodes, in document order.
- The text of a marker is not added to the line's `textContent`. Only a marked line could show the difference, and the gate leaves marked lines alone.
- Annotation.AddVersionIndicator: returns the new line value instead of appending a child element in place; aliasing between DOM nodes is not modelled.
- Scanner.BitbucketScanner.ProcessPackageFile: returns the new lines instead of mutating the page, takes one registry answer per line, and does not model the `console.warn` call.
- The `packageName` parameter of `addVersionIndicator` is unused by the code and is dropped.
- Concurrency between files is not modelled. `processPackageFile` is not awaited, so lookups of different files interleave. Two files can miss on the same name and both write the cache. Each file's loop is modelled on its own, sequentially.
- `init` and the `readyState`/`DOMContentLoaded` wait are not modelled. They only decide when the first scan runs.
- The MutationObserver registration and the `setTimeout` clock are not modelled. Observer.OnMutations returns the delay it would schedule instead of scheduling a timer.
- The extension's enabled flag and statistics are not modelled: the content script never reads or sends them.
