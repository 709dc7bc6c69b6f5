# alumulemu, modelled in Dafny

alumulemu is a self-hosted game-file server for Nintendo Switch homebrew clients such as Tinfoil. It scans a directory of NSP/XCI files and serves them as a Tinfoil index. It resolves titles against a TitleDB catalogue, and it downloads new files through importers into a download queue. This project models the logic behind those features and proves what that logic promises. The database, the network, the filesystem and the async runtime are left outside: their answers become parameters of the model.

One module per source file:

- `TitleDb` (src/titledb.rs): the naive filename tag parser, the "800" to "000" update-to-base lookup with the renaming of update hits, the base/update/DLC classification of the metadata view, and the 12-character download-id prefix rule.
- `Util` (src/util.rs): the download-id and display-name formatters.
- `Nsp` (src/nsp.rs): the PFS0 container reader over the file's bytes, the title id taken from the ticket, and the file-data lookup.
- `Dbi` (src/import/dbi.rs): the DBI listing parser over the `<a>` elements of a page, and the conversion to Tinfoil entries.
- `DownloadModels` (src/import/downloader/models.rs): download status and progress, the queue item, and the Content-Disposition filename extractor.
- `Queue` (src/import/downloader/queue.rs): the in-memory queue as a class over two maps kept in step by `add`, `cancel`, `cleanup` and `sync_with_db`; the final status a task publishes; and what `wait_until_done` makes of it.
- `Http` (src/import/downloader/http.rs): the bounded redirect walk, the retry loop with its `Range` resumption, the total size, the destination name and the byte count of a response.
- `ApiDownloader` (src/backend/api/downloader.rs): the listing, lookup, per-status statistics and cancellation endpoints, with their status codes.
- `NotUltranx`, `UrlImport`, `Registry` (src/import/not_ultranx.rs, url.rs, registry.rs): the importers and the id dispatch of a JSON import request.
- `Imports` (src/import/mod.rs): the import source and the import error.
- `MetadataApi` (src/backend/api/metadata.rs): the base game and the versions sharing its 12-character prefix.
- `IndexApi` (src/backend/api/mod.rs): the five-minute index cache, the message-of-the-day rule, and the download endpoint with its traversal check and filename sanitising.
- `KvConfig` (src/backend/kv_config.rs): the settings table and the get-or-write-default rule.
- `Router` (src/router.rs): the games-directory scan, the download by title id, and HTTP Basic authentication.
- `Startup` (src/main.rs): the secondary-locale parser, the TitleDB refresh decision, and the scheduler's wait arithmetic.

Shared helpers:

- `Wrappers`: `Option`, `Result` and an `Outcome` that records a Rust panic.
- `Strings`: Rust `str` operations: trimming by Unicode White_Space, find, replace, split and UTF-8 byte lengths.
- `Utf8`: UTF-8 encoding and `String::from_utf8`.
- `Numbers`: `u64::from_str` and decimal rendering.
- `PercentEncoding`: `urlencoding::decode`, following section 2.1 of RFC 3986.
- `Seqs`: filters, finds and single-row takes.

Code that updates state in place keeps that form in the model: `DownloadQueue`, `ImporterRegistry`, `IndexCache`, `KVConfig` and `SettingsTable` are classes. Loops are methods proved against specification functions.

Where this model departs from the source or the two disagree:

- `ImportSource` in src/import/mod.rs:106-121 has one-field `RemoteHttp(String)` and `RemoteHttpArchive(String)` variants and no `RemoteHttpAuto`. The importers build `RemoteHttp { url, headers }` and `RemoteHttpAuto(url)` (src/import/not_ultranx.rs:161-196, src/import/url.rs:77). The model follows the importers' shape.
- src/router.rs:94 calls `GameFileDataNaive::get` with arguments that src/titledb.rs does not show. The game data of a walked file is therefore a parameter of the scan.
- The "800" to "000" rewrite of src/titledb.rs:590 replaces every occurrence, not only the suffix. The model follows the code, and `TitleDb.LookupIdIsGlobal` shows an id for which the two readings differ.

## Model

| member | source | states |
|---|---|---|
| TitleDb.Scan | src/titledb.rs:33-69 | the captures of the lazy tag pattern never contain `]` or a line break, and deleting every match never lengthens the name |
| TitleDb.Parse | src/titledb.rs:31-79 | region is always absent and the extension is the last `.`-field; the title id is the first tag that is 16 bytes long, absent iff there is none; it is taken out of the tag list at its first position; the version is the first remaining tag starting with `v`, absent iff there is none, and is taken out the same way; the other tags are what is left, in their original order, so their count is the tag count minus one per found field; the name is the trimmed untagged file name |
| TitleDb.FindFirstTag | src/titledb.rs:44-54 | the loop finds the first title-id tag (or the first version tag) exactly as the first-match function does |
| TitleDb.Position | src/titledb.rs:48-58 | the index found holds the tag and no earlier index does; no index means the tag is absent |
| TitleDb.ParseFromFilename | src/titledb.rs:31-79 | narrowing the tag list in place, first by the title id and then by the version, yields exactly `Parse(filename)` |
| TitleDb.ExtensionAfterLastDot | src/titledb.rs:35 | the extension holds no `.`; it is the whole name when there is no `.`, and otherwise the name ends with `.` + extension |
| TitleDb.ScanTag | src/titledb.rs:33-42 | a bracketed tag without `]` or line break is captured, and the scan resumes right after it |
| TitleDb.ScanPlain | src/titledb.rs:33-69 | text without `[` is kept in the untagged name and adds no tag |
| TitleDb.ExtensionOf | src/titledb.rs:35 | the extension of `a.ext` is `ext` when `ext` has no `.` |
| TitleDb.CanonicalScan | src/titledb.rs:39-69 | a name of shape `{name}[{tid}][{ver}].{ext}` has exactly the tags `[tid, ver]` and untagged text `name.ext` |
| TitleDb.ParseCanonical | src/titledb.rs:31-79 | such a name parses back to its title id, its version, no other tag, its extension, and the trimmed name with the extension still attached |
| TitleDb.ParseFirstTitleIdWins | src/titledb.rs:42-60 | of two tags that both look like title ids, the first is the title id and the second stays among the other tags |
| TitleDb.Replace800Suffix | src/titledb.rs:590 | the global `800`→`000` rewrite turns a trailing `800` into `000` |
| TitleDb.LookupId | src/titledb.rs:586-593 | the looked-up id has the length of the original; an update id becomes a base id; a non-update id is looked up unchanged |
| TitleDb.LookupIdIsGlobal | src/titledb.rs:590 | for every update id `0100 800 0…0 800` (such as `0100800000000800`) the rewrite also changes the inner `800`, so the result differs from a suffix substitution |
| TitleDb.ReplaceKeepsPrefix | src/titledb.rs:590 | a prefix without an `8`, such as the leading `0100` of an id, survives the rewrite unchanged |
| TitleDb.ReplaceZeros | src/titledb.rs:590 | a run of zeros is left as it is by the rewrite |
| TitleDb.ReplaceStep | src/titledb.rs:590 | a string not starting with `8` keeps its first character under the rewrite |
| TitleDb.ReleaseDateText | src/titledb.rs:209-231 | an absent date stays absent, a text date is kept, a numeric date becomes a decimal digit string |
| TitleDb.ReleaseDateNumberRoundTrip | src/titledb.rs:228-230 | a numeric date up to `u64::MAX` parses back to the same number |
| TitleDb.AsUpdate | src/titledb.rs:604-613 | an update hit carries the update id as `title_id` and as the only `title_ids`, has ` (Update)` appended to a present name, and keeps everything else |
| TitleDb.GetFromTitleId | src/titledb.rs:583-620 | the rows matching the looked-up id (by `titleId` or `ids`) are read as at most one row: no match gives `None`, a single matching row gives its title, renamed as an update when the id ends in `800`, and two matching rows give an error |
| TitleDb.GetFromMetaviewCache | src/titledb.rs:646-674 | `None` iff no view row's title has the looked-up id; a single such row gives its title, renamed for an update id; two such rows give an error |
| TitleDb.MetaviewByTitleId | src/titledb.rs:252-258 | `None` iff no row has the requested title id; a single such row is returned; two such rows give an error |
| TitleDb.MetaviewByDownloadId | src/titledb.rs:260-269 | `None` iff no row has the requested download id; a single such row is returned; two such rows give an error |
| TitleDb.NonBaseTitles | src/titledb.rs:279-289 | every row returned has a non-empty own title id that does not end in `000` |
| TitleDb.BaseIsNotUpdate | src/titledb.rs:316-345 | no id is both a base id and an update id |
| TitleDb.RowClassified | src/titledb.rs:316-345 | each row whose title has an id is exactly one of base game, update and DLC |
| TitleDb.ClassificationCount | src/titledb.rs:316-345 | the base-game, update and DLC queries together return every row with a title id exactly once |
| TitleDb.DownloadIds | src/titledb.rs:292-314 | panics iff the id has no 12-byte prefix on a character boundary; otherwise every download id of a row sharing that prefix is returned, every id returned comes from such a row, and the list is the ordered one of `DownloadIdsOf` |
| TitleDb.DownloadIdsMembers | src/titledb.rs:297-311 | for an id with a 12-byte prefix, every download id of a row sharing that prefix is listed and every listed id belongs to such a row |
| TitleDb.DownloadIdsOf | src/titledb.rs:297-311 | one download id per row that shares the prefix and has a download id, in row order, duplicates kept |
| Util.StripV | src/util.rs:118-131 | exactly one leading `v` is removed when there is one, and the version is kept otherwise |
| Util.FormatDownloadId | src/util.rs:128-133 | the id starts with `{title_id}_v`, ends with `.{ext}`, and holds the version with one `v` stripped in between |
| Util.DownloadIdIgnoresV | src/util.rs:131 | a version with a leading `v` and the same version without it give the same download id |
| Util.DownloadIdStripsOnce | src/util.rs:131 | only one `v` is stripped: `vv` + x gives `_vv` + x |
| Util.GameBaseName | src/util.rs:112-115 | the stored title name when present; otherwise a prefix of the trimmed file name that no longer ends with the extension |
| Util.FormatGameName | src/util.rs:111-126 | the display name starts with `{name} [{title_id}][v` and always ends with `.` and the extension |
| Util.VersionTagChars | src/util.rs:117-124 | putting the `v` back in front of the stripped version adds no character other than `v` |
| Util.GameNameCanonical | src/util.rs:122-125 | the display name is the tagged shape `{name} [{tid}][v{ver}].{ext}` |
| Util.GameNameParses | src/util.rs:111-126 | the filename parser reads the display name back to its title id, its version with one `v`, its extension, and no other tag |
| Nsp.Pow256 | src/nsp.rs:7-23 | powers of 256 are positive |
| Nsp.Le | src/nsp.rs:7-17 | a little-endian field of `k` bytes holds a number below 256^k |
| Nsp.LeBytes | src/nsp.rs:7-8 | a number written little-endian in `k` bytes takes `k` bytes |
| Nsp.LeRoundTrip | src/nsp.rs:7-23 | a number below 256^k written little-endian in `k` bytes reads back as itself |
| Nsp.HeaderOf | src/nsp.rs:9-40 | the header's magic is the first four bytes; its counts are 32-bit values |
| Nsp.NameEnd | src/nsp.rs:57-61 | a name ends at the first NUL from its offset, or at the end of the table, and holds no NUL |
| Nsp.NameAsWritten | src/nsp.rs:56-63 | the code as written panics exactly when the name offset is past the string table, and otherwise succeeds iff the name bytes are UTF-8 |
| Nsp.EntryName | src/nsp.rs:56-63 | the corrected reading reports an offset past the table as an error, and agrees with the code everywhere else |
| Nsp.NameRoundTrip | src/nsp.rs:56-63 | a NUL-free name written in UTF-8 and ended by NUL reads back exactly |
| Nsp.ShortTableFields | src/nsp.rs:9-23 | the counterexample image has the magic, one file, an empty table and an entry naming offset 1 |
| Nsp.ShortTablePanics | src/nsp.rs:52-57 | that image is complete and well formed, yet the code as written panics on it |
| Nsp.ReadEntries | src/nsp.rs:46-49 | exactly `num_files` entries are read after the header, in order, or the read fails when the file ends first |
| Nsp.ReadNames | src/nsp.rs:55-70 | every entry becomes a file with its name from the string table and its offset and size copied, in entry order; the read fails with the error of the first name that does not read (every earlier name reads), including a name offset past the table, where the source panics instead (see Findings) |
| Nsp.ReadFile | src/nsp.rs:38-73 | a short file is an end-of-file error; a wrong magic is an invalid-format error; a readable file succeeds iff every name reads, keeping the header and exactly `num_files` files in entry order, and otherwise fails with the first failing name's error; a name offset past the table is an error here, where the source panics (see Findings) |
| Nsp.FilesOf | src/nsp.rs:55-70 | a readable file lists `num_files` files, each the file named by its entry |
| Nsp.FirstTicket | src/nsp.rs:76 | the first file whose name ends in `.tik`, or none |
| Nsp.GetTitleId | src/nsp.rs:75-84 | `None` without a ticket or for a ticket name under 16 bytes, and only then; otherwise the upper-cased first 16 bytes of the first ticket's name; a panic only when byte 16 is inside a character |
| Nsp.AsciiUtf8Len | src/nsp.rs:77 | an ASCII string is as many bytes long as it has characters |
| Nsp.TicketTitleId | src/nsp.rs:75-84 | a ticket named by 16 ASCII characters and anything after gives those characters upper-cased |
| Nsp.UtfLenAppend | src/nsp.rs:77 | byte lengths of concatenated strings add up |
| Nsp.UpperIdempotent | src/nsp.rs:124 | upper-casing an id with no lower-case letter changes nothing, so the second `to_uppercase` is a no-op |
| Nsp.GetTitleIdFromNsp | src/nsp.rs:119-127 | a short file, a wrong magic or a truncated image is the read error `read_file` gives, and a name that does not read is the first failing name's error (a name offset past the table included, where the source panics; see Findings); when every name reads, the ticket's id is returned in upper case, a missing or short ticket name gives "no title id", and the call panics exactly when `get_title_id` does; an id returned is always the ticket's, and "no title id" comes only from a container without a usable ticket |
| Nsp.FindByName | src/nsp.rs:89 | the first file with exactly the requested name (no earlier file has it); none iff no file has it |
| Nsp.ReadFileData | src/nsp.rs:88-95 | `None` for an unknown name, a container that does not open, or a non-empty file that runs past the container's end, and only then; otherwise exactly the entry's `size` bytes from its offset, and an empty file reads as empty even when its offset is past the end |
| Nsp.EmptyFilePastEnd | src/nsp.rs:90-94 | a file of size 0 whose offset is past the container's end reads as empty, not as a failure |
| Dbi.Before | src/import/dbi.rs:49 | the first `;`-piece is a prefix of the text that holds no `;`, and stops right at the first one |
| Dbi.SecondField | src/import/dbi.rs:43-45 | the second `;`-piece exists iff the text has a `;`, and holds no `;` |
| Dbi.SplitFields | src/import/dbi.rs:43-49 | the first two pieces of `split(';')` are the text before the first `;` and the one between the first and the second |
| Dbi.FromATag | src/import/dbi.rs:39-51 | the url is the `href` or empty; the name is the trimmed text before the first `;`; the size is the whitespace-free second piece as the byte-size parser reads it, and absent without a `;` |
| Dbi.LastBanner | src/import/dbi.rs:98-100 | a banner found is a `folder.jpg` entry of the list; without one the banner held is kept |
| Dbi.LastBannerFront | src/import/dbi.rs:98-105 | looking at one more entry in front first replaces the held banner when that entry is one |
| Dbi.OthersSpec | src/import/dbi.rs:101-103 | the other files are exactly the entries that are not `folder.jpg` |
| Dbi.FoldFilesKeeps | src/import/dbi.rs:98-105 | the fold appends every non-banner, in order, after the files already held |
| Dbi.FoldFilesBanner | src/import/dbi.rs:98-105 | the fold ends with the last banner, or the one held before when there is none |
| Dbi.Candidates | src/import/dbi.rs:94-97 | the kept links are no more than the links of the body |
| Dbi.ParseHtml | src/import/dbi.rs:83-107 | a page without a body element is the error "Could not find body element in HTML document", and only then; otherwise the files are the kept non-banner links in document order and the banner is the last kept `folder.jpg` |
| Dbi.ParsedFiles | src/import/dbi.rs:97-105 | no listed file is a banner or has an empty name or url, and a banner is a kept `folder.jpg` |
| Dbi.ToTinfoil | src/import/dbi.rs:54-61 | the entry's size is 0, and its url is the file's url, `#`, and the name |
| Dbi.ToTinfoilSplits | src/import/dbi.rs:56 | when the url has no `#`, the entry's url splits at the first `#` back into the url and the name |
| DownloadModels.DefaultStatus | src/import/downloader/models.rs:30-34 | the default status is `Queued` |
| DownloadModels.StatusText | src/import/downloader/models.rs:36-47 | `Failed(err)` renders as `Failed: ` + err and every other status as its bare name; only a failure renders with that prefix |
| DownloadModels.StatusTextInjective | src/import/downloader/models.rs:36-47 | two statuses with the same text are the same status: the display names the variant and keeps the failure message |
| DownloadModels.DefaultProgress | src/import/downloader/models.rs:50-60 | a default progress has no total, 0 bytes, status `Queued` and no file path |
| DownloadModels.ErrorMessage | src/import/downloader/models.rs:87-92 | a message is present iff the status is `Failed`, and it is that failure's message |
| DownloadModels.ProgressPredicates | src/import/downloader/models.rs:72-92 | success implies completion; complete iff successful, failed or cancelled; not complete iff queued, downloading or paused |
| DownloadModels.NewItem | src/import/downloader/models.rs:118-131 | a new item has no id, no creation time and default progress, and keeps url, output path and headers as given |
| DownloadModels.Save | src/import/downloader/models.rs:133-149 | an item without an id is the "Cannot save item without ID" error; with an id, an error of the database's upsert is returned as is; it succeeds iff the item has an id and the upsert does not fail, and then the item is stored under its id and every other record is kept |
| DownloadModels.TokenEnd | src/import/downloader/models.rs:179-199 | an unquoted value ends at the first whitespace or `;`, or at the end |
| DownloadModels.QuotedFilename | src/import/downloader/models.rs:167-174 | the quoted form is found iff `filename="` occurs with a later `"`, and it is exactly the text between the quotes |
| DownloadModels.ExtToken | src/import/downloader/models.rs:177-185 | the extended token is non-empty and holds no whitespace or `;` |
| DownloadModels.PlainFilename | src/import/downloader/models.rs:195-206 | the unquoted value is non-empty, holds no whitespace or `;`, and needs a `filename=` |
| DownloadModels.ParseContentDisposition | src/import/downloader/models.rs:163-210 | the quoted form wins; then the extended form when its token percent-decodes; otherwise the result is the unquoted form, which is non-empty when present; with no `filename` parameter the result is `None` |
| DownloadModels.NoPlainNoQuoted | src/import/downloader/models.rs:167-195 | without `filename=` there is no quoted form either |
| DownloadModels.ParseAttachmentHeader | src/import/downloader/models.rs:167-174 | `attachment; filename="name"` reads back to the name when it holds no `"` |
| Queue.Ids | src/import/downloader/queue.rs:312-321 | the ids of a listing, one per row, in row order |
| Queue.LeastOf | src/import/downloader/queue.rs:313-314 | every non-empty set of ids has a least element, the next key of the ordered map |
| Queue.FinalProgress | src/import/downloader/queue.rs:172-192 | the final progress keeps the byte counts; it is successful iff the download succeeded, then with the downloaded path; a failure carries the error text; either way it is complete |
| Queue.DoneResult | src/import/downloader/queue.rs:78-98 | only `Completed` succeeds, with the progress path or else the stored output path; a failed or missing database read gives its message; `Failed(err)` gives err; `Cancelled` gives "Download was cancelled" |
| Queue.WaitUntilDone | src/import/downloader/queue.rs:69-101 | the first complete update decides the result; if the channel closes before one, the error is "Failed to monitor download progress: " and the receive error |
| Queue.WaitAfterCancel | src/import/downloader/queue.rs:96 | a handle whose first complete update is `Cancelled` reports "Download was cancelled" |
| Queue.LastWithId | src/import/downloader/queue.rs:381-391 | the item a queued download ends with is the last database item carrying its id; none iff no item carries it |
| Queue.Synced | src/import/downloader/queue.rs:388-391 | refreshing an entry leaves its task as it was |
| Queue.LastWithIdStep | src/import/downloader/queue.rs:381-391 | one more database item either is the new last item for its id or leaves the last item unchanged |
| Queue.SyncItems | src/import/downloader/queue.rs:381-402 | the loop keeps the queued ids and leaves each entry refreshed from the last database item with its id |
| Queue.WithoutSpec | src/import/downloader/queue.rs:365-369 | removing a set of keys keeps exactly the other keys with their entries |
| Queue.WithoutNothing | src/import/downloader/queue.rs:365-369 | removing no key keeps the map |
| Queue.WithoutOneMore | src/import/downloader/queue.rs:365-369 | removing one more key is removing the larger set |
| Queue.Least | src/import/downloader/queue.rs:313-314 | the least id of a non-empty set |
| Queue.Ascending | src/import/downloader/queue.rs:313-314 | the keys of the ordered map, each once, in strictly ascending order |
| Queue.Walk | src/import/downloader/queue.rs:312-321 | the walk lists every queued id in ascending order, each row agreeing with the item and the current progress |
| Queue.DownloadQueue.constructor | src/import/downloader/queue.rs:111-113 | a new queue has no downloads and no watchers |
| Queue.DownloadQueue.GetItem | src/import/downloader/queue.rs:304-306 | the item is present iff the id is queued, and is that entry's item |
| Queue.DownloadQueue.GetProgress | src/import/downloader/queue.rs:308-310 | progress is present iff the queue holds the sender, and is the value last published |
| Queue.DownloadQueue.RemovableIds | src/import/downloader/queue.rs:326-361 | exactly the queued ids whose task has finished or whose status is Completed, Failed or Cancelled |
| Queue.DownloadQueue.Add | src/import/downloader/queue.rs:115-145 | the fresh id is returned and stored in the item with the creation time; the id enters both maps and its channel starts at the default progress; the maps keep the same keys (the insertion into the downloads map is at lines 273-279) |
| Queue.DownloadQueue.Report | src/import/downloader/queue.rs:195-270 | a forwarded update replaces the published value of that download only |
| Queue.DownloadQueue.Finish | src/import/downloader/queue.rs:172-193 | the task's end publishes the final progress and marks the task finished, so the entry becomes removable |
| Queue.DownloadQueue.Cancel | src/import/downloader/queue.rs:282-302 | true iff the id was queued; then `Cancelled` is published and the id leaves both maps; an unknown id changes nothing |
| Queue.DownloadQueue.ListDownloads | src/import/downloader/queue.rs:312-321 | every queued id once, in ascending order, with its item and its current progress |
| Queue.DownloadQueue.RemoveAll | src/import/downloader/queue.rs:363-371 | the removal loop drops each id from both maps and counts each one once |
| Queue.DownloadQueue.Cleanup | src/import/downloader/queue.rs:324-372 | returns the number of removable entries, removes exactly those from both maps, leaves the others untouched, and leaves nothing removable, so a second call returns 0 |
| Queue.DownloadQueue.SyncWithDb | src/import/downloader/queue.rs:375-405 | a failed read is returned and changes nothing; otherwise each queued item is refreshed from the last database item with its id; the set of queued ids does not change |
| Http.Pow2 | src/import/downloader/http.rs:255 | powers of two are at least 1 |
| Http.Redirects | src/import/downloader/http.rs:67-111 | the walk starts with the requested url, makes at most `max_redirects` + 1 requests, keeps the same `Range` value throughout, returns the answer to its last request, and hands back a redirect only once the bound is spent |
| Http.GetWithRedirects | src/import/downloader/http.rs:67-111 | the loop makes exactly the requests of the redirect walk and returns its result |
| Http.DefaultRedirectBound | src/import/downloader/http.rs:48-81 | with the default bound of 10, at most 11 requests are made, and a redirect is returned only after ten were followed |
| Http.RangeHeader | src/import/downloader/http.rs:357-361 | a `Range` header is sent iff resuming from a positive offset, and has the form `bytes=N-` |
| Http.RangeHeaderOffset | src/import/downloader/http.rs:359 | the offset in `bytes=N-` reads back as N |
| Http.AttemptRequests | src/import/downloader/http.rs:356-383 | as written, an attempt's first request carries the `Range` header, and every request of a redirect walk after it carries none |
| Http.ResumeLosesRange | src/import/downloader/http.rs:370-382 | a resumed attempt whose ranged request is redirected sends its next request for the same url without `Range` |
| Http.AttemptRequestsRanged | src/import/downloader/http.rs:356-383 | the corrected attempt sends the `Range` header with every request of the redirect walk and returns the answer to its last request |
| Http.NextResume | src/import/downloader/http.rs:283-297 | the resume offset never decreases; it rises to a larger partial byte count and is otherwise kept |
| Http.Retry | src/import/downloader/http.rs:235-344 | at most `MAX_RETRIES` + 1 attempts remain; an empty log means a cancellation before a retry, which gives the cancellation error; an attempt resumes from the offset so far after the backoff of its number |
| Http.RetryUnfold | src/import/downloader/http.rs:276-332 | a retried attempt is followed by the loop from the next attempt and the updated offset; any other attempt is the last |
| Http.DownloadWithRetries | src/import/downloader/http.rs:226-344 | the loop returns the result and makes the attempts of the retry function started at attempt 0 and offset 0 |
| Http.RetryAttempts | src/import/downloader/http.rs:241-332 | attempt n waits 2^n seconds (none for the first), resumes from at least the starting offset, and every attempt but the last was retried with the next one resuming from the updated offset |
| Http.RetryOutcome | src/import/downloader/http.rs:241-344 | the result is the outcome of the last attempt, unless that attempt was retried and the download was cancelled before the next |
| Http.AttemptBound | src/import/downloader/http.rs:235-241 | at most four attempts are made, the first at once and from offset 0 (the retry decision is at lines 312-332) |
| Http.FinalErrorStops | src/import/downloader/http.rs:278-332 | an `Interrupted` error or a non-retryable error is returned by the attempt that raised it, with no further attempt |
| Http.ResumeMonotone | src/import/downloader/http.rs:283-297 | the offsets successive attempts resume from never go down |
| Http.TotalSize | src/import/downloader/http.rs:489-524 | with Content-Length the total is present iff it is header text that parses as `u64`, and is it plus the resumed offset; without either header there is none; from Content-Range only when it splits into exactly two parts at `/` |
| Http.DecimalPlain | src/import/downloader/http.rs:513 | a decimal number is header text without `/` |
| Http.ContentRangeTotal | src/import/downloader/http.rs:508-520 | `Content-Range: range/total` alone gives `total` |
| Http.ContentLengthTotal | src/import/downloader/http.rs:494-505 | `Content-Length: n` gives n plus the resumed offset, whatever Content-Range says |
| Http.JoinPath | src/import/downloader/http.rs:480 | the joined path ends with the file name |
| Http.FileName | src/import/downloader/http.rs:431-478 | an error (invalid data) iff Content-Disposition is not header text; otherwise its parsed filename, else the url's last segment, else `download_<now>.bin` |
| Http.ServedNameKept | src/import/downloader/http.rs:433-448 | the `attachment; filename="…"` header the index server sends names the file |
| Http.AttachmentIsHeaderText | src/import/downloader/http.rs:438 | that header around header text is itself header text |
| Http.HeaderStrAppend | src/import/downloader/http.rs:438 | header text joined to header text is header text |
| Http.ReceivedStep | src/import/downloader/http.rs:581-585 | one more data chunk adds its length to the bytes received |
| Http.Reports | src/import/downloader/http.rs:548-602 | one progress update before the first chunk and one per chunk |
| Http.ReportsAt | src/import/downloader/http.rs:548-602 | each update reports the total, the path, status Downloading, and the resumed offset plus every byte received so far |
| Http.ReportsMonotone | src/import/downloader/http.rs:543-585 | the reported counts never go down and start at the resumed offset |
| Http.StreamBody | src/import/downloader/http.rs:543-633 | success iff every chunk is data, arrives before a cancellation and is written, and the flush and shutdown succeed; then the count is the resumed offset plus all chunk bytes, followed by a Completed update; otherwise the chunk where it stopped decides: a cancellation fails with `Interrupted`, a broken stream with the partial count reached, a refused write with its own error; a failed flush or shutdown returns its error |
| Http.Destination | src/import/downloader/http.rs:431-486 | a plain output path is used as it is; a directory gets the chosen file name appended, failing only when that name fails |
| Http.ProcessResponse | src/import/downloader/http.rs:398-636 | a non-success status fails with "HTTP error: <code> <code>" before anything is sent; a cancellation fails next; then a destination error and an open error are returned; with all of these clear and a clean stream the result is the destination path, with a last update reporting the total and every byte; the reported counts never go down and start at the resumed offset |
| ApiDownloader.Counter | src/backend/api/downloader.rs:93-100 | each status goes to one of six counters; `Failed` alone to the last and `Queued` alone to the first |
| ApiDownloader.CountOf | src/backend/api/downloader.rs:92-101 | a counter never exceeds the number of downloads listed |
| ApiDownloader.CountStep | src/backend/api/downloader.rs:92-101 | one more download adds one to its own counter and to no other |
| ApiDownloader.CountsPartition | src/backend/api/downloader.rs:92-108 | the six counters add up to the number of downloads listed |
| ApiDownloader.Tally | src/backend/api/downloader.rs:90-108 | the loop fills each counter with the number of downloads of that status, and `total` is their sum, which is the number listed |
| ApiDownloader.Progresses | src/backend/api/downloader.rs:83-87 | the progress column of the listing, row by row |
| ApiDownloader.IncreasingCard | src/backend/api/downloader.rs:83-87 | strictly increasing ids covering a key set are as many as the keys |
| ApiDownloader.ListingCard | src/backend/api/downloader.rs:83-87 | a listing in ascending id order covering the queue has one row per queued download |
| ApiDownloader.ListingCount | src/backend/api/downloader.rs:90-108 | tallying the progress of an ascending listing that covers the queue counts, under each counter, exactly the queued downloads whose current status that counter tallies |
| ApiDownloader.GetDownloadStats | src/backend/api/downloader.rs:72-111 | every queued download is counted once, under its current status: each of `queued`, `downloading`, `paused`, `completed`, `cancelled` and `failed` is the number of queued downloads whose published progress has that status, and `total` is the number of queued downloads and the sum of the six counters |
| ApiDownloader.ToMap | src/backend/api/downloader.rs:39-42 | the map's keys are exactly the listed ids |
| ApiDownloader.ToMapKeeps | src/backend/api/downloader.rs:39-42 | with distinct ids every listed item is kept under its own id |
| ApiDownloader.GetDownloads | src/backend/api/downloader.rs:13-45 | one entry per queued download, mapping its id to its item |
| ApiDownloader.FindListing | src/backend/api/downloader.rs:61-65 | none iff the id is not listed; otherwise the item of a row with that id |
| ApiDownloader.GetDownload | src/backend/api/downloader.rs:48-69 | the item is present iff the id is queued, and is that entry's item |
| ApiDownloader.GetDownloadHandler | src/backend/api/downloader.rs:154-165 | a queued id gives 200 with its item; any other id gives 404 |
| ApiDownloader.CancelDownloadHandler | src/backend/api/downloader.rs:179-195 | 200 iff the queue held the download, else 404; the id leaves both maps either way; a held download has `Cancelled` published on its channel, and for an unknown id the channel is unchanged (through `cancel_download` at lines 114-129) |
| NotUltranx.RequestedType | src/import/not_ultranx.rs:112-120 | a request without a download type asks for the full package; otherwise for the type it names (the request field defaults through `#[serde(default)]` at lines 11-15) |
| NotUltranx.StoredToken | src/import/not_ultranx.rs:42-46 | a token is read iff the store answered with a configuration holding one, and it is that token; a store error gives the default, which has none (the import reads it again at lines 137-144) |
| NotUltranx.Links | src/import/not_ultranx.rs:78-81 | the links are exactly the `href`s present, and no more of them than elements selected |
| NotUltranx.FirstEnding | src/import/not_ultranx.rs:90-93 | none iff no link has the suffix; otherwise the earliest link that has it |
| NotUltranx.GetTitle | src/import/not_ultranx.rs:67-109 | a transport error is propagated; a 404 page or a page without a "/base" link is no title; otherwise each url is the first link with its suffix |
| NotUltranx.ClientHeaders | src/import/not_ultranx.rs:40-56 | the client's default headers hold the auth cookie iff the token is present, non-empty and a valid header value |
| NotUltranx.ImportHeaders | src/import/not_ultranx.rs:142-158 | the headers are present iff the token is present and non-empty, and then hold exactly the auth cookie |
| NotUltranx.UrlFor | src/import/not_ultranx.rs:160-202 | the base type always has a url, the title's base url |
| NotUltranx.Dispatch | src/import/not_ultranx.rs:160-202 | an error iff the title has no url for the type, with that type's message; otherwise the type's url with the given headers, as an archive exactly for DLCs and full packages |
| NotUltranx.Import | src/import/not_ultranx.rs:125-204 | a fetch error is propagated; no title is `GameNotFound`; a title is dispatched on the requested type with the cookie headers of the configuration read at import time |
| NotUltranx.ImportPicksFirstLink | src/import/not_ultranx.rs:86-109 | without a "/base" link there is no title; with one, an import succeeds iff some link ends in the requested suffix, and its url is the first such link of the page (the match on the download type is at lines 160-202) |
| NotUltranx.CookiesAgree | src/import/not_ultranx.rs:40-56 | the client's default cookie and the import's headers agree whenever the token makes a valid header value, and both are empty when there is no token (the import builds its own headers at lines 142-158) |
| UrlImport.HeaderText | src/import/url.rs:126-142 | a header value reads as text iff every character is visible ASCII or tab, and then as itself |
| UrlImport.DecodeAndParse | src/import/url.rs:42-64 | a decode failure is "Failed to decode URL: " and the decoder's error, a parse failure is "Invalid URL: " and the parser's error, and success iff both succeed, giving the decoded URL and its parse |
| UrlImport.ImportById | src/import/url.rs:37-78 | an import succeeds iff the URL decodes, parses and has scheme http or https, and then is `RemoteHttpAuto` of the decoded URL; any other scheme or a decode/parse error is an error |
| UrlImport.EscapeReserved | src/import/url.rs:212 | escaping never shortens a URL |
| UrlImport.EscapeReservedBytes | src/import/url.rs:43 | percent-decoding the bytes of an escaped URL without '%' gives back the URL's bytes (the encoded example of line 212 is such a URL) |
| UrlImport.EscapeReservedDecodes | src/import/url.rs:43 | an escaped URL without '%' decodes back to itself (the encoded example of line 212 is such a URL) |
| UrlImport.EscapedUrlImports | src/import/url.rs:207-221 | an https URL escaped the way the test escapes it imports as `RemoteHttpAuto` of the URL itself |
| UrlImport.PlainUrlImports | src/import/url.rs:37-78 | a URL with no '%' imports as itself when its scheme is http or https, and is refused for any other scheme |
| UrlImport.DefaultFilename | src/import/url.rs:104-108 | the last path segment when the URL has one, and "unknown.file" otherwise |
| UrlImport.PartValue | src/import/url.rs:145-159 | a part has a value iff, trimmed, it starts with `filename=`, and the value is the trimmed rest |
| UrlImport.PartValues | src/import/url.rs:145 | one value per `;`-separated part, in order |
| UrlImport.FirstSomeSpec | src/import/url.rs:145 | the `find_map` finds nothing iff no part has a value, and otherwise the first value present |
| UrlImport.StripQuotesAsWritten | src/import/url.rs:150-156 | the stripping as written panics exactly on a lone quote, removes a pair of matching outer quotes, and leaves an unquoted value alone |
| UrlImport.StripQuotes | src/import/url.rs:150-156 | the intended stripping: a value of two or more characters wrapped in matching quotes loses them; any other value is kept |
| UrlImport.StripQuotesUnwraps | src/import/url.rs:150-153 | a name wrapped in a pair of quotes strips back to the name |
| UrlImport.DispositionFilenameAsWritten | src/import/url.rs:139-161 | the Content-Disposition lookup as written panics iff the first file name value is a lone quote |
| UrlImport.DispositionFilename | src/import/url.rs:139-161 | none iff no part has a file name value; otherwise the first value with its quotes stripped |
| UrlImport.AsWrittenAgrees | src/import/url.rs:139-161 | wherever the code as written returns it agrees with the intended reading, and it panics only on a one-character name |
| UrlImport.KeyPartValue | src/import/url.rs:146-148 | the part ` filename=v` has the value `v` for a value without white space at its ends |
| UrlImport.TwoPartValues | src/import/url.rs:145-159 | a two-part header whose first part has no value yields the second part's value only |
| UrlImport.AsWrittenOfFirst | src/import/url.rs:145-161 | once the first value is known, the code as written panics or strips that value |
| UrlImport.LoneQuotePanics | src/import/url.rs:150-153 | a header whose file name is a lone quote makes the code as written panic |
| UrlImport.AttachmentLoneQuotePanics | src/import/url.rs:150-153 | the header `attachment; filename="` makes the code as written panic |
| UrlImport.DispositionRoundTrip | src/import/url.rs:139-161 | the header `a; filename="name"` reads back to `name` under the intended reading |
| UrlImport.GetImportData | src/import/url.rs:80-187 | decoding and parsing errors are propagated; a non-success HEAD answer is no data; a failed HEAD gives the URL with its default name alone; otherwise type, size and name come from the headers, falling back to the default name; a lone-quote file name is kept here, where the source panics (see Findings) |
| UrlImport.ImportAtLeastAsStrict | src/import/url.rs:37-101 | whatever the metadata lookup rejects the import rejects with the same error, and whatever the import accepts has metadata |
| Registry.ImporterRegistry.constructor | src/import/registry.rs:67-73 | a new registry has no importers and no friendly names |
| Registry.ImporterRegistry.Get | src/import/registry.rs:94-97 | an importer is found iff one is registered under the id, and it is that importer |
| Registry.ImporterRegistry.Has | src/import/registry.rs:104-107 | an id is registered iff `get` finds an importer for it |
| Registry.ImporterRegistry.GetAll | src/import/registry.rs:99-102 | exactly the importers `get` finds under some id |
| Registry.ImporterRegistry.Register | src/import/registry.rs:75-92 | the importer is stored under the id, replacing an earlier one; its lower-cased display name leads to the id unless the name is the id; every other id keeps its importer; every friendly name still leads to a registered id |
| Registry.InitRegistry | src/import/registry.rs:116-129 | afterwards "ultranx" holds the UltraNX importer and "url" the URL importer, whatever was registered before |
| Registry.Selected | src/import/registry.rs:156-178 | an importer is picked only for "ultranx" or "url", and only when the importer registered there is of that id's own kind |
| Registry.ImportWithJson | src/import/registry.rs:152-207 | an unknown id, or one registered with another kind, is "not supported"; a request that does not parse is an error before any import; otherwise the picked importer's own result |
| MetadataApi.FindBase | src/backend/api/metadata.rs:59-94 | none iff no local file is a base game of the prefix (starts with it, ends in "000"); otherwise the first such file |
| MetadataApi.CachedTitle | src/backend/api/metadata.rs:65-99 | a cache error becomes 500; otherwise the cache's answer unchanged |
| MetadataApi.BaseTitle | src/backend/api/metadata.rs:57-100 | 404 without a local base file or without a cached title for it, 500 on a cache error, and otherwise the cached title of the first local base file |
| MetadataApi.TitleMetaBaseGame | src/backend/api/metadata.rs:47-71 | a failed metadata read is 500; a parameter shorter than 12 bytes (or cut inside a character) panics; otherwise the base title of its 12-byte prefix |
| MetadataApi.Versions | src/backend/api/metadata.rs:102-114 | at most one version per local file |
| MetadataApi.VersionTitleGives | src/backend/api/metadata.rs:105-113 | a file contributes a title iff it shares the prefix, is not a base game and the cache holds that title for it |
| MetadataApi.VersionsSound | src/backend/api/metadata.rs:102-114 | every listed version is the cached title of some non-base local file of the prefix |
| MetadataApi.VersionsComplete | src/backend/api/metadata.rs:102-114 | the cached title of every non-base local file of the prefix is listed |
| MetadataApi.VersionsSpec | src/backend/api/metadata.rs:102-114 | a title is listed iff some non-base local file of the prefix has it as its cached title |
| MetadataApi.BaseNotAVersion | src/backend/api/metadata.rs:91-107 | the base file found is never among the versions, and no version shares its title id |
| MetadataApi.CollectVersions | src/backend/api/metadata.rs:102-114 | the loop collects exactly the versions, in file order |
| MetadataApi.ListGroupedByTitleid | src/backend/api/metadata.rs:82-122 | the same 500, panic and 404 cases as the base-game lookup; otherwise the base title with every version sharing its prefix |
| IndexApi.Elapsed | src/backend/api/mod.rs:79 | the time since an earlier instant, and zero for an instant that is not in the past |
| IndexApi.MotdSuccess | src/backend/api/mod.rs:57-62 | the index carries a message iff the message of the day was read, is enabled and has a message, and then it is that message |
| IndexApi.GenerateIndex | src/backend/api/mod.rs:43-70 | an error reading the local index or the extra sources is returned; otherwise the message of the day and the stored sources (none when nothing is stored) are set, and without extra indexes the listing is the local one |
| IndexApi.IndexCache.constructor | src/backend/api/mod.rs:35-40 | the cache starts empty, with no timestamp |
| IndexApi.IndexCache.Serves | src/backend/api/mod.rs:77-79 | the cache answers only when it holds data stamped less than five minutes ago, and always does then |
| IndexApi.IndexCache.Invalidate | src/backend/api/mod.rs:117-122 | data and timestamp are cleared, so the cache serves at no instant |
| IndexApi.IndexCache.TinfoilIndex | src/backend/api/mod.rs:73-114 | a fresh cache answers with its data and is untouched; otherwise the generated index is returned, and on success stored with the current instant, after which the cache serves it |
| IndexApi.Sanitize | src/backend/api/mod.rs:200 | same length; each unsafe character becomes `_` and every other character is kept, so no unsafe character remains |
| IndexApi.DownloadFile | src/backend/api/mod.rs:124-225 | a traversal id gets a failure body before any lookup; a lookup error is 500; an unknown id or a file that does not open is 404; a found file that opens is served as an octet stream under its formatted, sanitised name when that makes a header value, and is 500 otherwise |
| IndexApi.TraversalNeverLooksUp | src/backend/api/mod.rs:127-140 | the answer to a traversal id does not depend on what the store holds |
| IndexApi.DispositionReadsBack | src/backend/api/mod.rs:200-213 | the served `Content-Disposition` reads back, with the URL importer's extractor, to the sanitised name of a name without `;` |
| KvConfig.SettingsTable.constructor | src/backend/kv_config.rs:14 | the `settings` table holds the given records |
| KvConfig.KVConfig.constructor | src/backend/kv_config.rs:22-25 | a record of the given key and value |
| KvConfig.KVConfig.Set | src/backend/kv_config.rs:38-44 | the local value is set even when the store fails; the record is upserted under its key unless the store fails, and the table is otherwise unchanged |
| KvConfig.KVConfig.Delete | src/backend/kv_config.rs:46-52 | the record under the key is removed unless the store fails, and nothing else changes |
| KvConfig.Lookup | src/backend/kv_config.rs:27-36 | a read error is returned; otherwise a record is found iff the key is stored, with its value field |
| KvConfig.Stored | src/backend/kv_config.rs:101-134 | a setting is read iff the record exists, has a value and it deserialises, and then it is that value |
| KvConfig.GetOutcome | src/backend/kv_config.rs:93-169 | a read error changes nothing; a stored setting is returned without writing; a missing key, a record without a value or one that does not deserialise falls back to the default: `None` without one, the serialisation or store error when writing it fails, and otherwise the default written back under the key and returned |
| KvConfig.Get | src/backend/kv_config.rs:93-169 | returns and leaves the table as the outcome above, starting from the table's rows |
| KvConfig.SetSetting | src/backend/kv_config.rs:74-81 | a serialisation error is returned with the table unchanged; otherwise the serialised setting is upserted under the key unless the store fails |
| KvConfig.DeleteSetting | src/backend/kv_config.rs:174-179 | the record under the key is removed unless the store fails |
| KvConfig.GetFoundWritesNothing | src/backend/kv_config.rs:100-144 | a read that finds a stored setting, or fails, leaves the table as it was |
| KvConfig.GetAfterDelete | src/backend/kv_config.rs:147-179 | after a delete, the next read writes the default back and returns it |
| KvConfig.GetTwiceStable | src/backend/kv_config.rs:93-169 | a second read returns what the first returned and writes nothing, when the default deserialises back to itself |
| Router.DisplayName | src/router.rs:104-111 | the listed name is a prefix of the trimmed game name and does not end in ".nsp" |
| Router.FormattedName | src/router.rs:96-116 | `{name} [{title id}][{version}]`, with `.{ext}` when there is an extension, where a missing title id is "00000000AAAA0000" and a missing version "v0" |
| Router.FormattedNameParses | src/router.rs:100-116 | the filename parser reads back from a listed name the title id, version and extension the scan used, with no other tags |
| Router.TrimInside | src/router.rs:104 | trimming keeps only characters of the string |
| Router.PrependStep | src/router.rs:82-126 | adding entries in two steps is adding them at once |
| Router.ScanGamesPath | src/router.rs:73-129 | the loop's result is the scan of the walked entries, in walk order, stopping at the first error |
| Router.ScanFailsIff | src/router.rs:83-94 | the scan fails iff some walked entry is an error or a game file whose data cannot be read |
| Router.ScanListsGameFiles | src/router.rs:86-125 | a successful scan lists exactly one entry per walked file with a game extension, and each entry is such a file's path, the `/api/get_game` route, its formatted name and its title id |
| Router.FindTitle | src/router.rs:163-168 | none iff no record has exactly that title id; otherwise the first record that has it |
| Router.DownloadFile | src/router.rs:143-200 | an id containing ".." is 400; a failed metadata read is 500; no record with that exact title id is 404; the first such record decides: 404 when its file does not open, otherwise its file served as an attachment named after its file name ("game.nsp" when it has none), and a panic when that name is not a header value |
| Router.DecodedCredentials | src/router.rs:207-212 | credentials come only from base64 that decodes to UTF-8 text containing a ':', which is the user name, a ':' and the password, with no ':' in the user name |
| Router.BasicCredentials | src/router.rs:203-212 | credentials are read iff the header is present, is text, starts with "Basic " and its trimmed rest decodes to credentials |
| Router.BasicAuth | src/router.rs:202-243 | a request proceeds iff its credentials name a user whose stored hash verifies the password; with credentials, a failed user read or an unparsable hash is 500 and an unknown user or a wrong password is 401; without them it is 401; every 401 carries `WWW-Authenticate: Basic` |
| Router.BasicHeaderText | src/router.rs:204 | a "Basic " header of base64 text is a valid text header value |
| Router.BasicHeaderRest | src/router.rs:205-206 | the encoded part of a "Basic " header is what remains after the prefix and trimming |
| Router.SplitUserPassword | src/router.rs:209-212 | `user:password` splits at its first ':' into the user name and the password, when the user name has no ':' |
| Router.DecodedRoundTrip | src/router.rs:207-212 | base64 of `user:password` decodes to that user name and password |
| Router.BasicCredentialsRoundTrip | src/router.rs:203-212 | the header a client builds for a user name without ':' and any password reads back to that user name and password (section 2 of RFC 7617) |
| Startup.ParseSecondaryLocale | src/main.rs:40-47 | a locale parses iff it holds exactly one '_', into the upper-cased region before it and the lower-cased language after it; otherwise the "Invalid locale string" error naming it |
| Startup.LocaleRoundTrip | src/main.rs:40-47 | `region_lang` with no '_' in either part reads back as the upper-cased region and the lower-cased language |
| Startup.Age | src/main.rs:125 | the time since the file was modified, and zero when the time lies in the future |
| Startup.ShouldDownloadLater | src/main.rs:123-137 | a download that is due stays due as time passes; a file modified in the future is never stale; otherwise the file is stale iff it is more than six hours old |
| Startup.ImportTitleDb | src/main.rs:118-205 | a download into the `region_lang` table iff the cache is missing, unreadable or stale; otherwise the cached `region.lang.json` is imported iff the table is empty, a table with data is left alone, and a failed count is only logged |
| Startup.DownloadIgnoresCount | src/main.rs:139-163 | a due download does not depend on the title count |
| Startup.TruncDiv | src/main.rs:99 | integer division rounded toward zero (the TitleDB scheduler does the same at line 295) |
| Startup.TruncRem | src/main.rs:100 | the remainder that goes with the truncated quotient, so quotient times divisor plus remainder is the dividend (the TitleDB scheduler does the same at line 296) |
| Startup.ScheduleCoversWait | src/main.rs:96-101 | for a run in the future, the logged hours and minutes are whole hours and minutes under 60 and fall short of the wait by less than a minute (the TitleDB scheduler repeats it at lines 292-297) |
| Startup.ScheduleNegated | src/main.rs:96-101 | a run in the past is logged with the same hours and minutes, negated (the TitleDB scheduler repeats it at lines 292-297) |
| Startup.SleepSeconds | src/main.rs:103-105 | the scheduler sleeps only when the run is in the future, and then for the whole wait (the TitleDB scheduler repeats it at lines 300-302) |
| Numbers.ParseU64 | src/import/url.rs:132-136 | after one optional leading '+', the text parses iff it is a non-empty run of decimal digits whose value fits in 64 bits, and then it reads as that value |
| Numbers.ParsePadded | src/import/url.rs:132-136 | a '+' and any number of leading zeros in front of a decimal number that fits in 64 bits still read as that number |
| Numbers.ParseOverflow | src/import/url.rs:132-136 | 2^64 written in decimal does not parse |
| PercentEncoding.DecodeEncodeAll | src/import/url.rs:43-82 | percent-decoding undoes the percent-encoding of any bytes |
| PercentEncoding.DecodeNoPercent | src/import/url.rs:43-82 | text without '%' decodes to itself |
| Utf8.DecodeEncode | src/router.rs:208 | text encoded as UTF-8 decodes back to itself |
| Strings.Split | src/main.rs:41 | the pieces are never an empty list, hold no separator, and joined with it give back the text |
| Strings.SplitOnce | src/router.rs:209-212 | two pieces iff the separator occurs, split at its first occurrence |
| Strings.TrimEndMatchesRepeat | src/router.rs:104 | what `trim_end_matches` removes is a number of whole copies of the pattern |

## Left out

- Database access: SurrealDB queries, schema creation and BM25 ranking. The catalogue, the local-file records and the settings table are sequences or maps passed in, and a query is a filter over them. `Title::count`, `get_all_titles`, `search` and `list_base_games` are not modelled.
- Concurrency: tokio tasks, join handles, watch and mpsc channels, cancellation tokens, and the `Mutex`/`RwLock` globals with their poisoning. A finished task and a cancellation are boolean fields; a channel keeps the last value sent.
- Identifiers and clocks: a ULID is a number the caller supplies as fresh. Its uniqueness and its time ordering are assumed, not modelled. Instants and system times are nanosecond counts passed in.
- Integer widths: byte counts, offsets and sizes are unbounded; u64 overflow in `Http` and `Nsp` arithmetic is not modelled. `Numbers.ParseU64` alone keeps the 64-bit bound of `u64::from_str`.
- Floating point: `Progress::percentage` and the percentage milestones logged by the queue.
- Foreign libraries are parameters or oracles: HTML parsing and CSS selection, `Url::parse`/`join`, `ByteSize` parsing, JSON (de)serialisation, base64 decoding and argon2 verification. So is `HeaderValue::from_str` beyond its character rule.
- I/O: opening, creating, appending to and removing files; directory walks; zip extraction and temporary directories. Each outcome is an input, including the write, flush and shutdown results of a download.
- Case mapping: `Strings.ToUpper` and `Strings.ToLower` map ASCII letters only. Rust's full Unicode case mapping is not modelled, and this affects `Nsp.GetTitleId`, `Startup.ParseSecondaryLocale` and `Registry.ImporterRegistry.Register`.
- Error messages of foreign errors (reqwest, io, serde, eyre): an error keeps the message the source writes itself. The foreign part is an opaque string.
- Registry.ImporterRegistry.GetAll: the result is a set. The order of the hash map's values and repeated values are not modelled.
- Registry.InitRegistry: states the two importers registered, not the friendly names recorded for them.
- Registry.ImportWithJson: the URL importer's request parser and its import are parameters, because the source of its `Importer::import` is not part of this model.
- NotUltranx.ClientHeaders: the fallback to a default client when the client builder fails is not modelled. The client is otherwise unused by the model, since the page fetch is an input.
- IndexApi.GenerateIndex: the local index, the extra indexes and their merge (`merge_file_index`, `merge_titledb`) are abstract, because src/index.rs shows no logic.
- Router.ScanGamesPath: `Index::add_file` is modelled as appending an entry, for the same reason. The metadata read that falls back to an empty list is folded into the game-data parameter.
- Startup.ImportTitleDb: returns the step taken. The download, the streaming TitleDB import and their failures are only logged by the source, so they are not modelled.
- Spawning the primary and secondary TitleDB import tasks, the extra-index import, and the cron schedule and sleeping loops are not modelled; the wait arithmetic they log is.
- src/nst.rs (an external tool's output scraped by regular expressions), the older src/import/downloader.rs, src/config.rs, src/backend/admin.rs, src/backend/user.rs, src/import/import_utils.rs and the axum routing and middleware wiring are not part of this model.
- Nsp.ReadNames: a name offset past the string table is a read error here, where src/nsp.rs:57 panics; the panic is modelled by `Nsp.NameAsWritten` (see Findings).
- Nsp.ReadFile: follows `Nsp.ReadNames`, so the same image is an error here rather than a panic.
- Nsp.GetTitleIdFromNsp: follows `Nsp.ReadFile`, so that image gives a read error rather than a panic.
- UrlImport.GetImportData: uses the corrected quote stripping, so `attachment; filename="` gives the name `"` where src/import/url.rs:150-153 panics; the panic is modelled by `UrlImport.DispositionFilenameAsWritten` (see Findings).
- MetadataApi.Versions: its own contract states only the length bound; what it contains is stated by `MetadataApi.VersionsSpec`.

## Findings

| source | as written | input that shows it | evidently intended | confidence | as-written member | corrected member |
|---|---|---|---|---|---|---|
| src/import/downloader/http.rs:370-382 | a resumed attempt that meets a redirect calls `get_with_redirects` on the original url, and that walk's plain GETs carry no `Range` header | resuming from byte 1000 at a URL that answers 302: the redirected request asks for the whole file, which is then appended after the 1000 bytes already on disk | every request of a resumed attempt, redirects included, carries `Range: bytes=N-`; the retry loop `Http.Retry` takes the attempt as a parameter, so this attempt plugs into it | not executed | Http.AttemptRequests, Http.ResumeLosesRange | Http.AttemptRequestsRanged |
| src/nsp.rs:56-57 | a name is sliced from the string table at its stored offset with no bound check | a PFS0 image with a valid header and one entry whose name offset is 1 in an empty string table panics instead of failing | a name offset past the string table is a read error | not executed | Nsp.NameAsWritten, Nsp.ShortTablePanics | Nsp.EntryName, Nsp.NameRoundTrip |
| src/import/url.rs:150-153 | quotes are stripped with `filename[1..filename.len() - 1]` whenever the value starts and ends with the same quote | the header `attachment; filename="`: the value `"` both starts and ends with a quote, so the slice `[1..0]` panics | a lone quote is kept as the name (or rejected), never a panic | not executed | UrlImport.DispositionFilenameAsWritten, UrlImport.LoneQuotePanics, UrlImport.AttachmentLoneQuotePanics | UrlImport.DispositionFilename, UrlImport.DispositionRoundTrip |
