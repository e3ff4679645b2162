# Transparent Classroom photos grabber — a verified model

This project models, in Dafny, the core of a command-line tool that logs in
to Transparent Classroom (a school-management web site), crawls a child's
posts page by page, and downloads every photo of every post into a local
directory. It writes a `.metadata.txt` sidecar beside each photo and gives
the photo the post's date as its modification time.

The model follows the Rust client `Client` (src/client.rs), the response
cache (src/cache.rs), the configuration loader (src/config.rs) and the
program's `run` loop with `sanitize_dirname` (src/bin/main.rs).

The world outside the program is given as parameters:

- **The web site** is a `Server`: the answer to a request given the requests
  sent before it in the session. The session's `Web` object records every
  request sent. Each operation is specified by a function that returns its
  result together with the requests it sent (`Exchange`), so the model can
  state "nothing else was requested".
- **HTML, JSON and text decoding** are foreign code, bundled in a `Runtime`
  record:
  - HTML arrives pre-parsed into forms, inputs, meta tags, the title, links
    and observation blocks.
  - JSON arrives as a JSON datatype.
  - Text decoding and `f64` display are left uninterpreted.
- **The filesystem** is a store of directories, files (bytes) and
  modification stamps. An oracle says which operation on which path the
  operating system refuses, and with what message. The `Disk` and cache
  `Store` classes change it in place. Their methods are proved against the
  pure specification functions.
- **The current time** is a parameter of the cache operations.

Modules, by file:

- `wrappers.dfy`, `text.dfy`, `errors.dfy`: Option and Result, string and
  UTF-8 helpers, `AppError`.
- `http.dfy`: the server, responses, `StatusCode`'s display, and the
  session (`Web`).
- `html.dfy`, `json.dfy`: the pre-parsed documents.
- `posts.dfy`: `Post`, the foreign collaborators, the root-domain rule.
- `config.dfy`: `Config::from_env_with_dotenv`, `from_file_path`, `load`.
- `auth.dfy`: the CSRF search, post-login classification, both login
  strategies, the mock-mode guard and the cascade.
- `endpoints.dfy`: the URLs `get_posts` tries, discovery, `get_posts`, and
  the crawl.
- `json_posts.dfy`, `html_posts.dfy`: the two post parsers.
- `dates.dfy`: `parse_date_to_timestamp` and the calendar.
- `filesystem.dfy`: the store, `Path::join`, and the `Disk` class.
- `download.dfy`: file naming, `download_photo`, `embed_metadata`,
  `set_file_timestamps` and `download_all_photos`.
- `client.dfy`: the `Client` class, whose methods run the loops of the
  source and are proved against the functions above.
- `sanitize.dfy`: `sanitize_dirname` and `sanitize_filename`.
- `cache.dfy`: `read_cache`, `write_cache` and the cache `Store` class.
- `run.dfy`: `run`, with the client's downloads abstract.

Where the code and its comments disagree, the model follows the code.

- A failed `login` returns the Basic-Auth probe's error. The comment at
  src/client.rs:129 says the web-form error is returned, but
  `web_result.or(api_result)` with `web_result` an error yields
  `api_result`.
- `get_posts` chooses the parser from the primary URL, even when a fallback
  answered.
- The CSRF search stops at the first form that holds `soul[login]`.

## Model

| member | source | states |
|---|---|---|
| Auth.FirstLoginForm | src/client.rs:396-399 | the index of the first form holding a `soul[login]` input: no earlier form holds one |
| Auth.ExtractCsrfToken | src/client.rs:386-440 | the first-form token wins, then the `csrf-token` meta content, then any `authenticity_token` input; it fails exactly when all three are absent, with "Could not find CSRF token in sign-in form" when a sign-in form existed and "Could not find sign-in form in page" otherwise |
| Auth.CsrfStopsAtFirstLoginForm | src/client.rs:396-410 | forms after the first sign-in form never contribute a token, whatever they hold |
| Auth.FirstLoginFormOf | src/client.rs:396-408 | the first sign-in form is the one at the first index whose form holds `soul[login]` |
| Auth.LoginFailed | src/client.rs:330-382 | every post-login failure is a `Generic` error whose message starts with "Login failed" |
| Auth.ClassifyPage | src/client.rs:325-382 | the body is a success exactly when it has no invalid-credentials phrase, does not hold both form fields, and shows a success marker or (a title not about signing in and a 2xx); an invalid-credentials phrase gives the "Invalid email or password" failure |
| Auth.LoginReplyOutcome | src/client.rs:270-303 | a 3xx with a Location header is a success before the body is read; an unreadable body gives "Failed to read post-login response" |
| Auth.ApiProbe | src/client.rs:135-159 | exactly one request, the Basic-Auth GET of the child's API URL; Ok exactly on a 2xx reply, otherwise a `Generic` error |
| Auth.LoginForm | src/client.rs:229-236 | the posted form carries the email, the password and the CSRF token |
| Auth.WebLogin | src/client.rs:162-303 | the sign-in page is requested first; a transport failure, a non-2xx answer or an unreadable body ends the attempt with its own error after that one request; a readable page without a CSRF token ends it with the token search's error; with a token, the credentials POST to the sign-in URL follows and its outcome is the result |
| Auth.SubmitLogin | src/client.rs:245-303 | the credentials POST comes first; a transport failure gives "Failed to submit login form"; a reply is judged by the post-login rules; the redirect target is requested exactly when the reply is a 3xx whose Location header reads as visible ASCII |
| Auth.Login | src/client.rs:103-132 | a 2xx probe logs in without trying the web form; otherwise the web form is tried; the mock flag is set exactly when both fail and the fallback guard allows it; a failed login returns the probe's error |
| Auth.NoFallbackForRealServer | src/client.rs:1268-1273 | against a base URL that is not a local test server, login never falls back to mock mode |
| Auth.ProbeTimeoutStatus | src/client.rs:1276-1282 | a probe answered 408 or 504 yields an error that the guard counts as a timeout |
| Auth.TimeoutStatusBlocksFallback | src/client.rs:1295-1302 | after a 408 or 504 probe, login never falls back; it succeeds exactly when the web form does, and otherwise reports the probe's error |
| Auth.LoginPreviewAsWritten | src/client.rs:378-382 | the response preview as written (a byte-index cut at 200), which agrees with the boundary-respecting cut whenever it does not panic |
| Auth.LoginPreviewPanics | src/client.rs:381 | 199 ASCII letters followed by `é` make the cut panic |
| Text.TruncateBytes | src/client.rs:378-382 | the corrected preview: the longest prefix that fits the byte budget, so the next character would not fit |
| Text.ByteCutAsWritten | src/bin/main.rs:157-159 | `String::truncate` or `&s[..n]` as written: when it does not panic it equals the boundary-respecting cut |
| Text.ByteCutPanicsInsideCharacter | src/bin/main.rs:157-159 | for any budget n ≥ 1, n − 1 ASCII letters followed by `é` make the cut panic |
| Http.StatusText | src/client.rs:149-155 | a status is displayed starting with its three digits |
| Http.StatusText504 | src/client.rs:149-155 | status 504 displays as "504 Gateway Timeout" |
| Http.Web.Send | src/client.rs:142-147 | each request is answered by the server given the session's earlier requests, and is appended to the session's log |
| Posts.RootDomain | src/client.rs:168-172 | the root domain is a prefix of the base URL, and is the whole base URL when it has no "/schools" |
| Posts.RootDomainHasNoSchools | src/client.rs:247-251 | the root domain holds no "/schools", so taking it again changes nothing |
| Endpoints.Normalise | src/client.rs:479-485 | an absolute link is kept as written |
| Endpoints.Candidates | src/client.rs:469-489 | the candidates are exactly the normalised links that hold one of the six keywords |
| Endpoints.SortDedup | src/client.rs:492-493 | the result is strictly increasing and holds exactly the elements of the input |
| Endpoints.Insert | src/client.rs:492-493 | inserting into a strictly increasing list keeps it strictly increasing, adding exactly the new element |
| Endpoints.StrictlySortedUnique | src/client.rs:492-493 | only one strictly increasing list holds a given set of strings, so sort-then-dedup has a single possible result |
| Endpoints.StrictlySortedPairwise | src/client.rs:492-493 | in a sorted, deduplicated list every earlier element is below every later one |
| Endpoints.Discovery | src/client.rs:443-497 | one GET of the base URL; Ok exactly on a readable 2xx, and then the sorted, duplicate-free candidates of the page's links; otherwise a `Generic` error |
| Endpoints.FallbackUrls | src/client.rs:572-611 | seven fallbacks, the last being the base URL itself |
| Endpoints.FixedUrls | src/client.rs:550-611 | the primary URL followed by the seven fallbacks |
| Endpoints.TryFrom | src/client.rs:627-649 | at most one request per remaining URL; a failed search sent them all; a found answer is a 2xx |
| Endpoints.TryFromSent | src/client.rs:627-649 | the requests are GETs of the URLs in order, from the first one tried |
| Endpoints.TryFromNone | src/client.rs:627-649 | nothing is found exactly when every URL tried answered without a 2xx |
| Endpoints.TryFromFound | src/client.rs:631-635 | the answer found is the answer to the last URL sent |
| Endpoints.TryFromEarlierFailed | src/client.rs:636-647 | every URL sent before the one that answered failed |
| Endpoints.TryFromFollows | src/client.rs:627-649 | the search follows its URL list, finds only a 2xx answer to its last request, and every earlier request missed |
| Endpoints.AllFailed | src/client.rs:703-716 | when nothing answered with a 2xx the error is `Generic` |
| Endpoints.ReadPosts | src/client.rs:695-724 | an unreadable body gives "Failed to read posts page content"; the JSON parser is used iff the primary URL holds ".json" |
| Endpoints.GetPosts | src/client.rs:543-724 | the requests sent are those of the fetch; a found answer is read and parsed; otherwise the status-style or connection-style error follows the primary answer |
| Endpoints.PrimaryWins | src/client.rs:617-626 | a 2xx on the primary URL means it is the only URL requested, and its body is what gets parsed |
| Endpoints.RealServerPrimaryIsJson | src/client.rs:557-566 | against the real site the primary URL holds ".json" |
| Endpoints.RealServerReadsJson | src/client.rs:720-724 | against the real site whatever answered is read with the JSON parser |
| Endpoints.Plan | src/client.rs:617-676 | every URL `get_posts` may try: primary, seven fallbacks, the base URL for discovery, then the discovered URLs |
| Endpoints.FetchTrace | src/client.rs:617-678 | the requests of `get_posts` are a prefix of that plan, in order; only the last may have answered 2xx, and every other fixed or discovered URL missed |
| Endpoints.FetchFromTrace | src/client.rs:617-678 | the fixed URLs, then discovery: a prefix of the plan stopping at the first 2xx |
| Endpoints.TryDiscoveredTrace | src/client.rs:652-676 | discovery's own GET, then the discovered URLs until one answers, a failed discovery adding nothing more |
| Endpoints.CrawlFromFirstPage | src/client.rs:506-521 | a crawl starts with its first page; an error there ends it with that error; an empty page ends it with no posts; otherwise the page's posts come first and the crawl goes on with the next page |
| Endpoints.Prepend | src/client.rs:516 | posts gathered earlier are put in front of a successful rest of the crawl; an error discards them |
| Endpoints.ResumeStep | src/client.rs:506-521 | one page of a resumed crawl moves its posts and requests from the remaining crawl to what was gathered |
| ApiClient.Client.New | src/client.rs:60-69 | `Client::new` uses the school's page on the public site, `/schools/{school_id}`, as base URL; mock mode starts off |
| ApiClient.Client.NewWithBaseUrl | src/client.rs:71-91 | keeps the given base URL and configuration; mock mode starts off |
| ApiClient.Client.LoginApiBasicAuth | src/client.rs:135-159 | returns the probe's result and logs exactly its one request |
| ApiClient.Client.LoginWebForm | src/client.rs:162-383 | returns the web-form strategy's result, with its error cases and its hand-over to the submission, and logs exactly its requests |
| ApiClient.Client.SubmitLoginForm | src/client.rs:245-383 | returns the post-login outcome of the reply, follows a readable redirect only, and logs exactly its requests |
| ApiClient.Client.Login | src/client.rs:103-132 | returns the cascade's result, logs its requests, and sets mock mode exactly when the cascade falls back |
| ApiClient.Client.DiscoverEndpoints | src/client.rs:443-497 | the loop pushing relevant links, then sort and dedup, gives discovery's result |
| ApiClient.Client.TryUrls | src/client.rs:627-649 | the loop over the fallback URLs finds what the search specifies and logs its requests |
| ApiClient.Client.FetchFrom | src/client.rs:617-678 | the primary, the fallbacks, then discovery, as specified, with the primary's answer kept for the error |
| ApiClient.Client.SearchDiscovered | src/client.rs:652-677 | discovery, with its failure ignored, then the discovered URLs in order |
| ApiClient.Client.GetPosts | src/client.rs:543-724 | returns `get_posts(page)` as specified and logs its requests |
| ApiClient.Client.CrawlAllPosts | src/client.rs:500-529 | returns the crawl from page 1 and logs its requests |
| ApiClient.Client.FetchPage | src/client.rs:508 | one page of the crawl is `get_posts(page)`, with its requests logged |
| ApiClient.Client.CrawlPages | src/client.rs:500-529 | the loop that grows the posts and increments the page number computes the crawl from page 1 |
| ApiClient.Client.DownloadPhoto | src/client.rs:1040-1125 | returns `download_photo`'s result, logs its requests and leaves the disk as specified |
| ApiClient.Client.EmbedMetadata | src/client.rs:1128-1159 | stamps the photo when the date applies, then writes the sidecar, as specified |
| ApiClient.Client.SetFileTimestamps | src/client.rs:1177-1216 | applies only an instant since the epoch, as specified |
| ApiClient.Client.DownloadAllPhotos | src/client.rs:1228-1258 | the loop over the photo indices returns the collected paths, logs the requests and leaves the disk as specified |
| Json.Get | src/client.rs:772 | a member is found exactly when the value is an object that has the key |
| JsonPosts.FirstPresentSpec | src/client.rs:798-805 | nothing is found exactly when no key is present; otherwise the value of the first present key |
| JsonPosts.FirstPresentNonStringGivesDefault | src/client.rs:828-834 | a present value that is not a string gives the default even when a later key holds a string |
| JsonPosts.PostId | src/client.rs:772-781 | a string id as written, a u64 id in decimal, otherwise `post_{i}` |
| JsonPosts.EntryUrls | src/client.rs:860-878 | at most one URL per entry |
| JsonPosts.EntryUrlsAppend | src/client.rs:861-868 | entries contribute independently, in order |
| JsonPosts.EntryUrlsOfStrings | src/client.rs:862-866 | every string entry is kept as written |
| JsonPosts.OriginalPhotoHidesPhotoUrl | src/client.rs:845-857 | an `original_photo_url` string, even an empty one, makes `photo_url` irrelevant |
| JsonPosts.PhotosHideImages | src/client.rs:860-878 | a `photos` array makes `images` irrelevant |
| JsonPosts.LocatePosts | src/client.rs:748-762 | the root array, else `posts`, else `data`; a present non-array `posts` is an error and `data` is not tried; no array is an error |
| JsonPosts.FirstNonObject | src/client.rs:766-769 | the first element that is not an object |
| JsonPosts.CollectOk | src/client.rs:766-890 | the parse succeeds exactly when every element is an object, and then gives one post per element, in order |
| JsonPosts.CollectErr | src/client.rs:767-769 | a failed parse names the first element that is not an object |
| JsonPosts.CollectErrSticks | src/client.rs:767-769 | once an element fails, the rest of the array is not read |
| JsonPosts.ParsePostsJson | src/client.rs:728-899 | a syntax error is a `Parse` error; a missing or mistyped array is the locating error; otherwise the element loop decides |
| JsonPosts.CollectPosts | src/client.rs:764-898 | the element loop computes the specified parse |
| JsonPosts.BuildPost | src/client.rs:772-887 | the loop body builds the specified post |
| JsonPosts.CollectPhotoUrls | src/client.rs:844-878 | the photo loops give the lead photo, then the gallery URLs |
| JsonPosts.EmptyObjectPost | src/client.rs:772-887 | an empty object gives a post of defaults with a positional id |
| JsonPosts.EmptyObjectsGiveDefaultPosts | src/client.rs:748-898 | an array of empty objects gives one default post per element |
| HtmlPosts.Resolve | src/client.rs:960-970 | an absolute reference is kept; any other is the site root followed by the reference |
| HtmlPosts.PhotoBaseIsRootDomain | src/client.rs:964-968 | the photo prefix computed with `contains("/schools")` equals the root domain |
| HtmlPosts.LinkUrl | src/client.rs:936-952 | empty without a link or href; otherwise the resolved href |
| HtmlPosts.PhotoUrlsSpec | src/client.rs:955-973 | one URL per `img` with a `src`, in document order: the source at position j gives the URL at the position counting the present sources before it, resolved against the site root; every URL comes from a present source |
| HtmlPosts.CollectPhotoUrls | src/client.rs:955-973 | the image loop computes those URLs |
| HtmlPosts.PostsOfObservations | src/client.rs:909-986 | one post per observation |
| HtmlPosts.PostsOfObservationsAt | src/client.rs:909-986 | post k is built from observation k at position k |
| HtmlPosts.PositionalIdsDistinct | src/client.rs:910-912 | positional ids of different positions differ |
| HtmlPosts.ParsePostsHtml | src/client.rs:902-995 | never fails; as many posts as observations |
| HtmlPosts.CollectPosts | src/client.rs:904-994 | the observation loop computes those posts |
| HtmlPosts.RelativePhotosOnPlainBase | src/client.rs:958-973 | on a base URL without "/schools", relative sources are prefixed with the base URL |
| HtmlPosts.ObservationOnPlainBase | src/client.rs:936-973 | on such a base, root-relative links and photos are prefixed with the base URL |
| HtmlPosts.TwoObservationsScenario | src/client.rs:902-995 | a local test server's two-observation page gives the two expected posts with resolved URLs |
| Configuration.AccumulateU32 | src/config.rs:119-121 | the digit-by-digit read succeeds only on a run of digits |
| Configuration.ParseU32 | src/config.rs:119-125 | the empty string is the `Empty` error; success needs an optional `+` and then digits |
| Configuration.AccumulateValue | src/config.rs:119-121 | a digit-by-digit read gives the value of the digits |
| Configuration.ParseU32Decimal | src/config.rs:119-125 | every u32 written in decimal parses back to itself |
| Configuration.FirstMissing | src/config.rs:97-116 | none is missing exactly when all are present; a reported name is required and absent |
| Configuration.FromEnv | src/config.rs:97-146 | success needs all seven variables; the values are copied unchanged and the numbers are those parsed |
| Configuration.FromEnvReportsFirstMissing | src/config.rs:97-116 | a missing variable is reported as the first missing one in the fixed order, even when an earlier numeric value is invalid |
| Configuration.FromEnvNumericOrder | src/config.rs:118-146 | with all present, SCHOOL, then CHILD, then SCHOOL_LAT, then SCHOOL_LNG is checked, each failure naming its variable; success iff all parse |
| Configuration.FromFilePath | src/config.rs:170-179 | a missing file is `ConfigFileNotFound`; success means the file was read and decoded |
| Configuration.Load | src/config.rs:54-69 | the environment alone when it validates, else the configuration file, else the dotenv result with its error wrapped as `AppError::Config` |
| Dates.NextDay | src/client.rs:1166-1169 | the day after a valid date is a valid date |
| Dates.EpochDaySuccessor | src/client.rs:1166-1169 | day numbers count days: the next day has the next number |
| Dates.EpochDayNonNegative | src/client.rs:1184 | a date is at or after 1970-01-01 exactly when its year is 1970 or later |
| Dates.DaysToYearClosedForm | src/client.rs:1166-1169 | the day count matches the closed form with leap years counted by the Gregorian rule |
| Dates.LeapsStep | src/client.rs:1166-1169 | the leap-year count steps by one exactly at a leap year |
| Dates.DateAt | src/client.rs:1166 | a date read from `YYYY-MM-DD` is valid, with a four-digit year |
| Dates.FractionNanos | src/client.rs:1164 | the fraction of a second is below one second |
| Dates.DigitRun | src/client.rs:1164 | the run of digits is maximal |
| Dates.ParsePlainDate | src/client.rs:1166-1169 | a plain date gives a whole number of days |
| Dates.ParseDateToTimestamp | src/client.rs:1162-1174 | RFC 3339 first; the plain date only when RFC 3339 fails |
| Dates.PlainDateRoundTrip | src/client.rs:1162-1174 | a written date is not RFC 3339, and reads back as its own midnight UTC |
| Dates.PlainDateTimestampFrom1970 | src/client.rs:1135-1137 | the timestamp of a plain date is applied exactly from 1970 on |
| Dates.Rfc3339UtcRoundTrip | src/client.rs:1164-1165 | a written UTC date-time reads back as its instant |
| Dates.Rfc3339OffsetRoundTrip | src/client.rs:1164-1165 | the same wall-clock time with an offset reads back as the instant shifted by that offset |
| FileSystem.JoinPath | src/client.rs:1092 | an absolute name replaces the directory; otherwise the result starts with the directory and ends with the name |
| FileSystem.JoinPathInjective | src/client.rs:1092 | distinct relative names joined onto one directory give distinct paths |
| FileSystem.OnCreateDirAll | src/client.rs:1066 | succeeds exactly when not refused, and then the directory exists with the files untouched |
| FileSystem.EnsureDir | src/client.rs:1064-1067 | on success the directory exists; files and stamps are untouched |
| FileSystem.OnWriteNew | src/client.rs:1116-1118 | succeeds exactly when neither creation nor writing is refused, and then the file holds the bytes; nothing else changes |
| FileSystem.OnMetadata | src/client.rs:1188-1191 | `fs::metadata` succeeds exactly when the path exists and the system does not refuse; a missing path gives the not-found error |
| FileSystem.Disk.PathExists | src/client.rs:1017 | reports whether a directory or a file is there |
| FileSystem.Disk.CreateDirAll | src/client.rs:1066 | changes the disk as specified |
| FileSystem.Disk.WriteNew | src/client.rs:1116-1118 | changes the disk as specified, leaving an empty file when the write fails |
| FileSystem.Disk.Metadata | src/client.rs:1188-1191 | the check as specified, changing nothing |
| FileSystem.Disk.Touch | src/client.rs:1194-1210 | the modification time becomes the given reading unless `touch` fails, which changes nothing |
| Download.PhotoFileName | src/client.rs:1087-1091 | every photo name ends in ".jpg" |
| Download.PhotoNamesDistinct | src/client.rs:1087-1091 | distinct photos of a post with several photos get distinct names |
| Download.MetadataPathIsNotPhotoPath | src/client.rs:1142 | the sidecar never overwrites its photo |
| Download.PhotoBytes | src/client.rs:1097-1113 | the bytes exactly when the answer is a readable 2xx; otherwise a `Generic` error |
| Download.SetFileTimestamps | src/client.rs:1177-1216 | an instant before the epoch changes nothing and succeeds; otherwise success exactly when the photo's metadata can be read; `touch -mt` then receives the instant's UTC date-time to the whole second, and its failure still gives Ok with nothing changed; files are untouched |
| Download.EmbedMetadataStamps | src/client.rs:1135-1139 | with the photo readable and the sidecar writable, the call succeeds and writes the sidecar; the photo gets the post's date exactly when the date applies and `touch` runs |
| Download.EmbedMetadataWritesSidecar | src/client.rs:1142-1155 | a successful `embed_metadata` changes exactly one file, the sidecar, to the post's details |
| Download.DownloadPhoto | src/client.rs:1040-1125 | at most one request; a success returns the photo's path |
| Download.FetchUnlessPresent | src/client.rs:1070-1124 | at most one request; a success returns the photo's path |
| Download.SavePhotoWritesBoth | src/client.rs:1116-1121 | with no write refused, the photo holds exactly the fetched bytes and the sidecar the post's details |
| Download.DownloadPhotoChecksIndex | src/client.rs:1047-1061 | a post without photos or an index past its last photo is refused with its message, before anything is requested or written |
| Download.DownloadPhotoSkipsExisting | src/client.rs:1070-1080 | an existing photo file is returned without a request and without a change |
| Download.DownloadPhotoSavesBytes | src/client.rs:1083-1124 | a new photo is fetched with one GET of its URL, and a readable 2xx is written verbatim with its sidecar |
| Download.GatherStep | src/client.rs:1242-1250 | one download moves its path, if any, and its requests to what was gathered |
| Download.PhotoPaths | src/client.rs:1242-1250 | one path per photo, in index order |
| Download.DownloadFromInOrder | src/client.rs:1242-1250 | the collected paths are a selection of the target paths, in order |
| Download.DownloadFromAllPresent | src/client.rs:1242-1250 | when every step returns its path without side effects, all paths are collected |
| Download.DownloadAllInOrder | src/client.rs:1228-1258 | `download_all_photos` always succeeds, returning a selection of the photo paths in index order |
| Download.DownloadFromKeepsSuccesses | src/client.rs:1242-1250 | the collected paths are exactly the targets of the downloads that succeeded along the run, in order: a success contributes its path and a failure nothing |
| Download.KeptCount | src/client.rs:1242-1250 | one path is kept per success, and all of them when every download succeeded |
| Download.DownloadAllKeepsDownloaded | src/client.rs:1228-1258 | `download_all_photos` returns exactly the paths of the photos whose download succeeded, in index order, as many as succeeded, and every photo's path when none failed |
| Download.DownloadAllSkipsPresent | src/client.rs:1228-1258 | with every photo present, it sends nothing, changes nothing and returns every path |
| Sanitize.UnderscoreSpaces | src/bin/main.rs:148 | same length; each space becomes `_`, every other character is kept |
| Sanitize.DropReserved | src/bin/main.rs:151-154 | no reserved character remains, every other character is kept |
| Sanitize.SanitizeName | src/bin/main.rs:144-161 | a prefix of the cleaned name within the byte budget |
| Sanitize.SanitizedNameIsSafe | src/bin/main.rs:144-161 | no space, no reserved character, within 30 bytes for a directory and 50 for a file |
| Sanitize.ShortNameKept | src/bin/main.rs:157-159 | a name that fits is not cut |
| Sanitize.SanitizeNameAsWritten | src/bin/main.rs:157-159 | the name as written equals the corrected one whenever it does not panic |
| Sanitize.SanitizeDirnamePanics | src/bin/main.rs:157-159 | 29 ASCII letters followed by `é` make `sanitize_dirname` panic |
| Cache.ReadCacheOutcomes | src/cache.rs:48-107 | a missing entry is a miss; an unparsable one is a `Generic` error; a parsed one is returned unchanged exactly when fresh |
| Cache.FreshnessBoundary | src/cache.rs:84-105 | an entry is served at exactly the maximum age and not a nanosecond later, and not before its own timestamp |
| Cache.Parent | src/cache.rs:120 | the parent is shorter than its path and does not end in a separator unless it is the root; there is none exactly when the path is empty or made only of separators |
| Cache.ParentIgnoresExtraSeparators | src/cache.rs:120 | a run of separators counts as one and trailing separators are ignored: the parent of `a//b` and of `a/b/` is `a` |
| Cache.MakeParent | src/cache.rs:119-133 | creating the parent leaves the entries untouched |
| Cache.WriteThenRead | src/cache.rs:135-161 | after a write the system accepted, a read at the same instant gives the payload; after a refused write that still returned Ok, the entry reads back as an error; no other entry changes |
| Cache.LostWriteErrorLooksOk | src/cache.rs:150-161 | a refused write of an entry that fits the 8 KiB buffer returns Ok and leaves an unreadable file, where a flushed write reports the error |
| Cache.FlushedWriteThenRead | src/cache.rs:150-161 | with the writer flushed, every success reads back the payload at once |
| Cache.WriteCreatesParent | src/cache.rs:119-133 | with `create_dirs`, a successful write leaves the parent directory in place |
| Cache.Store.Read | src/cache.rs:48-107 | the read is the specified one and changes nothing, expired entries included |
| Cache.Store.Write | src/cache.rs:112-162 | changes the store as specified, including the lost error of an unflushed small write |
| Run.Downloads.DownloadAllPhotos | src/bin/main.rs:114 | the download's result, with the post recorded |
| Run.WithPhotos | src/bin/main.rs:102-105 | exactly the posts with photos |
| Run.TotalIsSumOfDownloads | src/bin/main.rs:102-119 | the reported total is the sum of the lengths of the successful downloads of posts with photos |
| Run.RunStopsEarly | src/bin/main.rs:60-79 | the first failing start-up call ends the run with its error; an empty crawl ends it with Ok; in both cases before any directory is created or download attempted |
| Run.RunDownloadsEveryPostWithPhotos | src/bin/main.rs:85-126 | once posts are found and the output directory is there or can be created, every post with photos is downloaded in order, whatever earlier downloads returned, and the run succeeds reporting the total; creating the directory is the only change to the filesystem |
| Run.RunMain | src/bin/main.rs:57-141 | returns the specified result and total; the disk and the downloads made are as specified |
| Run.DownloadPosts | src/bin/main.rs:91-126 | the loop computes the total and downloads exactly the posts with photos, in order |

## Left out

- The HTTP transport is left out: reqwest, the cookie jar, the user agent, automatic redirect following and TLS. The server is an oracle answering each request given the earlier ones.
- HTML and JSON syntax, CSS selectors and character decoding are foreign code that the model does not interpret.
- Diagnostic-only code is left out: the form dump, the alert scan and all logging. The byte-index previews inside `debug!` calls (src/client.rs:285, 308, 732, 739) would panic on a multi-byte character only when debug logging is on.
- `thread::sleep` between pages is left out; it only affects timing.
- `Client::new` failing to build its HTTP client is left out. `reqwest`'s builder does not fail for the settings used.
- Download.SetFileTimestamps: the stamp recorded is the UTC date-time reading passed to `touch -mt`. `touch` reads it in the machine's local time zone, so the instant the file gets is shifted by the local UTC offset, which the model does not compute.
- `set_file_timestamps` stamps only on macOS; on other platforms it checks the metadata and stamps nothing. The model follows the macOS build.
- Dates.ParseDateToTimestamp: chrono's leniencies beyond strict RFC 3339 and canonical `YYYY-MM-DD` (leap seconds, lowercase `t`/`z` aside) are not modelled.
- Floating point is opaque: latitude and longitude parsing and display, `derive_school_location` and the coordinate regexes.
- Interactive setup, YAML saving, `get_config_file_path`, `default_cache_dir` and the `dotenv()` mutation of the process environment are left out. The dotenv result is a parameter of `Configuration.Load`.
- Cache.Parent ignores `.` components, which `Path::parent` drops when it splits a path into components; runs of separators and trailing separators are handled as `Path::parent` does.
- `create_dir_all` is modelled as creating only the named directory, not each missing ancestor.
- The fault oracle decides per operation and path, not per attempt, so a repeated call fails the same way.
- Cache entries are kept as values, not JSON text. The length of an entry's pretty-printed text is a parameter of `write_cache`, since it decides whether a write error is lost. A file holds either a serialized entry or text that does not parse, with the parser's message.
- Run.RunMain: the client is abstract in the model of `run`. The results of `Config::from_env`, `Client::new`, `login` and `crawl_all_posts` are given as a `Startup` value; they are modelled in full by Configuration.FromEnv, ApiClient.Client.New, ApiClient.Client.Login and ApiClient.Client.CrawlAllPosts. The result of `download_all_photos` for each post is given as a function; it is modelled in full by ApiClient.Client.DownloadAllPhotos.
- Run.RunMain: the messages `run` prints are left out, except the total it reports.
- `get_mock_posts`, src/lib.rs, src/cli.rs, src/main.rs and get_photos.py are not part of this model.

## Findings

| source | as written | input that shows it | evidently intended | confidence | as-written member | corrected member |
|---|---|---|---|---|---|---|
| src/bin/main.rs:157-159 | `result.truncate(30)` cuts at byte 30, and panics when that byte is inside a character; latent, as `sanitize_dirname` has no caller | a name of 29 ASCII letters followed by `é` | cut at the last character boundary within 30 bytes | not executed | Sanitize.SanitizeDirnamePanics | Sanitize.SanitizedNameIsSafe |
| src/client.rs:1360-1362 | `result.truncate(50)` in `sanitize_filename` has the same fault at byte 50; latent, as the function is marked dead code | a name of 49 ASCII letters followed by `é` | cut at the last character boundary within 50 bytes | not executed | Text.ByteCutPanicsInsideCharacter | Sanitize.SanitizeName |
| src/client.rs:378-382 | the failure message slices the page at `min(200, len)` bytes, which panics inside a character | a page of 199 ASCII letters followed by `é`, answered with a non-2xx | a preview cut at a character boundary | not executed | Auth.LoginPreviewPanics | Text.TruncateBytes |
| src/cache.rs:150-161 | the entry is written through a `BufWriter` that is never flushed, so for a text within its 8 KiB buffer the write happens on drop, which discards the error, and `write_cache` returns Ok | a small payload written to a full disk: Ok is returned and the file is left empty | flush the writer and report the error | not executed | Cache.LostWriteErrorLooksOk | Cache.FlushedWriteThenRead |
