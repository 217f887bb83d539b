# ReMakeplaceUpdater in Dafny

ReMakeplaceUpdater is a desktop updater and launcher for ReMakeplace. The
Tauri back end (Rust, `src-tauri/src`) does these jobs:

- It checks the GitHub "latest release" of the game and picks a release
  archive.
- It downloads the archive into `update_cache`, retrying and resuming.
- It unpacks the archive, trying a chain of formats.
- It keeps the user's folders and config across an update.
- It imports designs shared from the companion web site.

The older Python/Tk prototype `updater.py` does the same with less care.

This project models the parts of both that decide things. Each source file
has its own module:

- **RetryManager** (`retry_manager.rs`): the retry policy. It covers the
  keyword test over an error's cause chain, the exponential, linear and
  fixed backoff capped at `max_delay`, the ±25 % jitter, and the two retry
  loops.
- **Downloader** (`downloader.rs`): the resumable transfer engine.
  - It covers the disk-space threshold, the Range-support probe, the
    request loop that restarts from byte 0 after a 200 or 416 reply to a
    ranged request (sections 14.2, 14.4, 15.3.7 and 15.5.17 of RFC 9110),
    the total-size derivation, and the byte accounting with its
    premature-end check.
  - It also covers the outer retry loop with its notices and its final
    error, and the cache (names, validation and pruning).
  - The server is an abstract `Env`: the available disk space, the probe
    replies, a reply per Range header and a body of reads. The file is a
    `Fs.File` object whose methods change `present` and `content`.
- **ErrorHandler** (`error_handler.rs`): the seven-category classifier,
  where the first match wins, and the `ErrorInfo` it builds.
- **Updater** (`updater.rs`): Semantic Versioning 2.0.0 parsing, printing
  and precedence (section 11), `compare_versions`, the tag stripping of
  `check_for_updates`, and the tiered asset choice of `find_7z_asset`.
- **Extractor** (`extractor.rs`): the suffix tests, the 7z magic bytes,
  every format's guard, and the fallback chain of `extract_archive`.
- **Companion** (`companion.rs`): `sanitize`, and where `import_design`
  stores a design.
- **Config** (`config.rs`): the default configuration, installation-path
  validation and installation-mode detection over abstract file-system
  facts.
- **App** (`lib.rs`): the `is_downloading` guard of `start_download`, its
  cached-file decision, `merge_config_files`, the checks of
  `handle_deep_link`, and the Update-mode gating of `install_update`.
- **PyUpdater** (`updater.py`): the class `ReMakeplaceUpdater` with its
  release check, update decision and cache naming. It also covers
  `cleanup_cache` and `download_file` with its completeness check, and it
  relates them to the Rust side.

Four helper modules support the rest:

- **Wrappers**: `Option` and `Result`.
- **Errors**: an error with a chain of causes, the way `anyhow::Error`
  works. Its Display is the top message; `.context(c)` pushes `c` on top.
- **Text**: the string operations.
- **Http**: status codes and their canonical reason phrases.

## Model

| member | source | states |
|---|---|---|
| Errors.Context | ReMakeplaceUpdater/src-tauri/src/downloader.rs:441 | `.context(c)` shows `c` and keeps the old chain below it |
| Fs.File.Remove | ReMakeplaceUpdater/src-tauri/src/downloader.rs:155-158 | removing a file leaves it absent and empty |
| RetryManager.ShouldRetry | ReMakeplaceUpdater/src-tauri/src/retry_manager.rs:130-180 | `should_retry`: the scan of every message of the cause chain, lower-cased, against the keywords of the enabled kinds; specified by ShouldRetryIff |
| RetryManager.ShouldRetryIff | ReMakeplaceUpdater/src-tauri/src/retry_manager.rs:130-180 | `should_retry` holds iff some lowercased message of the cause chain contains a keyword of an enabled error type |
| RetryManager.AnyKindMatchesIff | ReMakeplaceUpdater/src-tauri/src/retry_manager.rs:137-176 | the scan over the enabled kinds finds a match iff one kind's keyword occurs |
| RetryManager.AnyMessageMatchesIff | ReMakeplaceUpdater/src-tauri/src/retry_manager.rs:133-178 | the scan over the chain finds a match iff some message matches some kind |
| RetryManager.EmptyPolicyNeverRetries | ReMakeplaceUpdater/src-tauri/src/retry_manager.rs:130-180 | with no enabled error type, no error is retried |
| RetryManager.ShouldRetryIgnoresCase | ReMakeplaceUpdater/src-tauri/src/retry_manager.rs:133-135 | two errors whose chains agree after lowercasing get the same decision |
| RetryManager.ShouldRetryMonotone | ReMakeplaceUpdater/src-tauri/src/retry_manager.rs:124-127 | enabling more error types never withdraws a retry |
| RetryManager.RetriedOnKeyword | ReMakeplaceUpdater/src-tauri/src/retry_manager.rs:138-175 | a chain message containing an enabled keyword is retried |
| RetryManager.DefaultRetriesTimeouts | ReMakeplaceUpdater/src-tauri/src/retry_manager.rs:44-83 | under the default policy, a message containing "timeout" is retried |
| RetryManager.TimeoutOnlyPolicy | ReMakeplaceUpdater/src-tauri/src/retry_manager.rs:138-147 | with only NetworkTimeout enabled, an error is retried iff a message holds a timeout keyword, so reset, chunk and temporary messages are not retried |
| RetryManager.UnmatchedWithout | ReMakeplaceUpdater/src-tauri/src/retry_manager.rs:138-175 | a message lacking one character of every keyword of a kind is not of that kind |
| RetryManager.DefaultGivesUp | ReMakeplaceUpdater/src-tauri/src/retry_manager.rs:130-180 | under the default policy, a one-message error of no kind is not retried |
| RetryManager.PermissionDeniedNotRetried | ReMakeplaceUpdater/src-tauri/src/retry_manager.rs:477-490 | "Permission denied" is not retried under the default policy |
| RetryManager.Http404NotRetried | ReMakeplaceUpdater/src-tauri/src/retry_manager.rs:477-490 | "HTTP 404 Not Found" is not retried under the default policy |
| RetryManager.CalculateDelay | ReMakeplaceUpdater/src-tauri/src/retry_manager.rs:183-203 | the delay never exceeds `max_delay` and is the raw formula capped there |
| RetryManager.ExponentialDelay | ReMakeplaceUpdater/src-tauri/src/retry_manager.rs:184-188 | exponential backoff gives min(cap, base·multiplier^n) |
| RetryManager.LinearDelay | ReMakeplaceUpdater/src-tauri/src/retry_manager.rs:189-191 | linear backoff gives min(cap, base_delay + increment·n) |
| RetryManager.FixedDelay | ReMakeplaceUpdater/src-tauri/src/retry_manager.rs:192-193 | fixed backoff gives the same delay for every attempt |
| RetryManager.PowMonotone | ReMakeplaceUpdater/src-tauri/src/retry_manager.rs:184-188 | a power with a base of at least 1 does not decrease in its exponent |
| RetryManager.ExponentialNonDecreasing | ReMakeplaceUpdater/src-tauri/src/retry_manager.rs:184-202 | with a multiplier of at least 1, the exponential delay never decreases from one attempt to the next |
| RetryManager.NetworkSchedule | ReMakeplaceUpdater/src-tauri/src/retry_manager.rs:102-121 | `for_network_operations` waits 1, 2, 4, 8 and 16 s, then 30 s from attempt 5 on |
| RetryManager.JitteredDelay | ReMakeplaceUpdater/src-tauri/src/retry_manager.rs:206-227 | the jittered delay is at most `max_delay`, is 0 for a zero delay, and lies within the jitter range of the capped delay |
| RetryManager.JitterWithinQuarter | ReMakeplaceUpdater/src-tauri/src/retry_manager.rs:210-226 | for delay d and r = max(d/4, 1) the result lies in [max(0, d−r), min(max_delay, d+r)] |
| RetryManager.SyncRunStops | ReMakeplaceUpdater/src-tauri/src/retry_manager.rs:291-327 | at most max_retries+1 calls; the loop returns the last call's outcome; every earlier call failed retryably; an early stop is a success or a non-retryable error |
| RetryManager.ExecuteSyncWithRetry | ReMakeplaceUpdater/src-tauri/src/retry_manager.rs:291-327 | the loop returns what `SyncRun` specifies and sleeps `calculate_delay(k)` after failed call k |
| RetryManager.AsyncRunStops | ReMakeplaceUpdater/src-tauri/src/retry_manager.rs:230-288 | a timeout is retried while attempts remain, whatever `should_retry` says; a final timeout becomes the timeout error |
| RetryManager.ExecuteWithRetry | ReMakeplaceUpdater/src-tauri/src/retry_manager.rs:230-288 | the async loop returns what `AsyncRun` specifies, with one backoff delay per retry |
| ErrorHandler.Classify | ReMakeplaceUpdater/src-tauri/src/error_handler.rs:35-138 | the category `categorize_error` picks for a lower-cased message: the first of Network, FileSystem, Permission, Validation, Configuration, Archive whose keyword test holds, else Unknown; specified by FirstMatchSpec, ClassifyAt and FirstMatchWins |
| ErrorHandler.FirstMatchSpec | ReMakeplaceUpdater/src-tauri/src/error_handler.rs:35-66 | the category chain yields Unknown iff no predicate matches, and otherwise the first category that matches |
| ErrorHandler.FirstMatchAt | ReMakeplaceUpdater/src-tauri/src/error_handler.rs:35-66 | a category that matches, after none before it did, is the result |
| ErrorHandler.CategorizeError | ReMakeplaceUpdater/src-tauri/src/error_handler.rs:31-67 | the category comes from the lowercased top message only; technical details join the whole chain with " \| "; retryable iff Network, Validation or Archive |
| ErrorHandler.ClassifyAt | ReMakeplaceUpdater/src-tauri/src/error_handler.rs:35-66 | a message matching the k-th predicate and none earlier gets the k-th category |
| ErrorHandler.FirstMatchWins | ReMakeplaceUpdater/src-tauri/src/error_handler.rs:35-66 | the category found matches the message and no earlier category in the order matches |
| ErrorHandler.ClassifiesTopLevelOnly | ReMakeplaceUpdater/src-tauri/src/error_handler.rs:32-33 | errors with the same top message get the same category and messages, whatever their causes |
| ErrorHandler.NetworkMessagePrecedence | ReMakeplaceUpdater/src-tauri/src/error_handler.rs:140-180 | within Network, the wording and hint are: timeout for any "timeout"/"timed out"; connection for "refused"/"unreachable" without a timeout keyword; DNS for "dns" without the earlier keywords; server for "502"/"503"/"504" without the earlier keywords; the generic wording when none occurs |
| ErrorHandler.KeywordMatches | ReMakeplaceUpdater/src-tauri/src/error_handler.rs:69-138 | a message containing one of a category's keywords satisfies that category's predicate |
| ErrorHandler.TimeoutIsRetryableNetwork | ReMakeplaceUpdater/src-tauri/src/error_handler.rs:140-150 | any top message containing "timeout" is a retryable Network error with the timeout wording |
| ErrorHandler.NoSpaceIsFileSystem | ReMakeplaceUpdater/src-tauri/src/error_handler.rs:182-188 | any top message containing "space" and no keyword of an earlier category is a non-retryable FileSystem error with the disk-space wording |
| ErrorHandler.PermissionDeniedIsPermission | ReMakeplaceUpdater/src-tauri/src/error_handler.rs:218-243 | any top message containing "permission denied" and no keyword of an earlier category is a non-retryable Permission error with the permission wording |
| ErrorHandler.ZstdIsArchive | ReMakeplaceUpdater/src-tauri/src/error_handler.rs:288-311 | any top message containing "zstd" and no keyword of an earlier category is a retryable Archive error with the zstd wording |
| ErrorHandler.NoKeywordIsUnknown | ReMakeplaceUpdater/src-tauri/src/error_handler.rs:315-323 | any top message with no keyword of any category is a non-retryable Unknown error with the "unexpected" message |
| Downloader.CheckDiskSpace | ReMakeplaceUpdater/src-tauri/src/downloader.rs:373-434 | fails iff the known free space is below 100 MiB |
| Downloader.TestRangeSupport | ReMakeplaceUpdater/src-tauri/src/downloader.rs:346-371 | an Accept-Ranges header decides by containing "bytes"; otherwise the range test decides by a 206 status; a failed HEAD is an error |
| Downloader.ProbeOutcomes | ReMakeplaceUpdater/src-tauri/src/downloader.rs:133-169 | a probe answering false from a positive offset restarts at 0 without Range and deletes the file; a probe error or true leaves the offset; a positive offset means resuming from the existing file's length |
| Downloader.RequestSpec | ReMakeplaceUpdater/src-tauri/src/downloader.rs:172-199 | one or two requests; Range only from a positive offset with range support; a second, unranged request from 0 after deleting the file iff the ranged one got 200 or 416; the reply kept is 2xx |
| Downloader.ParseDecimal | ReMakeplaceUpdater/src-tauri/src/downloader.rs:206-213 | the u64 parse reads back every printed 64-bit value |
| Downloader.ContentRangeTotal | ReMakeplaceUpdater/src-tauri/src/downloader.rs:201-218 | without Content-Length, a Content-Range "…/total" gives that total |
| Downloader.TotalSizeCases | ReMakeplaceUpdater/src-tauri/src/downloader.rs:201-218 | the total is Content-Length + offset when present, and 0 when neither header helps |
| Downloader.StreamSpec | ReMakeplaceUpdater/src-tauri/src/downloader.rs:254-315 | the chunk loop appends exactly the delivered bytes, counts each chunk's length once, fails iff a read fails, and keeps the samples within the byte count |
| Downloader.StreamSamples | ReMakeplaceUpdater/src-tauri/src/downloader.rs:254-315 | progress samples from the chunk loop are never retry notices and carry the attempt's retry count |
| Downloader.AttemptSamples | ReMakeplaceUpdater/src-tauri/src/downloader.rs:111-344 | no sample of an attempt is a retry notice |
| Downloader.AttemptAccounting | ReMakeplaceUpdater/src-tauri/src/downloader.rs:220-341 | the file is appended to iff the offset is positive; the attempt fails iff total > 0 and offset + received < total; success ends with a 100 % sample |
| Downloader.AttemptSteps | ReMakeplaceUpdater/src-tauri/src/downloader.rs:128-344 | after the space check an attempt is the probe, the request loop, then the streamed body |
| Downloader.NextAttemptResumes | ReMakeplaceUpdater/src-tauri/src/downloader.rs:57-58 | once a reply is streamed, the file exists and the next attempt resumes from its length whatever the caller asked |
| Downloader.SendRequests | ReMakeplaceUpdater/src-tauri/src/downloader.rs:172-199 | the request loop on the file object does what `Request` specifies |
| Downloader.StreamBody | ReMakeplaceUpdater/src-tauri/src/downloader.rs:254-315 | the write loop on the file object does what `Stream` specifies |
| Downloader.PlanResume | ReMakeplaceUpdater/src-tauri/src/downloader.rs:133-168 | the offset negotiation on the file object does what `Prepare` specifies |
| Downloader.WriteBody | ReMakeplaceUpdater/src-tauri/src/downloader.rs:201-344 | opening (append iff offset > 0), streaming and the final check give the outcome `Finish` specifies |
| Downloader.DownloadFileInternal | ReMakeplaceUpdater/src-tauri/src/downloader.rs:111-344 | one attempt on the file object yields exactly the result, file and samples of `Attempt` |
| Downloader.RetryCountsAppend | ReMakeplaceUpdater/src-tauri/src/downloader.rs:76-90 | the retry counts of concatenated events are the concatenated counts |
| Downloader.NoRetryCounts | ReMakeplaceUpdater/src-tauri/src/downloader.rs:76-90 | events that are not retry notices carry no retry count |
| Downloader.RetriedBounds | ReMakeplaceUpdater/src-tauri/src/downloader.rs:33-109 | at most max_retries+1 attempts and one delay per retry, each within `max_delay` |
| Downloader.RetriedNotices | ReMakeplaceUpdater/src-tauri/src/downloader.rs:70-95 | one retry notice per retry, numbered attempt+1, attempt+2, … |
| Downloader.RetriedOutcome | ReMakeplaceUpdater/src-tauri/src/downloader.rs:97-105 | success iff the last attempt succeeded; an earlier stop returns the error unchanged and it was not retryable; after the last permitted attempt the error is wrapped as "Download failed after retries exhausted" |
| Downloader.ResumeRunStops | ReMakeplaceUpdater/src-tauri/src/downloader.rs:33-109 | the bounds, notices and final error above, for the real attempts under a policy |
| Downloader.TryOnce | ReMakeplaceUpdater/src-tauri/src/downloader.rs:57-60 | one attempt resumes iff asked or the file exists, and does what the attempt model says |
| Downloader.RetryStep | ReMakeplaceUpdater/src-tauri/src/downloader.rs:57-95 | one turn of the loop: an attempt, then a stop or a notice and a jittered sleep |
| Downloader.RetryLoop | ReMakeplaceUpdater/src-tauri/src/downloader.rs:33-109 | the loop on the file object yields the result, file, events and delays of `Retried` |
| Downloader.DownloadFileWithResume | ReMakeplaceUpdater/src-tauri/src/downloader.rs:33-109 | the retry loop under `for_network_operations` |
| Downloader.DownloadFile | ReMakeplaceUpdater/src-tauri/src/downloader.rs:26-31 | a download that does not ask to resume |
| Downloader.CacheFilePath | ReMakeplaceUpdater/src-tauri/src/downloader.rs:512-515 | the cache path is the cache directory plus one file name |
| Downloader.CacheNameRoundTrip | ReMakeplaceUpdater/src-tauri/src/downloader.rs:512-515 | a cache name starts with "v<version>_", and the original file name can be read back from it |
| Downloader.CurrentCacheFile | ReMakeplaceUpdater/src-tauri/src/downloader.rs:521-530 | a cache file counts as current iff its version does not start with "0." |
| Downloader.PrunedSpec | ReMakeplaceUpdater/src-tauri/src/downloader.rs:490-510 | an entry survives pruning iff it is not removed; without keep_current only non-files and stuck files survive |
| Downloader.PrunedAppend | ReMakeplaceUpdater/src-tauri/src/downloader.rs:496-507 | pruning works entry by entry |
| Downloader.ManageCache | ReMakeplaceUpdater/src-tauri/src/downloader.rs:490-510 | a missing directory is a no-op; an unreadable one is "Failed to read cache directory"; otherwise the listing becomes the pruned listing |
| Downloader.ValidateCachedFile | ReMakeplaceUpdater/src-tauri/src/downloader.rs:436-488 | a metadata error is the only failure; true iff present, the size matches any expected size, the size is at least 1024, and the first read yields bytes |
| Updater.ParseVersion | ReMakeplaceUpdater/src-tauri/src/updater.rs:46-49 | `Version::parse`: core numbers, then "-" pre-release and "+" build identifiers; specified by ParseFormat and ParsedWellFormed |
| Updater.ParseAll | ReMakeplaceUpdater/src-tauri/src/updater.rs:46-49 | a parsed list has one value per piece |
| Updater.Less | ReMakeplaceUpdater/src-tauri/src/updater.rs:46-53 | semver precedence: major, minor, patch, then the pre-release rules; specified by LessIsStrictOrder |
| Updater.LessIsStrictOrder | ReMakeplaceUpdater/src-tauri/src/updater.rs:46-53 | semver precedence is irreflexive, transitive and asymmetric, and any two versions compare or share precedence |
| Updater.NumberRoundTrip | ReMakeplaceUpdater/src-tauri/src/updater.rs:46-49 | a printed numeric component parses back to itself |
| Updater.IdentifierRoundTrip | ReMakeplaceUpdater/src-tauri/src/updater.rs:46-49 | a printed pre-release identifier parses back to itself |
| Updater.PreRoundTrip | ReMakeplaceUpdater/src-tauri/src/updater.rs:46-49 | printed pre-release identifiers split and parse back |
| Updater.BuildRoundTrip | ReMakeplaceUpdater/src-tauri/src/updater.rs:46-49 | printed build identifiers split and parse back |
| Updater.CoreRoundTrip | ReMakeplaceUpdater/src-tauri/src/updater.rs:46-49 | "major.minor.patch" splits into the three printed numbers |
| Updater.ParseFormat | ReMakeplaceUpdater/src-tauri/src/updater.rs:46-49 | every well-formed version parses back from its text |
| Updater.ParsedWellFormed | ReMakeplaceUpdater/src-tauri/src/updater.rs:46-49 | a parsed version is well formed, and printing then parsing gives it back |
| Updater.CompareVersions | ReMakeplaceUpdater/src-tauri/src/updater.rs:46-53 | fails iff either text does not parse, naming the current version first |
| Updater.CompareFormatted | ReMakeplaceUpdater/src-tauri/src/updater.rs:46-53 | on printed versions the result is "latest is strictly greater" |
| Updater.SameVersionIsNoUpdate | ReMakeplaceUpdater/src-tauri/src/updater.rs:46-53 | equal versions never report an update |
| Updater.NewerIsHigher | ReMakeplaceUpdater/src-tauri/src/updater.rs:46-53 | if latest is newer than current, current is not newer than latest |
| Updater.TrimStartV | ReMakeplaceUpdater/src-tauri/src/updater.rs:29 | the tag without all its leading 'v' characters |
| Updater.UpdateScenario | ReMakeplaceUpdater/src-tauri/src/updater.rs:27-44 | "v1.3.0" is an update over 1.2.0 and not over 1.3.0 |
| Updater.CheckForUpdates | ReMakeplaceUpdater/src-tauri/src/updater.rs:27-44 | a fetch error is passed on; otherwise the check succeeds iff the versions compare |
| Updater.UpdateDecision | ReMakeplaceUpdater/src-tauri/src/updater.rs:27-44 | latest is the stripped tag; available iff strictly newer; the URL is the preferred asset's, and "" without an update or a supported asset |
| Updater.FirstInTier | ReMakeplaceUpdater/src-tauri/src/updater.rs:81-86 | the earliest asset whose name ends (case-sensitively) in a suffix of the tier |
| Updater.SelectFromSpec | ReMakeplaceUpdater/src-tauri/src/updater.rs:79-118 | the tier scan picks an asset of the best tier present, the earliest of that tier |
| Updater.SelectAsset | ReMakeplaceUpdater/src-tauri/src/updater.rs:79-118 | `find_7z_asset`: the URL of the earliest asset of the best suffix tier present; specified by SelectFromSpec and PreferredAsset |
| Updater.PreferredAsset | ReMakeplaceUpdater/src-tauri/src/updater.rs:79-118 | `.7z` is preferred over `.zip`, then `.tar.gz`/`.tgz`, then `.tar.zst`/`.tar.zstd`; none iff no name has a supported suffix |
| Updater.ScanTier | ReMakeplaceUpdater/src-tauri/src/updater.rs:81-86 | one loop returns the first index in its tier |
| Updater.Find7zAsset | ReMakeplaceUpdater/src-tauri/src/updater.rs:79-118 | the four loops return the URL of the asset `SelectAsset` specifies |
| Extractor.HasExtension | ReMakeplaceUpdater/src-tauri/src/extractor.rs:458-464 | `file_has_extensions`; specified by HasExtensionIff and HasExtensionIgnoresCase |
| Extractor.HasExtensionIff | ReMakeplaceUpdater/src-tauri/src/extractor.rs:458-464 | true iff the lowercased file name ends with some lowercased extension |
| Extractor.HasExtensionIgnoresCase | ReMakeplaceUpdater/src-tauri/src/extractor.rs:458-464 | the test ignores the case of the file name |
| Extractor.NamedWith | ReMakeplaceUpdater/src-tauri/src/extractor.rs:458-464 | a name "base + ext" has the extension ext |
| Extractor.IsSevenZipFile | ReMakeplaceUpdater/src-tauri/src/extractor.rs:466-478 | fails iff the file cannot be opened; true iff the first six bytes are 37 7A BC AF 27 1C |
| Extractor.SevenZipMagic | ReMakeplaceUpdater/src-tauri/src/extractor.rs:466-478 | fewer than six bytes give false; the magic prefix gives true |
| Extractor.Guard | ReMakeplaceUpdater/src-tauri/src/extractor.rs:185-443 | each format's decoder runs iff its name test admits the archive, and otherwise refuses with its own message |
| Extractor.SevenZipGuard | ReMakeplaceUpdater/src-tauri/src/extractor.rs:164-174 | 7z runs iff the name ends in ".7z" in any case or the magic bytes match |
| Extractor.StandaloneExcludesCompound | ReMakeplaceUpdater/src-tauri/src/extractor.rs:324-387 | the standalone gz, bz2 and xz guards refuse the names of their tar compounds |
| Extractor.TarGzScenario | ReMakeplaceUpdater/src-tauri/src/extractor.rs:229-232 | "x.tar.gz" is admitted by tar.gz and refused as "Not a standalone gz file" |
| Extractor.Try | ReMakeplaceUpdater/src-tauri/src/extractor.rs:28-161 | a refused method fails with its refusal, and success needs admission |
| Extractor.Guarded | ReMakeplaceUpdater/src-tauri/src/extractor.rs:28-161 | the methods that run are the admitted ones, in order |
| Extractor.ChainSucceeds | ReMakeplaceUpdater/src-tauri/src/extractor.rs:28-161 | the chain succeeds iff some method succeeds |
| Extractor.ChainFails | ReMakeplaceUpdater/src-tauri/src/extractor.rs:28-161 | a failing chain returns the last method's error, after every admitted method ran |
| Extractor.ChainStops | ReMakeplaceUpdater/src-tauri/src/extractor.rs:28-161 | the chain stops at the first success |
| Extractor.TryEach | ReMakeplaceUpdater/src-tauri/src/extractor.rs:28-161 | the loop keeping `last_error` does what `TryInOrder` specifies |
| Extractor.ExtractArchive | ReMakeplaceUpdater/src-tauri/src/extractor.rs:9-162 | the checks and the chain in their fixed order, as `Extract` specifies |
| Extractor.Extract | ReMakeplaceUpdater/src-tauri/src/extractor.rs:9-162 | `extract_archive`: the existence check, the mkdir, then the guarded methods in order; specified by ExtractOutcome, and ExtractArchive computes it |
| Extractor.ExtractOutcome | ReMakeplaceUpdater/src-tauri/src/extractor.rs:9-162 | a missing archive fails before anything runs; otherwise success iff some method succeeds, and failure carries zst's error |
| Extractor.LastIndexOf | ReMakeplaceUpdater/src-tauri/src/extractor.rs:338-341 | the position of the last occurrence of a character, or none |
| Extractor.Stem | ReMakeplaceUpdater/src-tauri/src/extractor.rs:338-342 | `Path::file_stem`: the name before its last '.', or the whole name for none, a leading one, or ".." |
| Extractor.OutputName | ReMakeplaceUpdater/src-tauri/src/extractor.rs:338-342 | the file a standalone decoder writes: the stem of the archive name, "extracted_file" without a name; specified by OutputDropsExtension |
| Extractor.OutputDropsExtension | ReMakeplaceUpdater/src-tauri/src/extractor.rs:338-342 | standalone decompression writes to the file stem |
| Companion.Keep | ReMakeplaceUpdater/src-tauri/src/companion.rs:51 | the filter keeps only ASCII letters, digits, space, '-' and '_' |
| Companion.KeepCounts | ReMakeplaceUpdater/src-tauri/src/companion.rs:51 | each allowed character is kept as often as it occurs; every other character is dropped |
| Companion.KeepAllowed | ReMakeplaceUpdater/src-tauri/src/companion.rs:51 | an allowed-only text passes the filter unchanged |
| Companion.Trim | ReMakeplaceUpdater/src-tauri/src/companion.rs:52 | the trim is a slice of the text with no space at either end, and everything cut off on either side is a space |
| Companion.Sanitize | ReMakeplaceUpdater/src-tauri/src/companion.rs:50-54 | the result is non-empty, has only allowed characters, and has no space at either end |
| Companion.SanitizeClean | ReMakeplaceUpdater/src-tauri/src/companion.rs:50-54 | a clean text is left alone |
| Companion.SanitizeIdempotent | ReMakeplaceUpdater/src-tauri/src/companion.rs:50-54 | sanitizing twice is sanitizing once |
| Companion.NothingSurvives | ReMakeplaceUpdater/src-tauri/src/companion.rs:53 | a text with nothing but spaces and disallowed characters becomes "Untitled" |
| Companion.Folder | ReMakeplaceUpdater/src-tauri/src/companion.rs:18 | `Save` for the kind "layout" in any case, else `Custom`; specified by KindDecidesFolder |
| Companion.DesignFileName | ReMakeplaceUpdater/src-tauri/src/companion.rs:21-24 | "[label] title by author.json" with both names sanitized; specified by FileNameIsPlain and KindDecidesFolder |
| Companion.ImportTarget | ReMakeplaceUpdater/src-tauri/src/companion.rs:18-24 | the design goes to installation/Makeplace/folder as "[label] title by author.json" |
| Companion.FileNameIsPlain | ReMakeplaceUpdater/src-tauri/src/companion.rs:23-24 | a design file name has no path separator, starts with '[' and ends with ".json" |
| Companion.KindDecidesFolder | ReMakeplaceUpdater/src-tauri/src/companion.rs:18-24 | "layout" in any case goes to Save as "Layout"; any other kind goes to Custom as "Design" |
| Config.CreateDefault | ReMakeplaceUpdater/src-tauri/src/config.rs:61-74 | version "0.0.0", the "RemakePlace/app" repository and its latest-release API URL, no directory, "Makeplace.exe", the Custom and Save folders, auto-check on, Update mode |
| Config.UserMessage | ReMakeplaceUpdater/src-tauri/src/config.rs:86-167 | the user message of each refusal, with the executable name where the source puts it; Describe builds the ErrorInfo from it |
| Config.TechnicalDetails | ReMakeplaceUpdater/src-tauri/src/config.rs:86-167 | the technical details of each refusal, with the path, the I/O error text or the displayed executable path |
| Config.RecoverySuggestion | ReMakeplaceUpdater/src-tauri/src/config.rs:86-167 | the recovery suggestion of each refusal |
| Config.ValidateDetailed | ReMakeplaceUpdater/src-tauri/src/config.rs:81-182 | `validate_installation_path_detailed`: the checks in source order, the first failing one deciding the refusal; specified by ValidationOrder, RefusalsNotRetryable and FreshInstallIgnoresExe |
| Config.ValidateInstallationPath | ReMakeplaceUpdater/src-tauri/src/config.rs:76-79 | `validate_installation_path` holds iff the detailed check passes; FreshInstallIgnoresExe and DetectionMatchesValidation state its properties |
| Config.Describe | ReMakeplaceUpdater/src-tauri/src/config.rs:86-167 | each refusal has its category, and no refusal is retryable |
| Config.ValidationOrder | ReMakeplaceUpdater/src-tauri/src/config.rs:81-182 | each refusal happens iff its check is the first to fail (empty, missing, not a directory, not writable, and in Update mode no exe or exe not a file) |
| Config.RefusalsNotRetryable | ReMakeplaceUpdater/src-tauri/src/config.rs:86-167 | every refusal is reported as not retryable |
| Config.FreshInstallIgnoresExe | ReMakeplaceUpdater/src-tauri/src/config.rs:135-178 | a fresh install ignores the executable and accepts whatever an update accepts |
| Config.DetectInstallationMode | ReMakeplaceUpdater/src-tauri/src/config.rs:184-201 | `detect_installation_mode`: Update iff the path is given, exists and holds the executable as a file; specified by DetectionMatchesValidation |
| Config.DetectionMatchesValidation | ReMakeplaceUpdater/src-tauri/src/config.rs:184-201 | Update iff the path is given, exists and holds the exe as a file; this agrees with Update-mode validation on writable directories |
| Config.DefaultNeedsDirectory | ReMakeplaceUpdater/src-tauri/src/config.rs:61-74 | the default config is refused for its empty path and detected as a fresh install |
| App.AppState.constructor | ReMakeplaceUpdater/src-tauri/src/lib.rs:36-50 | a new state is neither downloading nor updating |
| App.DecideCache | ReMakeplaceUpdater/src-tauri/src/lib.rs:125-147 | the cache decision of `start_download`; specified by CacheDecisionCases |
| App.CacheDecisionCases | ReMakeplaceUpdater/src-tauri/src/lib.rs:125-147 | no file means a fresh download; a metadata error means removal and a fresh download; a file is used iff it is at least 1024 bytes and its first read yields bytes; every file validated as invalid (too small, or a first read that fails or is empty) is resumed |
| App.StartDownload | ReMakeplaceUpdater/src-tauri/src/lib.rs:106-192 | a busy flag refuses with "Download already in progress" and changes nothing; otherwise it returns the cache path, and a valid cache clears the flag with no task; the updating flag is untouched |
| App.FinishDownload | ReMakeplaceUpdater/src-tauri/src/lib.rs:160-188 | the flag is cleared and the updating flag untouched; a failed download or validation emits the categorized error; a download failing validation is removed, and otherwise the file is unchanged |
| App.RunDownload | ReMakeplaceUpdater/src-tauri/src/lib.rs:106-192 | every exit path after the flag is set clears it; no download runs for a valid cache |
| App.Merge | ReMakeplaceUpdater/src-tauri/src/lib.rs:385-401 | the merged keys are the union of both configs' keys |
| App.MergeSpec | ReMakeplaceUpdater/src-tauri/src/lib.rs:385-401 | user values are kept, missing keys are added from the update, and merging is idempotent |
| App.MergeConfigFiles | ReMakeplaceUpdater/src-tauri/src/lib.rs:377-412 | read errors are passed on; a missing update file or a non-object leaves the user config as it was; otherwise the result is the merge |
| App.FirstQueryValue | ReMakeplaceUpdater/src-tauri/src/lib.rs:516-520 | none iff no parameter has the key; otherwise the first parameter with the key |
| App.DeepLinkPayload | ReMakeplaceUpdater/src-tauri/src/lib.rs:509-523 | accepted iff the URL parses, its scheme is "makeplace", its host is "import" and it carries a payload |
| App.DeepLinkRefusals | ReMakeplaceUpdater/src-tauri/src/lib.rs:511-523 | each refusal names the first check that fails |
| App.Install | ReMakeplaceUpdater/src-tauri/src/lib.rs:195-258 | backup and restore happen only in Update mode, and the backup comes first; a failed backup stops everything; extraction happens iff fresh install or backup succeeded |
| App.InstallByMode | ReMakeplaceUpdater/src-tauri/src/lib.rs:206-245 | each mode succeeds iff all its steps do; a failed extraction in Update mode is followed by a restore |
| PyUpdater.ParseRelease | updater.py:468-469 | `version.parse` on the release segment N(.N)*; ReleasePadding and ReleaseAgreesWithSemver state its order |
| PyUpdater.ReleaseLess | updater.py:471 | `latest_ver > current_ver` on release segments, zero-padded; specified by ReleaseLessIrreflexive, ReleaseLessTransitive, ReleasePadding and ReleaseAgreesWithSemver |
| PyUpdater.ReleaseLessIrreflexive | updater.py:468-471 | no release is newer than itself |
| PyUpdater.ReleaseLessTransitive | updater.py:468-471 | the release order is transitive |
| PyUpdater.ReleasePadding | updater.py:468-471 | trailing zero segments do not change the order |
| PyUpdater.ReleaseAgreesWithSemver | updater.py:468-471 | on three-number versions the Python order agrees with the Rust semver order |
| PyUpdater.SameVersionNotNewer | updater.py:468-471 | a version is never an update over itself |
| PyUpdater.LastSegment | updater.py:500 | the last URL segment has no '/' |
| PyUpdater.VersionPrefix | updater.py:501 | the cache prefix is "v…_" |
| PyUpdater.CacheNameHasPrefix | updater.py:500-502 | the cache name starts with "v{latest}_" and is a plain file name |
| PyUpdater.Kept | updater.py:546-557 | the listing `cleanup_cache` leaves, in order; specified by KeptSpec |
| PyUpdater.KeptSpec | updater.py:546-557 | an entry stays iff it is not a file, is spared as current, or could not be removed |
| PyUpdater.DeleteFiles | updater.py:546-557 | the listing becomes what `Kept` specifies, and the count is the number of entries removed |
| PyUpdater.Progress | updater.py:590-598 | the progress values of the chunk loop; specified by UnknownSizeProgress, ProgressBounded, ProgressMonotone and ProgressEndsFull |
| PyUpdater.UnknownSizeProgress | updater.py:598 | with an unknown size every progress value is 0 |
| PyUpdater.ProgressBounded | updater.py:595-598 | every progress value is at most the fraction finally received |
| PyUpdater.ProgressMonotone | updater.py:592-598 | progress never goes back |
| PyUpdater.ProgressEndsFull | updater.py:592-608 | a complete download of known size ends at progress 1.0 |
| PyUpdater.DownloadFile | updater.py:576-613 | success iff the response is ok and complete (total 0 or exactly total bytes), and then the file holds the chunks; on failure the file is gone and the message is "Download failed: …" |
| PyUpdater.ReMakeplaceUpdater.constructor | updater.py:24-56 | no update known yet |
| PyUpdater.ReMakeplaceUpdater.ApplyRelease | updater.py:446-453 | latest is the tag without leading 'v's; the URL is that of the first ".7z" asset, or unchanged |
| PyUpdater.ReMakeplaceUpdater.UpdateUiAfterCheck | updater.py:464-477 | an update becomes available iff latest is newer than current; the flag is never cleared |
| PyUpdater.ReMakeplaceUpdater.CleanupCache | updater.py:537-574 | a missing directory is a no-op; files not spared are removed and counted; without keep_current the directory goes iff nothing is left |
| PyUpdater.ReMakeplaceUpdater.StartUpdate | updater.py:479-535 | nothing happens, the cache directory included, unless an update is available and the URL is non-empty; a cached file is used as is; a fresh download leaves the chunks in the file, a failed one is "Update failed: …" with no file; the version and time are recorded iff the file is there and the install succeeds, and are unchanged otherwise; on any failure the cache directory exists with its old listing; after success the cache listing is pruned keeping the current version |
| PyUpdater.ReMakeplaceUpdater.UpdateComplete | updater.py:729-747 | no update is offered any more, the other fields are unchanged, and the cache is cleaned without keep_current, so the archive just installed goes too |
| PyUpdater.CleanupsCompose | updater.py:523-530 | the cleanup of `download_and_install` followed by that of `update_complete` leaves what the second alone would leave |
| PyUpdater.CleanupSparesCurrent | updater.py:543-550 | with keep_current, as in `download_and_install`, the current version's cache file is kept |
| PyUpdater.ClearAllLeavesOnlyStuck | updater.py:546-557 | without keep_current, as in `update_complete`, only non-files and files that could not be removed stay |
| PyUpdater.SameArchiveAsTauri | updater.py:449-453 | when a ".7z" asset exists, the prototype and the Rust updater pick the same archive |

## Left out

- HTTP, GitHub and the file system are not performed.
  - The HTTP client (reqwest, requests), the GitHub API fetch and the JSON
    decoding of releases are inputs: `Env`, `Release` and `Response` values.
  - File-system calls are the `Fs.File` and `Fs.Directory` objects, or
    outcomes passed in.
  - Their failures are modelled only for `validate_cached_file`'s metadata,
    the cache listing, the cleanup removals, and the extractor's mkdir of
    the destination.
  - These error returns of the Rust downloader are not modelled: "Failed to
    build HTTP client" (downloader.rs:52), "Failed to create cache
    directory" (downloader.rs:124), "Failed to get file metadata for resume"
    (downloader.rs:138), "Failed to open file for resume" and "Failed to
    create download file" (downloader.rs:225-227), "Failed to write download
    chunk" (downloader.rs:260) and "Failed to read cache entry"
    (downloader.rs:498).
  - Fs.File.Remove always succeeds. The source ignores a failed
    `remove_file` of the partial file (downloader.rs:156-157) and of an
    invalid cached file (lib.rs:141-144); in the latter case the next
    download would resume from the invalid file, while App.StartDownload
    always removes it and downloads from the start.
- Time and randomness are parameters.
  - Sleeps are recorded as lists of delays.
  - The 100 ms progress ticks are a clock oracle `tick`.
  - The jitter draw is an offset chosen in its range (`offsets`).
  - `DOWNLOADER_FAIL_PCT` failure injection and the `DOWNLOADER_MAX_BPS`
    throttle are not modelled.
- Floating point is mostly left out. A progress percentage is kept as the
  exact ratio downloaded/total (Zero when the total is unknown, Full at the
  end); the transfer speed is not computed. The backoff
  multiplier is a natural number, so an `f64` multiplier with a fraction
  is not modelled.
- The 64-bit `Duration` and `u64` arithmetic is unbounded, and saturation is
  not modelled.
- `check_disk_space`: the statvfs FFI and the Windows write probe are not
  modelled. Only the 100 MiB threshold on a known free-space figure is.
- Lowercasing is ASCII-only. Rust's `to_lowercase` and Python also fold
  non-ASCII letters.
- RetryManager: `println!` output and the test that expects 3 retries from
  `for_network_operations` are left out. The code's 5 retries and 4 kinds
  are modelled.
- RetryManager: of the permanent messages the default policy must not
  retry, "Permission denied" and "HTTP 404 Not Found" are stated; the six
  others are covered only by the general `UnmatchedWithout` and
  `DefaultGivesUp`.
- ErrorHandler: the exact user-message strings are a fixed catalogue
  (`Wording`). The tests' negative keyword checks on literal messages are
  not restated.
- Updater: semver precedence ignores build metadata, as Semantic
  Versioning 2.0.0 section 11 says. The `semver` crate's `Ord` uses it as a
  last tie-breaker. The crate's parser error texts are not modelled.
- Extractor: the archive libraries (sevenz_rust, zip, tar, flate2, bzip2,
  xz2, zstd) are an oracle `unpack`. The zip loop's directories and
  permissions are not modelled. The "No extraction method succeeded"
  fallback cannot be reached, because zst always runs last.
- Companion: `import_design`'s downloads and gallery entry are not
  modelled. `str::trim` is modelled as trimming spaces, the only white
  space that survives the filter.
- Config: `load_config`, `save_config`, the creation and deletion of the
  ".write_test" file, `get_mode_description` and the FreshInstall warning
  are not modelled. `exeDisplay` (the joined path as displayed) is an
  input.
- App: the Tauri runtime is not modelled. This covers event emission,
  status strings, `launch_game`, `browse_folder`, the gallery,
  `open_url`, `open_config_folder`, and the Mutex and `tokio::spawn`.
  `RunDownload` runs the spawned task sequentially.
- App: `backup_user_data`, `restore_user_data`, `copy_dir_all` and
  `cleanup_temp_backup` are outcomes. Their own file copying is not
  modelled.
- App: `percent_decode`, base64 and serde decoding of the deep-link
  payload are not modelled. JSON values that are not objects are kept as
  text.
- App.Install: the error texts use the error's top message (anyhow's
  Display). The refreshed version from `check_for_updates` is an input
  outcome.
- PyUpdater.ParseRelease: only the release segment N(.N)* of PEP 440 is
  modelled. Epochs, pre, post and dev releases and local labels are
  treated as unparseable, so the prototype's order is stated only on plain
  releases. So are the leading "v"/"V" and the surrounding white space
  that `packaging.version.parse` accepts: a tag "V1.3.0" keeps its "V"
  after `lstrip("v")`, Python reads it as 1.3.0, and `ParseRelease`
  returns None.
- PyUpdater: the Tk UI, the threads, `time.sleep`, the speed display and
  `install_update` with its 7-Zip subprocess are not modelled. `install`
  and `save` are outcome inputs. The `temp_update` removal and the cache
  mkdir failure are not modelled either.
- PyUpdater: `update_complete` is scheduled on the Tk loop after
  `download_and_install` returns, so it is the separate method
  `UpdateComplete`; `CleanupsCompose` states what the two cleanups leave
  together. Its labels, buttons and the one-second delay are not
  modelled.
- PyUpdater: a malformed Content-Length (a `ValueError` in `int`) is not
  modelled.
- PyUpdater: the cache file and the cache directory listing are separate
  views of the same directory. `DeleteFiles` updates the listing once,
  after its loop.
- PyUpdater.ReMakeplaceUpdater.UpdateUiAfterCheck: an exception raised in
  the Tk callback (an unparseable version) leaves the state unchanged.
- `launcher.rs`, `gallery.rs`, `build.py` and `setup.py` are not part of
  this model.
