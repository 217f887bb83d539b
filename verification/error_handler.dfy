/**
 * The error classifier (error_handler.rs): a first-match-wins keyword test
 * on the lower-cased top-level message that picks one of seven categories,
 * a user message, a recovery suggestion and a retryable flag.
 */
module ErrorHandler {

  import opened Text
  import opened Errors

  datatype ErrorCategory =
    | Network
    | FileSystem
    | Permission
    | Validation
    | Configuration
    | Archive
    | Unknown

  /** `ErrorInfo`; the two fixed texts are kept as entries of the `Wording` catalogue. */
  datatype ErrorInfo = ErrorInfo(
    category: ErrorCategory,
    userMessage: Wording,
    technicalDetails: string,
    recoverySuggestion: Wording,
    isRetryable: bool)
  {
    function UserMessage(): string {
      Phrase(userMessage)
    }

    function RecoverySuggestion(): string {
      Phrase(recoverySuggestion)
    }
  }

  // The keyword lists of `is_network_error`, `is_filesystem_error`, ...
  const NETWORK_KEYWORDS: seq<string> :=
    ["network", "connection", "timeout", "timed out", "dns", "host", "unreachable", "refused",
     "reset", "broken pipe", "502", "503", "504", "gateway timeout", "service unavailable",
     "bad gateway"]
  const FILESYSTEM_KEYWORDS: seq<string> :=
    ["no such file", "file not found", "directory not found", "disk", "space", "full",
     "read-only", "invalid path", "path too long", "io error"]
  const PERMISSION_KEYWORDS: seq<string> :=
    ["permission denied", "access denied", "unauthorized", "forbidden", "cannot write",
     "cannot read", "cannot create"]
  const VALIDATION_KEYWORDS: seq<string> :=
    ["validation", "invalid", "corrupt", "checksum", "integrity", "malformed"]
  const CONFIGURATION_KEYWORDS: seq<string> :=
    ["config", "configuration", "setting", "missing", "not configured"]
  const ARCHIVE_KEYWORDS: seq<string> :=
    ["extract", "archive", "zip", "7z", "tar", "compression", "decompression", "zstd", "zst"]

  /** The keywords of each category; `Unknown` has none. */
  function Keywords(c: ErrorCategory): seq<string> {
    match c
    case Network => NETWORK_KEYWORDS
    case FileSystem => FILESYSTEM_KEYWORDS
    case Permission => PERMISSION_KEYWORDS
    case Validation => VALIDATION_KEYWORDS
    case Configuration => CONFIGURATION_KEYWORDS
    case Archive => ARCHIVE_KEYWORDS
    case Unknown => []
  }

  /** `is_network_error`, `is_filesystem_error`, ...: some keyword of the category occurs. */
  predicate Is(c: ErrorCategory, s: string) {
    ContainsAny(s, Keywords(c))
  }

  /** The order in which `categorize_error` tries the categories. */
  function Order(): seq<ErrorCategory> {
    [Network, FileSystem, Permission, Validation, Configuration, Archive]
  }

  /** The categories whose results are retryable. */
  predicate RetryableCategory(c: ErrorCategory) {
    c == Network || c == Validation || c == Archive
  }

  function Info(c: ErrorCategory, msgAndHint: (Wording, Wording), details: string): ErrorInfo {
    ErrorInfo(c, msgAndHint.0, details, msgAndHint.1, RetryableCategory(c))
  }

  /**
   * The fixed catalogue of user messages and recovery suggestions the
   * `create_*_error_info` functions choose from; `Phrase` gives the wording.
   */
  datatype Wording =
    | NetTimeout
    | NetConnect
    | NetDns
    | NetServer
    | NetGeneric
    | NetHint
    | NetConnectHint
    | NetDnsHint
    | NetServerHint
    | FsSpace
    | FsSpaceHint
    | FsNotFound
    | FsNotFoundHint
    | FsReadOnly
    | FsReadOnlyHint
    | FsGeneric
    | FsGenericHint
    | PermDenied
    | PermDeniedHint
    | PermForbidden
    | PermForbiddenHint
    | PermGeneric
    | PermGenericHint
    | ValCorrupt
    | ValCorruptHint
    | ValChecksum
    | ValChecksumHint
    | ValGeneric
    | ValGenericHint
    | ConfMissing
    | ConfGeneric
    | ConfHint
    | ArcZstd
    | ArcZstdHint
    | ArcExtract
    | ArcExtractHint
    | ArcGeneric
    | ArcGenericHint
    | UnknownMessage
    | UnknownHint

  function Phrase(w: Wording): string {
    match w
    case NetTimeout => "The connection timed out while downloading the update."
    case NetConnect => "Could not connect to the download server."
    case NetDns => "Could not resolve the download server address."
    case NetServer => "The download server is temporarily unavailable."
    case NetGeneric => "A network error occurred while downloading the update."
    case NetHint => "Check your internet connection and try again. If the problem persists, try clearing the cache."
    case NetConnectHint => "Check your internet connection and firewall settings. The server may be temporarily unavailable."
    case NetDnsHint => "Check your internet connection and DNS settings. Try again in a few minutes."
    case NetServerHint => "This is usually temporary. Try again in a few minutes."
    case FsSpace => "Not enough disk space to complete the operation."
    case FsSpaceHint => "Free up some disk space and try again."
    case FsNotFound => "A required file or directory could not be found."
    case FsNotFoundHint => "Check your installation path settings and try again."
    case FsReadOnly => "Cannot write to the selected location because it's read-only."
    case FsReadOnlyHint => "Choose a different installation directory or change the folder permissions."
    case FsGeneric => "A file system error occurred."
    case FsGenericHint => "Check your installation path and disk space, then try again."
    case PermDenied => "Permission denied when accessing the installation directory."
    case PermDeniedHint => "Run the launcher as administrator or choose a different installation directory."
    case PermForbidden => "Access to the installation directory is forbidden."
    case PermForbiddenHint => "Check folder permissions or run the launcher as administrator."
    case PermGeneric => "Insufficient permissions to complete the operation."
    case PermGenericHint => "Run the launcher as administrator or check folder permissions."
    case ValCorrupt => "The downloaded file appears to be corrupted."
    case ValCorruptHint => "Clear the cache and try downloading again. If the problem persists, the server file may be corrupted."
    case ValChecksum => "The downloaded file failed integrity verification."
    case ValChecksumHint => "Clear the cache and try downloading again."
    case ValGeneric => "The file or data failed validation."
    case ValGenericHint => "Clear the cache and try again. If the problem persists, contact support."
    case ConfMissing => "Required configuration is missing or incomplete."
    case ConfGeneric => "There's an issue with the application configuration."
    case ConfHint => "Check your settings and reconfigure if necessary."
    case ArcZstd => "Failed to extract the archive. The compression format may not be supported."
    case ArcZstdHint => "Clear the cache and try downloading again. If the problem persists, the archive format may be unsupported."
    case ArcExtract => "Failed to extract the downloaded archive."
    case ArcExtractHint => "The file may be corrupted. Clear the cache and try downloading again."
    case ArcGeneric => "An error occurred while processing the archive."
    case ArcGenericHint => "Clear the cache and try downloading again."
    case UnknownMessage => "An unexpected error occurred."
    case UnknownHint => "Try again. If the problem persists, contact support."
  }

  /** `create_network_error_info`: message and suggestion for a network error. */
  function NetworkWording(s: string): (Wording, Wording) {
    if Contains(s, "timeout") || Contains(s, "timed out") then (NetTimeout, NetHint)
    else if Contains(s, "refused") || Contains(s, "unreachable") then (NetConnect, NetConnectHint)
    else if Contains(s, "dns") then (NetDns, NetDnsHint)
    else if Contains(s, "502") || Contains(s, "503") || Contains(s, "504") then (NetServer, NetServerHint)
    else (NetGeneric, NetHint)
  }

  /** `create_filesystem_error_info`. */
  function FileSystemWording(s: string): (Wording, Wording) {
    if Contains(s, "space") || Contains(s, "full") then (FsSpace, FsSpaceHint)
    else if Contains(s, "file not found") || Contains(s, "directory not found") then (FsNotFound, FsNotFoundHint)
    else if Contains(s, "read-only") then (FsReadOnly, FsReadOnlyHint)
    else (FsGeneric, FsGenericHint)
  }

  /** `create_permission_error_info`. */
  function PermissionWording(s: string): (Wording, Wording) {
    if Contains(s, "permission denied") || Contains(s, "access denied") then (PermDenied, PermDeniedHint)
    else if Contains(s, "unauthorized") || Contains(s, "forbidden") then (PermForbidden, PermForbiddenHint)
    else (PermGeneric, PermGenericHint)
  }

  /** `create_validation_error_info`. */
  function ValidationWording(s: string): (Wording, Wording) {
    if Contains(s, "corrupt") || Contains(s, "integrity") then (ValCorrupt, ValCorruptHint)
    else if Contains(s, "checksum") then (ValChecksum, ValChecksumHint)
    else (ValGeneric, ValGenericHint)
  }

  /** `create_configuration_error_info`: the suggestion is fixed. */
  function ConfigurationWording(s: string): (Wording, Wording) {
    (if Contains(s, "missing") || Contains(s, "not configured") then ConfMissing else ConfGeneric,
     ConfHint)
  }

  /** `create_archive_error_info`. */
  function ArchiveWording(s: string): (Wording, Wording) {
    if Contains(s, "zstd") || Contains(s, "zst") then (ArcZstd, ArcZstdHint)
    else if Contains(s, "extract") then (ArcExtract, ArcExtractHint)
    else (ArcGeneric, ArcGenericHint)
  }

  /** `create_unknown_error_info`. */
  function UnknownWording(): (Wording, Wording) {
    (UnknownMessage, UnknownHint)
  }

  /** The message and suggestion of each category's `create_*_error_info`. */
  function CategoryWording(c: ErrorCategory, s: string): (Wording, Wording) {
    match c
    case Network => NetworkWording(s)
    case FileSystem => FileSystemWording(s)
    case Permission => PermissionWording(s)
    case Validation => ValidationWording(s)
    case Configuration => ConfigurationWording(s)
    case Archive => ArchiveWording(s)
    case Unknown => UnknownWording()
  }

  /** The first category of `cats` for which `hit` holds, or `Unknown` when there is none. */
  function FirstMatch(cats: seq<ErrorCategory>, hit: ErrorCategory -> bool): ErrorCategory
    decreases |cats|
  {
    if |cats| == 0 then Unknown
    else if hit(cats[0]) then cats[0]
    else FirstMatch(cats[1..], hit)
  }

  /**
   * First match wins, for any ordered list of categories that does not
   * contain `Unknown`: the result is `Unknown` exactly when `hit` holds for
   * no listed category; otherwise it is the listed category at some index
   * `k`, `hit` holds for it, and for no category before `k`.
   */
  lemma {:induction false} FirstMatchSpec(cats: seq<ErrorCategory>, hit: ErrorCategory -> bool)
    requires Unknown !in cats
    ensures FirstMatch(cats, hit) == Unknown <==> forall k :: 0 <= k < |cats| ==> !hit(cats[k])
    ensures FirstMatch(cats, hit) != Unknown ==>
      exists k :: 0 <= k < |cats| && cats[k] == FirstMatch(cats, hit) && hit(cats[k])
        && forall k' :: 0 <= k' < k ==> !hit(cats[k'])
    decreases |cats|
  {
    if |cats| > 0 && !hit(cats[0]) {
      FirstMatchSpec(cats[1..], hit);
      assert forall k :: 1 <= k < |cats| ==> cats[1..][k - 1] == cats[k];
      if FirstMatch(cats, hit) != Unknown {
        var k :| 0 <= k < |cats| - 1 && cats[1..][k] == FirstMatch(cats, hit) && hit(cats[1..][k])
          && forall k' :: 0 <= k' < k ==> !hit(cats[1..][k']);
        assert cats[k + 1] == FirstMatch(cats, hit);
      }
    } else if |cats| > 0 {
      assert cats[0] != Unknown;
    }
  }

  /** Conversely, the first listed category for which `hit` holds is the result. */
  lemma {:induction false} FirstMatchAt(cats: seq<ErrorCategory>, hit: ErrorCategory -> bool, k: nat)
    requires k < |cats| && hit(cats[k])
    requires forall k' :: 0 <= k' < k ==> !hit(cats[k'])
    ensures FirstMatch(cats, hit) == cats[k]
    decreases k
  {
    if k > 0 {
      assert !hit(cats[0]);
      assert forall k' :: 0 <= k' < k - 1 ==> cats[1..][k'] == cats[k' + 1];
      FirstMatchAt(cats[1..], hit, k - 1);
    }
  }

  /** The category `categorize_error` picks for a lower-cased message. */
  function Classify(s: string): ErrorCategory {
    FirstMatch(Order(), c => Is(c, s))
  }

  /**
   * `categorize_error`: the lower-cased top-level message alone decides the
   * category (the first of `Order()` whose keywords occur); the whole chain,
   * joined by " | ", becomes the technical details.
   */
  function CategorizeError(e: Error): (r: ErrorInfo)
    ensures r.technicalDetails == Join(e.Chain(), " | ")
    ensures r.isRetryable <==> r.category in {Network, Validation, Archive}
    ensures r.category == Classify(Lower(e.top))
  {
    var s := Lower(e.top);
    var c := Classify(s);
    Info(c, CategoryWording(c, s), Join(e.Chain(), " | "))
  }

  /** No category before index `k` of `Order()` matches the lower-cased message. */
  predicate NoEarlierMatch(s: string, k: nat) {
    forall k' :: 0 <= k' < k && k' < |Order()| ==> !Is(Order()[k'], s)
  }

  /**
   * The category at index `k` of `Order()` is chosen when its keywords occur
   * in the lower-cased message and those of no earlier category do.
   */
  lemma ClassifyAt(s: string, k: nat)
    requires k < |Order()| && Is(Order()[k], s)
    requires NoEarlierMatch(s, k)
    ensures Classify(s) == Order()[k]
  {
    FirstMatchAt(Order(), c => Is(c, s), k);
  }

  /**
   * First match wins in `categorize_error`: the result is `Unknown` exactly
   * when no category's keywords occur in the lower-cased top message;
   * otherwise its keywords occur and those of every category tried before
   * it do not.
   */
  lemma FirstMatchWins(e: Error)
    ensures var c := CategorizeError(e).category; var s := Lower(e.top);
      && (c == Unknown <==> forall k :: 0 <= k < |Order()| ==> !Is(Order()[k], s))
      && (c != Unknown ==>
            exists k :: 0 <= k < |Order()| && Order()[k] == c && Is(c, s)
              && forall k' :: 0 <= k' < k ==> !Is(Order()[k'], s))
  {
    var s := Lower(e.top);
    FirstMatchSpec(Order(), c => Is(c, s));
  }

  /**
   * Only the top-level message is classified: errors whose top messages
   * agree once lower-cased get the same category, messages and flag,
   * whatever their causes.
   */
  lemma ClassifiesTopLevelOnly(e1: Error, e2: Error)
    requires Lower(e1.top) == Lower(e2.top)
    ensures var r1, r2 := CategorizeError(e1), CategorizeError(e2);
      r1.category == r2.category && r1.userMessage == r2.userMessage
      && r1.recoverySuggestion == r2.recoverySuggestion && r1.isRetryable == r2.isRetryable
  {
  }

  /**
   * Inside the network category the timeout message wins over
   * refused/unreachable, which wins over DNS, which wins over 502/503/504.
   */
  lemma NetworkMessagePrecedence(s: string)
    ensures var timeout := Contains(s, "timeout") || Contains(s, "timed out");
      var connect := Contains(s, "refused") || Contains(s, "unreachable");
      var dns := Contains(s, "dns");
      var server := Contains(s, "502") || Contains(s, "503") || Contains(s, "504");
      && (timeout ==> NetworkWording(s) == (NetTimeout, NetHint))
      && (!timeout && connect ==> NetworkWording(s) == (NetConnect, NetConnectHint))
      && (!timeout && !connect && dns ==> NetworkWording(s) == (NetDns, NetDnsHint))
      && (!timeout && !connect && !dns && server ==> NetworkWording(s) == (NetServer, NetServerHint))
      && (!timeout && !connect && !dns && !server ==> NetworkWording(s) == (NetGeneric, NetHint))
  {
  }

  /** The keyword `k` of category `c`, found in `s`, makes `c` match. */
  lemma KeywordMatches(c: ErrorCategory, s: string, k: nat)
    requires k < |Keywords(c)| && Contains(s, Keywords(c)[k])
    ensures Is(c, s)
  {
    ContainsAnyIff(s, Keywords(c));
  }

  /**
   * A timeout in the top message is a retryable network error with the
   * "timed out" message, whatever else the message says.
   */
  lemma TimeoutIsRetryableNetwork(e: Error)
    requires Contains(Lower(e.top), "timeout")
    ensures CategorizeError(e).category == Network
    ensures CategorizeError(e).isRetryable
    ensures CategorizeError(e).userMessage == NetTimeout
  {
    KeywordMatches(Network, Lower(e.top), 2);
    ClassifyAt(Lower(e.top), 0);
  }

  /**
   * Out of space, with no network keyword: a file-system error, not
   * retryable, with the "not enough disk space" message.
   */
  lemma NoSpaceIsFileSystem(e: Error)
    requires NoEarlierMatch(Lower(e.top), 1) && Contains(Lower(e.top), "space")
    ensures CategorizeError(e).category == FileSystem
    ensures !CategorizeError(e).isRetryable
    ensures CategorizeError(e).userMessage == FsSpace
  {
    KeywordMatches(FileSystem, Lower(e.top), 4);
    ClassifyAt(Lower(e.top), 1);
  }

  /**
   * "permission denied" with no network or file-system keyword: a
   * permission error, not retryable, with the "Permission denied" message.
   */
  lemma PermissionDeniedIsPermission(e: Error)
    requires NoEarlierMatch(Lower(e.top), 2)
    requires Contains(Lower(e.top), "permission denied")
    ensures CategorizeError(e).category == Permission
    ensures !CategorizeError(e).isRetryable
    ensures CategorizeError(e).userMessage == PermDenied
  {
    KeywordMatches(Permission, Lower(e.top), 0);
    ClassifyAt(Lower(e.top), 2);
  }

  /**
   * A zstd failure with no keyword of an earlier category: a retryable
   * archive error with the "Failed to extract the archive" message.
   */
  lemma ZstdIsArchive(e: Error)
    requires NoEarlierMatch(Lower(e.top), 5)
    requires Contains(Lower(e.top), "zstd")
    ensures CategorizeError(e).category == Archive
    ensures CategorizeError(e).isRetryable
    ensures CategorizeError(e).userMessage == ArcZstd
  {
    KeywordMatches(Archive, Lower(e.top), 7);
    ClassifyAt(Lower(e.top), 5);
  }

  /** A message with no keyword at all: unknown, not retryable, "An unexpected error occurred." */
  lemma NoKeywordIsUnknown(e: Error)
    requires NoEarlierMatch(Lower(e.top), |Order()|)
    ensures CategorizeError(e).category == Unknown
    ensures !CategorizeError(e).isRetryable
    ensures CategorizeError(e).userMessage == UnknownMessage
  {
    FirstMatchWins(e);
  }
}
