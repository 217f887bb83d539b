/**
 * The application commands of `lib.rs` that decide something: the
 * single-download guard of `start_download` and its cached-file decision,
 * the JSON merge of `merge_config_files`, the checks of
 * `handle_deep_link`, and which steps `install_update` runs in each
 * installation mode.
 */
module App {

  import opened Wrappers
  import opened Errors
  import opened Fs
  import D = Downloader
  import RM = RetryManager
  import EH = ErrorHandler
  import C = Config

  // ---------------------------------------------------------------------
  // start_download

  /** The part of `AppState` the commands update: the download flag. */
  class AppState {
    var isDownloading: bool
    var isUpdating: bool

    /** `AppState::new`: nothing in progress. */
    constructor ()
      ensures !isDownloading && !isUpdating
    {
      isDownloading := false;
      isUpdating := false;
    }
  }

  /**
   * What `validate_cached_file` finds when it looks at the file: the
   * size its metadata gives (or the error), and how many bytes the first
   * read returns (None when opening or reading fails).
   */
  datatype Inspection = Inspection(size: Result<nat, Error>, firstRead: Option<nat>)

  /** `validate_cached_file(path, None)` on a file that is or is not present. */
  function CacheValidity(present: bool, look: Inspection): Result<bool, Error> {
    D.ValidateCachedFile(present, look.size, look.firstRead, None)
  }

  /** What `start_download` does with the cache file it finds. */
  datatype CacheDecision =
    | UseCached            // a valid file: returned, nothing downloaded
    | Resume               // an invalid file: the download resumes it
    | Fresh(remove: bool)  // no file, or one that could not be validated and is removed first

  function DecideCache(present: bool, look: Inspection): CacheDecision {
    if !present then Fresh(false)
    else match CacheValidity(present, look)
      case Success(valid) => if valid then UseCached else Resume
      case Failure(_) => Fresh(true)
  }

  /**
   * The cached-file decision: a missing file is downloaded afresh; a
   * valid one is used; every file that fails validation (too small, or
   * a first read that fails or is empty) is resumed; one whose metadata
   * cannot be read is removed and downloaded afresh. A file under 1024
   * bytes is never used as it is.
   */
  lemma CacheDecisionCases(present: bool, look: Inspection)
    ensures !present ==> DecideCache(present, look) == Fresh(false)
    ensures present && look.size.Failure? ==> DecideCache(present, look) == Fresh(true)
    ensures DecideCache(present, look) == UseCached <==>
      present && look.size.Success? && look.size.value >= D.MIN_CACHED_SIZE
      && look.firstRead.Some? && look.firstRead.value > 0
    ensures present && look.size.Success? && look.size.value < D.MIN_CACHED_SIZE ==>
      DecideCache(present, look) == Resume
    ensures present && CacheValidity(present, look) == Success(false) ==> DecideCache(present, look) == Resume
    ensures present && look.size.Success? ==>
      (DecideCache(present, look) == Resume <==> DecideCache(present, look) != UseCached)
  {
  }

  /** Where `start_download` keeps the download: "update_cache/v<version>_<name>". */
  function CachePath(version: string, originalFilename: string): seq<string> {
    D.CacheFilePath([D.CACHE_DIRECTORY], version, originalFilename)
  }

  /**
   * The synchronous part of `start_download`: refuse while a download
   * runs; otherwise raise the flag and decide on the cached file. `task`
   * is the download left to run (Some(resume)), None when nothing is
   * downloaded.
   */
  method StartDownload(state: AppState, file: File, version: string, originalFilename: string, look: Inspection)
    returns (r: Result<seq<string>, string>, task: Option<bool>)
    modifies state, file
    ensures state.isUpdating == old(state.isUpdating)
    ensures old(state.isDownloading) ==>
      r == Failure("Download already in progress") && task.None? && state.isDownloading
      && file.present == old(file.present) && file.content == old(file.content)
    ensures !old(state.isDownloading) ==>
      r == Success(CachePath(version, originalFilename))
      && match DecideCache(old(file.present), look)
         case UseCached =>
           task.None? && !state.isDownloading
           && file.present == old(file.present) && file.content == old(file.content)
         case Resume =>
           task == Some(true) && state.isDownloading
           && file.present == old(file.present) && file.content == old(file.content)
         case Fresh(remove) =>
           task == Some(false) && state.isDownloading
           && (remove ==> !file.present)
           && (!remove ==> file.present == old(file.present) && file.content == old(file.content))
  {
    if state.isDownloading {
      return Failure("Download already in progress"), None;
    }
    state.isDownloading := true;
    var path := CachePath(version, originalFilename);
    var resume := false;
    if file.present {
      var validity := CacheValidity(file.present, look);
      match validity
      case Success(valid) =>
        if valid {
          state.isDownloading := false;
          return Success(path), None;
        }
        resume := true;
      case Failure(_) =>
        file.Remove();
    }
    return Success(path), Some(resume);
  }

  /** What the download task tells the window when it ends. */
  datatype Event = DownloadComplete | DownloadError(info: EH.ErrorInfo)

  /**
   * The end of the spawned download task: the flag is cleared whatever
   * happened; a finished download is validated again, and one that fails
   * validation is removed and reported as an error.
   */
  method FinishDownload(state: AppState, file: File, download: Result<(), Error>, look: Inspection)
    returns (event: Event)
    modifies state, file
    ensures !state.isDownloading && state.isUpdating == old(state.isUpdating)
    ensures download.Failure? ==> event == DownloadError(EH.CategorizeError(download.error))
    ensures download.Success? ==>
      match CacheValidity(old(file.present), look)
      case Success(true) => event == DownloadComplete
      case Success(false) =>
        event == DownloadError(EH.CategorizeError(Msg("Downloaded file failed validation"))) && !file.present
      case Failure(e) => event == DownloadError(EH.CategorizeError(e))
    ensures file.present != old(file.present) ==> download.Success? && CacheValidity(old(file.present), look) == Success(false)
    ensures !(download.Success? && CacheValidity(old(file.present), look) == Success(false)) ==>
      file.present == old(file.present) && file.content == old(file.content)
  {
    state.isDownloading := false;
    match download
    case Failure(e) =>
      event := DownloadError(EH.CategorizeError(e));
    case Success(_) =>
      match CacheValidity(file.present, look)
      case Success(valid) =>
        if valid {
          event := DownloadComplete;
        } else {
          file.Remove();
          event := DownloadError(EH.CategorizeError(Msg("Downloaded file failed validation")));
        }
      case Failure(e) =>
        event := DownloadError(EH.CategorizeError(e));
  }

  /**
   * `start_download` with its task run to the end: the download of
   * `download_file_with_resume` between the two halves. A refused call
   * leaves the flag raised by the running download; every other path
   * ends with the flag cleared.
   */
  method RunDownload(state: AppState, file: File, version: string, originalFilename: string,
                     before: Inspection, envs: nat -> D.Env, offsets: nat -> int, after: Inspection)
    returns (r: Result<seq<string>, string>, event: Option<Event>)
    requires D.JitterDraws(RM.ForNetworkOperations(), offsets)
    modifies state, file
    ensures old(state.isDownloading) ==> r == Failure("Download already in progress") && event.None? && state.isDownloading
    ensures !old(state.isDownloading) ==> r == Success(CachePath(version, originalFilename)) && !state.isDownloading
    ensures event.Some? ==> DecideCache(old(file.present), before) != UseCached
  {
    var task;
    r, task := StartDownload(state, file, version, originalFilename, before);
    event := None;
    if task.Some? {
      var result, _, _ := D.DownloadFileWithResume(file, task.value, envs, offsets);
      var ev := FinishDownload(state, file, result, after);
      event := Some(ev);
    }
  }

  // ---------------------------------------------------------------------
  // merge_config_files

  /** A JSON value: an object, or anything else (kept as its text). */
  datatype Json = Object(members: map<string, Json>) | Other(text: string)

  /** The user's members, plus the new members the user lacks. */
  function Merge(user: map<string, Json>, update: map<string, Json>): (m: map<string, Json>)
    ensures m.Keys == user.Keys + update.Keys
  {
    map k | k in user.Keys + update.Keys :: if k in user then user[k] else update[k]
  }

  /**
   * The merge keeps every user setting with its value and adds exactly
   * the new settings the user lacks, with their new values; merging again
   * changes nothing, and merging with nothing new or with the user's own
   * settings is the identity.
   */
  lemma MergeSpec(user: map<string, Json>, update: map<string, Json>)
    ensures forall k :: k in user ==> Merge(user, update)[k] == user[k]
    ensures forall k :: k in update && k !in user ==> Merge(user, update)[k] == update[k]
    ensures Merge(Merge(user, update), update) == Merge(user, update)
    ensures Merge(user, map[]) == user && Merge(user, user) == user
  {
  }

  /** The configuration `merge_config_files` writes back. */
  function Merged(user: Json, update: Option<Json>): Json {
    if user.Object? && update.Some? && update.value.Object? then Object(Merge(user.members, update.value.members))
    else user
  }

  /**
   * `merge_config_files`: the user's config, read and parsed, with the
   * new config's missing settings inserted one key at a time. `update`
   * is None when the installed archive brought no config.json; errors of
   * reading or parsing either file come with their context.
   */
  method MergeConfigFiles(user: Result<Json, Error>, update: Option<Result<Json, Error>>)
    returns (r: Result<Json, Error>)
    ensures user.Failure? ==> r == user
    ensures user.Success? && update.Some? && update.value.Failure? ==> r == Failure(update.value.error)
    ensures user.Success? && (update.None? || update.value.Success?) ==>
      r == Success(Merged(user.value, if update.None? then None else Some(update.value.value)))
  {
    if user.Failure? {
      return user;
    }
    var userConfig := user.value;
    if update.Some? {
      if update.value.Failure? {
        return Failure(update.value.error);
      }
      var newConfig := update.value.value;
      if userConfig.Object? && newConfig.Object? {
        var userObj := userConfig.members;
        var newObj := newConfig.members;
        var remaining := newObj.Keys;
        while remaining != {}
          invariant remaining <= newObj.Keys
          invariant userObj == Merge(userConfig.members, newObj - remaining)
          decreases remaining
        {
          var key :| key in remaining;
          if key !in userObj {
            userObj := userObj[key := newObj[key]];
          }
          remaining := remaining - {key};
        }
        assert newObj - {} == newObj;
        userConfig := Object(userObj);
      }
    }
    return Success(userConfig);
  }

  // ---------------------------------------------------------------------
  // handle_deep_link

  /** A parsed URL: scheme, host when there is one, and the query pairs in order. */
  datatype Url = Url(scheme: string, host: Option<string>, query: seq<(string, string)>)

  /** The value of the first query pair named `key`. */
  function FirstQueryValue(query: seq<(string, string)>, key: string): (r: Option<string>)
    ensures r.None? <==> forall i :: 0 <= i < |query| ==> query[i].0 != key
    ensures r.Some? ==>
      exists i :: (0 <= i < |query| && query[i] == (key, r.value)
                   && forall j :: 0 <= j < i ==> query[j].0 != key)
    decreases |query|
  {
    if query == [] then None
    else if query[0].0 == key then Some(query[0].1)
    else
      var r := FirstQueryValue(query[1..], key);
      assert forall i :: 1 <= i < |query| ==> query[1..][i - 1] == query[i];
      if r.Some? then
        var i :| 0 <= i < |query[1..]| && query[1..][i] == (key, r.value)
          && forall j :: 0 <= j < i ==> query[1..][j].0 != key;
        assert query[i + 1] == (key, r.value);
        r
      else r
  }

  /**
   * The checks of `handle_deep_link` before the payload is decoded: the
   * URL must parse, use the "makeplace" scheme and the "import" host, and
   * carry a "payload" query parameter.
   */
  function DeepLinkPayload(parsed: Result<Url, string>): (r: Result<string, string>)
    ensures r.Success? <==>
      parsed.Success? && parsed.value.scheme == "makeplace" && parsed.value.host == Some("import")
      && exists i :: 0 <= i < |parsed.value.query| && parsed.value.query[i].0 == "payload"
  {
    match parsed
    case Failure(e) => Failure(e)
    case Success(url) =>
      if url.scheme != "makeplace" then Failure("Unsupported scheme")
      else if url.host.GetOr("") != "import" then Failure("Unsupported action")
      else match FirstQueryValue(url.query, "payload")
        case None => Failure("Missing payload")
        case Some(v) => Success(v)
  }

  /** Each refusal names the first check that fails, and an accepted link yields its first payload. */
  lemma DeepLinkRefusals(url: Url)
    ensures url.scheme != "makeplace" ==> DeepLinkPayload(Success(url)) == Failure("Unsupported scheme")
    ensures url.scheme == "makeplace" && url.host != Some("import") ==>
      DeepLinkPayload(Success(url)) == Failure("Unsupported action")
    ensures url.scheme == "makeplace" && url.host == Some("import") ==>
      DeepLinkPayload(Success(url)) ==
        match FirstQueryValue(url.query, "payload")
        case None => Failure("Missing payload")
        case Some(v) => Success(v)
  {
    if url.scheme == "makeplace" && url.host != Some("import") && url.host.Some? {
      assert url.host.GetOr("") == url.host.value;
    }
  }

  // ---------------------------------------------------------------------
  // install_update

  /** The steps of `install_update` that touch the installation. */
  datatype Step = Backup | Extract | Restore | SaveConfig(version: string) | CleanUp

  /** What the steps report; the string parameters are the errors' messages. */
  datatype InstallOutcomes = InstallOutcomes(
    backup: Result<(), Error>,
    extract: Result<(), Error>,
    restore: Result<(), Error>,
    check: Result<string, Error>,
    save: Result<(), Error>)

  /** The steps run, and the error reported (None when the update completes). */
  datatype Installation = Installation(steps: seq<Step>, error: Option<string>)

  /**
   * The spawned task of `install_update`: in Update mode the user data is
   * backed up first and restored after extraction (also after a failed
   * one); a fresh install only extracts. Then the version and check time
   * are saved, and the cache is cleaned.
   */
  function Install(mode: C.InstallationMode, currentVersion: string, o: InstallOutcomes): (r: Installation)
    ensures (Backup in r.steps || Restore in r.steps) ==> mode == C.Update
    ensures mode == C.Update ==> |r.steps| > 0 && r.steps[0] == Backup
    ensures mode == C.Update && o.backup.Failure? ==> r == Installation([Backup], Some("Backup failed: " + o.backup.error.top))
    ensures Extract in r.steps <==> mode == C.FreshInstall || o.backup.Success?
  {
    var update := mode == C.Update;
    if update && o.backup.Failure? then Installation([Backup], Some("Backup failed: " + o.backup.error.top))
    else
      var before := if update then [Backup, Extract] else [Extract];
      if o.extract.Failure? then
        Installation(before + (if update then [Restore] else []), Some("Extraction failed: " + o.extract.error.top))
      else if update && o.restore.Failure? then
        Installation(before + [Restore], Some("Failed to restore user data: " + o.restore.error.top))
      else
        var restored := before + (if update then [Restore] else []);
        var version := if o.check.Success? then o.check.value else currentVersion;
        if o.save.Failure? then
          Installation(restored + [SaveConfig(version)], Some("Failed to update config: " + o.save.error.top))
        else Installation(restored + [SaveConfig(version), CleanUp], None)
  }

  /**
   * A fresh install never backs up or restores, and it completes iff the
   * extraction and the config save succeed; an update completes iff the
   * backup, extraction, restore and save all succeed, and a failed
   * extraction in Update mode is followed by a restore.
   */
  lemma InstallByMode(currentVersion: string, o: InstallOutcomes)
    ensures var r := Install(C.FreshInstall, currentVersion, o);
      Backup !in r.steps && Restore !in r.steps
      && (r.error.None? <==> o.extract.Success? && o.save.Success?)
    ensures var r := Install(C.Update, currentVersion, o);
      (r.error.None? <==> o.backup.Success? && o.extract.Success? && o.restore.Success? && o.save.Success?)
      && (o.backup.Success? && o.extract.Failure? ==> r.steps == [Backup, Extract, Restore])
  {
  }
}
