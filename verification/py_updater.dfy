/**
 * The Python prototype of the updater (`updater.py`): the fields the
 * `ReMakeplaceUpdater` window updates when a release is checked, the
 * streaming download with its completeness check, the reuse of a cached
 * archive and the pruning of the cache directory. The Tk widgets, the
 * threads and the installation step itself are not modelled.
 */
module PyUpdater {

  import opened Wrappers
  import opened Text
  import opened Fs
  import U = Updater
  import D = Downloader

  // ---------------------------------------------------------------------
  // Version comparison (`packaging.version`)

  /** One release number: a non-empty run of decimal digits (leading zeros allowed). */
  function ParseSegment(s: string): Option<nat> {
    if s != [] && AllDigits(s) then Some(DigitsValue(s)) else None
  }

  /** The release segment "N(.N)*" of a version text, or None when the text is not one. */
  function ParseRelease(s: string): Option<seq<nat>> {
    U.ParseAll(Split(s, '.'), ParseSegment)
  }

  function Head(a: seq<nat>): nat {
    if a == [] then 0 else a[0]
  }

  function Tail(a: seq<nat>): seq<nat> {
    if a == [] then [] else a[1..]
  }

  /**
   * Release segments compare number by number, the shorter one padded
   * with zeros (so "1.2" and "1.2.0" are the same version).
   */
  predicate ReleaseLess(a: seq<nat>, b: seq<nat>)
    decreases |a| + |b|
  {
    if a == [] && b == [] then false
    else Head(a) < Head(b) || (Head(a) == Head(b) && ReleaseLess(Tail(a), Tail(b)))
  }

  /** No release is older than itself. */
  lemma {:induction false} ReleaseLessIrreflexive(a: seq<nat>)
    ensures !ReleaseLess(a, a)
    decreases |a|
  {
    if a != [] {
      ReleaseLessIrreflexive(Tail(a));
    }
  }

  /** Being older is transitive, and so never holds both ways. */
  lemma {:induction false} ReleaseLessTransitive(a: seq<nat>, b: seq<nat>, c: seq<nat>)
    requires ReleaseLess(a, b) && ReleaseLess(b, c)
    ensures ReleaseLess(a, c)
    decreases |a| + |b| + |c|
  {
    if Head(a) == Head(b) && Head(b) == Head(c) {
      ReleaseLessTransitive(Tail(a), Tail(b), Tail(c));
    }
  }

  /** Trailing zeros do not change a release: "1.2" and "1.2.0" order the same way. */
  lemma {:induction false} ReleasePadding(a: seq<nat>, b: seq<nat>)
    ensures ReleaseLess(a + [0], b) == ReleaseLess(a, b)
    ensures ReleaseLess(b, a + [0]) == ReleaseLess(b, a)
    decreases |a| + |b|
  {
    if a == [] {
      ZeroRelease(b);
    } else {
      assert Tail(a + [0]) == Tail(a) + [0];
      ReleasePadding(Tail(a), Tail(b));
    }
  }

  /** [0] orders like the empty release: nothing is older, and it is older than any non-zero release. */
  lemma {:induction false} ZeroRelease(b: seq<nat>)
    ensures ReleaseLess([0], b) == ReleaseLess([], b)
    ensures ReleaseLess(b, [0]) == ReleaseLess(b, [])
    decreases |b|
  {
    assert Tail([0]) == [];
  }

  /**
   * On three-number releases the comparison is that of Semantic
   * Versioning for versions without pre-release identifiers, the one the
   * Tauri application uses.
   */
  lemma ReleaseAgreesWithSemver(a: nat, b: nat, c: nat, x: nat, y: nat, z: nat)
    ensures ReleaseLess([a, b, c], [x, y, z]) <==> U.Less(U.Version(a, b, c, [], []), U.Version(x, y, z, [], []))
  {
    assert Tail([a, b, c]) == [b, c] && Tail([b, c]) == [c] && Tail([c]) == [];
    assert Tail([x, y, z]) == [y, z] && Tail([y, z]) == [z] && Tail([z]) == [];
    assert !ReleaseLess([], []);
    assert ReleaseLess([c], [z]) == (c < z);
    assert ReleaseLess([b, c], [y, z]) == (b < y || (b == y && c < z));
    assert ReleaseLess([a, b, c], [x, y, z]) == (a < x || (a == x && (b < y || (b == y && c < z))));
  }

  /** `latest_ver > current_ver`; a text `version.parse` refuses makes the check fail. */
  predicate Newer(current: string, latest: string) {
    ParseRelease(current).Some? && ParseRelease(latest).Some?
    && ReleaseLess(ParseRelease(current).value, ParseRelease(latest).value)
  }

  /** A version is never an update of itself. */
  lemma SameVersionNotNewer(v: string)
    ensures !Newer(v, v)
  {
    if ParseRelease(v).Some? {
      ReleaseLessIrreflexive(ParseRelease(v).value);
    }
  }

  // ---------------------------------------------------------------------
  // Cache names

  /** The suffix of the archive `check_thread` looks for. */
  const ARCHIVE_SUFFIX: seq<string> := [".7z"]

  /** `url.split("/")[-1]`: the text after the last '/'. */
  function LastSegment(url: string): (r: string)
    ensures '/' !in r
  {
    var parts := Split(url, '/');
    parts[|parts| - 1]
  }

  /** The prefix the cache files of a version start with; `None` is written as Python writes it. */
  function VersionPrefix(latest: Option<string>): (p: string)
    ensures |p| >= 2 && p[0] == 'v' && p[|p| - 1] == '_'
  {
    "v" + (if latest.Some? then latest.value else "None") + "_"
  }

  /** The cache file of `download_and_install`: "v<latest>_<last URL segment>". */
  function CacheName(latest: string, url: string): string {
    D.CacheFileName(latest, LastSegment(url))
  }

  /**
   * A cache file name is one path component and carries the prefix of
   * its version, the one `cleanup_cache` spares.
   */
  lemma CacheNameHasPrefix(latest: string, url: string)
    requires '/' !in latest
    ensures StartsWith(CacheName(latest, url), VersionPrefix(Some(latest)))
    ensures '/' !in CacheName(latest, url)
  {
    var n := CacheName(latest, url);
    var p := VersionPrefix(Some(latest));
    assert n == p + LastSegment(url);
    assert n[..|p|] == p;
  }

  // ---------------------------------------------------------------------
  // cleanup_cache

  /** An entry `cleanup_cache` leaves: not a file, a file of the kept version, or one it cannot delete. */
  predicate Survives(e: Entry, keepCurrent: bool, prefix: string) {
    !e.isFile || (keepCurrent && StartsWith(e.name.GetOr(""), prefix)) || !e.removable
  }

  /** The listing after the deletions, in order. */
  function Kept(entries: seq<Entry>, keepCurrent: bool, prefix: string): seq<Entry>
    decreases |entries|
  {
    if entries == [] then []
    else
      var last := entries[|entries| - 1];
      Kept(entries[..|entries| - 1], keepCurrent, prefix) + (if Survives(last, keepCurrent, prefix) then [last] else [])
  }

  /** An entry is left exactly when it was listed and survives. */
  lemma {:induction false} KeptSpec(entries: seq<Entry>, keepCurrent: bool, prefix: string, x: Entry)
    ensures x in Kept(entries, keepCurrent, prefix) <==> x in entries && Survives(x, keepCurrent, prefix)
    ensures |Kept(entries, keepCurrent, prefix)| <= |entries|
    decreases |entries|
  {
    if entries != [] {
      var init := entries[..|entries| - 1];
      KeptSpec(init, keepCurrent, prefix, x);
      assert entries == init + [entries[|entries| - 1]];
    }
  }

  /**
   * The loop of `cleanup_cache` over a listed directory: each file is
   * deleted unless it survives; `removed` counts the deletions. The
   * listing is updated once, after the loop.
   */
  method DeleteFiles(dir: Directory, keepCurrent: bool, prefix: string) returns (removed: nat)
    modifies dir
    ensures dir.entries == Kept(old(dir.entries), keepCurrent, prefix)
    ensures removed + |dir.entries| == |old(dir.entries)|
    ensures dir.present == old(dir.present) && dir.readable == old(dir.readable)
  {
    var listing := dir.entries;
    var kept: seq<Entry> := [];
    removed := 0;
    var i := 0;
    while i < |listing|
      invariant 0 <= i <= |listing|
      invariant kept == Kept(listing[..i], keepCurrent, prefix)
      invariant removed + |kept| == i
    {
      var entry := listing[i];
      assert listing[..i + 1][..i] == listing[..i];
      if Survives(entry, keepCurrent, prefix) {
        kept := kept + [entry];
      } else {
        removed := removed + 1;
      }
      i := i + 1;
    }
    assert listing[..i] == listing;
    dir.entries := kept;
  }

  // ---------------------------------------------------------------------
  // download_file

  /**
   * What `requests.get(url, stream=True)` delivers: the Content-Length
   * header if sent, the chunks in order, and the error that ended the
   * stream early, if any.
   */
  datatype Response = Response(contentLength: Option<nat>, chunks: seq<seq<byte>>, streamError: Option<string>)

  /** The size the progress is measured against: 0 when unknown. */
  function Total(resp: Response): nat {
    resp.contentLength.GetOr(0)
  }

  /** The chunks written one after another. */
  function Concat(chunks: seq<seq<byte>>): seq<byte>
    decreases |chunks|
  {
    if chunks == [] then [] else Concat(chunks[..|chunks| - 1]) + chunks[|chunks| - 1]
  }

  /** The progress shown after `downloaded` bytes: their share of `total`, or 0 when the size is unknown. */
  function Fraction(downloaded: nat, total: nat): real {
    if total > 0 then downloaded as real / total as real else 0.0
  }

  /** The progress values reported, one per non-empty chunk. */
  function Progress(chunks: seq<seq<byte>>, total: nat): seq<real>
    decreases |chunks|
  {
    if chunks == [] then []
    else
      var before := Progress(chunks[..|chunks| - 1], total);
      if chunks[|chunks| - 1] == [] then before else before + [Fraction(|Concat(chunks)|, total)]
  }

  /** Without a Content-Length every reported progress is 0. */
  lemma {:induction false} UnknownSizeProgress(chunks: seq<seq<byte>>)
    ensures forall i :: 0 <= i < |Progress(chunks, 0)| ==> Progress(chunks, 0)[i] == 0.0
    decreases |chunks|
  {
    if chunks != [] {
      UnknownSizeProgress(chunks[..|chunks| - 1]);
    }
  }

  /** Every reported progress is at most that of everything received. */
  lemma {:induction false} ProgressBounded(chunks: seq<seq<byte>>, total: nat)
    ensures forall i :: 0 <= i < |Progress(chunks, total)| ==> Progress(chunks, total)[i] <= Fraction(|Concat(chunks)|, total)
    decreases |chunks|
  {
    if chunks != [] {
      var init := chunks[..|chunks| - 1];
      ProgressBounded(init, total);
      FractionMonotone(|Concat(init)|, |Concat(chunks)|, total);
    }
  }

  lemma FractionMonotone(a: nat, b: nat, total: nat)
    requires a <= b
    ensures Fraction(a, total) <= Fraction(b, total)
  {
    if total > 0 {
      assert a as real / total as real <= b as real / total as real by {
        assert (b as real - a as real) / total as real >= 0.0;
      }
    }
  }

  /** The progress bar never moves back. */
  lemma {:induction false} ProgressMonotone(chunks: seq<seq<byte>>, total: nat)
    ensures forall i, j :: 0 <= i <= j < |Progress(chunks, total)| ==> Progress(chunks, total)[i] <= Progress(chunks, total)[j]
    decreases |chunks|
  {
    if chunks != [] {
      var init := chunks[..|chunks| - 1];
      ProgressMonotone(init, total);
      ProgressBounded(init, total);
      FractionMonotone(|Concat(init)|, |Concat(chunks)|, total);
    }
  }

  /** When everything announced arrived, the last progress reported is 1. */
  lemma ProgressEndsFull(chunks: seq<seq<byte>>, total: nat)
    requires total > 0 && |Concat(chunks)| == total
    requires chunks != [] && chunks[|chunks| - 1] != []
    ensures |Progress(chunks, total)| > 0 && Progress(chunks, total)[|Progress(chunks, total)| - 1] == 1.0
  {
    var init := chunks[..|chunks| - 1];
    assert Progress(chunks, total) == Progress(init, total) + [Fraction(|Concat(chunks)|, total)];
    FractionFull(total);
  }

  lemma FractionFull(total: nat)
    requires total > 0
    ensures Fraction(total, total) == 1.0
  {
  }

  /** The download counts as complete: the announced size was received, or none was announced. */
  predicate Complete(resp: Response) {
    Total(resp) == 0 || |Concat(resp.chunks)| == Total(resp)
  }

  /** The whole of `download_file` succeeds. */
  predicate DownloadOk(response: Result<Response, string>) {
    response.Success? && response.value.streamError.None? && Complete(response.value)
  }

  /** The message `download_file` raises on failure. */
  function DownloadFailure(response: Result<Response, string>): string {
    match response
    case Failure(e) => "Download failed: " + e
    case Success(resp) =>
      if resp.streamError.Some? then "Download failed: " + resp.streamError.value
      else "Download failed: Download incomplete: " + Decimal(|Concat(resp.chunks)|) + "/" + Decimal(Total(resp)) + " bytes"
  }

  /**
   * `download_file`: the chunks are written to a fresh file as they
   * arrive, each non-empty one reporting its progress; a failed request,
   * a broken stream or a size different from the announced one removes
   * the file and raises.
   */
  method DownloadFile(file: File, response: Result<Response, string>) returns (r: Result<(), string>, progress: seq<real>)
    modifies file
    ensures r.Success? <==> DownloadOk(response)
    ensures r.Success? ==> file.present && file.content == Concat(response.value.chunks)
    ensures r.Failure? ==> !file.present && r.error == DownloadFailure(response)
    ensures response.Success? ==> progress == Progress(response.value.chunks, Total(response.value))
  {
    if response.Failure? {
      if file.present {
        file.Remove();
      }
      return Failure("Download failed: " + response.error), [];
    }
    var resp := response.value;
    var total := resp.contentLength.GetOr(0);
    var downloaded := 0;
    file.present := true;
    file.content := [];
    progress := [];
    var i := 0;
    while i < |resp.chunks|
      invariant 0 <= i <= |resp.chunks|
      invariant file.present && file.content == Concat(resp.chunks[..i])
      invariant downloaded == |file.content|
      invariant progress == Progress(resp.chunks[..i], total)
    {
      var chunk := resp.chunks[i];
      assert resp.chunks[..i + 1][..i] == resp.chunks[..i];
      if chunk != [] {
        file.content := file.content + chunk;
        downloaded := downloaded + |chunk|;
        progress := progress + [Fraction(downloaded, total)];
      }
      i := i + 1;
    }
    assert resp.chunks[..i] == resp.chunks;
    if resp.streamError.Some? {
      file.Remove();
      return Failure("Download failed: " + resp.streamError.value), progress;
    }
    if total > 0 && downloaded != total {
      file.Remove();
      return Failure("Download failed: Download incomplete: " + Decimal(downloaded) + "/" + Decimal(total) + " bytes"), progress;
    }
    return Success(()), progress;
  }

  // ---------------------------------------------------------------------
  // The updater window

  /** The state `ReMakeplaceUpdater` keeps between the update check and the update. */
  class ReMakeplaceUpdater {
    var currentVersion: string   // config["current_version"]
    var lastCheck: string        // config["last_check"]
    var updateAvailable: bool
    var latestVersion: Option<string>
    var downloadUrl: Option<string>

    /** An update is only ever offered for a known latest version. */
    predicate Valid()
      reads this
    {
      updateAvailable ==> latestVersion.Some?
    }

    /** `start_update`'s guard: an update is available and the download URL is not empty. */
    predicate Ready()
      reads this
    {
      updateAvailable && downloadUrl.Some? && downloadUrl.value != ""
    }

    /** `__init__` with the loaded configuration: nothing checked yet. */
    constructor (currentVersion: string, lastCheck: string)
      ensures this.currentVersion == currentVersion && this.lastCheck == lastCheck
      ensures !updateAvailable && latestVersion.None? && downloadUrl.None?
      ensures Valid()
    {
      this.currentVersion := currentVersion;
      this.lastCheck := lastCheck;
      updateAvailable := false;
      latestVersion := None;
      downloadUrl := None;
    }

    /**
     * `check_thread` on the release it fetched: the latest version is the
     * tag without its leading "v"s, and the download URL that of the first
     * ".7z" asset; without one the URL stays what it was.
     */
    method ApplyRelease(release: U.Release)
      modifies this
      ensures latestVersion == Some(U.TrimStartV(release.tagName))
      ensures downloadUrl == match U.FirstInTier(release.assets, ARCHIVE_SUFFIX, 0)
        case Some(i) => Some(release.assets[i].downloadUrl)
        case None => old(downloadUrl)
      ensures (updateAvailable, currentVersion, lastCheck) == old((updateAvailable, currentVersion, lastCheck))
      ensures Valid()
    {
      latestVersion := Some(U.TrimStartV(release.tagName));
      // The `for asset in ...: if ...: break` loop is the scan of one suffix tier.
      var found := U.ScanTier(release.assets, ARCHIVE_SUFFIX);
      if found.Some? {
        downloadUrl := Some(release.assets[found.value].downloadUrl);
      }
    }

    /**
     * `update_ui_after_check`: an update becomes available when the latest
     * version is newer; the flag is never cleared, and a version text that
     * does not parse leaves everything as it was.
     */
    method UpdateUiAfterCheck()
      modifies this
      ensures updateAvailable == (old(updateAvailable) || (latestVersion.Some? && Newer(currentVersion, latestVersion.value)))
      ensures currentVersion == old(currentVersion) && lastCheck == old(lastCheck)
      ensures latestVersion == old(latestVersion) && downloadUrl == old(downloadUrl)
      ensures old(Valid()) ==> Valid()
    {
      if latestVersion.None? {
        return;
      }
      var current := ParseRelease(currentVersion);
      var latest := ParseRelease(latestVersion.value);
      if current.Some? && latest.Some? && ReleaseLess(current.value, latest.value) {
        updateAvailable := true;
      }
    }

    /**
     * `cleanup_cache`: every file of the cache directory is deleted except,
     * with `keepCurrent`, those of the latest version; deletions that fail
     * are skipped. Without `keepCurrent` the directory itself goes when
     * nothing is left in it. A missing or unlistable directory is left
     * alone. `removed` is the `files_removed` count.
     */
    method CleanupCache(dir: Directory, keepCurrent: bool) returns (removed: nat)
      modifies dir
      ensures !old(dir.present) || !old(dir.readable) ==>
        removed == 0 && dir.entries == old(dir.entries) && dir.present == old(dir.present)
      ensures old(dir.present) && old(dir.readable) ==>
        var kept := Kept(old(dir.entries), keepCurrent, VersionPrefix(latestVersion));
        && dir.entries == kept
        && removed + |kept| == |old(dir.entries)|
        && (dir.present <==> keepCurrent || kept != [])
      ensures dir.readable == old(dir.readable)
    {
      if !dir.present || !dir.readable {
        return 0;
      }
      removed := DeleteFiles(dir, keepCurrent, VersionPrefix(latestVersion));
      if !keepCurrent && dir.entries == [] {
        dir.present := false;
      }
    }

    /**
     * `start_update` followed by `download_and_install`. `file` is the
     * cache file "update_cache/<CacheName>"; an existing one is installed
     * without downloading. `install` and `save` are the outcomes of
     * `install_update` and `save_config`, `now` the time of the update.
     * Nothing happens without an available update and a non-empty
     * download URL.
     */
    method StartUpdate(file: File, dir: Directory, response: Result<Response, string>,
                       install: Result<(), string>, save: Result<(), string>, now: string)
      returns (r: Option<Result<(), string>>)
      requires Valid()
      modifies this, file, dir
      ensures !old(Ready()) ==>
        r.None? && currentVersion == old(currentVersion) && lastCheck == old(lastCheck)
        && file.present == old(file.present) && file.content == old(file.content)
        && dir.present == old(dir.present) && dir.readable == old(dir.readable) && dir.entries == old(dir.entries)
      ensures r.Some? <==> old(Ready())
      ensures r.Some? && r.value.Failure? ==>
        dir.present && dir.entries == (if old(dir.present) then old(dir.entries) else [])
      ensures r.Some? && !old(file.present) && !DownloadOk(response) ==>
        r.value == Failure("Update failed: " + DownloadFailure(response)) && !file.present
      ensures r.Some? && !old(file.present) && DownloadOk(response) ==>
        file.present && file.content == Concat(response.value.chunks)
      ensures r.Some? && old(file.present) ==> file.present == old(file.present) && file.content == old(file.content)
      ensures r.Some? ==>
        (r.value.Success? <==> (old(file.present) || DownloadOk(response)) && install.Success? && save.Success?)
      ensures r.Some? && (old(file.present) || DownloadOk(response)) && install.Success? ==>
        currentVersion == old(latestVersion).value && lastCheck == now
      ensures r.Some? && !((old(file.present) || DownloadOk(response)) && install.Success?) ==>
        currentVersion == old(currentVersion) && lastCheck == old(lastCheck)
      ensures r == Some(Success(())) ==> file.present && dir.present
      ensures r == Some(Success(())) && old(dir.present) && !old(dir.readable) ==> dir.entries == old(dir.entries)
      ensures r == Some(Success(())) && (!old(dir.present) || old(dir.readable)) ==>
        dir.entries == Kept(if old(dir.present) then old(dir.entries) else [], true, VersionPrefix(old(latestVersion)))
      ensures latestVersion == old(latestVersion) && downloadUrl == old(downloadUrl)
      ensures updateAvailable == old(updateAvailable)
    {
      if !Ready() {
        return None;
      }
      if !dir.present {
        dir.present := true;
        dir.readable := true;
        dir.entries := [];
      }
      if !file.present {
        var downloaded, _ := DownloadFile(file, response);
        if downloaded.Failure? {
          return Some(Failure("Update failed: " + downloaded.error));
        }
      }
      if install.Failure? {
        return Some(Failure("Update failed: " + install.error));
      }
      currentVersion := latestVersion.value;
      lastCheck := now;
      if save.Failure? {
        return Some(Failure("Update failed: " + save.error));
      }
      var _ := CleanupCache(dir, true);
      return Some(Success(()));
    }

    /**
     * `update_complete`, which runs after every successful update: no
     * update is offered any more, and the cache is cleaned without
     * `keep_current`, so the archive just installed goes too.
     */
    method UpdateComplete(dir: Directory) returns (removed: nat)
      modifies this, dir
      ensures !updateAvailable && Valid()
      ensures (currentVersion, lastCheck, latestVersion, downloadUrl)
        == old((currentVersion, lastCheck, latestVersion, downloadUrl))
      ensures !old(dir.present) || !old(dir.readable) ==>
        removed == 0 && dir.entries == old(dir.entries) && dir.present == old(dir.present)
      ensures old(dir.present) && old(dir.readable) ==>
        var kept := Kept(old(dir.entries), false, VersionPrefix(latestVersion));
        && dir.entries == kept
        && removed + |kept| == |old(dir.entries)|
        && (dir.present <==> kept != [])
      ensures dir.readable == old(dir.readable)
    {
      updateAvailable := false;
      removed := CleanupCache(dir, false);
    }
  }

  /**
   * The two cleanups of a successful update, the one of
   * `download_and_install` that spares the current version and the one of
   * `update_complete` that spares nothing, leave what the second one alone
   * would leave.
   */
  lemma {:induction false} CleanupsCompose(entries: seq<Entry>, p: string, q: string)
    ensures Kept(Kept(entries, true, p), false, q) == Kept(entries, false, q)
    decreases |entries|
  {
    if entries != [] {
      var init := entries[..|entries| - 1];
      var last := entries[|entries| - 1];
      CleanupsCompose(init, p, q);
      var once := Kept(init, true, p);
      assert Kept(entries, false, q) == Kept(init, false, q) + (if Survives(last, false, q) then [last] else []);
      if Survives(last, true, p) {
        assert Kept(entries, true, p) == once + [last];
        assert (once + [last])[..|once + [last]| - 1] == once;
      } else {
        assert Kept(entries, true, p) == once;
      }
    }
  }

  /**
   * The cleanup inside `download_and_install` spares the archive just
   * installed; `update_complete` removes it afterwards (`CleanupsCompose`).
   */
  lemma CleanupSparesCurrent(entries: seq<Entry>, latest: string, url: string, e: Entry)
    requires '/' !in latest
    requires e in entries && e.name == Some(CacheName(latest, url))
    ensures e in Kept(entries, true, VersionPrefix(Some(latest)))
  {
    CacheNameHasPrefix(latest, url);
    KeptSpec(entries, true, VersionPrefix(Some(latest)), e);
  }

  /**
   * Without `keepCurrent`, as in `update_complete`, the files left are
   * exactly those that could not be deleted.
   */
  lemma ClearAllLeavesOnlyStuck(entries: seq<Entry>, latest: Option<string>, e: Entry)
    ensures e in Kept(entries, false, VersionPrefix(latest)) <==> e in entries && (!e.isFile || !e.removable)
  {
    KeptSpec(entries, false, VersionPrefix(latest), e);
  }

  /** The Python prototype's archive is the first choice of the Tauri application too. */
  lemma SameArchiveAsTauri(assets: seq<U.Asset>)
    requires U.FirstInTier(assets, ARCHIVE_SUFFIX, 0).Some?
    ensures U.SelectAsset(assets) == Some(assets[U.FirstInTier(assets, ARCHIVE_SUFFIX, 0).value].downloadUrl)
  {
    assert U.TIERS[0] == ARCHIVE_SUFFIX;
  }
}
