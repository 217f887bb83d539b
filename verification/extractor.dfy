/**
 * `extractor.rs`: which decoders `extract_archive` tries on a downloaded
 * archive, in which order, and what it reports. The decoding libraries
 * themselves (7z, zip, tar, gzip, bzip2, xz, zstd) are an oracle: for
 * each method they either succeed or report an error.
 */
module Extractor {

  import opened Wrappers
  import opened Text
  import opened Errors
  import opened Fs

  /** The extraction methods of `extract_archive`. */
  datatype Method = SevenZ | Zip | TarGz | TarBz2 | TarXz | TarZst | Tar | Gz | Bz2 | Xz | Zst

  /** The order in which they are tried. */
  const ORDER: seq<Method> := [SevenZ, Zip, TarGz, TarBz2, TarXz, TarZst, Tar, Gz, Bz2, Xz, Zst]

  /** The suffix lists the guards test. */
  const TAR_GZ: seq<string> := [".tar.gz", ".tgz"]
  const TAR_BZ2: seq<string> := [".tar.bz2", ".tbz2", ".tbz"]
  const TAR_XZ: seq<string> := [".tar.xz", ".txz"]
  const TAR_ZST: seq<string> := [".tar.zst", ".tar.zstd"]
  const TAR: seq<string> := [".tar"]
  const GZ: seq<string> := [".gz"]
  const BZ2: seq<string> := [".bz2"]
  const XZ: seq<string> := [".xz"]
  const ZST: seq<string> := [".zst", ".zstd"]

  /** The first six bytes of every 7z archive. */
  const SEVEN_Z_MAGIC: seq<byte> := [0x37, 0x7A, 0xBC, 0xAF, 0x27, 0x1C]

  /**
   * The archive as the extractor sees it: whether the path exists, its
   * file name when it has one that is valid UTF-8, and the bytes opening
   * it for the magic-byte check yields (or the error opening it).
   */
  datatype Archive = Archive(present: bool, name: Option<string>, head: Result<seq<byte>, Error>)

  /** The file name, "" when there is none. */
  function FileName(a: Archive): string {
    a.name.GetOr("")
  }

  /** `file_has_extensions`: the lower-cased name ends with one of the lower-cased suffixes. */
  predicate HasExtension(a: Archive, exts: seq<string>) {
    EndsWithAny(Lower(FileName(a)), LowerAll(exts))
  }

  /** The suffix test is a case-insensitive "ends with one of". */
  lemma HasExtensionIff(a: Archive, exts: seq<string>)
    ensures HasExtension(a, exts) <==>
      exists j :: 0 <= j < |exts| && EndsWith(Lower(FileName(a)), Lower(exts[j]))
  {
    EndsWithAnyIff(Lower(FileName(a)), LowerAll(exts));
  }

  /** Renaming the archive to its lower-case name never changes a suffix test. */
  lemma HasExtensionIgnoresCase(a: Archive, exts: seq<string>)
    requires a.name.Some?
    ensures HasExtension(a.(name := Some(Lower(a.name.value))), exts) == HasExtension(a, exts)
  {
    LowerIdempotent(a.name.value);
  }

  /** A name made of any base and one of the (lower-case) suffixes passes the suffix test. */
  lemma NamedWith(a: Archive, base: string, ext: string, exts: seq<string>)
    requires ext in exts && a.name == Some(base + ext)
    requires forall i :: 0 <= i < |ext| ==> !IsUpper(ext[i])
    ensures HasExtension(a, exts)
  {
    LowerOfLower(ext);
    assert Lower(base + ext) == Lower(base) + Lower(ext);
    var j :| 0 <= j < |exts| && exts[j] == ext;
    HasExtensionIff(a, exts);
  }

  /**
   * `is_7z_file`: whether the file starts with the 7z magic bytes; a file
   * shorter than six bytes is not a 7z file, and failing to open it is an
   * error.
   */
  function IsSevenZipFile(a: Archive): (r: Result<bool, Error>)
    ensures r.Failure? <==> a.head.Failure?
    ensures r.Failure? ==>
      (r.error.top == "Failed to open file for magic byte check" && r.error.Chain()[1..] == a.head.error.Chain())
    ensures r == Success(true) <==>
      (a.head.Success? && |a.head.value| >= |SEVEN_Z_MAGIC| &&
       forall i :: 0 <= i < |SEVEN_Z_MAGIC| ==> a.head.value[i] == SEVEN_Z_MAGIC[i])
  {
    match a.head
    case Failure(e) => Failure(Context(e, "Failed to open file for magic byte check"))
    case Success(bytes) => Success(|bytes| >= 6 && bytes[..6] == SEVEN_Z_MAGIC)
  }

  /**
   * Only the first six bytes decide: a file of fewer bytes is not a 7z
   * file, and the magic bytes followed by anything are one.
   */
  lemma SevenZipMagic(a: Archive, rest: seq<byte>)
    ensures a.head.Success? && |a.head.value| < 6 ==> IsSevenZipFile(a) == Success(false)
    ensures a.head == Success(SEVEN_Z_MAGIC + rest) ==> IsSevenZipFile(a) == Success(true)
  {
    if a.head == Success(SEVEN_Z_MAGIC + rest) {
      assert a.head.value[..6] == SEVEN_Z_MAGIC;
    }
  }

  /** The error a guard reports when the name does not fit the method. */
  function Refusal(m: Method): string {
    match m
    case SevenZ => "Not a 7z file"
    case Zip => ""
    case TarGz => "Not a tar.gz file"
    case TarBz2 => "Not a tar.bz2 file"
    case TarXz => "Not a tar.xz file"
    case TarZst => "Not a tar.zst file"
    case Tar => "Not a tar file"
    case Gz => "Not a standalone gz file"
    case Bz2 => "Not a standalone bz2 file"
    case Xz => "Not a standalone xz file"
    case Zst => "Not a zst file"
  }

  /** Whether the name lets the method run, as a plain condition on the suffixes. */
  predicate Admits(m: Method, a: Archive) {
    match m
    case SevenZ => true
    case Zip => true
    case TarGz => HasExtension(a, TAR_GZ)
    case TarBz2 => HasExtension(a, TAR_BZ2)
    case TarXz => HasExtension(a, TAR_XZ)
    case TarZst => HasExtension(a, TAR_ZST)
    case Tar => HasExtension(a, TAR)
    case Gz => HasExtension(a, GZ) && !HasExtension(a, TAR_GZ)
    case Bz2 => HasExtension(a, BZ2) && !HasExtension(a, TAR_BZ2)
    case Xz => HasExtension(a, XZ) && !HasExtension(a, TAR_XZ)
    case Zst => HasExtension(a, ZST)
  }

  /**
   * The check at the head of each `try_extract_*`: Success when the
   * decoder is to be run. The 7z check reads the magic bytes only when
   * the name does not end in ".7z", and an error reading them is passed on.
   */
  function Guard(m: Method, a: Archive): (r: Result<(), Error>)
    ensures m != SevenZ ==> (r.Success? <==> Admits(m, a))
    ensures m != SevenZ && r.Failure? ==> r.error == Msg(Refusal(m))
  {
    match m
    case SevenZ =>
      if EndsWith(Lower(FileName(a)), ".7z") then Success(())
      else
        (match IsSevenZipFile(a)
         case Failure(e) => Failure(e)
         case Success(isSevenZ) => if isSevenZ then Success(()) else Failure(Msg(Refusal(SevenZ))))
    case Zip => Success(())
    case _ => if Admits(m, a) then Success(()) else Failure(Msg(Refusal(m)))
  }

  /** 7z decoding is attempted only for a ".7z" name (in any case) or a file with the magic bytes. */
  lemma SevenZipGuard(a: Archive)
    ensures Guard(SevenZ, a).Success? <==>
      EndsWith(Lower(FileName(a)), ".7z") || IsSevenZipFile(a) == Success(true)
    ensures !EndsWith(Lower(FileName(a)), ".7z") && a.head.Failure? ==>
      Guard(SevenZ, a).Failure? && Guard(SevenZ, a).error.top == "Failed to open file for magic byte check"
  {
  }

  /**
   * The standalone gz, bz2 and xz decoders never run on a tar compound
   * of the same compression, so a compound is never decompressed as a
   * single file.
   */
  lemma StandaloneExcludesCompound(a: Archive)
    ensures Guard(TarGz, a).Success? ==> Guard(Gz, a).Failure?
    ensures Guard(TarBz2, a).Success? ==> Guard(Bz2, a).Failure?
    ensures Guard(TarXz, a).Success? ==> Guard(Xz, a).Failure?
  {
  }

  /** "<base>.tar.gz" is unpacked as a gzipped tar and refused by the standalone gz decoder. */
  lemma TarGzScenario(a: Archive, base: string)
    requires a.name == Some(base + ".tar.gz")
    ensures Guard(TarGz, a).Success? && Guard(Gz, a) == Failure(Msg("Not a standalone gz file"))
  {
    NamedWith(a, base, ".tar.gz", TAR_GZ);
  }

  /** The guards of every method, for one archive. */
  function GuardsOf(a: Archive): Method -> Result<(), Error> {
    m => Guard(m, a)
  }

  /**
   * One method: its guard's refusal, or what the decoding library
   * `unpack` reports for it.
   */
  function Try(m: Method, guard: Method -> Result<(), Error>, unpack: Method -> Result<(), Error>): (r: Result<(), Error>)
    ensures guard(m).Failure? ==> r == guard(m)
    ensures r.Success? ==> guard(m).Success?
  {
    if guard(m).Failure? then guard(m) else unpack(m)
  }

  /** The methods, in order, whose guard lets their decoder run. */
  function Guarded(ms: seq<Method>, guard: Method -> Result<(), Error>): (r: seq<Method>)
    ensures |r| <= |ms|
    ensures forall m :: m in r ==> m in ms && guard(m).Success?
    decreases |ms|
  {
    if ms == [] then []
    else (if guard(ms[0]).Success? then [ms[0]] else []) + Guarded(ms[1..], guard)
  }

  /** What an extraction returns, and which decoders it ran. */
  datatype Extraction = Extraction(result: Result<(), Error>, ran: seq<Method>)

  /** `ran` followed by the rest of an extraction. */
  function After(ran: seq<Method>, e: Extraction): Extraction {
    Extraction(e.result, ran + e.ran)
  }

  /**
   * The fallback chain: the methods in turn until one succeeds; when none
   * does, the error of the last one tried (or `last`, for an empty list).
   */
  function TryInOrder(ms: seq<Method>, guard: Method -> Result<(), Error>, unpack: Method -> Result<(), Error>,
                      last: Option<Error>): Extraction
    decreases |ms|
  {
    if ms == [] then Extraction(Failure(last.GetOr(Msg("No extraction method succeeded"))), [])
    else
      var ran := if guard(ms[0]).Success? then [ms[0]] else [];
      var r := Try(ms[0], guard, unpack);
      if r.Success? then Extraction(r, ran)
      else After(ran, TryInOrder(ms[1..], guard, unpack, Some(r.error)))
  }

  /** The chain succeeds iff some method does. */
  lemma {:induction false} ChainSucceeds(ms: seq<Method>, guard: Method -> Result<(), Error>,
                                         unpack: Method -> Result<(), Error>, last: Option<Error>)
    ensures TryInOrder(ms, guard, unpack, last).result.Success? <==>
      exists k :: 0 <= k < |ms| && Try(ms[k], guard, unpack).Success?
    decreases |ms|
  {
    if ms != [] && Try(ms[0], guard, unpack).Failure? {
      var rest := ms[1..];
      ChainSucceeds(rest, guard, unpack, Some(Try(ms[0], guard, unpack).error));
      assert forall k :: 1 <= k < |ms| ==> rest[k - 1] == ms[k];
    }
  }

  /** When every method fails, the chain reports the last one's error after running every admitted decoder. */
  lemma {:induction false} ChainFails(ms: seq<Method>, guard: Method -> Result<(), Error>,
                                      unpack: Method -> Result<(), Error>, last: Option<Error>)
    requires TryInOrder(ms, guard, unpack, last).result.Failure?
    ensures ms != [] ==> TryInOrder(ms, guard, unpack, last).result == Try(ms[|ms| - 1], guard, unpack)
    ensures ms == [] ==> TryInOrder(ms, guard, unpack, last).result == Failure(last.GetOr(Msg("No extraction method succeeded")))
    ensures TryInOrder(ms, guard, unpack, last).ran == Guarded(ms, guard)
    decreases |ms|
  {
    if ms != [] {
      ChainFails(ms[1..], guard, unpack, Some(Try(ms[0], guard, unpack).error));
    }
  }

  /** The chain stops at the first method that succeeds, having run exactly the decoders admitted up to it. */
  lemma {:induction false} ChainStops(ms: seq<Method>, guard: Method -> Result<(), Error>,
                                      unpack: Method -> Result<(), Error>, last: Option<Error>, k: nat)
    requires k < |ms| && Try(ms[k], guard, unpack).Success?
    requires forall j :: 0 <= j < k ==> Try(ms[j], guard, unpack).Failure?
    ensures TryInOrder(ms, guard, unpack, last).result.Success?
    ensures TryInOrder(ms, guard, unpack, last).ran == Guarded(ms[..k + 1], guard)
    decreases |ms|
  {
    var prefix := ms[..k + 1];
    assert prefix[0] == ms[0];
    if k == 0 {
      assert prefix[1..] == [];
      assert Guarded(prefix, guard) == (if guard(ms[0]).Success? then [ms[0]] else []) + Guarded([], guard);
    } else {
      var rest := ms[1..];
      assert forall j :: 0 <= j < k - 1 ==> rest[j] == ms[j + 1];
      ChainStops(rest, guard, unpack, Some(Try(ms[0], guard, unpack).error), k - 1);
      assert prefix[1..] == rest[..k];
    }
  }

  /**
   * `extract_archive`: a missing archive is an error before anything is
   * tried; a destination that cannot be created is an error too; then
   * the methods run in `ORDER`.
   */
  function Extract(a: Archive, mkdir: Result<(), Error>, unpack: Method -> Result<(), Error>): Extraction {
    if !a.present then Extraction(Failure(Msg("Archive file does not exist")), [])
    else if mkdir.Failure? then Extraction(Failure(Context(mkdir.error, "Failed to create destination directory")), [])
    else TryInOrder(ORDER, GuardsOf(a), unpack, None)
  }

  /** The fallback chain over `ms`, keeping the last error as `extract_archive` does. */
  method TryEach(ms: seq<Method>, guard: Method -> Result<(), Error>, unpack: Method -> Result<(), Error>)
    returns (r: Result<(), Error>, ran: seq<Method>)
    ensures Extraction(r, ran) == TryInOrder(ms, guard, unpack, None)
  {
    var lastError: Option<Error> := None;
    ran := [];
    var i := 0;
    while i < |ms|
      invariant 0 <= i <= |ms|
      invariant TryInOrder(ms, guard, unpack, None) == After(ran, TryInOrder(ms[i..], guard, unpack, lastError))
    {
      var m := ms[i];
      var admitted := guard(m);
      var outcome := if admitted.Failure? then admitted else unpack(m);
      if admitted.Success? {
        ran := ran + [m];
      }
      if outcome.Success? {
        return outcome, ran;
      }
      lastError := Some(outcome.error);
      assert ms[i..][1..] == ms[i + 1..];
      i := i + 1;
    }
    r := Failure(lastError.GetOr(Msg("No extraction method succeeded")));
  }

  /** `extract_archive`: the checks, then the fallback chain in `ORDER`. */
  method ExtractArchive(a: Archive, mkdir: Result<(), Error>, unpack: Method -> Result<(), Error>)
    returns (r: Result<(), Error>, ran: seq<Method>)
    ensures Extraction(r, ran) == Extract(a, mkdir, unpack)
  {
    if !a.present {
      return Failure(Msg("Archive file does not exist")), [];
    }
    if mkdir.Failure? {
      return Failure(Context(mkdir.error, "Failed to create destination directory")), [];
    }
    r, ran := TryEach(ORDER, GuardsOf(a), unpack);
  }

  /**
   * The outcome of `extract_archive` on an existing archive: success iff
   * one method succeeds; on failure the error of the last method, zst,
   * after every admitted decoder has run.
   */
  lemma ExtractOutcome(a: Archive, mkdir: Result<(), Error>, unpack: Method -> Result<(), Error>)
    ensures !a.present ==> Extract(a, mkdir, unpack) == Extraction(Failure(Msg("Archive file does not exist")), [])
    ensures a.present && mkdir.Success? ==>
      var e := Extract(a, mkdir, unpack);
      && (e.result.Success? <==> exists k :: 0 <= k < |ORDER| && Try(ORDER[k], GuardsOf(a), unpack).Success?)
      && (e.result.Failure? ==> e.result == Try(Zst, GuardsOf(a), unpack) && e.ran == Guarded(ORDER, GuardsOf(a)))
  {
    var e := Extract(a, mkdir, unpack);
    if a.present && mkdir.Success? {
      ChainSucceeds(ORDER, GuardsOf(a), unpack, None);
      if e.result.Failure? {
        ChainFails(ORDER, GuardsOf(a), unpack, None);
      }
    }
  }

  // ---------------------------------------------------------------------
  // Output of the standalone decompressors

  /** The position of the last `c` in `s`. */
  function LastIndexOf(s: string, c: char): (r: Option<nat>)
    ensures r.Some? ==> r.value < |s| && s[r.value] == c && c !in s[r.value + 1..]
    ensures r.None? ==> c !in s
    decreases |s|
  {
    if s == [] then None
    else if s[|s| - 1] == c then Some(|s| - 1)
    else
      var r := LastIndexOf(s[..|s| - 1], c);
      assert s == s[..|s| - 1] + [s[|s| - 1]];
      r
  }

  /**
   * `Path::file_stem` of a file name: the text before the last '.', or the
   * whole name when it has no '.', only a leading one, or is "..".
   */
  function Stem(name: string): string {
    if name == ".." then name
    else
      match LastIndexOf(name, '.')
      case None => name
      case Some(i) => if i == 0 then name else name[..i]
  }

  /** The file a standalone gz, bz2, xz or zst decoder writes in the destination. */
  function OutputName(a: Archive): string {
    match a.name
    case None => "extracted_file"
    case Some(n) => Stem(n)
  }

  /** "<base>.<ext>" decompresses to "<base>": for "x.tar.zst" the standalone zst decoder writes "x.tar". */
  lemma OutputDropsExtension(a: Archive, base: string, ext: string)
    requires base != [] && ext != [] && '.' !in ext
    requires a.name == Some(base + "." + ext)
    ensures OutputName(a) == base
  {
    var name := base + "." + ext;
    assert name[|base|] == '.' && name[|base| + 1..] == ext;
    assert |name| >= 3;
    assert name[..|base|] == base;
  }
}
