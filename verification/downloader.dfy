/**
 * The resumable download engine (downloader.rs): the outer retry loop, one
 * download attempt with its Range-resume negotiation, size derivation and
 * byte accounting, and the cache helpers.
 *
 * The server is abstract: for each attempt, the answers to the Range probe
 * and the reply to a GET with or without a `Range: bytes=<start>-` header.
 */
module Downloader {

  import opened Wrappers
  import opened Text
  import opened Errors
  import opened Fs
  import Http
  import RM = RetryManager

  // ---------------------------------------------------------------------
  // Server, progress and disk values

  /** One read of the body stream: a chunk, a read error, or nothing within 30 s. */
  datatype Read = Data(bytes: seq<byte>) | ReadFailed(error: Error) | Stalled

  /**
   * A reply: status, Content-Length (None when absent), the raw
   * Content-Range header (None when absent), and the body as it streams in.
   */
  datatype Response = Response(
    status: nat,
    contentLength: Option<nat>,
    contentRange: Option<string>,
    body: seq<Read>)

  /**
   * What `test_range_support` would see: the HEAD request (its
   * Accept-Ranges header, None when absent) and the status of the
   * `Range: bytes=0-0` test GET.
   */
  datatype ProbeReplies = ProbeReplies(head: Result<Option<string>, Error>, rangeTest: Result<nat, Error>)

  /**
   * The server as one attempt sees it: the probe replies, and the reply to
   * a GET sent with `Range: bytes=<n>-` (`Some(n)`) or without Range (`None`).
   */
  datatype Server = Server(probe: ProbeReplies, reply: Option<nat> -> Result<Response, Error>)

  /**
   * Everything outside the program one attempt depends on: the free bytes
   * `statvfs` reports (None when the call fails), the server, and the
   * 100 ms clock, `tick(k)` telling whether a progress sample is due once
   * chunk number `k` is written.
   */
  datatype Env = Env(available: Option<nat>, server: Server, tick: nat -> bool)

  /** The destination file: whether it exists and its bytes. */
  datatype Disk = Disk(present: bool, content: seq<byte>)

  /** `percentage`: 0, the fraction downloaded/total, or 100. */
  datatype Share = Zero | Ratio(part: nat, whole: nat) | Full

  /** `ProgressInfo` without the floating-point speed. */
  datatype ProgressInfo = ProgressInfo(
    share: Share,
    downloaded: nat,
    total: nat,
    retryCount: nat,
    isRetrying: bool,
    retryReason: Option<string>)

  // ---------------------------------------------------------------------
  // Disk space

  const MIB: nat := 1024 * 1024
  /** `check_disk_space` wants at least 100 MiB free. */
  const MIN_FREE_BYTES: nat := 100 * MIB

  /** `check_disk_space` on Unix; when `statvfs` fails the check passes. */
  function CheckDiskSpace(available: Option<nat>): (r: Result<(), Error>)
    ensures r.Failure? <==> available.Some? && available.value < MIN_FREE_BYTES
  {
    match available
    case None => Success(())
    case Some(a) =>
      if a < MIN_FREE_BYTES then
        Failure(Msg("Not enough disk space. Available: " + Decimal(a / MIB) + " MB, Required: "
                    + Decimal(MIN_FREE_BYTES / MIB) + " MB"))
      else Success(())
  }

  // ---------------------------------------------------------------------
  // Range support and the resume plan

  /**
   * `test_range_support`: a readable Accept-Ranges header decides by
   * containing "bytes" (ignoring case); without one, a `bytes=0-0` GET
   * decides by answering 206.
   */
  function TestRangeSupport(p: ProbeReplies): (r: Result<bool, Error>)
    ensures p.head.Success? && p.head.value.Some? && Http.IsVisibleText(p.head.value.value) ==>
      r == Success(Contains(Lower(p.head.value.value), "bytes"))
    ensures (p.head.Success? && p.rangeTest.Success?
             && (p.head.value.None? || !Http.IsVisibleText(p.head.value.value))) ==>
      r == Success(p.rangeTest.value == Http.PARTIAL_CONTENT)
    ensures p.head.Failure? ==> r.Failure? && r.error.top == "Failed to send HEAD request for Range support test"
  {
    match p.head
    case Failure(e) => Failure(Context(e, "Failed to send HEAD request for Range support test"))
    case Success(acceptRanges) =>
      if acceptRanges.Some? && Http.IsVisibleText(acceptRanges.value) then
        Success(Contains(Lower(acceptRanges.value), "bytes"))
      else
        match p.rangeTest
        case Failure(e) => Failure(Context(e, "Failed to send test Range request"))
        case Success(status) => Success(status == Http.PARTIAL_CONTENT)
  }

  /** Where an attempt starts: the offset, whether ranges are assumed, and the file. */
  datatype Plan = Plan(start: nat, supportsRange: bool, disk: Disk)

  /** The offset an attempt resumes from before probing: the file's length when resuming. */
  function StartByte(resume: bool, disk: Disk): nat {
    if resume && disk.present then |disk.content| else 0
  }

  /**
   * The resume decision of `download_file_internal`: a non-empty file
   * being resumed is probed; a "no" restarts from 0 without the file, a
   * probe error keeps resuming.
   */
  function Prepare(resume: bool, disk: Disk, probe: Result<bool, Error>): Plan {
    var start := StartByte(resume, disk);
    if start > 0 && probe == Success(false) then Plan(0, false, Disk(false, []))
    else Plan(start, true, disk)
  }

  /** The three probe outcomes (section 14.3 of RFC 9110 for Accept-Ranges). */
  lemma ProbeOutcomes(resume: bool, disk: Disk, probe: Result<bool, Error>)
    ensures var p := Prepare(resume, disk, probe);
      && (StartByte(resume, disk) > 0 && probe == Success(false) ==>
            p.start == 0 && !p.supportsRange && !p.disk.present)
      && (probe.Failure? || probe == Success(true) ==>
            p.start == StartByte(resume, disk) && p.supportsRange && p.disk == disk)
      && (p.start > 0 ==> resume && disk.present && p.start == |disk.content| && p.disk == disk)
  {
  }

  // ---------------------------------------------------------------------
  // The request loop

  /**
   * The request loop's outcome: the reply it settled on (or the error), the
   * offset and file it leaves, and the Range starts of the requests it sent
   * (None for a request without Range).
   */
  datatype Negotiation = Negotiation(
    reply: Result<Response, Error>,
    start: nat,
    disk: Disk,
    requests: seq<Option<nat>>)

  /** The Range start a request carries: only when resuming a range-capable download. */
  function RangeOf(start: nat, supportsRange: bool): Option<nat> {
    if start > 0 && supportsRange then Some(start) else None
  }

  /** The error for a reply whose status is neither 2xx nor 206. */
  function BadStatus(status: nat): Error {
    Msg("Download failed with status: " + Http.StatusText(status))
  }

  /**
   * The request loop from the current offset on, `sent` being the Range
   * starts of the requests already sent. A 200 or 416 to a ranged request
   * deletes the file and asks again without Range; any other status that is
   * not 2xx is an error.
   */
  function Request(
    reply: Option<nat> -> Result<Response, Error>,
    start: nat, supportsRange: bool, disk: Disk, sent: seq<Option<nat>>): Negotiation
    decreases if supportsRange then 1 else 0
  {
    var range := RangeOf(start, supportsRange);
    match reply(range)
    case Failure(e) => Negotiation(Failure(Context(e, "Failed to start download")), start, disk, sent + [range])
    case Success(resp) =>
      if range.Some? && (resp.status == Http.OK || resp.status == Http.RANGE_NOT_SATISFIABLE) then
        Request(reply, 0, false, Disk(false, []), sent + [range])
      else if !Http.IsSuccess(resp.status) && resp.status != Http.PARTIAL_CONTENT then
        Negotiation(Failure(BadStatus(resp.status)),
                    start, disk, sent + [range])
      else Negotiation(Success(resp), start, disk, sent + [range])
  }

  /**
   * The request loop runs once or twice. Only the first request can carry
   * Range, and only when resuming a range-capable download from a positive
   * offset. A second request follows exactly when that ranged request got
   * 200 or 416 (sections 15.3.1 and 15.5.17 of RFC 9110); it is sent
   * without Range, from offset 0, after the file is deleted. The reply kept
   * is the last one, and it is 2xx.
   */
  lemma RequestSpec(reply: Option<nat> -> Result<Response, Error>, start: nat, supportsRange: bool, disk: Disk)
    ensures var n := Request(reply, start, supportsRange, disk, []);
      && 1 <= |n.requests| <= 2
      && n.requests[0] == RangeOf(start, supportsRange)
      && (n.requests[0].Some? ==> start > 0 && supportsRange)
      && (|n.requests| == 2 <==>
            start > 0 && supportsRange && reply(Some(start)).Success?
            && reply(Some(start)).value.status in {Http.OK, Http.RANGE_NOT_SATISFIABLE})
      && (|n.requests| == 2 ==> n.requests[1] == None && n.start == 0 && n.disk == Disk(false, []))
      && (|n.requests| == 1 ==> n.start == start && n.disk == disk)
      && (n.reply.Success? ==>
            reply(n.requests[|n.requests| - 1]) == n.reply && Http.IsSuccess(n.reply.value.status))
      && (n.reply.Failure? ==>
            reply(n.requests[|n.requests| - 1]).Failure?
            || !Http.IsSuccess(reply(n.requests[|n.requests| - 1]).value.status))
  {
  }

  // ---------------------------------------------------------------------
  // Total size

  /** `str::parse::<u64>`: an optional '+', then one or more digits, below 2^64. */
  function ParseU64(s: string): Option<nat> {
    var digits := if |s| > 0 && s[0] == '+' then s[1..] else s;
    if |digits| == 0 || !(forall i :: 0 <= i < |digits| ==> IsDigit(digits[i])) then None
    else
      var v := DigitsValue(digits);
      if v < 0x1_0000_0000_0000_0000 then Some(v) else None
  }

  /** Parsing the decimal text of a 64-bit number gives it back. */
  lemma ParseDecimal(n: nat)
    requires n < 0x1_0000_0000_0000_0000
    ensures ParseU64(Decimal(n)) == Some(n)
  {
    DecimalValue(n);
  }

  /** `split('/').nth(1)`: the text between the first and second '/', if there is a first. */
  function SecondField(s: string): Option<string> {
    match AfterChar(s, '/')
    case None => None
    case Some(rest) => Some(UntilChar(rest, '/'))
  }

  /**
   * `total_size`: Content-Length plus the offset when the length is known;
   * otherwise the complete length after '/' in Content-Range, or 0 when that
   * header is missing, unreadable or unparsable.
   */
  function TotalSize(resp: Response, start: nat): nat {
    match resp.contentLength
    case Some(n) => n + start
    case None =>
      match resp.contentRange
      case None => 0
      case Some(v) =>
        if !Http.IsVisibleText(v) then 0
        else match SecondField(v)
          case None => 0
          case Some(t) => ParseU64(t).GetOr(0)
  }

  /**
   * Without Content-Length, a readable Content-Range of the form
   * "<unit> <range>/<complete-length>" (section 14.4 of RFC 9110) gives
   * the complete length as the total size.
   */
  lemma ContentRangeTotal(resp: Response, start: nat, prefix: string, total: nat)
    requires resp.contentLength.None?
    requires resp.contentRange == Some(prefix + "/" + Decimal(total))
    requires '/' !in prefix && Http.IsVisibleText(prefix)
    requires total < 0x1_0000_0000_0000_0000
    ensures TotalSize(resp, start) == total
  {
    var v := prefix + "/" + Decimal(total);
    assert v == prefix + ['/'] + Decimal(total);
    assert Http.IsVisibleText(v) by {
      forall i | 0 <= i < |v|
        ensures v[i] == '\t' || ' ' <= v[i] <= '~'
      {
        if i > |prefix| {
          assert v[i] == Decimal(total)[i - |prefix| - 1];
        }
      }
    }
    AfterCharFirst(prefix, '/', Decimal(total));
    assert forall i :: 0 <= i < |Decimal(total)| ==> Decimal(total)[i] != '/';
    UntilAbsentChar(Decimal(total), '/');
    ParseDecimal(total);
  }

  /** Content-Length wins; without both headers the size is unknown (0). */
  lemma TotalSizeCases(resp: Response, start: nat)
    ensures resp.contentLength.Some? ==> TotalSize(resp, start) == resp.contentLength.value + start
    ensures resp.contentLength.None? && resp.contentRange.None? ==> TotalSize(resp, start) == 0
    ensures resp.contentLength.None? && resp.contentRange.Some? && '/' !in resp.contentRange.value ==>
      TotalSize(resp, start) == 0
  {
    if resp.contentLength.None? && resp.contentRange.Some? && '/' !in resp.contentRange.value {
      var v := resp.contentRange.value;
      assert AfterChar(v, '/') == None;
    }
  }

  // ---------------------------------------------------------------------
  // Streaming the body

  /** The state the chunk loop leaves: its outcome, the file's bytes, the counter and the samples. */
  datatype Streamed = Streamed(result: Result<(), Error>, content: seq<byte>, downloaded: nat, samples: seq<ProgressInfo>)

  /** A progress sample taken while streaming. */
  function Sample(downloaded: nat, total: nat, retryCount: nat): ProgressInfo {
    ProgressInfo(if total > 0 then Ratio(downloaded, total) else Zero, downloaded, total, retryCount, false, None)
  }

  /**
   * The chunk loop from read number `k` on: every chunk is appended to the
   * file and counted; a due clock tick adds a sample; a read error or a
   * stall ends the attempt with an error.
   */
  function Stream(
    body: seq<Read>, k: nat, tick: nat -> bool, total: nat, retryCount: nat,
    content: seq<byte>, downloaded: nat, samples: seq<ProgressInfo>): Streamed
    requires k <= |body|
    decreases |body| - k
  {
    if k == |body| then Streamed(Success(()), content, downloaded, samples)
    else match body[k]
      case Stalled => Streamed(Failure(Msg("Chunk read timed out")), content, downloaded, samples)
      case ReadFailed(e) => Streamed(Failure(Context(e, "Failed to read download chunk")), content, downloaded, samples)
      case Data(b) =>
        var d := downloaded + |b|;
        Stream(body, k + 1, tick, total, retryCount, content + b, d,
               if tick(k) then samples + [Sample(d, total, retryCount)] else samples)
  }

  /** The bytes the reads deliver before the first failing read. */
  function Delivered(rs: seq<Read>): seq<byte>
    decreases |rs|
  {
    if rs == [] || !rs[0].Data? then [] else rs[0].bytes + Delivered(rs[1..])
  }

  /** Every read delivers a chunk. */
  predicate AllData(rs: seq<Read>) {
    forall k :: 0 <= k < |rs| ==> rs[k].Data?
  }

  lemma AllDataTail(rs: seq<Read>)
    requires rs != []
    ensures AllData(rs) <==> rs[0].Data? && AllData(rs[1..])
  {
    if rs[0].Data? && AllData(rs[1..]) {
      forall k | 0 <= k < |rs|
        ensures rs[k].Data?
      {
        if k > 0 {
          assert rs[k] == rs[1..][k - 1];
        }
      }
    }
  }

  /**
   * Byte accounting: the loop appends exactly the delivered bytes and
   * counts exactly their number; it succeeds iff no read fails; it only
   * adds samples, each an in-progress sample of this attempt counting
   * between the start and the end figure.
   */
  lemma {:induction false} StreamSpec(
    body: seq<Read>, k: nat, tick: nat -> bool, total: nat, retryCount: nat,
    content: seq<byte>, downloaded: nat, samples: seq<ProgressInfo>)
    requires k <= |body|
    ensures var s := Stream(body, k, tick, total, retryCount, content, downloaded, samples);
      && s.content == content + Delivered(body[k..])
      && s.downloaded == downloaded + |Delivered(body[k..])|
      && (s.result.Success? <==> AllData(body[k..]))
      && |samples| <= |s.samples| && s.samples[..|samples|] == samples
      && (forall i :: |samples| <= i < |s.samples| ==>
            !s.samples[i].isRetrying && s.samples[i].retryCount == retryCount
            && s.samples[i].total == total
            && downloaded <= s.samples[i].downloaded <= s.downloaded)
    decreases |body| - k
  {
    if k < |body| {
      assert body[k..][0] == body[k];
      assert body[k..][1..] == body[k + 1..];
      if body[k].Data? {
        var b := body[k].bytes;
        var d := downloaded + |b|;
        var samples' := if tick(k) then samples + [Sample(d, total, retryCount)] else samples;
        StreamSpec(body, k + 1, tick, total, retryCount, content + b, d, samples');
        var s := Stream(body, k, tick, total, retryCount, content, downloaded, samples);
        assert s.samples[..|samples'|] == samples';
        assert s.samples[..|samples|] == samples' [..|samples|];
        AllDataTail(body[k..]);
      } else {
        AllDataTail(body[k..]);
      }
    }
  }

  // ---------------------------------------------------------------------
  // One attempt

  /** What an attempt leaves: its outcome, the destination file and the progress samples. */
  datatype Outcome = Outcome(result: Result<(), Error>, disk: Disk, samples: seq<ProgressInfo>)

  /** The error of an attempt whose stream ended before the announced size. */
  function PrematureEnd(received: nat, total: nat): Error {
    Msg("Download ended prematurely: received " + Decimal(received) + " of " + Decimal(total) + " bytes")
  }

  /** The error of an attempt refused by the disk-space check. */
  function NoSpace(e: Error): Error {
    Msg("Insufficient disk space: " + e.top)
  }

  /** The end of a stream: the premature-end check and the final 100% sample. */
  function Finish(s: Streamed, total: nat, retryCount: nat): Outcome {
    var disk := Disk(true, s.content);
    if s.result.Failure? then Outcome(s.result, disk, s.samples)
    else if total > 0 && s.downloaded < total then
      Outcome(Failure(PrematureEnd(s.downloaded, total)), disk, s.samples)
    else
      Outcome(Success(()), disk,
              s.samples + [ProgressInfo(Full, s.downloaded, total, retryCount, false, None)])
  }

  /**
   * `download_file_internal` (attempt number `retryCount`): disk-space
   * check, resume plan, request loop, total size, then the body appended
   * to the file (when resuming from a positive offset) or written afresh.
   */
  function Attempt(env: Env, resume: bool, disk: Disk, retryCount: nat): Outcome {
    match CheckDiskSpace(env.available)
    case Failure(e) => Outcome(Failure(NoSpace(e)), disk, [])
    case Success(_) =>
      var plan := Prepare(resume, disk, TestRangeSupport(env.server.probe));
      var n := Request(env.server.reply, plan.start, plan.supportsRange, plan.disk, []);
      match n.reply
      case Failure(e) => Outcome(Failure(e), n.disk, [])
      case Success(resp) =>
        var total := TotalSize(resp, n.start);
        var kept := if n.start > 0 then n.disk.content else [];
        Finish(Stream(resp.body, 0, env.tick, total, retryCount, kept, n.start, []), total, retryCount)
  }

  /** Every sample of an attempt belongs to it and is not a retry notice. */
  lemma AttemptSamples(env: Env, resume: bool, disk: Disk, retryCount: nat)
    ensures var o := Attempt(env, resume, disk, retryCount);
      forall s :: s in o.samples ==> !s.isRetrying && s.retryCount == retryCount
  {
    if CheckDiskSpace(env.available).Success? {
      var plan := Prepare(resume, disk, TestRangeSupport(env.server.probe));
      var n := Request(env.server.reply, plan.start, plan.supportsRange, plan.disk, []);
      if n.reply.Success? {
        var resp := n.reply.value;
        var total := TotalSize(resp, n.start);
        var kept := if n.start > 0 then n.disk.content else [];
        var st := Stream(resp.body, 0, env.tick, total, retryCount, kept, n.start, []);
        StreamSamples(resp.body, 0, env.tick, total, retryCount, kept, n.start, []);
        assert Attempt(env, resume, disk, retryCount) == Finish(st, total, retryCount);
      }
    }
  }

  /** The samples the chunk loop adds are in-progress samples of this attempt. */
  lemma {:induction false} StreamSamples(
    body: seq<Read>, k: nat, tick: nat -> bool, total: nat, retryCount: nat,
    content: seq<byte>, downloaded: nat, samples: seq<ProgressInfo>)
    requires k <= |body|
    requires forall s :: s in samples ==> !s.isRetrying && s.retryCount == retryCount
    ensures forall s :: s in Stream(body, k, tick, total, retryCount, content, downloaded, samples).samples ==>
      !s.isRetrying && s.retryCount == retryCount
    decreases |body| - k
  {
    if k < |body| && body[k].Data? {
      var b := body[k].bytes;
      var d := downloaded + |b|;
      var samples' := if tick(k) then samples + [Sample(d, total, retryCount)] else samples;
      StreamSamples(body, k + 1, tick, total, retryCount, content + b, d, samples');
    }
  }

  /**
   * Once a 2xx reply is streamed to its end, the file holds the kept bytes
   * (those before the offset when it is positive) followed by the delivered
   * bytes; the attempt fails exactly when the server announced a size and
   * fewer bytes arrived; success ends with a 100% sample.
   */
  lemma AttemptAccounting(env: Env, resume: bool, disk: Disk, retryCount: nat)
    ensures var o := Attempt(env, resume, disk, retryCount);
      CheckDiskSpace(env.available).Success? ==>
      var plan := Prepare(resume, disk, TestRangeSupport(env.server.probe));
      var n := Request(env.server.reply, plan.start, plan.supportsRange, plan.disk, []);
      n.reply.Success? && AllData(n.reply.value.body) ==>
        var total := TotalSize(n.reply.value, n.start);
        var got := Delivered(n.reply.value.body);
        && o.disk == Disk(true, (if n.start > 0 then n.disk.content else []) + got)
        && (o.result.Failure? <==> total > 0 && n.start + |got| < total)
        && (o.result.Success? ==>
              o.samples[|o.samples| - 1] == ProgressInfo(Full, n.start + |got|, total, retryCount, false, None))
  {
    var o := Attempt(env, resume, disk, retryCount);
    if CheckDiskSpace(env.available).Success? {
      var plan := Prepare(resume, disk, TestRangeSupport(env.server.probe));
      var n := Request(env.server.reply, plan.start, plan.supportsRange, plan.disk, []);
      if n.reply.Success? {
        var resp := n.reply.value;
        var total := TotalSize(resp, n.start);
        var kept := if n.start > 0 then n.disk.content else [];
        StreamSpec(resp.body, 0, env.tick, total, retryCount, kept, n.start, []);
        assert resp.body[0..] == resp.body;
      }
    }
  }

  /**
   * The request loop of `download_file_internal`, deleting the file when a
   * ranged request must be reissued from scratch.
   */
  method SendRequests(file: File, reply: Option<nat> -> Result<Response, Error>, start0: nat, supportsRange0: bool)
    returns (n: Negotiation)
    modifies file
    ensures n == Request(reply, start0, supportsRange0, old(Disk(file.present, file.content)), [])
    ensures Disk(file.present, file.content) == n.disk
  {
    var start, supportsRange := start0, supportsRange0;
    var sent: seq<Option<nat>> := [];
    while true
      invariant Request(reply, start, supportsRange, Disk(file.present, file.content), sent)
        == Request(reply, start0, supportsRange0, old(Disk(file.present, file.content)), [])
      decreases if supportsRange then 1 else 0
    {
      var range := RangeOf(start, supportsRange);
      var r := reply(range);
      sent := sent + [range];
      if r.Failure? {
        return Negotiation(Failure(Context(r.error, "Failed to start download")), start,
                           Disk(file.present, file.content), sent);
      }
      var resp := r.value;
      if range.Some? && (resp.status == Http.OK || resp.status == Http.RANGE_NOT_SATISFIABLE) {
        file.Remove();
        start := 0;
        supportsRange := false;
        continue;
      }
      if !Http.IsSuccess(resp.status) && resp.status != Http.PARTIAL_CONTENT {
        return Negotiation(Failure(BadStatus(resp.status)),
                           start, Disk(file.present, file.content), sent);
      }
      return Negotiation(Success(resp), start, Disk(file.present, file.content), sent);
    }
  }

  /**
   * The chunk loop of `download_file_internal`: appends each chunk to the
   * (open) file and counts it, sampling progress when the clock says so.
   */
  method StreamBody(file: File, body: seq<Read>, tick: nat -> bool, total: nat, retryCount: nat, start: nat)
    returns (s: Streamed)
    requires file.present
    modifies file
    ensures s == Stream(body, 0, tick, total, retryCount, old(file.content), start, [])
    ensures file.present && file.content == s.content
  {
    var downloaded := start;
    var samples: seq<ProgressInfo> := [];
    var k := 0;
    while k < |body|
      invariant 0 <= k <= |body| && file.present
      invariant Stream(body, k, tick, total, retryCount, file.content, downloaded, samples)
        == Stream(body, 0, tick, total, retryCount, old(file.content), start, [])
      decreases |body| - k
    {
      match body[k]
      case Stalled =>
        return Streamed(Failure(Msg("Chunk read timed out")), file.content, downloaded, samples);
      case ReadFailed(e) =>
        return Streamed(Failure(Context(e, "Failed to read download chunk")), file.content, downloaded, samples);
      case Data(b) =>
        file.content := file.content + b;
        downloaded := downloaded + |b|;
        if tick(k) {
          samples := samples + [Sample(downloaded, total, retryCount)];
        }
        k := k + 1;
    }
    return Streamed(Success(()), file.content, downloaded, samples);
  }

  /**
   * The resume decision of `download_file_internal` on the destination
   * file: a non-empty file being resumed is probed, and a server without
   * range support makes the attempt start afresh without the file.
   */
  method PlanResume(file: File, resume: bool, probe: Result<bool, Error>) returns (start: nat, supportsRange: bool)
    modifies file
    ensures Plan(start, supportsRange, Disk(file.present, file.content))
      == Prepare(resume, old(Disk(file.present, file.content)), probe)
  {
    start := 0;
    supportsRange := true;
    if resume && file.present {
      start := |file.content|;
      if start > 0 && probe == Success(false) {
        supportsRange := false;
        start := 0;
        file.Remove();
      }
    }
  }

  /**
   * The body of a 2xx reply written to the file: appended from a positive
   * offset, written afresh otherwise, then the premature-end check.
   */
  method WriteBody(file: File, resp: Response, start: nat, tick: nat -> bool, retryCount: nat)
    returns (r: Result<(), Error>, samples: seq<ProgressInfo>)
    requires start > 0 ==> file.present
    modifies file
    ensures var total := TotalSize(resp, start);
      Outcome(r, Disk(file.present, file.content), samples)
        == Finish(Stream(resp.body, 0, tick, total, retryCount, if start > 0 then old(file.content) else [], start, []),
                  total, retryCount)
  {
    var total := TotalSize(resp, start);
    if start == 0 {
      file.present, file.content := true, [];
    }
    var s := StreamBody(file, resp.body, tick, total, retryCount, start);
    samples := s.samples;
    if s.result.Failure? {
      r := s.result;
      return;
    }
    if total > 0 && s.downloaded < total {
      r := Failure(PrematureEnd(s.downloaded, total));
      return;
    }
    samples := s.samples + [ProgressInfo(Full, s.downloaded, total, retryCount, false, None)];
    r := Success(());
  }

  /**
   * The imperative `download_file_internal` on the destination file: it
   * does what `Attempt` describes, leaving the file as `Attempt` says.
   */
  method DownloadFileInternal(file: File, env: Env, resume: bool, retryCount: nat)
    returns (r: Result<(), Error>, samples: seq<ProgressInfo>)
    modifies file
    ensures Outcome(r, Disk(file.present, file.content), samples)
      == Attempt(env, resume, old(Disk(file.present, file.content)), retryCount)
  {
    samples := [];
    var space := CheckDiskSpace(env.available);
    if space.Failure? {
      r := Failure(NoSpace(space.error));
      return;
    }
    ghost var before := Disk(file.present, file.content);
    var start, supportsRange := PlanResume(file, resume, TestRangeSupport(env.server.probe));
    ghost var plan := Prepare(resume, before, TestRangeSupport(env.server.probe));
    assert plan == Plan(start, supportsRange, Disk(file.present, file.content));
    var n := SendRequests(file, env.server.reply, start, supportsRange);
    assert n == Request(env.server.reply, plan.start, plan.supportsRange, plan.disk, []);
    AttemptSteps(env, resume, before, retryCount);
    if n.reply.Failure? {
      r := Failure(n.reply.error);
      return;
    }
    r, samples := WriteBody(file, n.reply.value, n.start, env.tick, retryCount);
  }

  /** `Attempt` once the disk-space check passed: the request loop's reply decides. */
  lemma AttemptSteps(env: Env, resume: bool, disk: Disk, retryCount: nat)
    requires CheckDiskSpace(env.available).Success?
    ensures var plan := Prepare(resume, disk, TestRangeSupport(env.server.probe));
      var n := Request(env.server.reply, plan.start, plan.supportsRange, plan.disk, []);
      Attempt(env, resume, disk, retryCount) ==
        match n.reply
        case Failure(e) => Outcome(Failure(e), n.disk, [])
        case Success(resp) =>
          Finish(Stream(resp.body, 0, env.tick, TotalSize(resp, n.start), retryCount,
                        if n.start > 0 then n.disk.content else [], n.start, []),
                 TotalSize(resp, n.start), retryCount)
  {
  }

  /**
   * After an attempt that got a reply to stream, the file exists, so the
   * next attempt resumes from the bytes it holds, whatever the caller asked.
   */
  lemma NextAttemptResumes(env: Env, resume: bool, disk: Disk, retryCount: nat, callerResume: bool)
    ensures var o := Attempt(env, resume, disk, retryCount);
      var plan := Prepare(resume, disk, TestRangeSupport(env.server.probe));
      CheckDiskSpace(env.available).Success?
      && Request(env.server.reply, plan.start, plan.supportsRange, plan.disk, []).reply.Success? ==>
        o.disk.present && StartByte(callerResume || o.disk.present, o.disk) == |o.disk.content|
  {
  }

  // ---------------------------------------------------------------------
  // The outer retry loop

  /** The notice sent to the caller before retrying after attempt `attempt` failed with `reason`. */
  function RetryNotice(attempt: nat, reason: Error): ProgressInfo {
    ProgressInfo(Zero, 0, 0, attempt + 1, true, Some(reason.top))
  }

  /** The random jitter offset drawn after attempt `k` lies within the window of that attempt's delay. */
  predicate JitterOk(m: RM.Manager, offsets: nat -> int, k: nat) {
    RM.CalculateDelay(m, k) > 0 ==>
      -(RM.JitterRange(RM.CalculateDelay(m, k)) as int) <= offsets(k) <= RM.JitterRange(RM.CalculateDelay(m, k))
  }

  /** The random jitter offsets: each within the window of its attempt's delay. */
  ghost predicate JitterDraws(m: RM.Manager, offsets: nat -> int) {
    forall k: nat :: JitterOk(m, offsets, k)
  }

  /**
   * The sleep after a failed attempt `k`: its jittered delay (offsets
   * outside the window are never drawn, see `JitterDraws`).
   */
  function Pause(m: RM.Manager, offsets: nat -> int): nat -> nat {
    k => if JitterOk(m, offsets, k) then RM.JitteredDelay(m, k, offsets(k)) else 0
  }

  /** `pause` gives the jittered delays, stated per attempt. */
  ghost predicate Paces(pause: nat -> nat, m: RM.Manager, offsets: nat -> int) {
    forall k: nat {:trigger RM.JitteredDelay(m, k, offsets(k))} ::
      JitterOk(m, offsets, k) ==> pause(k) == RM.JitteredDelay(m, k, offsets(k))
  }

  /**
   * What the retry loop produces: its outcome, the file it leaves, the
   * progress events and retry notices in order, the delays slept, the
   * number of attempts made, and the last attempt's own outcome.
   */
  datatype Run = Run(
    result: Result<(), Error>,
    disk: Disk,
    events: seq<ProgressInfo>,
    delays: seq<nat>,
    attempts: nat,
    last: Result<(), Error>)

  /** The error reported once every retry is used up, naming the last attempt's error. */
  function Exhausted(last: Error): Error {
    Msg("Download failed after retries exhausted: " + last.top)
  }

  /**
   * The retry loop of `download_file_with_resume` from attempt number
   * `attempt` on, `tries(k, d)` being what attempt `k` does to the file
   * `d`, `retryable` the retry policy's verdict on an error and
   * `pause(k)` the sleep after a failed attempt `k`: a
   * retryable failure with retries left is announced, slept on and
   * retried; otherwise the error is returned, wrapped once no retries are
   * left.
   */
  function Retried(m: RM.Manager, retryable: Error -> bool, pause: nat -> nat, tries: (nat, Disk) -> Outcome,
                   attempt: nat, disk: Disk): Run
    requires attempt <= m.maxRetries
    decreases m.maxRetries - attempt
  {
    var o := tries(attempt, disk);
    if o.result.Success? then Run(o.result, o.disk, o.samples, [], attempt + 1, o.result)
    else if attempt < m.maxRetries && retryable(o.result.error) then
      var rest := Retried(m, retryable, pause, tries, attempt + 1, o.disk);
      Run(rest.result, rest.disk,
          o.samples + [RetryNotice(attempt, o.result.error)] + rest.events,
          [pause(attempt)] + rest.delays,
          rest.attempts, rest.last)
    else if attempt >= m.maxRetries then
      Run(Failure(Exhausted(o.result.error)),
          o.disk, o.samples, [], attempt + 1, o.result)
    else Run(o.result, o.disk, o.samples, [], attempt + 1, o.result)
  }

  /**
   * The attempts of `download_file_with_resume`: attempt `k` meets the
   * world `envs(k)` and resumes when the caller asked to or the file exists.
   */
  function AttemptsOf(resume: bool, envs: nat -> Env): (nat, Disk) -> Outcome {
    (k: nat, d: Disk) => Attempt(envs(k), Resumes(resume, d), d, k)
  }

  /** An attempt resumes when the caller asked to or the file exists. */
  function Resumes(resume: bool, disk: Disk): bool {
    resume || disk.present
  }

  /** The retry policy's verdict, as a function on errors. */
  function Verdict(m: RM.Manager): Error -> bool {
    e => RM.ShouldRetry(m, e)
  }

  /**
   * `tries` are the attempts of `AttemptsOf(resume, envs)`. (Stated per
   * attempt, so that the loop below reasons about attempts without
   * unfolding them.)
   */
  ghost predicate Models(tries: (nat, Disk) -> Outcome, resume: bool, envs: nat -> Env) {
    forall k: nat, d: Disk {:trigger Attempt(envs(k), Resumes(resume, d), d, k)} ::
      tries(k, d) == Attempt(envs(k), Resumes(resume, d), d, k)
  }

  /** `retryable` is the verdict of the policy `m`, stated per error. */
  ghost predicate Decides(retryable: Error -> bool, m: RM.Manager) {
    forall e {:trigger RM.ShouldRetry(m, e)} :: retryable(e) == RM.ShouldRetry(m, e)
  }

  /** The retry counts of the retry notices among `events`, in order. */
  function RetryCounts(events: seq<ProgressInfo>): seq<nat>
    decreases |events|
  {
    if events == [] then []
    else (if events[0].isRetrying then [events[0].retryCount] else []) + RetryCounts(events[1..])
  }

  lemma {:induction false} RetryCountsAppend(a: seq<ProgressInfo>, b: seq<ProgressInfo>)
    ensures RetryCounts(a + b) == RetryCounts(a) + RetryCounts(b)
    decreases |a|
  {
    if a != [] {
      assert (a + b)[0] == a[0];
      assert (a + b)[1..] == a[1..] + b;
      RetryCountsAppend(a[1..], b);
    } else {
      assert a + b == b;
    }
  }

  lemma {:induction false} NoRetryCounts(events: seq<ProgressInfo>)
    requires forall e :: e in events ==> !e.isRetrying
    ensures RetryCounts(events) == []
    decreases |events|
  {
    if events != [] {
      assert events[0] in events;
      assert forall e :: e in events[1..] ==> e in events;
      NoRetryCounts(events[1..]);
    }
  }

  /** Attempts that report progress but never announce a retry themselves. */
  ghost predicate Quiet(tries: (nat, Disk) -> Outcome) {
    forall k: nat, d: Disk, e :: e in tries(k, d).samples ==> !e.isRetrying
  }

  /**
   * The retry loop makes at most `maxRetries + 1` attempts and sleeps once
   * per retry, each delay within `maxDelay`.
   */
  lemma {:induction false} RetriedBounds(m: RM.Manager, retryable: Error -> bool, pause: nat -> nat, tries: (nat, Disk) -> Outcome, attempt: nat, disk: Disk)
    requires attempt <= m.maxRetries && forall k :: pause(k) <= m.maxDelay
    ensures var run := Retried(m, retryable, pause, tries, attempt, disk);
      && attempt < run.attempts <= m.maxRetries + 1
      && |run.delays| == run.attempts - 1 - attempt
      && (forall k :: 0 <= k < |run.delays| ==> run.delays[k] <= m.maxDelay)
    decreases m.maxRetries - attempt
  {
    var o := tries(attempt, disk);
    if o.result.Failure? && attempt < m.maxRetries && retryable(o.result.error) {
      RetriedBounds(m, retryable, pause, tries, attempt + 1, o.disk);
    }
  }

  /** One retry notice per retry, numbered `attempt + 1`, `attempt + 2`, ... */
  lemma {:induction false} RetriedNotices(m: RM.Manager, retryable: Error -> bool, pause: nat -> nat, tries: (nat, Disk) -> Outcome, attempt: nat, disk: Disk)
    requires attempt <= m.maxRetries && Quiet(tries)
    ensures var run := Retried(m, retryable, pause, tries, attempt, disk);
      var counts := RetryCounts(run.events);
      |counts| == |run.delays| && forall i :: 0 <= i < |counts| ==> counts[i] == attempt + i + 1
    decreases m.maxRetries - attempt
  {
    var o := tries(attempt, disk);
    NoRetryCounts(o.samples);
    if o.result.Failure? && attempt < m.maxRetries && retryable(o.result.error) {
      RetriedNotices(m, retryable, pause, tries, attempt + 1, o.disk);
      var rest := Retried(m, retryable, pause, tries, attempt + 1, o.disk);
      var notice := [RetryNotice(attempt, o.result.error)];
      RetryCountsAppend(o.samples + notice, rest.events);
      RetryCountsAppend(o.samples, notice);
      assert RetryCounts(notice) == [attempt + 1];
    }
  }

  /**
   * The loop succeeds iff its last attempt did; an error from an attempt
   * with retries left is returned unchanged and was not retryable; the
   * error of the last permitted attempt is wrapped as "Download failed
   * after retries exhausted".
   */
  lemma {:induction false} RetriedOutcome(m: RM.Manager, retryable: Error -> bool, pause: nat -> nat, tries: (nat, Disk) -> Outcome, attempt: nat, disk: Disk)
    requires attempt <= m.maxRetries
    ensures var run := Retried(m, retryable, pause, tries, attempt, disk);
      && (run.result.Success? <==> run.last.Success?)
      && (run.last.Failure? && run.attempts - 1 < m.maxRetries ==>
            run.result == run.last && !retryable(run.last.error))
      && (run.last.Failure? && run.attempts - 1 == m.maxRetries ==>
            run.result == Failure(Exhausted(run.last.error)))
    decreases m.maxRetries - attempt
  {
    var o := tries(attempt, disk);
    if o.result.Failure? && attempt < m.maxRetries && retryable(o.result.error) {
      RetriedOutcome(m, retryable, pause, tries, attempt + 1, o.disk);
    }
  }

  /**
   * The loop's promises for the download attempts under the policy `m`
   * (the attempts announce no retries of their own).
   */
  lemma ResumeRunStops(m: RM.Manager, resume: bool, envs: nat -> Env, offsets: nat -> int, disk: Disk)
    ensures var run := Retried(m, Verdict(m), Pause(m, offsets), AttemptsOf(resume, envs), 0, disk);
      && 0 < run.attempts <= m.maxRetries + 1
      && |run.delays| == run.attempts - 1
      && (forall k :: 0 <= k < |run.delays| ==> run.delays[k] <= m.maxDelay)
      && |RetryCounts(run.events)| == |run.delays|
      && (forall i :: 0 <= i < |run.delays| ==> RetryCounts(run.events)[i] == i + 1)
      && (run.result.Success? <==> run.last.Success?)
      && (run.last.Failure? && run.attempts - 1 < m.maxRetries ==>
            run.result == run.last && !RM.ShouldRetry(m, run.last.error))
      && (run.last.Failure? && run.attempts - 1 == m.maxRetries ==>
            run.result == Failure(Exhausted(run.last.error)))
  {
    var tries := AttemptsOf(resume, envs);
    var retryable := Verdict(m);
    var pause := Pause(m, offsets);
    assert forall k :: pause(k) <= m.maxDelay;
    forall k: nat, d: Disk
      ensures forall e :: e in tries(k, d).samples ==> !e.isRetrying
    {
      AttemptSamples(envs(k), Resumes(resume, d), d, k);
    }
    RetriedBounds(m, retryable, pause, tries, 0, disk);
    RetriedNotices(m, retryable, pause, tries, 0, disk);
    RetriedOutcome(m, retryable, pause, tries, 0, disk);
  }

  /** Attempt number `attempt` of the loop, as `tries` describes it. */
  method TryOnce(file: File, resume: bool, envs: nat -> Env, attempt: nat, ghost tries: (nat, Disk) -> Outcome)
    returns (result: Result<(), Error>, samples: seq<ProgressInfo>)
    requires Models(tries, resume, envs)
    modifies file
    ensures tries(attempt, old(Disk(file.present, file.content))) == Outcome(result, Disk(file.present, file.content), samples)
  {
    var before := Disk(file.present, file.content);
    result, samples := DownloadFileInternal(file, envs(attempt), Resumes(resume, before), attempt);
    assert Outcome(result, Disk(file.present, file.content), samples) == Attempt(envs(attempt), Resumes(resume, before), before, attempt);
  }

  /**
   * One pass of the retry loop: the attempt, then either the loop's end
   * (`done`) or the retry notice and the delay before the next attempt.
   */
  method RetryStep(file: File, m: RM.Manager, resume: bool, envs: nat -> Env, offsets: nat -> int, attempt: nat,
                   ghost retryable: Error -> bool, ghost pause: nat -> nat, ghost tries: (nat, Disk) -> Outcome)
    returns (done: bool, r: Result<(), Error>, events: seq<ProgressInfo>, delay: nat)
    requires attempt <= m.maxRetries && JitterDraws(m, offsets)
    requires Decides(retryable, m) && Paces(pause, m, offsets) && Models(tries, resume, envs)
    modifies file
    ensures var now := Retried(m, retryable, pause, tries, attempt, old(Disk(file.present, file.content)));
      var disk := Disk(file.present, file.content);
      if done then now.result == r && now.disk == disk && now.events == events && now.delays == []
      else
        && attempt < m.maxRetries
        && var rest := Retried(m, retryable, pause, tries, attempt + 1, disk);
        && now.result == rest.result && now.disk == rest.disk
        && now.events == events + rest.events && now.delays == [delay] + rest.delays
  {
    var result, samples := TryOnce(file, resume, envs, attempt, tries);
    if result.Success? {
      return true, result, samples, 0;
    }
    if attempt < m.maxRetries && RM.ShouldRetry(m, result.error) {
      assert JitterOk(m, offsets, attempt);
      return false, result, samples + [RetryNotice(attempt, result.error)],
             RM.JitteredDelay(m, attempt, offsets(attempt));
    }
    if attempt >= m.maxRetries {
      return true, Failure(Exhausted(result.error)), samples, 0;
    }
    return true, result, samples, 0;
  }

  /** The retry loop of `download_file_with_resume` under the retry policy `m`. */
  method RetryLoop(file: File, m: RM.Manager, resume: bool, envs: nat -> Env, offsets: nat -> int,
                   ghost retryable: Error -> bool, ghost pause: nat -> nat, ghost tries: (nat, Disk) -> Outcome)
    returns (r: Result<(), Error>, events: seq<ProgressInfo>, delays: seq<nat>)
    requires JitterDraws(m, offsets) && Decides(retryable, m) && Paces(pause, m, offsets) && Models(tries, resume, envs)
    modifies file
    ensures var run := Retried(m, retryable, pause, tries, 0, old(Disk(file.present, file.content)));
      r == run.result && Disk(file.present, file.content) == run.disk
      && events == run.events && delays == run.delays
  {
    ghost var all := Retried(m, retryable, pause, tries, 0, Disk(file.present, file.content));
    var attempt := 0;
    events, delays := [], [];
    while true
      invariant attempt <= m.maxRetries
      invariant var now := Retried(m, retryable, pause, tries, attempt, Disk(file.present, file.content));
        all.result == now.result && all.disk == now.disk
        && all.events == events + now.events && all.delays == delays + now.delays
      decreases m.maxRetries - attempt
    {
      var done, result, more, delay := RetryStep(file, m, resume, envs, offsets, attempt, retryable, pause, tries);
      if done {
        return result, events + more, delays;
      }
      ghost var rest := Retried(m, retryable, pause, tries, attempt + 1, Disk(file.present, file.content));
      assert events + (more + rest.events) == (events + more) + rest.events;
      assert delays + ([delay] + rest.delays) == (delays + [delay]) + rest.delays;
      events := events + more;
      delays := delays + [delay];
      attempt := attempt + 1;
    }
  }

  /** `download_file_with_resume`: the retry loop under `for_network_operations`. */
  method DownloadFileWithResume(file: File, resume: bool, envs: nat -> Env, offsets: nat -> int)
    returns (r: Result<(), Error>, events: seq<ProgressInfo>, delays: seq<nat>)
    requires JitterDraws(RM.ForNetworkOperations(), offsets)
    modifies file
    ensures var m := RM.ForNetworkOperations();
      var run := Retried(m, Verdict(m), Pause(m, offsets), AttemptsOf(resume, envs), 0, old(Disk(file.present, file.content)));
      r == run.result && Disk(file.present, file.content) == run.disk
      && events == run.events && delays == run.delays
  {
    var m := RM.ForNetworkOperations();
    r, events, delays := RetryLoop(file, m, resume, envs, offsets, Verdict(m), Pause(m, offsets), AttemptsOf(resume, envs));
  }

  /** `download_file`: a download that does not ask to resume. */
  method DownloadFile(file: File, envs: nat -> Env, offsets: nat -> int)
    returns (r: Result<(), Error>, events: seq<ProgressInfo>, delays: seq<nat>)
    requires JitterDraws(RM.ForNetworkOperations(), offsets)
    modifies file
    ensures var m := RM.ForNetworkOperations();
      var run := Retried(m, Verdict(m), Pause(m, offsets), AttemptsOf(false, envs), 0, old(Disk(file.present, file.content)));
      r == run.result && Disk(file.present, file.content) == run.disk
      && events == run.events && delays == run.delays
  {
    r, events, delays := DownloadFileWithResume(file, false, envs, offsets);
  }

  // ---------------------------------------------------------------------
  // The cache

  /** `get_cache_directory`. */
  const CACHE_DIRECTORY: string := "update_cache"

  /** The cache file name of `get_cache_filepath`: "v<version>_<original file name>". */
  function CacheFileName(version: string, originalFilename: string): string {
    "v" + version + "_" + originalFilename
  }

  /** `get_cache_filepath`: the cache file inside the cache directory, as path components. */
  function CacheFilePath(cacheDir: seq<string>, version: string, originalFilename: string): (p: seq<string>)
    ensures |p| == |cacheDir| + 1 && p[..|cacheDir|] == cacheDir
  {
    cacheDir + [CacheFileName(version, originalFilename)]
  }

  /** The original file name a cache name was made from, given its version. */
  function OriginalFilename(name: string, version: string): Option<string> {
    var prefix := "v" + version + "_";
    if StartsWith(name, prefix) then Some(name[|prefix|..]) else None
  }

  /** The cache name records the version and gives back the original file name. */
  lemma CacheNameRoundTrip(version: string, originalFilename: string)
    ensures StartsWith(CacheFileName(version, originalFilename), "v" + version + "_")
    ensures OriginalFilename(CacheFileName(version, originalFilename), version) == Some(originalFilename)
  {
    var prefix := "v" + version + "_";
    assert CacheFileName(version, originalFilename) == prefix + originalFilename;
    assert (prefix + originalFilename)[..|prefix|] == prefix;
    assert (prefix + originalFilename)[|prefix|..] == originalFilename;
  }

  /**
   * `is_current_version_file`: a file whose name is readable and does not
   * start with "v0." counts as current.
   */
  predicate IsCurrentVersionFile(name: Option<string>) {
    name.Some? && !StartsWith(name.value, "v0.")
  }

  /** A cache file counts as current exactly when its version does not start with "0.". */
  lemma CurrentCacheFile(version: string, originalFilename: string)
    ensures IsCurrentVersionFile(Some(CacheFileName(version, originalFilename))) <==> !StartsWith(version, "0.")
  {
    var name := CacheFileName(version, originalFilename);
    assert name[0] == 'v';
    assert forall i :: 0 <= i < |version| ==> name[i + 1] == version[i];
    assert name[|version| + 1] == '_';
    if |version| >= 2 {
      assert name[..3] == "v" + version[..2];
    }
  }

  /** `manage_cache` deletes an entry when it is a file, not spared as current, and deletable. */
  predicate Removes(e: Entry, keepCurrent: bool) {
    e.isFile && (!keepCurrent || !IsCurrentVersionFile(e.name)) && e.removable
  }

  /** The listing after `manage_cache`: the entries it does not delete, in order. */
  function Pruned(entries: seq<Entry>, keepCurrent: bool): seq<Entry>
    decreases |entries|
  {
    if entries == [] then []
    else (if Removes(entries[0], keepCurrent) then [] else [entries[0]]) + Pruned(entries[1..], keepCurrent)
  }

  /**
   * An entry survives exactly when it was listed and is not deleted: with
   * `keepCurrent` false, only directories and files that cannot be deleted
   * remain.
   */
  lemma {:induction false} PrunedSpec(entries: seq<Entry>, keepCurrent: bool, x: Entry)
    ensures x in Pruned(entries, keepCurrent) <==> x in entries && !Removes(x, keepCurrent)
    ensures |Pruned(entries, keepCurrent)| <= |entries|
    ensures !keepCurrent && x in Pruned(entries, keepCurrent) ==> !x.isFile || !x.removable
    decreases |entries|
  {
    if entries != [] {
      PrunedSpec(entries[1..], keepCurrent, x);
      assert entries == [entries[0]] + entries[1..];
    }
  }

  lemma {:induction false} PrunedAppend(a: seq<Entry>, b: seq<Entry>, keepCurrent: bool)
    ensures Pruned(a + b, keepCurrent) == Pruned(a, keepCurrent) + Pruned(b, keepCurrent)
    decreases |a|
  {
    if a != [] {
      assert (a + b)[0] == a[0];
      assert (a + b)[1..] == a[1..] + b;
      PrunedAppend(a[1..], b, keepCurrent);
    } else {
      assert a + b == b;
    }
  }

  /**
   * `manage_cache`: a missing directory is left alone; an unreadable one is
   * an error; otherwise every file that is not spared is deleted in turn
   * (failed deletions are ignored).
   */
  method ManageCache(dir: Directory, keepCurrent: bool, listingError: Error) returns (r: Result<(), Error>)
    modifies dir
    ensures dir.present == old(dir.present) && dir.readable == old(dir.readable)
    ensures !old(dir.present) ==> r == Success(()) && dir.entries == old(dir.entries)
    ensures old(dir.present) && !old(dir.readable) ==>
      r == Failure(Context(listingError, "Failed to read cache directory")) && dir.entries == old(dir.entries)
    ensures old(dir.present) && old(dir.readable) ==>
      r == Success(()) && dir.entries == Pruned(old(dir.entries), keepCurrent)
  {
    if !dir.present {
      return Success(());
    }
    if !dir.readable {
      return Failure(Context(listingError, "Failed to read cache directory"));
    }
    var listing := dir.entries;
    var kept: seq<Entry> := [];
    var i := 0;
    while i < |listing|
      invariant 0 <= i <= |listing|
      invariant kept == Pruned(listing[..i], keepCurrent)
      invariant dir.entries == kept + listing[i..]
      invariant dir.present == old(dir.present) && dir.readable == old(dir.readable)
    {
      var entry := listing[i];
      if !Removes(entry, keepCurrent) {
        kept := kept + [entry];
      }
      PrunedAppend(listing[..i], [entry], keepCurrent);
      assert listing[..i + 1] == listing[..i] + [entry];
      dir.entries := kept + listing[i + 1..];
      i := i + 1;
    }
    assert listing[..i] == listing;
    return Success(());
  }

  // ---------------------------------------------------------------------
  // Cached-file validation

  /** Below this size a cached file is taken to be incomplete. */
  const MIN_CACHED_SIZE: nat := 1024

  /**
   * `validate_cached_file`: `present` is whether the file exists, `size`
   * what reading its metadata gives, `firstRead` how many bytes the first
   * read returned (None when opening or reading fails).
   */
  function ValidateCachedFile(present: bool, size: Result<nat, Error>, firstRead: Option<nat>, expected: Option<nat>)
    : (r: Result<bool, Error>)
    ensures r.Failure? <==> present && size.Failure?
    ensures r.Failure? ==> r.error.top == "Failed to get file metadata"
    ensures r == Success(true) <==>
      present && size.Success? && (expected.None? || expected.value == size.value)
      && size.value >= MIN_CACHED_SIZE && firstRead.Some? && firstRead.value > 0
  {
    if !present then Success(false)
    else match size
      case Failure(e) => Failure(Context(e, "Failed to get file metadata"))
      case Success(n) =>
        if expected.Some? && n != expected.value then Success(false)
        else if n == 0 then Success(false)
        else if n < MIN_CACHED_SIZE then Success(false)
        else Success(firstRead.Some? && firstRead.value > 0)
  }
}
