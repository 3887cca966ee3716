/** The retry loop of `DownloadTask::execute` as a state machine over the saved file, the partial file
    and an arbitrary server. */
module Download {
  import opened Wrappers

  type Data = seq<bv8>

  type Digest = string

  const MAX_DOWNLOAD_ATTEMPTS: nat := 8

  const WRITE_FLUSH_THRESHOLD: nat := 1024 * 1024

  /** The two files; `None` is a file that does not exist. */
  datatype Disk = Disk(saved: Option<Data>, part: Option<Data>)

  /** How the stream of a body ends: at its end, or by a stall or a transport error. */
  datatype Ending = EndOfBody | Broken

  datatype Reply =
    | NoResponse
    | Response(status: nat, length: Option<nat>, chunks: seq<Data>, ending: Ending)

  /** The server: the length that the HEAD request before an attempt reports, and the reply of an
      attempt to a GET from an offset. */
  datatype Net = Net(head: nat -> Option<nat>, reply: (nat, nat) -> Reply)

  /** The digest the release promises, if any, and the digest function. */
  datatype Job = Job(expected: Option<Digest>, digest: Data -> Digest)

  datatype DownloadErr =
    | RequestFailed
    | BadStatus(status: nat)
    | NotPartial(status: nat)
    | StreamFailed
    | Incomplete(expectedLen: nat, got: nat)
    | DigestMismatch
    | SizeMismatch(expectedSize: nat, actual: nat)

  datatype Outcome = Success | Failure(error: DownloadErr)

  function LenOf(file: Option<Data>): nat {
    match file
    case Some(data) => |data|
    case None => 0
  }

  predicate IsSuccess(status: nat) { 200 <= status < 300 }

  predicate DigestIs(job: Job, file: Option<Data>) {
    job.expected.Some? && file.Some? && job.digest(file.value) == job.expected.value
  }

  /* ---------- before the first attempt ---------- */

  /** The saved file may be reused: by digest, else by length, else because there is nothing to compare
      it with. */
  predicate Cached(job: Job, saved: Option<Data>, known: Option<nat>) {
    saved.Some? &&
    match (job.expected, known)
    case (Some(_), _) => DigestIs(job, saved)
    case (None, Some(n)) => |saved.value| == n
    case (None, None) => |saved.value| > 0
  }

  /** A saved file that is too short becomes the partial file. */
  predicate IsPromoted(disk: Disk, known: Option<nat>) {
    disk.part.None? && disk.saved.Some? && known.Some? && 0 < |disk.saved.value| < known.value
  }

  function Promoted(disk: Disk, known: Option<nat>): Disk {
    if IsPromoted(disk, known) then Disk(None, disk.saved) else disk
  }

  /* ---------- one attempt ---------- */

  /** The state carried from attempt to attempt. */
  datatype Local = Local(disk: Disk, known: Option<nat>)

  datatype Step =
    | Again(local: Local)
    | Stop(disk: Disk, outcome: Outcome)
    | Received(disk: Disk, length: nat)

  /** A step and the disks that its file operations leave, one after the other. */
  datatype Attempted = Attempted(step: Step, trace: seq<Disk>)

  function Learn(net: Net, n: nat, known: Option<nat>): Option<nat> {
    if n > 1 && known.None? then net.head(n) else known
  }

  datatype Prepared = Whole | Unusable | Usable

  /** What the length of the partial file says before a request is made. */
  function Prepare(job: Job, part: Option<Data>, known: Option<nat>): Prepared {
    if known.None? || LenOf(part) < known.value || (LenOf(part) == known.value && known.value == 0) then Usable
    else if LenOf(part) > known.value then Unusable
    else if job.expected.None? || DigestIs(job, part) then Whole
    else Unusable
  }

  function Renamed(disk: Disk): Disk { Disk(disk.part, None) }

  function WithPart(disk: Disk, data: Data): Disk { disk.(part := Some(data)) }

  function Retry(n: nat, local: Local, error: DownloadErr): Step {
    if n < MAX_DOWNLOAD_ATTEMPTS then Again(local) else Stop(local.disk, Failure(error))
  }

  /** The blocks that reach the file: chunks are collected until the buffer is full. */
  function Blocks(buffer: Data, chunks: seq<Data>): seq<Data>
    decreases |chunks|
  {
    if chunks == [] then (if buffer == [] then [] else [buffer])
    else
      var filled := buffer + chunks[0];
      if |filled| >= WRITE_FLUSH_THRESHOLD then [filled] + Blocks([], chunks[1..]) else Blocks(filled, chunks[1..])
  }

  /** The disks after each block is appended to a partial file that holds `data`. */
  function Appends(disk: Disk, data: Data, blocks: seq<Data>): seq<Disk>
    decreases |blocks|
  {
    if blocks == [] then [] else [WithPart(disk, data + blocks[0])] + Appends(disk, data + blocks[0], blocks[1..])
  }

  /** The length that the attempt expects the whole file to have; 0 when nothing tells. */
  function ExpectedLen(resume: nat, known: Option<nat>, length: Option<nat>): nat {
    if resume > 0 then known.GetOr(resume + length.GetOr(0)) else length.GetOr(known.GetOr(0))
  }

  /** The body is appended to `start`, the content of the partial file when the body begins. */
  function Receive(job: Job, n: nat, disk: Disk, known: Option<nat>, start: Data, fileLen: nat, chunks: seq<Data>,
                   ending: Ending): Attempted
  {
    if && disk.saved.Some? && fileLen > 0
       && (DigestIs(job, disk.saved) || (job.expected.None? && |disk.saved.value| == fileLen))
    then Attempted(Stop(disk, Success), [])
    else
      var trace := Appends(disk, start, Blocks([], chunks));
      var all := start + Flatten(chunks);
      var after := WithPart(disk, all);
      if ending == Broken then Attempted(Retry(n, Local(after, known), StreamFailed), trace)
      else if fileLen > 0 && |all| < fileLen then
        Attempted(Retry(n, Local(after, known), Incomplete(fileLen, |all|)), trace)
      else Attempted(Received(after, fileLen), trace)
  }

  /** The request from the end of the partial file, and what its reply does. */
  function Ask(job: Job, net: Net, n: nat, disk: Disk, known: Option<nat>): Attempted {
    var resume := LenOf(disk.part);
    match net.reply(n, resume)
    case NoResponse => Attempted(Retry(n, Local(disk, known), RequestFailed), [])
    case Response(status, length, chunks, ending) =>
      if !IsSuccess(status) then Attempted(Stop(disk, Failure(BadStatus(status))), [])
      else if resume > 0 && status != 206 then Attempted(Retry(n, Local(disk, known), NotPartial(status)), [])
      else
        var fileLen := ExpectedLen(resume, known, length);
        if resume > 0 then Receive(job, n, disk, known, disk.part.value, fileLen, chunks, ending)
        else
          var emptied := WithPart(disk, []);
          var r := Receive(job, n, emptied, known, [], fileLen, chunks, ending);
          Attempted(r.step, [emptied] + r.trace)
  }

  /** Only an attempt before the last is followed by another. */
  function Attempt(job: Job, net: Net, n: nat, local: Local): (r: Attempted)
    ensures r.step.Again? ==> n < MAX_DOWNLOAD_ATTEMPTS
  {
    var known := Learn(net, n, local.known);
    match Prepare(job, local.disk.part, known)
    case Whole => Attempted(Stop(Renamed(local.disk), Success), [Renamed(local.disk)])
    case Usable => Ask(job, net, n, local.disk, known)
    case Unusable =>
      var removed := local.disk.(part := None);
      var r := Ask(job, net, n, removed, known);
      Attempted(r.step, [removed] + r.trace)
  }

  /* ---------- whole runs ---------- */

  datatype Ran = Ran(disk: Disk, outcome: Outcome, trace: seq<Disk>)

  /** The checks after the loop is left with a received file, then the rename. */
  function Finish(job: Job, disk: Disk, fileLen: nat): Ran {
    if job.expected.Some? && !DigestIs(job, disk.part)
    then Ran(disk.(part := None), Failure(DigestMismatch), [disk.(part := None)])
    else if fileLen > 0 && LenOf(disk.part) != fileLen then
      Ran(disk, Failure(SizeMismatch(fileLen, LenOf(disk.part))), [])
    else Ran(Renamed(disk), Success, [Renamed(disk)])
  }

  function Attempts(job: Job, net: Net, n: nat, local: Local): Ran
    requires 1 <= n <= MAX_DOWNLOAD_ATTEMPTS
    decreases MAX_DOWNLOAD_ATTEMPTS - n, 1
  {
    Continue(job, net, n, Attempt(job, net, n, local))
  }

  /** What follows attempt `n`. */
  function Continue(job: Job, net: Net, n: nat, a: Attempted): Ran
    requires 1 <= n <= MAX_DOWNLOAD_ATTEMPTS && (a.step.Again? ==> n < MAX_DOWNLOAD_ATTEMPTS)
    decreases MAX_DOWNLOAD_ATTEMPTS - n, 0
  {
    match a.step
    case Stop(disk, outcome) => Ran(disk, outcome, a.trace)
    case Received(disk, length) => var r := Finish(job, disk, length); Ran(r.disk, r.outcome, a.trace + r.trace)
    case Again(next) => var r := Attempts(job, net, n + 1, next); Ran(r.disk, r.outcome, a.trace + r.trace)
  }

  function Execute(job: Job, net: Net, disk: Disk): Ran {
    var known := net.head(1);
    if Cached(job, disk.saved, known) then Ran(disk, Success, [])
    else
      var start := Promoted(disk, known);
      var r := Attempts(job, net, 1, Local(start, known));
      Ran(r.disk, r.outcome, (if IsPromoted(disk, known) then [start] else []) + r.trace)
  }
}
