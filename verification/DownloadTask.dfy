/** `DownloadTask::execute` as the program that changes the two files, proved to run as `Download` says. */
module DownloadTask {
  import opened Wrappers
  import opened Download

  class Files {
    var saved: Option<Data>
    var part: Option<Data>
    ghost var trace: seq<Disk>

    constructor (disk: Disk)
      ensures Now() == disk && trace == []
    {
      saved, part, trace := disk.saved, disk.part, [];
    }

    function Now(): Disk
      reads this
    {
      Disk(saved, part)
    }

    method RenamePart()
      requires part.Some?
      modifies this
      ensures Now() == Renamed(old(Now())) && trace == old(trace) + [Now()]
    {
      saved, part := part, None;
      trace := trace + [Now()];
    }

    method PromoteSaved()
      requires part.None? && saved.Some?
      modifies this
      ensures Now() == Disk(None, old(saved)) && trace == old(trace) + [Now()]
    {
      saved, part := None, saved;
      trace := trace + [Now()];
    }

    method RemovePart()
      modifies this
      ensures Now() == old(Now()).(part := None) && trace == old(trace) + [Now()]
    {
      part := None;
      trace := trace + [Now()];
    }

    method CreatePart()
      modifies this
      ensures Now() == WithPart(old(Now()), []) && trace == old(trace) + [Now()]
    {
      part := Some([]);
      trace := trace + [Now()];
    }

    method Append(data: Data)
      requires part.Some?
      modifies this
      ensures Now() == WithPart(old(Now()), old(part.value) + data) && trace == old(trace) + [Now()]
    {
      part := Some(part.value + data);
      trace := trace + [Now()];
    }

    /** The stream loop: chunks are collected in a buffer that is written when it is full, and once more
        when the stream ends. */
    method Stream(chunks: seq<Data>)
      requires part.Some?
      modifies this
      ensures Now() == WithPart(old(Now()), old(part.value) + Flatten(chunks))
      ensures trace == old(trace) + Appends(old(Now()), old(part.value), Blocks([], chunks))
    {
      ghost var disk, start, done := Now(), part.value, trace;
      ghost var all := Appends(disk, start, Blocks([], chunks));
      var writeBuf: Data := [];
      for i := 0 to |chunks|
        invariant part.Some? && saved == disk.saved
        invariant Streamed(disk, done + all, trace, part.value, writeBuf, chunks, i)
        invariant part.value + writeBuf + Flatten(chunks[i..]) == start + Flatten(chunks)
      {
        assert chunks[i..] == [chunks[i]] + chunks[i + 1..];
        assert (part.value + writeBuf) + Flatten(chunks[i..])
             == part.value + (writeBuf + chunks[i]) + Flatten(chunks[i + 1..]);
        writeBuf := writeBuf + chunks[i];
        if |writeBuf| >= WRITE_FLUSH_THRESHOLD {
          FlushStep(disk, done + all, trace, part.value, writeBuf, chunks, i);
          Append(writeBuf);
          writeBuf := [];
        }
      }
      LastFlush(disk, done + all, trace, part.value, writeBuf, chunks);
      assert part.value + writeBuf == start + Flatten(chunks);
      if writeBuf != [] {
        Append(writeBuf);
      } else {
        assert part.value + [] == part.value;
      }
    }
  }

  /** The disks so far and those of the chunks still to come make up the whole trace. */
  ghost predicate Streamed(disk: Disk, all: seq<Disk>, trace: seq<Disk>, data: Data, buffer: Data, chunks: seq<Data>,
                           i: nat) {
    i <= |chunks| && all == trace + Appends(disk, data, Blocks(buffer, chunks[i..]))
  }

  lemma FlushStep(disk: Disk, all: seq<Disk>, trace: seq<Disk>, data: Data, filled: Data, chunks: seq<Data>, i: nat)
    requires i < |chunks| && |filled| >= WRITE_FLUSH_THRESHOLD
    requires all == trace + Appends(disk, data, [filled] + Blocks([], chunks[i + 1..]))
    ensures Streamed(disk, all, trace + [WithPart(disk, data + filled)], data + filled, [], chunks, i + 1)
  {
    var rest := Blocks([], chunks[i + 1..]);
    assert ([filled] + rest)[1..] == rest;
  }

  lemma LastFlush(disk: Disk, all: seq<Disk>, trace: seq<Disk>, data: Data, buffer: Data, chunks: seq<Data>)
    requires Streamed(disk, all, trace, data, buffer, chunks, |chunks|)
    ensures all == if buffer == [] then trace else trace + [WithPart(disk, data + buffer)]
    ensures Flatten(chunks[|chunks|..]) == []
  {
    assert chunks[|chunks|..] == [];
    assert Blocks(buffer, []) == if buffer == [] then [] else [buffer];
    assert [buffer][1..] == [] && Appends(disk, data + buffer, []) == [] && Appends(disk, data, []) == [];
  }

  /** One pass through the loop body, after the length is known as far as it can be. */
  method Try(job: Job, net: Net, n: nat, known: Option<nat>, files: Files) returns (step: Step)
    modifies files
    ensures var r := Attempt(job, net, n, Local(old(files.Now()), known));
            step == r.step && files.trace == old(files.trace) + r.trace
    ensures match step
            case Again(local) => local.disk == files.Now()
            case Stop(disk, _) => disk == files.Now()
            case Received(disk, _) => disk == files.Now() && files.part.Some?
  {
    var remoteLen := known;
    if n > 1 && remoteLen.None? { remoteLen := net.head(n); }
    var resumeFrom := LenOf(files.part);
    if remoteLen.Some? {
      if resumeFrom > remoteLen.value {
        files.RemovePart();
        resumeFrom := 0;
      } else if resumeFrom == remoteLen.value && remoteLen.value > 0 {
        if job.expected.None? || job.digest(files.part.value) == job.expected.value {
          files.RenamePart();
          return Stop(files.Now(), Success);
        }
        files.RemovePart();
        resumeFrom := 0;
      }
    }
    step := Request(job, net, n, remoteLen, resumeFrom, files);
  }

  method Request(job: Job, net: Net, n: nat, remoteLen: Option<nat>, resumeFrom: nat, files: Files) returns (step: Step)
    requires resumeFrom == LenOf(files.part)
    modifies files
    ensures var r := Ask(job, net, n, old(files.Now()), remoteLen);
            step == r.step && files.trace == old(files.trace) + r.trace
    ensures match step
            case Again(local) => local.disk == files.Now()
            case Stop(disk, _) => disk == files.Now()
            case Received(disk, _) => disk == files.Now() && files.part.Some?
  {
    match net.reply(n, resumeFrom)
    case NoResponse =>
      step := Retry(n, Local(files.Now(), remoteLen), RequestFailed);
    case Response(status, length, chunks, ending) =>
      if !IsSuccess(status) { return Stop(files.Now(), Failure(BadStatus(status))); }
      var fileLen;
      if resumeFrom > 0 && status == 206 {
        fileLen := remoteLen.GetOr(resumeFrom + length.GetOr(0));
      } else if resumeFrom > 0 {
        return Retry(n, Local(files.Now(), remoteLen), NotPartial(status));
      } else {
        files.CreatePart();
        fileLen := length.GetOr(remoteLen.GetOr(0));
      }
      step := Body(job, n, remoteLen, fileLen, chunks, ending, files);
  }

  method Body(job: Job, n: nat, remoteLen: Option<nat>, fileLen: nat, chunks: seq<Data>, ending: Ending, files: Files)
    returns (step: Step)
    requires files.part.Some?
    modifies files
    ensures var r := Receive(job, n, old(files.Now()), remoteLen, old(files.part.value), fileLen, chunks, ending);
            step == r.step && files.trace == old(files.trace) + r.trace
    ensures match step
            case Again(local) => local.disk == files.Now()
            case Stop(disk, _) => disk == files.Now()
            case Received(disk, _) => disk == files.Now() && files.part.Some?
  {
    if files.saved.Some? && fileLen > 0 {
      if DigestIs(job, files.saved) || (job.expected.None? && |files.saved.value| == fileLen) {
        return Stop(files.Now(), Success);
      }
    }
    files.Stream(chunks);
    var currentLen := LenOf(files.part);
    if ending == Broken {
      step := Retry(n, Local(files.Now(), remoteLen), StreamFailed);
    } else if fileLen > 0 && currentLen < fileLen {
      step := Retry(n, Local(files.Now(), remoteLen), Incomplete(fileLen, currentLen));
    } else {
      step := Received(files.Now(), fileLen);
    }
  }

  method CheckAndRename(job: Job, fileLen: nat, files: Files) returns (outcome: Outcome)
    requires files.part.Some?
    modifies files
    ensures var r := Finish(job, old(files.Now()), fileLen);
            outcome == r.outcome && files.Now() == r.disk && files.trace == old(files.trace) + r.trace
  {
    if job.expected.Some? {
      if job.digest(files.part.value) != job.expected.value {
        files.RemovePart();
        return Failure(DigestMismatch);
      }
    }
    if fileLen > 0 && LenOf(files.part) != fileLen {
      return Failure(SizeMismatch(fileLen, LenOf(files.part)));
    }
    files.RenamePart();
    outcome := Success;
  }

  /** The attempts from `n` on make up the rest of the run. */
  ghost predicate Running(all: Ran, trace: seq<Disk>, rest: Ran) {
    all == Ran(rest.disk, rest.outcome, trace + rest.trace)
  }

  lemma Step(job: Job, net: Net, n: nat, a: Attempted, all: Ran, before: seq<Disk>, now: seq<Disk>)
    requires 1 <= n <= MAX_DOWNLOAD_ATTEMPTS && (a.step.Again? ==> n < MAX_DOWNLOAD_ATTEMPTS)
    requires Running(all, before, Continue(job, net, n, a)) && now == before + a.trace
    ensures match a.step
            case Stop(disk, outcome) => all == Ran(disk, outcome, now)
            case Received(disk, length) => Running(all, now, Finish(job, disk, length))
            case Again(next) => Running(all, now, Attempts(job, net, n + 1, next))
  {
  }

  method RunAttempts(job: Job, net: Net, known: Option<nat>, files: Files, ghost all: Ran) returns (outcome: Outcome)
    requires Running(all, files.trace, Attempts(job, net, 1, Local(files.Now(), known)))
    modifies files
    ensures all == Ran(files.Now(), outcome, files.trace)
  {
    var remoteLen := known;
    var attempt := 1;
    while true
      invariant 1 <= attempt <= MAX_DOWNLOAD_ATTEMPTS
      invariant Running(all, files.trace, Attempts(job, net, attempt, Local(files.Now(), remoteLen)))
      decreases MAX_DOWNLOAD_ATTEMPTS - attempt
    {
      ghost var before, local := files.trace, Local(files.Now(), remoteLen);
      var step := Try(job, net, attempt, remoteLen, files);
      Step(job, net, attempt, Attempt(job, net, attempt, local), all, before, files.trace);
      match step {
        case Stop(_, result) =>
          return result;
        case Received(_, length) =>
          outcome := CheckAndRename(job, length, files);
          return;
        case Again(next) =>
          remoteLen := next.known;
          attempt := attempt + 1;
      }
    }
  }

  lemma Started(job: Job, net: Net, disk: Disk, trace: seq<Disk>)
    requires !Cached(job, disk.saved, net.head(1))
    ensures var r, known := Download.Execute(job, net, disk), net.head(1);
            var now := if IsPromoted(disk, known) then trace + [Promoted(disk, known)] else trace;
            Running(Ran(r.disk, r.outcome, trace + r.trace), now,
                    Attempts(job, net, 1, Local(Promoted(disk, known), known)))
  {
    var r := Attempts(job, net, 1, Local(Promoted(disk, net.head(1)), net.head(1)));
    assert trace + ([Promoted(disk, net.head(1))] + r.trace) == (trace + [Promoted(disk, net.head(1))]) + r.trace;
    assert [] + r.trace == r.trace;
  }

  method Execute(job: Job, net: Net, files: Files) returns (outcome: Outcome)
    modifies files
    ensures var r := Download.Execute(job, net, old(files.Now()));
            outcome == r.outcome && files.Now() == r.disk && files.trace == old(files.trace) + r.trace
  {
    var remoteLen := net.head(1);
    if files.saved.Some? {
      if DigestIs(job, files.saved) { return Success; }
      if job.expected.None? && remoteLen.Some? && |files.saved.value| == remoteLen.value { return Success; }
      if job.expected.None? && remoteLen.None? && |files.saved.value| > 0 { return Success; }
    }
    ghost var r, trace := Download.Execute(job, net, files.Now()), files.trace;
    ghost var all := Ran(r.disk, r.outcome, trace + r.trace);
    Started(job, net, files.Now(), trace);
    if files.part.None? && files.saved.Some? {
      var existingLen := |files.saved.value|;
      if remoteLen.Some? && 0 < existingLen < remoteLen.value { files.PromoteSaved(); }
    }
    outcome := RunAttempts(job, net, remoteLen, files, all);
  }
}
