/** How single attempts and whole runs end, whatever the server is like. */
module DownloadOutcomes {
  import opened Wrappers
  import opened Download
  import opened DownloadTheorems
  import opened DownloadResults

  /* ---------- one attempt ---------- */

  /** The length that attempt `n` goes by: one learned before, or else the answer to its HEAD request. */
  function KnownBy(net: Net, n: nat, known: Option<nat>): Option<nat> {
    match known
    case Some(_) => known
    case None => if n == 1 then None else net.head(n)
  }

  /** The partial file is not as long as the whole is known to be. */
  predicate IsShort(part: Option<Data>, known: Option<nat>) {
    known.Some? ==> LenOf(part) < known.value
  }

  /** After an error that another attempt may mend. */
  function Failed(n: nat, disk: Disk, known: Option<nat>, error: DownloadErr): Step {
    if n < 8 then Again(Local(disk, known)) else Stop(disk, Failure(error))
  }

  /** A complete partial file becomes the saved file without a request. */
  lemma CompletePartIsSaved(job: Job, net: Net, n: nat, local: Local)
    requires n >= 1 && local.disk.part.Some?
    requires var data := local.disk.part.value;
             KnownBy(net, n, local.known) == Some(|data|) && data != [] && (job.expected.None? || HasDigest(job, data))
    ensures Attempt(job, net, n, local).step == Stop(Disk(local.disk.part, None), Success)
  {
  }

  /** A partial file that is too long, or as long as the whole but of another digest, is removed: the
      attempt is that without a partial file. */
  lemma WrongPartIsDropped(job: Job, net: Net, n: nat, local: Local)
    requires n >= 1 && local.disk.part.Some? && KnownBy(net, n, local.known).Some?
    requires var data, known := local.disk.part.value, KnownBy(net, n, local.known).value;
             |data| > known || (|data| == known > 0 && job.expected.Some? && !HasDigest(job, data))
    ensures var dropped := Local(Disk(local.disk.saved, None), local.known);
            && Attempt(job, net, n, local).step == Attempt(job, net, n, dropped).step
            && Attempt(job, net, n, local).trace == [dropped.disk] + Attempt(job, net, n, dropped).trace
  {
    assert local.disk.(part := None) == Disk(local.disk.saved, None);
  }

  /** Without a response the files stay as they are, for another attempt. */
  lemma NoResponseIsRetried(job: Job, net: Net, n: nat, local: Local)
    requires n >= 1 && IsShort(local.disk.part, KnownBy(net, n, local.known))
    requires net.reply(n, LenOf(local.disk.part)) == NoResponse
    ensures Attempt(job, net, n, local)
         == Attempted(Failed(n, local.disk, KnownBy(net, n, local.known), RequestFailed), [])
  {
  }

  /** An error status ends the run at once; a response to a resumed request that is not partial content is
      not used. In both cases the files stay as they are. */
  lemma RefusalEndsTheRun(job: Job, net: Net, n: nat, local: Local, status: nat)
    requires n >= 1 && IsShort(local.disk.part, KnownBy(net, n, local.known))
    requires var reply := net.reply(n, LenOf(local.disk.part)); reply.Response? && reply.status == status
    ensures status < 200 || status >= 300 ==>
              Attempt(job, net, n, local) == Attempted(Stop(local.disk, Failure(BadStatus(status))), [])
    ensures 200 <= status < 300 && status != 206 && LenOf(local.disk.part) > 0 ==>
              Attempt(job, net, n, local)
              == Attempted(Failed(n, local.disk, KnownBy(net, n, local.known), NotPartial(status)), [])
  {
  }

  /** What the whole is measured against: for a resumed body the known length, else what the body announces
      on top of the bytes there; for a body from the start its own length, else the known one; 0 is none. */
  function Target(resume: nat, known: Option<nat>, length: Option<nat>): nat {
    match (known, length)
    case (None, None) => resume
    case (Some(whole), None) => whole
    case (None, Some(body)) => resume + body
    case (Some(whole), Some(body)) => if resume == 0 then body else whole
  }

  /** A body that is used. A saved file of the right digest or length is settled for; otherwise all that
      arrived is kept, and the attempt is repeated if the body broke off or the whole is too short. */
  lemma BodyIsKept(job: Job, net: Net, n: nat, local: Local, status: nat, length: Option<nat>, chunks: seq<Data>,
                   ending: Ending)
    requires n >= 1 && IsShort(local.disk.part, KnownBy(net, n, local.known))
    requires net.reply(n, LenOf(local.disk.part)) == Response(status, length, chunks, ending)
    requires status == 206 || (200 <= status < 300 && LenOf(local.disk.part) == 0)
    ensures var part, saved, known := local.disk.part, local.disk.saved, KnownBy(net, n, local.known);
            var all := Held(part) + Flatten(chunks);
            var target := Target(LenOf(part), known, length);
            Attempt(job, net, n, local).step ==
              if && saved.Some? && target > 0
                 && (HasDigest(job, saved.value) || (job.expected.None? && |saved.value| == target))
              then Stop(Disk(saved, if LenOf(part) == 0 then Some([]) else part), Success)
              else if ending == Broken then Failed(n, Disk(saved, Some(all)), known, StreamFailed)
              else if |all| < target then Failed(n, Disk(saved, Some(all)), known, Incomplete(target, |all|))
              else Received(Disk(saved, Some(all)), target)
  {
    if LenOf(local.disk.part) == 0 { assert Held(local.disk.part) == []; }
  }

  /** After the loop: a file of another digest is removed, one of another length is left for a later run,
      and any other becomes the saved file. */
  lemma ReceivedIsChecked(job: Job, net: Net, n: nat, local: Local, disk: Disk, target: nat)
    requires 1 <= n <= 8 && Attempt(job, net, n, local).step == Received(disk, target)
    ensures disk.part.Some?
    ensures var r := Attempts(job, net, n, local);
            if job.expected.Some? && !HasDigest(job, disk.part.value) then
              r.disk == Disk(disk.saved, None) && r.outcome == Failure(DigestMismatch)
            else if target > 0 && |disk.part.value| != target then
              r.disk == disk && r.outcome == Failure(SizeMismatch(target, |disk.part.value|))
            else
              r.disk == Disk(disk.part, None) && r.outcome == Success
  {
  }

  /* ---------- whole runs ---------- */

  ghost predicate EndsIn(before: Disk, trace: seq<Disk>, after: Disk) {
    after == if trace == [] then before else trace[|trace| - 1]
  }

  lemma EndsInConcat(a: Disk, t: seq<Disk>, b: Disk, u: seq<Disk>, c: Disk)
    requires EndsIn(a, t, b) && EndsIn(b, u, c)
    ensures EndsIn(a, t + u, c)
  {
  }

  lemma {:induction false} AppendsEndIn(disk: Disk, data: Data, blocks: seq<Data>)
    requires disk.part == Some(data)
    ensures EndsIn(disk, Appends(disk, data, blocks), WithPart(disk, data + Flatten(blocks)))
    decreases |blocks|
  {
    if blocks == [] {
      assert data + Flatten(blocks) == data;
    } else {
      var next := WithPart(disk, data + blocks[0]);
      AppendsEndIn(next, data + blocks[0], blocks[1..]);
      AppendsIgnorePart(disk, next, data + blocks[0], blocks[1..]);
      assert data + Flatten(blocks) == (data + blocks[0]) + Flatten(blocks[1..]);
      assert Appends(disk, data, blocks) == [next] + Appends(disk, data + blocks[0], blocks[1..]);
      EndsInConcat(disk, [next], next, Appends(next, data + blocks[0], blocks[1..]),
                   WithPart(next, data + blocks[0] + Flatten(blocks[1..])));
    }
  }

  lemma {:induction false} AppendsIgnorePart(a: Disk, b: Disk, data: Data, blocks: seq<Data>)
    requires a.saved == b.saved
    ensures Appends(a, data, blocks) == Appends(b, data, blocks)
    decreases |blocks|
  {
    if blocks != [] { AppendsIgnorePart(a, b, data + blocks[0], blocks[1..]); }
  }

  lemma ReceiveEndsIn(job: Job, n: nat, disk: Disk, known: Option<nat>, start: Data, fileLen: nat, chunks: seq<Data>,
                      ending: Ending)
    requires disk.part == Some(start)
    ensures var r := Receive(job, n, disk, known, start, fileLen, chunks, ending); EndsIn(disk, r.trace, DiskOf(r.step))
  {
    BlocksAreChunks([], chunks);
    assert [] + Flatten(chunks) == Flatten(chunks);
    AppendsEndIn(disk, start, Blocks([], chunks));
  }

  function DiskOf(step: Step): Disk {
    match step
    case Again(local) => local.disk
    case Stop(disk, _) => disk
    case Received(disk, _) => disk
  }

  lemma AskEndsIn(job: Job, net: Net, n: nat, disk: Disk, known: Option<nat>)
    ensures var r := Ask(job, net, n, disk, known); EndsIn(disk, r.trace, DiskOf(r.step))
  {
    var resume := LenOf(disk.part);
    var reply := net.reply(n, resume);
    if IsUsed(reply, resume) {
      var fileLen := ExpectedLen(resume, known, reply.length);
      if resume > 0 {
        ReceiveEndsIn(job, n, disk, known, disk.part.value, fileLen, reply.chunks, reply.ending);
      } else {
        var emptied := WithPart(disk, []);
        var r := Receive(job, n, emptied, known, [], fileLen, reply.chunks, reply.ending);
        ReceiveEndsIn(job, n, emptied, known, [], fileLen, reply.chunks, reply.ending);
        EndsInConcat(disk, [emptied], emptied, r.trace, DiskOf(r.step));
      }
    }
  }

  lemma AttemptEndsIn(job: Job, net: Net, n: nat, local: Local)
    ensures var r := Attempt(job, net, n, local); EndsIn(local.disk, r.trace, DiskOf(r.step))
  {
    var known, removed := Learn(net, n, local.known), local.disk.(part := None);
    AskEndsIn(job, net, n, local.disk, known);
    AskEndsIn(job, net, n, removed, known);
    var r := Ask(job, net, n, removed, known);
    EndsInConcat(local.disk, [removed], removed, r.trace, DiskOf(r.step));
  }

  /** The partial file's operations leave the saved file alone until the run succeeds. */
  lemma {:induction false} AttemptsEndIn(job: Job, net: Net, n: nat, local: Local)
    requires 1 <= n <= MAX_DOWNLOAD_ATTEMPTS
    ensures var r := Attempts(job, net, n, local);
            EndsIn(local.disk, r.trace, r.disk) && (r.outcome.Failure? ==> r.disk.saved == local.disk.saved)
    decreases MAX_DOWNLOAD_ATTEMPTS - n
  {
    var a := Attempt(job, net, n, local);
    AttemptEndsIn(job, net, n, local);
    match a.step
    case Again(next) =>
      AttemptsEndIn(job, net, n + 1, next);
      var r := Attempts(job, net, n + 1, next);
      EndsInConcat(local.disk, a.trace, next.disk, r.trace, r.disk);
    case Received(disk, length) =>
      var r := Finish(job, disk, length);
      EndsInConcat(local.disk, a.trace, disk, r.trace, r.disk);
    case Stop(_, _) =>
  }

  lemma IsKeptMeans(job: Job, disk: Disk, told: Option<nat>)
    ensures Cached(job, disk.saved, told) <==> IsKept(job, disk.saved, told)
    ensures !IsKept(job, disk.saved, told) ==> (IsPromoted(disk, told) <==> IsBeginning(job, disk, told))
  {
  }

  /** The last file operation leaves what the run leaves. A failed run leaves the saved file that it found,
      except that a beginning has become the partial file. */
  lemma FailureKeepsTheSavedFile(job: Job, net: Net, disk: Disk)
    ensures EndsIn(disk, Execute(job, net, disk).trace, Execute(job, net, disk).disk)
    ensures Execute(job, net, disk).outcome.Failure? ==>
              Execute(job, net, disk).disk.saved == if IsBeginning(job, disk, net.head(1)) then None else disk.saved
  {
    var known := net.head(1);
    IsKeptMeans(job, disk, known);
    if !Cached(job, disk.saved, known) {
      var start := Promoted(disk, known);
      var r := Attempts(job, net, 1, Local(start, known));
      AttemptsEndIn(job, net, 1, Local(start, known));
      if IsPromoted(disk, known) {
        EndsInConcat(disk, [start], start, r.trace, r.disk);
      } else {
        assert [] + r.trace == r.trace;
      }
    }
  }

  /* ---------- a server that is silent ---------- */

  ghost predicate IsSilent(net: Net) { forall n: nat, resume: nat :: net.reply(n, resume) == NoResponse }

  /** The first length that is told, if any of the attempts from `n` on learns one. */
  function FirstTold(net: Net, n: nat): Option<nat>
    decreases 8 - n
  {
    if n > 8 then None else if net.head(n).Some? then net.head(n) else FirstTold(net, n + 1)
  }

  ghost predicate IsWhole(job: Job, part: Option<Data>, told: Option<nat>) {
    && part.Some? && part.value != [] && told == Some(|part.value|)
    && (job.expected.None? || HasDigest(job, part.value))
  }

  lemma {:induction false} SilentFrom(job: Job, net: Net, n: nat, local: Local)
    requires 1 <= n <= 8 && IsSilent(net)
    ensures var told := if local.known.Some? then local.known else FirstTold(net, if n == 1 then 2 else n);
            Attempts(job, net, n, local).outcome ==
              if IsWhole(job, local.disk.part, told) then Success else Failure(RequestFailed)
    decreases 8 - n
  {
    var known := KnownBy(net, n, local.known);
    var step := Attempt(job, net, n, local).step;
    var disk' := if IsShort(local.disk.part, known) || LenOf(local.disk.part) == 0 then local.disk
                 else local.disk.(part := None);
    if !IsWhole(job, local.disk.part, known) {
      assert step == Failed(n, disk', known, RequestFailed);
      if n < 8 { SilentFrom(job, net, n + 1, Local(disk', known)); }
    }
  }

  /** When no request is ever answered, a run succeeds exactly when the saved file is kept, or the partial
      file is whole by the first length that one of the eight HEAD requests tells. */
  lemma SilentServerSucceedsIff(job: Job, net: Net, disk: Disk)
    requires IsSilent(net)
    ensures Execute(job, net, disk).outcome ==
              if IsKept(job, disk.saved, net.head(1)) || IsWhole(job, disk.part, FirstTold(net, 1))
              then Success else Failure(RequestFailed)
  {
    IsKeptMeans(job, disk, net.head(1));
    if !IsKept(job, disk.saved, net.head(1)) {
      SilentFrom(job, net, 1, Local(Promoted(disk, net.head(1)), net.head(1)));
    }
  }

  /* ---------- the write buffer ---------- */

  /** `blocks` are the chunks grouped: each is a run of consecutive chunks that fills the buffer with its
      last chunk and not before, and what is left over at the end is the last block. */
  ghost predicate GroupsChunks(blocks: seq<Data>, chunks: seq<Data>)
    decreases |blocks|
  {
    if blocks == [] then Flatten(chunks) == []
    else if |blocks[0]| < 1024 * 1024 then |blocks| == 1 && blocks[0] == Flatten(chunks) != []
    else
      exists i: nat | 1 <= i <= |chunks| ::
        && blocks[0] == Flatten(chunks[..i]) && |Flatten(chunks[..i - 1])| < 1024 * 1024
        && GroupsChunks(blocks[1..], chunks[i..])
  }

  /** The buffer is written as soon as it holds a mebibyte, and at the end. */
  lemma {:induction false} BlocksGroupChunks(chunks: seq<Data>, i: nat)
    requires i <= |chunks| && |Flatten(chunks[..i])| < 1024 * 1024
    ensures GroupsChunks(Blocks(Flatten(chunks[..i]), chunks[i..]), chunks)
    decreases |chunks|, |chunks| - i
  {
    var buffer := Flatten(chunks[..i]);
    if i == |chunks| {
      assert chunks[..i] == chunks && chunks[i..] == [];
    } else {
      var filled := buffer + chunks[i];
      assert chunks[..i + 1] == chunks[..i] + [chunks[i]];
      FlattenPush(chunks[..i], chunks[i]);
      assert chunks[i..][0] == chunks[i] && chunks[i..][1..] == chunks[i + 1..];
      if |filled| < 1024 * 1024 {
        BlocksGroupChunks(chunks, i + 1);
      } else {
        var rest := chunks[i + 1..];
        BlocksGroupChunks(rest, 0);
        assert rest[..0] == [] && rest[0..] == rest;
        var blocks := Blocks(buffer, chunks[i..]);
        assert blocks == [filled] + Blocks([], rest) && blocks[1..] == Blocks([], rest);
        assert chunks[..i + 1 - 1] == chunks[..i];
      }
    }
  }
}
