/** Downloads for which enough lengths are told: the saved file is the content, received bytes are kept,
    and one full reply is enough. */
module DownloadResults {
  import opened Wrappers
  import opened Download
  import opened DownloadTheorems

  /** A HEAD request before attempt `n` or earlier was answered. */
  ghost predicate HeadAnswered(net: Net, n: nat) { exists m: nat :: 1 <= m <= n && net.head(m).Some? }

  /** Every body that attempt `n` could use and that has something left to deliver comes with its length. */
  ghost predicate LengthsGiven(net: Net, n: nat, content: Data) {
    forall resume: nat :: resume < |content| && IsUsed(net.reply(n, resume), resume) ==>
      net.reply(n, resume).length.Some?
  }

  /** For each attempt, a length is known by then or its reply tells one. */
  ghost predicate TellsLength(net: Net, content: Data) {
    forall n: nat :: 1 <= n <= MAX_DOWNLOAD_ATTEMPTS ==> HeadAnswered(net, n) || LengthsGiven(net, n, content)
  }

  /** What is known of the length once attempt `n` has asked for it: the right length, or nothing because
      no HEAD request was answered. */
  ghost predicate Knows(net: Net, n: nat, known: Option<nat>, content: Data) {
    && (known.Some? ==> known.value == |content|)
    && (known.None? ==> !HeadAnswered(net, n))
  }

  /** What attempt `n` starts from. */
  ghost predicate Carries(net: Net, n: nat, known: Option<nat>, content: Data) {
    n >= 1 && if n == 1 then known == net.head(1) else Knows(net, n - 1, known, content)
  }

  lemma LearnsRight(net: Net, n: nat, known: Option<nat>, content: Data)
    requires Honest(net, content) && Carries(net, n, known, content)
    ensures Knows(net, n, Learn(net, n, known), content)
  {
  }

  ghost predicate HasDigest(job: Job, data: Data) {
    job.expected.Some? && job.digest(data) == job.expected.value
  }

  /** The saved file that the download settles for. */
  ghost predicate Reusable(job: Job, saved: Option<Data>, content: Data) {
    saved.Some? && (HasDigest(job, saved.value) || (job.expected.None? && |saved.value| == |content|))
  }

  /** Nothing tells anything about the saved file, and it is not empty. */
  ghost predicate IsUnchecked(job: Job, saved: Option<Data>, told: Option<nat>) {
    job.expected.None? && told.None? && saved.Some? && |saved.value| > 0
  }

  /** The saved file is kept without a request: it has the expected digest, or no digest is expected and it
      has the length told, or no length is told either and it is not empty. */
  ghost predicate IsKept(job: Job, saved: Option<Data>, told: Option<nat>) {
    && saved.Some?
    && (|| HasDigest(job, saved.value)
        || (job.expected.None? && told.Some? && |saved.value| == told.value)
        || IsUnchecked(job, saved, told))
  }

  /** A saved file that is not kept, but is a beginning: shorter than the length told, and not empty. */
  ghost predicate IsBeginning(job: Job, disk: Disk, told: Option<nat>) {
    && !IsKept(job, disk.saved, told) && disk.part.None? && disk.saved.Some? && told.Some?
    && 0 < |disk.saved.value| < told.value
  }

  ghost predicate StepRight(job: Job, net: Net, n: nat, before: Disk, step: Step, content: Data) {
    match step
    case Again(local) =>
      local.disk.saved == before.saved && Knows(net, n, local.known, content) && Prefixes(local.disk, content)
    case Stop(disk, Success) =>
      disk.saved == Some(content) || (disk.saved == before.saved && Reusable(job, before.saved, content))
    case Stop(disk, _) => true
    case Received(disk, length) => disk.part == Some(content) && length == |content| && disk.saved == before.saved
  }

  lemma LengthIsRight(net: Net, n: nat, resume: nat, known: Option<nat>, content: Data)
    requires 1 <= n <= MAX_DOWNLOAD_ATTEMPTS && TellsLength(net, content)
    requires Honest(net, content) && Knows(net, n, known, content) && IsUsed(net.reply(n, resume), resume)
    ensures ExpectedLen(resume, known, net.reply(n, resume).length) == |content|
  {
    assert HonestReply(net.reply(n, resume), resume, content);
  }

  lemma PrefixOfSameLength(a: Data, b: Data)
    requires a <= b && |a| >= |b|
    ensures a == b
  {
  }

  lemma ReceiveRight(job: Job, net: Net, n: nat, disk: Disk, known: Option<nat>, start: Data, chunks: seq<Data>,
                     ending: Ending, content: Data)
    requires Prefixes(disk, content) && start <= content && Flatten(chunks) <= content[|start|..]
    requires Knows(net, n, known, content)
    ensures StepRight(job, net, n, disk, Receive(job, n, disk, known, start, |content|, chunks, ending).step, content)
  {
    PrefixAt(content, start, Flatten(chunks));
    var all := start + Flatten(chunks);
    if |all| >= |content| { PrefixOfSameLength(all, content); }
  }

  lemma AskRight(job: Job, net: Net, n: nat, disk: Disk, known: Option<nat>, content: Data)
    requires 1 <= n <= MAX_DOWNLOAD_ATTEMPTS && TellsLength(net, content)
    requires Honest(net, content) && Prefixes(disk, content) && Knows(net, n, known, content)
    ensures StepRight(job, net, n, disk, Ask(job, net, n, disk, known).step, content)
  {
    var resume := LenOf(disk.part);
    var reply := net.reply(n, resume);
    assert HonestReply(reply, resume, content);
    if IsUsed(reply, resume) {
      LengthIsRight(net, n, resume, known, content);
      if resume > 0 {
        ReceiveRight(job, net, n, disk, known, disk.part.value, reply.chunks, reply.ending, content);
      } else {
        assert content[0..] == content;
        ReceiveRight(job, net, n, WithPart(disk, []), known, [], reply.chunks, reply.ending, content);
      }
    }
  }

  lemma AttemptRight(job: Job, net: Net, n: nat, local: Local, content: Data)
    requires 1 <= n <= MAX_DOWNLOAD_ATTEMPTS && TellsLength(net, content)
    requires Honest(net, content) && Prefixes(local.disk, content) && Carries(net, n, local.known, content)
    ensures StepRight(job, net, n, local.disk, Attempt(job, net, n, local).step, content)
  {
    var known := Learn(net, n, local.known);
    LearnsRight(net, n, local.known, content);
    AskRight(job, net, n, local.disk, known, content);
    AskRight(job, net, n, local.disk.(part := None), known, content);
    if Prepare(job, local.disk.part, known) == Whole {
      PrefixOfSameLength(local.disk.part.value, content);
    }
  }

  lemma {:induction false} AttemptsRight(job: Job, net: Net, n: nat, local: Local, content: Data)
    requires 1 <= n <= MAX_DOWNLOAD_ATTEMPTS && TellsLength(net, content)
    requires Honest(net, content) && Prefixes(local.disk, content) && Carries(net, n, local.known, content)
    ensures var r := Attempts(job, net, n, local);
            r.outcome == Success ==>
              || r.disk.saved == Some(content)
              || (r.disk.saved == local.disk.saved && Reusable(job, local.disk.saved, content))
    decreases MAX_DOWNLOAD_ATTEMPTS - n
  {
    AttemptRight(job, net, n, local, content);
    var step := Attempt(job, net, n, local).step;
    if step.Again? { AttemptsRight(job, net, n + 1, step.local, content); }
  }

  /** When enough lengths are told, a successful download leaves the content in the saved file, or keeps a
      saved file it found there: one of the expected digest, of the right length, or, when the HEAD request
      failed and no digest is expected, any that is not empty. */
  lemma SavedIsTheContent(job: Job, net: Net, disk: Disk, content: Data)
    requires Honest(net, content) && StartsRight(net, disk, content) && TellsLength(net, content)
    requires Execute(job, net, disk).outcome == Success
    ensures var saved := Execute(job, net, disk).disk.saved;
            || saved == Some(content)
            || (saved == disk.saved && (Reusable(job, saved, content) || IsUnchecked(job, saved, net.head(1))))
  {
    AttemptsRight(job, net, 1, Local(Promoted(disk, net.head(1)), net.head(1)), content);
  }

  /* ---------- received bytes are kept ---------- */

  ghost predicate Trusted(job: Job, content: Data) {
    job.expected.Some? ==> job.digest(content) == job.expected.value
  }

  function Held(part: Option<Data>): Data { part.GetOr([]) }

  /** Each disk keeps what the partial file held before it; the partial file disappears only when the
      content has been saved. */
  ghost predicate Grows(from: Data, trace: seq<Disk>, content: Data)
    decreases |trace|
  {
    trace == [] ||
    match trace[0].part
    case Some(data) => from <= data && Grows(data, trace[1..], content)
    case None => trace[0].saved == Some(content) && trace[1..] == []
  }

  /** What the partial file holds after a trace that keeps it. */
  ghost predicate LeavesPart(from: Data, trace: seq<Disk>, end: Data)
    decreases |trace|
  {
    if trace == [] then from == end else trace[0].part.Some? && LeavesPart(trace[0].part.value, trace[1..], end)
  }

  lemma {:induction false} GrowsOn(from: Data, a: seq<Disk>, mid: Data, b: seq<Disk>, content: Data)
    requires Grows(from, a, content) && LeavesPart(from, a, mid) && Grows(mid, b, content)
    ensures Grows(from, a + b, content)
    decreases |a|
  {
    if a == [] {
      assert a + b == b;
    } else {
      assert (a + b)[1..] == a[1..] + b;
      GrowsOn(a[0].part.value, a[1..], mid, b, content);
    }
  }

  lemma {:induction false} AppendsGrow(disk: Disk, data: Data, blocks: seq<Data>, content: Data)
    ensures Grows(data, Appends(disk, data, blocks), content)
    ensures LeavesPart(data, Appends(disk, data, blocks), data + Flatten(blocks))
    decreases |blocks|
  {
    if blocks == [] {
      assert data + Flatten(blocks) == data;
    } else {
      assert data + Flatten(blocks) == (data + blocks[0]) + Flatten(blocks[1..]);
      AppendsGrow(disk, data + blocks[0], blocks[1..], content);
      var trace := Appends(disk, data, blocks);
      assert trace[1..] == Appends(disk, data + blocks[0], blocks[1..]);
    }
  }

  ghost predicate AttemptGrows(from: Data, r: Attempted, content: Data) {
    && Grows(from, r.trace, content)
    && (r.step.Again? ==> LeavesPart(from, r.trace, Held(r.step.local.disk.part)))
    && (r.step.Received? ==> r.step.disk.part.Some? && LeavesPart(from, r.trace, r.step.disk.part.value))
  }

  lemma ReceiveGrows(job: Job, n: nat, disk: Disk, known: Option<nat>, start: Data, fileLen: nat, chunks: seq<Data>,
                     ending: Ending, content: Data)
    ensures AttemptGrows(start, Receive(job, n, disk, known, start, fileLen, chunks, ending), content)
  {
    BlocksAreChunks([], chunks);
    assert [] + Flatten(chunks) == Flatten(chunks);
    AppendsGrow(disk, start, Blocks([], chunks), content);
  }

  lemma AskGrows(job: Job, net: Net, n: nat, disk: Disk, known: Option<nat>, content: Data)
    ensures AttemptGrows(Held(disk.part), Ask(job, net, n, disk, known), content)
  {
    var resume := LenOf(disk.part);
    var reply := net.reply(n, resume);
    if IsUsed(reply, resume) {
      var fileLen := ExpectedLen(resume, known, reply.length);
      if resume > 0 {
        ReceiveGrows(job, n, disk, known, disk.part.value, fileLen, reply.chunks, reply.ending, content);
      } else {
        var emptied := WithPart(disk, []);
        var r := Receive(job, n, emptied, known, [], fileLen, reply.chunks, reply.ending);
        ReceiveGrows(job, n, emptied, known, [], fileLen, reply.chunks, reply.ending, content);
        assert Held(disk.part) == [];
        OneMore([], emptied, r.trace, content);
        if r.step.Again? { OneMoreLeaves([], emptied, r.trace, Held(r.step.local.disk.part)); }
        if r.step.Received? { OneMoreLeaves([], emptied, r.trace, r.step.disk.part.value); }
      }
    }
  }

  lemma OneMore(from: Data, d: Disk, trace: seq<Disk>, content: Data)
    requires d.part.Some? && from <= d.part.value && Grows(d.part.value, trace, content)
    ensures Grows(from, [d] + trace, content)
  {
    assert ([d] + trace)[1..] == trace;
  }

  lemma OneMoreLeaves(from: Data, d: Disk, trace: seq<Disk>, end: Data)
    requires d.part.Some? && LeavesPart(d.part.value, trace, end)
    ensures LeavesPart(from, [d] + trace, end)
  {
    assert ([d] + trace)[1..] == trace;
  }

  lemma AttemptKeeps(job: Job, net: Net, n: nat, local: Local, content: Data)
    requires Honest(net, content) && Trusted(job, content) && Prefixes(local.disk, content)
    requires Carries(net, n, local.known, content)
    ensures AttemptGrows(Held(local.disk.part), Attempt(job, net, n, local), content)
  {
    var known, part := Learn(net, n, local.known), local.disk.part;
    LearnsRight(net, n, local.known, content);
    if part.Some? && known.Some? && |part.value| >= known.value { PrefixOfSameLength(part.value, content); }
    assert Prepare(job, part, known) != Unusable;
    if Prepare(job, part, known) == Usable {
      AskGrows(job, net, n, local.disk, known, content);
    } else {
      assert [Renamed(local.disk)][1..] == [];
    }
  }

  lemma FinishSaves(job: Job, disk: Disk, content: Data)
    requires Trusted(job, content) && disk.part == Some(content)
    ensures var r := Finish(job, disk, |content|);
            r.outcome == Success && r.disk == Disk(Some(content), None) && r.trace == [r.disk]
  {
  }

  lemma {:induction false} AttemptsKeep(job: Job, net: Net, n: nat, local: Local, content: Data)
    requires 1 <= n <= MAX_DOWNLOAD_ATTEMPTS && Trusted(job, content) && TellsLength(net, content)
    requires Honest(net, content) && Prefixes(local.disk, content) && Carries(net, n, local.known, content)
    ensures Grows(Held(local.disk.part), Attempts(job, net, n, local).trace, content)
    decreases MAX_DOWNLOAD_ATTEMPTS - n
  {
    var from, a := Held(local.disk.part), Attempt(job, net, n, local);
    AttemptKeeps(job, net, n, local, content);
    AttemptRight(job, net, n, local, content);
    if a.step.Again? {
      AttemptsKeep(job, net, n + 1, a.step.local, content);
      GrowsOn(from, a.trace, Held(a.step.local.disk.part), Attempts(job, net, n + 1, a.step.local).trace, content);
    }
    if a.step.Received? {
      FinishSaves(job, a.step.disk, content);
      var last := Finish(job, a.step.disk, |content|).trace;
      assert last[1..] == [];
      GrowsOn(from, a.trace, content, last, content);
    }
  }

  /** When enough lengths are told, and with the right digest, if any, no received byte is ever given up:
      each disk of the run keeps the partial file before it, until the content is saved. A saved file that
      is a beginning of the content is not given up either. */
  lemma NoByteIsLost(job: Job, net: Net, disk: Disk, content: Data)
    requires Honest(net, content) && StartsRight(net, disk, content) && TellsLength(net, content)
    requires Trusted(job, content)
    ensures Grows(if IsBeginning(job, disk, net.head(1)) then disk.saved.value else Held(disk.part),
                  Execute(job, net, disk).trace, content)
  {
    var start := Promoted(disk, net.head(1));
    AttemptsKeep(job, net, 1, Local(start, net.head(1)), content);
    var trace := Attempts(job, net, 1, Local(start, net.head(1))).trace;
    if IsPromoted(disk, net.head(1)) {
      OneMore([], start, trace, content);
      OneMore(disk.saved.value, start, trace, content);
    } else {
      assert [] + trace == trace;
    }
  }

  /* ---------- one full reply is enough ---------- */

  /** Attempt `n` is answered with the rest of the content, to its end. */
  ghost predicate RepliesInFull(net: Net, n: nat, content: Data) {
    forall resume: nat :: resume <= |content| ==> FullReply(net.reply(n, resume), resume, content)
  }

  ghost predicate FullReply(reply: Reply, resume: nat, content: Data)
    requires resume <= |content|
  {
    && reply.Response? && IsSuccess(reply.status) && (resume > 0 ==> reply.status == 206)
    && Flatten(reply.chunks) == content[resume..] && reply.ending == EndOfBody
  }

  /** Attempt `n` is not refused with an error status. */
  ghost predicate NotRefused(net: Net, n: nat) {
    forall resume: nat :: net.reply(n, resume).Response? ==> IsSuccess(net.reply(n, resume).status)
  }

  lemma NotRefusedGoesOn(job: Job, net: Net, n: nat, local: Local, content: Data)
    requires 1 <= n < MAX_DOWNLOAD_ATTEMPTS && NotRefused(net, n)
    ensures var step := Attempt(job, net, n, local).step; step.Stop? ==> step.outcome == Success
  {
  }

  lemma FullReplyEnds(job: Job, net: Net, n: nat, local: Local, content: Data)
    requires 1 <= n <= MAX_DOWNLOAD_ATTEMPTS && TellsLength(net, content) && Carries(net, n, local.known, content)
    requires Honest(net, content) && Trusted(job, content) && Prefixes(local.disk, content)
    requires RepliesInFull(net, n, content)
    ensures var step := Attempt(job, net, n, local).step; step.Received? || (step.Stop? && step.outcome == Success)
  {
    var known, part := Learn(net, n, local.known), local.disk.part;
    var resume := LenOf(part);
    if part.Some? && known.Some? && |part.value| >= known.value { PrefixOfSameLength(part.value, content); }
    var reply := net.reply(n, resume);
    assert FullReply(reply, resume, content);
    LengthIsRight(net, n, resume, known, content);
    var start := Held(part);
    assert start + content[resume..] == content;
    if resume == 0 { assert start == []; }
  }

  lemma {:induction false} FullReplyIsEnoughFrom(job: Job, net: Net, n: nat, k: nat, local: Local, content: Data)
    requires 1 <= n <= k <= MAX_DOWNLOAD_ATTEMPTS && TellsLength(net, content) && Carries(net, n, local.known, content)
    requires Honest(net, content) && Trusted(job, content) && Prefixes(local.disk, content)
    requires RepliesInFull(net, k, content) && forall m: nat :: n <= m < k ==> NotRefused(net, m)
    ensures Attempts(job, net, n, local).outcome == Success
    decreases k - n
  {
    AttemptRight(job, net, n, local, content);
    if n == k { FullReplyEnds(job, net, n, local, content); } else { NotRefusedGoesOn(job, net, n, local, content); }
    var step := Attempt(job, net, n, local).step;
    if step.Again? && n < k { FullReplyIsEnoughFrom(job, net, n + 1, k, step.local, content); }
    if step.Received? { FinishSaves(job, step.disk, content); }
  }

  /** A saved file that the first check turns down is not settled for later, unless it is the content. */
  lemma TurnedDown(job: Job, net: Net, saved: Option<Data>, content: Data)
    requires Honest(net, content) && !IsKept(job, saved, net.head(1)) && Reusable(job, saved, content)
    ensures saved == Some(content)
  {
    assert content == [] && saved.value == [];
  }

  /** When enough lengths are told, one attempt that is answered in full, after any number of failed,
      stalled or short ones, makes the download succeed: a saved file of the expected digest or of the
      length told, or one about which nothing is told, is kept, and in every other case, an incomplete or
      outdated saved file among them, the content is saved. */
  lemma OneFullReplyIsEnough(job: Job, net: Net, disk: Disk, k: nat, content: Data)
    requires 1 <= k <= MAX_DOWNLOAD_ATTEMPTS
    requires Honest(net, content) && Trusted(job, content) && StartsRight(net, disk, content)
    requires TellsLength(net, content)
    requires RepliesInFull(net, k, content) && forall m: nat :: 1 <= m < k ==> NotRefused(net, m)
    ensures var r := Execute(job, net, disk);
            && r.outcome == Success
            && r.disk.saved == if IsKept(job, disk.saved, net.head(1)) then disk.saved else Some(content)
  {
    if !IsKept(job, disk.saved, net.head(1)) {
      FullReplyIsEnoughFrom(job, net, 1, k, Local(Promoted(disk, net.head(1)), net.head(1)), content);
      SavedIsTheContent(job, net, disk, content);
      if Reusable(job, disk.saved, content) { TurnedDown(job, net, disk.saved, content); }
    }
  }
}
