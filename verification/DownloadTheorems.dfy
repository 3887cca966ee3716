/** What a download promises against an honest server, and against any server when a digest is known. */
module DownloadTheorems {
  import opened Wrappers
  import opened Download

  /* ---------- any server: the digest guards the saved file ---------- */

  lemma {:induction false} DigestGuardsAttempts(job: Job, net: Net, n: nat, local: Local)
    requires 1 <= n <= MAX_DOWNLOAD_ATTEMPTS && job.expected.Some?
    ensures var r := Attempts(job, net, n, local); r.outcome == Success ==> DigestIs(job, r.disk.saved)
    decreases MAX_DOWNLOAD_ATTEMPTS - n
  {
    var step := Attempt(job, net, n, local).step;
    if step.Again? { DigestGuardsAttempts(job, net, n + 1, step.local); }
  }

  /** Whatever the server sends and whatever is on disk, a successful download with a known digest
      leaves a saved file of that digest. */
  lemma DigestGuards(job: Job, net: Net, disk: Disk)
    requires job.expected.Some?
    ensures var r := Execute(job, net, disk); r.outcome == Success ==>
              r.disk.saved.Some? && job.digest(r.disk.saved.value) == job.expected.value
  {
    DigestGuardsAttempts(job, net, 1, Local(Promoted(disk, net.head(1)), net.head(1)));
  }

  /* ---------- honest servers ---------- */

  /** A reply whose body goes into the partial file. */
  predicate IsUsed(reply: Reply, resume: nat) {
    reply.Response? && IsSuccess(reply.status) && (resume == 0 || reply.status == 206)
  }

  /** A body that is used continues the content from the requested offset, as a 206 reply to a range
      request must (sections 14.2, 14.4 and 15.3.7 of RFC 9110), and a reported length is right. It may
      stop early, stall or be refused. */
  ghost predicate HonestReply(reply: Reply, resume: nat, content: Data) {
    IsUsed(reply, resume) ==>
      && resume <= |content| && Flatten(reply.chunks) <= content[resume..]
      && (reply.length.Some? ==> reply.length.value == |content| - resume)
  }

  ghost predicate Honest(net: Net, content: Data) {
    && (forall n: nat :: net.head(n).Some? ==> net.head(n).value == |content|)
    && (forall n: nat, resume: nat :: HonestReply(net.reply(n, resume), resume, content))
  }

  ghost predicate Prefixes(disk: Disk, content: Data) {
    disk.part.Some? ==> disk.part.value <= content
  }

  ghost predicate AllPrefixes(trace: seq<Disk>, content: Data) {
    forall i :: 0 <= i < |trace| ==> Prefixes(trace[i], content)
  }

  lemma {:induction false} BlocksAreChunks(buffer: Data, chunks: seq<Data>)
    ensures Flatten(Blocks(buffer, chunks)) == buffer + Flatten(chunks)
    decreases |chunks|
  {
    if chunks == [] {
      assert Flatten([buffer]) == buffer + Flatten<bv8>([]) == buffer;
    } else {
      var filled := buffer + chunks[0];
      assert buffer + Flatten(chunks) == filled + Flatten(chunks[1..]);
      if |filled| >= WRITE_FLUSH_THRESHOLD {
        BlocksAreChunks([], chunks[1..]);
        var rest := Blocks([], chunks[1..]);
        assert ([filled] + rest)[1..] == rest;
      } else {
        BlocksAreChunks(filled, chunks[1..]);
      }
    }
  }

  lemma {:induction false} AppendsPrefixes(disk: Disk, data: Data, blocks: seq<Data>, content: Data)
    requires data + Flatten(blocks) <= content
    ensures AllPrefixes(Appends(disk, data, blocks), content)
    decreases |blocks|
  {
    if blocks != [] {
      assert data + Flatten(blocks) == (data + blocks[0]) + Flatten(blocks[1..]);
      AppendsPrefixes(disk, data + blocks[0], blocks[1..], content);
    }
  }

  lemma PrefixAt(content: Data, start: Data, body: Data)
    requires start <= content && body <= content[|start|..]
    ensures start + body <= content
  {
    assert content == start + content[|start|..];
  }

  ghost predicate StepPrefixes(step: Step, content: Data) {
    match step
    case Again(local) => Prefixes(local.disk, content)
    case Stop(disk, outcome) => Prefixes(disk, content)
    case Received(disk, length) => Prefixes(disk, content) && disk.part.Some?
  }

  lemma ReceivePrefixes(job: Job, n: nat, disk: Disk, known: Option<nat>, start: Data, fileLen: nat, chunks: seq<Data>,
                        ending: Ending, content: Data)
    requires Prefixes(disk, content) && start <= content && Flatten(chunks) <= content[|start|..]
    ensures var r := Receive(job, n, disk, known, start, fileLen, chunks, ending);
            StepPrefixes(r.step, content) && AllPrefixes(r.trace, content)
  {
    BlocksAreChunks([], chunks);
    PrefixAt(content, start, Flatten(chunks));
    assert [] + Flatten(chunks) == Flatten(chunks);
    AppendsPrefixes(disk, start, Blocks([], chunks), content);
  }

  lemma AskPrefixes(job: Job, net: Net, n: nat, disk: Disk, known: Option<nat>, content: Data)
    requires Honest(net, content) && Prefixes(disk, content)
    ensures var r := Ask(job, net, n, disk, known); StepPrefixes(r.step, content) && AllPrefixes(r.trace, content)
  {
    var resume := LenOf(disk.part);
    var reply := net.reply(n, resume);
    assert HonestReply(reply, resume, content);
    if IsUsed(reply, resume) {
      var fileLen := ExpectedLen(resume, known, reply.length);
      if resume > 0 {
        ReceivePrefixes(job, n, disk, known, disk.part.value, fileLen, reply.chunks, reply.ending, content);
      } else {
        assert content[0..] == content;
        ReceivePrefixes(job, n, WithPart(disk, []), known, [], fileLen, reply.chunks, reply.ending, content);
      }
    }
  }

  lemma AttemptPrefixes(job: Job, net: Net, n: nat, local: Local, content: Data)
    requires Honest(net, content) && Prefixes(local.disk, content)
    ensures var r := Attempt(job, net, n, local); StepPrefixes(r.step, content) && AllPrefixes(r.trace, content)
  {
    var known := Learn(net, n, local.known);
    AskPrefixes(job, net, n, local.disk, known, content);
    AskPrefixes(job, net, n, local.disk.(part := None), known, content);
  }

  lemma {:induction false} AttemptsPrefixes(job: Job, net: Net, n: nat, local: Local, content: Data)
    requires 1 <= n <= MAX_DOWNLOAD_ATTEMPTS && Honest(net, content) && Prefixes(local.disk, content)
    ensures AllPrefixes(Attempts(job, net, n, local).trace, content)
    decreases MAX_DOWNLOAD_ATTEMPTS - n
  {
    AttemptPrefixes(job, net, n, local, content);
    var step := Attempt(job, net, n, local).step;
    if step.Again? { AttemptsPrefixes(job, net, n + 1, step.local, content); }
  }

  /** The initial files: a partial file, or a saved file about to be resumed, holds the beginning of the
      content. */
  ghost predicate StartsRight(net: Net, disk: Disk, content: Data) {
    Prefixes(Promoted(disk, net.head(1)), content)
  }

  /** At every point of every attempt, under any pattern of refusals, stalls, short bodies and replies
      that are not 206, the partial file is a prefix of the content. */
  lemma PartialIsAlwaysAPrefix(job: Job, net: Net, disk: Disk, content: Data)
    requires Honest(net, content) && StartsRight(net, disk, content)
    ensures AllPrefixes(Execute(job, net, disk).trace, content)
  {
    AttemptsPrefixes(job, net, 1, Local(Promoted(disk, net.head(1)), net.head(1)), content);
  }
}
