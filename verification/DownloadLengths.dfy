/** What the length has to do with it: which ways of telling lengths are enough for every honest server,
    and what happens in the attempt that has to do without. */
module DownloadLengths {
  import opened Wrappers
  import opened Download
  import opened DownloadTheorems
  import opened DownloadResults

  /* ---------- the attempt that a run comes to ---------- */

  /** The run comes to attempt `n`, which starts from `local`. */
  ghost predicate ComesTo(job: Job, net: Net, disk: Disk, n: nat, local: Local)
    decreases n
  {
    if n <= 1 then
      n == 1 && !Cached(job, disk.saved, net.head(1)) && local == Local(Promoted(disk, net.head(1)), net.head(1))
    else
      var m := n - 1;
      exists before: Local :: ComesTo(job, net, disk, m, before) && Attempt(job, net, m, before).step == Again(local)
  }

  /** The attempts from there on end as the run does. */
  lemma {:induction false} RestOfRun(job: Job, net: Net, disk: Disk, n: nat, local: Local)
    requires 1 <= n <= MAX_DOWNLOAD_ATTEMPTS && ComesTo(job, net, disk, n, local)
    ensures Execute(job, net, disk).outcome == Attempts(job, net, n, local).outcome
    ensures Execute(job, net, disk).disk == Attempts(job, net, n, local).disk
  {
    if n > 1 {
      var m := n - 1;
      var before: Local :| ComesTo(job, net, disk, m, before) && Attempt(job, net, m, before).step == Again(local);
      RestOfRun(job, net, disk, m, before);
    }
  }

  /* ---------- a resumed body without any length ---------- */

  lemma LengthlessAttempt(job: Job, net: Net, n: nat, local: Local, chunks: seq<Data>)
    requires 1 <= n <= MAX_DOWNLOAD_ATTEMPTS && job.expected.None? && Learn(net, n, local.known).None?
    requires local.disk.part.Some? && local.disk.part.value != []
    requires net.reply(n, |local.disk.part.value|) == Response(206, None, chunks, EndOfBody)
    ensures var part, saved, r := local.disk.part.value, local.disk.saved, Attempts(job, net, n, local);
            var all := part + Flatten(chunks);
            if saved.Some? && |saved.value| == |part| then r.outcome == Success && r.disk == local.disk
            else if Flatten(chunks) == [] then r.outcome == Success && r.disk == Disk(Some(part), None)
            else r.outcome == Failure(SizeMismatch(|part|, |all|)) && r.disk == Disk(saved, Some(all))
  {
    var part, saved := local.disk.part.value, local.disk.saved;
    var all := part + Flatten(chunks);
    assert Flatten(chunks) == [] ==> all == part;
    assert Prepare(job, local.disk.part, None) == Usable;
    assert Attempt(job, net, n, local).step ==
           if saved.Some? && |saved.value| == |part| then Stop(local.disk, Success)
           else Received(WithPart(local.disk, all), |part|);
  }

  /** A 206 body without any length is measured against the bytes already there. In the attempt that ends
      a run this way, whichever it is, the body is refused when it brings anything, the rest of the file
      included; when it brings nothing, the partial file is saved as it is. */
  lemma LengthlessResume(job: Job, net: Net, disk: Disk, n: nat, local: Local, chunks: seq<Data>)
    requires 1 <= n <= MAX_DOWNLOAD_ATTEMPTS && ComesTo(job, net, disk, n, local)
    requires job.expected.None? && Learn(net, n, local.known).None?
    requires local.disk.part.Some? && local.disk.part.value != []
    requires net.reply(n, |local.disk.part.value|) == Response(206, None, chunks, EndOfBody)
    ensures var part, saved, r := local.disk.part.value, local.disk.saved, Execute(job, net, disk);
            var all := part + Flatten(chunks);
            if saved.Some? && |saved.value| == |part| then r.outcome == Success && r.disk == local.disk
            else if Flatten(chunks) == [] then r.outcome == Success && r.disk == Disk(Some(part), None)
            else r.outcome == Failure(SizeMismatch(|part|, |all|)) && r.disk == Disk(saved, Some(all))
  {
    RestOfRun(job, net, disk, n, local);
    LengthlessAttempt(job, net, n, local, chunks);
  }

  /* ---------- a body cut short ---------- */

  /** Which HEAD requests are answered, and which bodies come with their length. */
  datatype Manner = Manner(answersHead: nat -> bool, givesLength: (nat, nat) -> bool)

  ghost predicate Behaves(net: Net, manner: Manner) {
    && (forall n: nat :: net.head(n).Some? <==> manner.answersHead(n))
    && (forall n: nat, resume: nat :: IsUsed(net.reply(n, resume), resume) ==>
          (net.reply(n, resume).length.Some? <==> manner.givesLength(n, resume)))
  }

  /** A server that behaves like that, answers attempt `k` alone, and ends the body that it sends from
      offset `resume` after `body`. */
  function CutNet(manner: Manner, content: Data, k: nat, resume: nat, body: Data): Net {
    Net((n: nat) => if manner.answersHead(n) then Some(|content|) else None,
        (n: nat, r: nat) =>
          if n == k && r == resume then Response(if r > 0 then 206 else 200, None, [body], EndOfBody) else NoResponse)
  }

  /** Before attempt `k` no length is learned and no body is received. */
  lemma {:induction false} Idle(job: Job, manner: Manner, content: Data, k: nat, resume: nat, body: Data, disk: Disk,
                                n: nat)
    requires 1 <= n <= k <= MAX_DOWNLOAD_ATTEMPTS && LenOf(disk.part) == resume && job.expected.None?
    requires forall m: nat :: 1 <= m <= k ==> !manner.answersHead(m)
    ensures var net := CutNet(manner, content, k, resume, body);
            && Attempts(job, net, n, Local(disk, None)).outcome == Attempts(job, net, k, Local(disk, None)).outcome
            && Attempts(job, net, n, Local(disk, None)).disk == Attempts(job, net, k, Local(disk, None)).disk
    decreases k - n
  {
    if n < k {
      var net := CutNet(manner, content, k, resume, body);
      assert Attempt(job, net, n, Local(disk, None)).step == Again(Local(disk, None));
      Idle(job, manner, content, k, resume, body, disk, n + 1);
    }
  }

  /** The disk from which a request at that offset is made. */
  function DiskAt(content: Data, resume: nat): Disk
    requires resume <= |content|
  {
    Disk(None, if resume == 0 then None else Some(content[..resume]))
  }

  lemma CutNetIsHonest(manner: Manner, content: Data, k: nat, resume: nat, body: Data)
    requires resume <= |content| && body <= content[resume..] && !manner.givesLength(k, resume)
    ensures Honest(CutNet(manner, content, k, resume, body), content)
    ensures Behaves(CutNet(manner, content, k, resume, body), manner)
  {
    assert Flatten([body]) == body + Flatten<bv8>([]) == body;
  }

  lemma CutAttempt(job: Job, manner: Manner, content: Data, k: nat, resume: nat, body: Data)
    requires 1 <= k <= MAX_DOWNLOAD_ATTEMPTS && job.expected.None? && !manner.answersHead(k)
    requires resume <= |content| && (resume > 0 ==> body == [])
    ensures var r := Attempts(job, CutNet(manner, content, k, resume, body), k, Local(DiskAt(content, resume), None));
            r.outcome == Success && r.disk.saved == Some(content[..resume] + body)
  {
    var net, disk := CutNet(manner, content, k, resume, body), DiskAt(content, resume);
    assert Flatten([body]) == body + Flatten<bv8>([]) == body;
    assert content[..0] + body == [] + body == body && content[..resume] + [] == content[..resume];
    assert Attempt(job, net, k, Local(disk, None)).step ==
           Received(Disk(None, Some(content[..resume] + body)), resume);
  }

  /** Whatever lengths a server tells elsewhere: if no HEAD request up to attempt `k` is answered, and a
      body of attempt `k` that is to start before the end of the content comes without a length, then an
      honest server of that manner can have a file saved that is not the content. A body from the start
      may be cut anywhere; a resumed one that brings nothing leaves the partial file as it is. */
  lemma TruncationIsAccepted(job: Job, manner: Manner, content: Data, k: nat, resume: nat, body: Data)
    requires 1 <= k <= MAX_DOWNLOAD_ATTEMPTS && job.expected.None?
    requires (forall m: nat :: 1 <= m <= k ==> !manner.answersHead(m)) && !manner.givesLength(k, resume)
    requires resume <= |content| && body <= content[resume..] && (resume > 0 ==> body == [])
    ensures var net, disk := CutNet(manner, content, k, resume, body), DiskAt(content, resume);
            && Honest(net, content) && Behaves(net, manner) && StartsRight(net, disk, content)
            && Execute(job, net, disk).outcome == Success
            && Execute(job, net, disk).disk.saved == Some(content[..resume] + body)
  {
    CutNetIsHonest(manner, content, k, resume, body);
    Idle(job, manner, content, k, resume, body, DiskAt(content, resume), 1);
    CutAttempt(job, manner, content, k, resume, body);
  }

  /* ---------- the exact condition ---------- */

  /** The saved file is the content, or one that was there and passes a check. */
  ghost predicate SavedRightly(job: Job, net: Net, disk: Disk, content: Data) {
    var saved := Execute(job, net, disk).disk.saved;
    || saved == Some(content)
    || (saved == disk.saved && (Reusable(job, saved, content) || IsUnchecked(job, saved, net.head(1))))
  }

  /** A successful download from an honest server of this manner and a right start. */
  ghost predicate Succeeds(job: Job, manner: Manner, net: Net, disk: Disk, content: Data) {
    && Honest(net, content) && Behaves(net, manner) && StartsRight(net, disk, content)
    && Execute(job, net, disk).outcome == Success
  }

  ghost predicate NeverTruncates(job: Job, manner: Manner, content: Data) {
    forall net: Net, disk: Disk :: Succeeds(job, manner, net, disk, content) ==> SavedRightly(job, net, disk, content)
  }

  ghost predicate HeadToldBy(manner: Manner, n: nat) { exists m: nat :: 1 <= m <= n && manner.answersHead(m) }

  ghost predicate BodiesTell(manner: Manner, n: nat, content: Data) {
    forall resume: nat :: resume < |content| ==> manner.givesLength(n, resume)
  }

  /** For each attempt, some HEAD request up to then is answered, or every body that has something left to
      deliver comes with its length. */
  ghost predicate TellsEnough(manner: Manner, content: Data) {
    forall n: nat :: 1 <= n <= MAX_DOWNLOAD_ATTEMPTS ==> HeadToldBy(manner, n) || BodiesTell(manner, n, content)
  }

  lemma EnoughIsTold(net: Net, manner: Manner, content: Data)
    requires Behaves(net, manner) && TellsEnough(manner, content)
    ensures TellsLength(net, content)
  {
    forall n: nat | 1 <= n <= MAX_DOWNLOAD_ATTEMPTS && !LengthsGiven(net, n, content) ensures HeadAnswered(net, n) {
      assert HeadToldBy(manner, n);
      var m: nat :| 1 <= m <= n && manner.answersHead(m);
      assert net.head(m).Some?;
    }
  }

  /** Without an expected digest, downloads save the right file from every honest server of a manner if and
      only if the manner tells enough. */
  lemma SafeExactlyIfEnoughIsTold(job: Job, manner: Manner, content: Data)
    requires job.expected.None?
    ensures NeverTruncates(job, manner, content) <==> TellsEnough(manner, content)
  {
    if TellsEnough(manner, content) {
      forall net: Net, disk: Disk | Succeeds(job, manner, net, disk, content)
        ensures SavedRightly(job, net, disk, content)
      {
        EnoughIsTold(net, manner, content);
        SavedIsTheContent(job, net, disk, content);
      }
    } else {
      var k: nat :| 1 <= k <= MAX_DOWNLOAD_ATTEMPTS && !HeadToldBy(manner, k) && !BodiesTell(manner, k, content);
      var resume: nat :| resume < |content| && !manner.givesLength(k, resume);
      TruncationIsAccepted(job, manner, content, k, resume, []);
      var net, disk := CutNet(manner, content, k, resume, []), DiskAt(content, resume);
      assert |content[..resume] + []| < |content|;
      assert Succeeds(job, manner, net, disk, content) && !SavedRightly(job, net, disk, content);
    }
  }
}
