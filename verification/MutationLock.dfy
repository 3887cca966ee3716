/** `ClusterMutationLock` as an interleaved protocol over one lock file: its steps, what every run keeps,
    and what goes wrong when the stale check and the removal are apart. */
module MutationLock {
  import opened Wrappers
  import opened Text
  import opened TextLines

  /* ---------- names and contents ---------- */

  predicate IsNameChar(c: char) {
    'a' <= c <= 'z' || 'A' <= c <= 'Z' || '0' <= c <= '9' || c == '-' || c == '_'
  }

  function Sanitize(cluster: string): (name: string)
    ensures |name| == |cluster|
    ensures forall i :: 0 <= i < |name| ==> IsNameChar(name[i]) && (IsNameChar(cluster[i]) ==> name[i] == cluster[i])
  {
    seq(|cluster|, i requires 0 <= i < |cluster| => if IsNameChar(cluster[i]) then cluster[i] else '_')
  }

  /** Two clusters share a lock file exactly when they differ only where both characters become `_`. */
  lemma SameLockIff(a: string, b: string)
    ensures Sanitize(a) == Sanitize(b) <==>
              |a| == |b| && forall i :: 0 <= i < |a| ==>
                a[i] == b[i] || ((a[i] == '_' || !IsNameChar(a[i])) && (b[i] == '_' || !IsNameChar(b[i])))
  {
    if Sanitize(a) == Sanitize(b) {
      forall i | 0 <= i < |a|
        ensures a[i] == b[i] || ((a[i] == '_' || !IsNameChar(a[i])) && (b[i] == '_' || !IsNameChar(b[i])))
      {
        assert Sanitize(a)[i] == Sanitize(b)[i];
      }
    }
  }

  /** The ends of the ranges of letters and digits are kept, and their neighbours are not. */
  lemma NameCharacters()
    ensures Sanitize("azAZ09-_") == "azAZ09-_" && Sanitize("`{@[/:. ") == "________"
  {
  }

  function LockText(pid: nat, cluster: string, command: string, createdAt: string): string {
    "pid=" + Decimal(pid) + "\n" + ("cluster=" + cluster + "\ncommand=" + command + "\ncreated_at=" + createdAt + "\n")
  }

  function FirstPid(lines: seq<string>): Option<nat> {
    if lines == [] then None
    else
      var here :=
        match StripPrefix(lines[0], "pid=") { case Some(pid) => ParseUnsigned(Trim(pid), U32_MAX) case None => None };
      if here.Some? then here else FirstPid(lines[1..])
  }

  function ParsePid(content: string): Option<nat> { FirstPid(Lines(content)) }

  /** The process id is read back whatever the cluster and the command are called; an empty file names
      no process. */
  lemma PidIsReadBack(pid: nat, cluster: string, command: string, createdAt: string)
    requires pid <= U32_MAX
    ensures ParsePid(LockText(pid, cluster, command, createdAt)) == Some(pid)
    ensures ParsePid("") == None
  {
    var head := "pid=" + Decimal(pid);
    var rest := "cluster=" + cluster + "\ncommand=" + command + "\ncreated_at=" + createdAt + "\n";
    assert LockText(pid, cluster, command, createdAt) == head + ['\n'] + rest;
    HeadLine(pid);
    FirstLine(head, rest);
    ParseDecimal(pid, U32_MAX);
    DecimalIsWord(pid);
    WordIsTight(Decimal(pid));
    TightTrim(Decimal(pid));
    assert head[4..] == Decimal(pid);
  }

  /** The line names the process: `pid=` and, in any white space, a 32-bit number. */
  ghost predicate NamesPid(line: string, pid: nat) {
    exists rest: string :: line == "pid=" + rest && ParseUnsigned(Trim(rest), 0xFFFF_FFFF) == Some(pid)
  }

  /** Lines that name no process are passed over; the first that does counts. */
  lemma {:induction false} FirstNamedCounts(lines: seq<string>, pid: nat)
    ensures FirstPid(lines) == Some(pid) <==>
              exists i :: 0 <= i < |lines| && NamesPid(lines[i], pid)
                          && forall j, p :: 0 <= j < i ==> !NamesPid(lines[j], p)
  {
    if lines != [] {
      var rest := lines[1..];
      NamedLine(lines[0]);
      FirstNamedCounts(rest, pid);
      if i :| 0 <= i < |rest| && NamesPid(rest[i], pid) && forall j, p :: 0 <= j < i ==> !NamesPid(rest[j], p) {
        assert NamesPid(lines[i + 1], pid);
        if forall p :: !NamesPid(lines[0], p) {
          forall j, p | 0 <= j < i + 1 ensures !NamesPid(lines[j], p) {
            if j > 0 { assert lines[j] == rest[j - 1]; }
          }
        }
      }
      if i :| 0 <= i < |lines| && NamesPid(lines[i], pid) && forall j, p :: 0 <= j < i ==> !NamesPid(lines[j], p) {
        if i > 0 {
          assert NamesPid(rest[i - 1], pid) && forall j :: 0 <= j < i - 1 ==> rest[j] == lines[j + 1];
          assert forall p :: !NamesPid(lines[0], p);
        }
      }
    }
  }

  /** What the first line contributes. */
  lemma NamedLine(line: string)
    ensures match FirstPid([line])
            case Some(pid) => NamesPid(line, pid) && forall p :: NamesPid(line, p) ==> p == pid
            case None => forall p :: !NamesPid(line, p)
  {
    assert [line][1..] == [] && FirstPid([line][1..]) == None;
    forall p: nat | NamesPid(line, p) ensures FirstPid([line]) == Some(p) {
      var rest: string :| line == "pid=" + rest && ParseUnsigned(Trim(rest), 0xFFFF_FFFF) == Some(p);
      assert line[4..] == rest;
    }
    if FirstPid([line]).Some? {
      assert "pid=" <= line && line == "pid=" + line[4..];
    }
  }

  lemma HeadLine(pid: nat)
    ensures FreeOf("pid=" + Decimal(pid), {'\n'}) && WithoutCr("pid=" + Decimal(pid)) == "pid=" + Decimal(pid)
  {
    var digits := Decimal(pid);
    var head := "pid=" + digits;
    assert IsDigit(head[|head| - 1]);
    forall i | 0 <= i < |head| ensures head[i] !in {'\n'} {
      if i >= 4 { assert head[i] == digits[i - 4] && IsDigit(digits[i - 4]); }
    }
  }

  lemma FirstLine(head: string, rest: string)
    requires FreeOf(head, {'\n'}) && WithoutCr(head) == head
    ensures Lines(head + ['\n'] + rest) != [] && Lines(head + ['\n'] + rest)[0] == head
  {
    SplitAt(head, '\n', rest, {'\n'});
    SplitFree(head, {'\n'});
    var pieces := [head] + Split(rest, {'\n'});
    assert LinesOf(pieces) == [WithoutCr(pieces[0])] + LinesOf(pieces[1..]);
  }

  /* ---------- the protocol ---------- */

  type ProcessId = nat

  /** What the lock file says: nothing yet, or the process id it was written with. */
  datatype Content = Blank | Pid(pid: nat)

  datatype LockFile = LockFile(creator: ProcessId, content: Content)

  /** Where a process is in `acquire`: outside, between creating and writing the file, or holding the
      lock. */
  datatype Phase = Outside | Writing | Holding

  /** A process has an identity of its own; its pid may be used again when it is dead. */
  datatype Process = Process(pid: nat, alive: bool, phase: Phase)

  datatype State = State(file: Option<LockFile>, processes: map<ProcessId, Process>)

  datatype Step =
    | Spawn(id: ProcessId, pid: nat)
    | Create(id: ProcessId)
    | Write(id: ProcessId)
    | WriteFails(id: ProcessId)
    | Release(id: ProcessId)
    | Die(id: ProcessId)
    | RemoveStale(id: ProcessId)

  predicate IsLive(s: State, id: ProcessId) { id in s.processes && s.processes[id].alive }

  /** Some live process has the pid: `/proc/<pid>` exists. */
  ghost predicate PidIsLive(s: State, pid: nat) { exists id :: IsLive(s, id) && s.processes[id].pid == pid }

  predicate IsIn(s: State, id: ProcessId, phase: Phase) { IsLive(s, id) && s.processes[id].phase == phase }

  /** A live process that created the file and has not given it up. */
  predicate IsActive(s: State, id: ProcessId) { IsIn(s, id, Writing) || IsIn(s, id, Holding) }

  ghost predicate IsStale(s: State) {
    s.file.Some? && s.file.value.content.Pid? && !PidIsLive(s, s.file.value.content.pid)
  }

  function Moved(s: State, id: ProcessId, phase: Phase): State
    requires id in s.processes
  {
    s.(processes := s.processes[id := s.processes[id].(phase := phase)])
  }

  ghost predicate Enabled(s: State, step: Step) {
    match step
    case Spawn(id, pid) => id !in s.processes && !PidIsLive(s, pid)
    case Create(id) => IsIn(s, id, Outside) && s.file.None?
    case Write(id) => IsIn(s, id, Writing)
    case WriteFails(id) => IsIn(s, id, Writing)
    case Release(id) => IsIn(s, id, Holding)
    case Die(id) => IsLive(s, id)
    case RemoveStale(id) => IsIn(s, id, Outside) && IsStale(s)
  }

  /** Writing goes to the file that the process created, if that is still the one on disk; releasing
      removes whatever file is there. */
  ghost function Apply(s: State, step: Step): State
    requires Enabled(s, step)
  {
    match step
    case Spawn(id, pid) => s.(processes := s.processes[id := Process(pid, true, Outside)])
    case Create(id) => Moved(s, id, Writing).(file := Some(LockFile(id, Blank)))
    case Write(id) =>
      var own := s.file.Some? && s.file.value.creator == id;
      Moved(s, id, Holding).(file := if own then Some(LockFile(id, Pid(s.processes[id].pid))) else s.file)
    case WriteFails(id) => Moved(s, id, Outside)
    case Release(id) => Moved(s, id, Outside).(file := None)
    case Die(id) => s.(processes := s.processes[id := s.processes[id].(alive := false)])
    case RemoveStale(id) => s.(file := None)
  }

  /** A step moves no process but its own. The file comes by a creation, blank and its creator's; its
      content comes by its creator's write; it goes by a release or as a stale one. */
  lemma WhatAStepChanges(s: State, step: Step)
    requires Enabled(s, step)
    ensures var t := Apply(s, step);
            && (forall id :: id != step.id ==> (id in t.processes <==> id in s.processes))
            && (forall id :: id != step.id && id in s.processes ==> t.processes[id] == s.processes[id])
            && (s.file.None? && t.file.Some? ==> step == Create(step.id) && t.file.value == LockFile(step.id, Blank))
            && (s.file.Some? && t.file.Some? && t.file != s.file ==>
                  && step == Write(s.file.value.creator) && IsIn(t, step.id, Holding)
                  && t.file.value == LockFile(step.id, Pid(s.processes[step.id].pid)))
            && (s.file.Some? && t.file.None? ==> step.Release? || (step.RemoveStale? && IsStale(s)))
  {
  }

  ghost predicate Runs(s: State, steps: seq<Step>, t: State)
    decreases |steps|
  {
    if steps == [] then s == t else Enabled(s, steps[0]) && Runs(Apply(s, steps[0]), steps[1..], t)
  }

  const INITIAL: State := State(None, map[])

  /* ---------- what every step keeps ---------- */

  ghost predicate LivePidsDiffer(s: State) {
    forall a, b :: IsLive(s, a) && IsLive(s, b) && s.processes[a].pid == s.processes[b].pid ==> a == b
  }

  /** An active process created the file that is on disk; once it holds the lock the file names it. */
  ghost predicate OwnsFile(s: State, id: ProcessId) {
    IsLive(s, id) && s.processes[id].phase != Outside ==>
      && s.file.Some? && s.file.value.creator == id
      && (s.processes[id].phase == Holding ==> s.file.value.content == Pid(s.processes[id].pid))
  }

  ghost predicate ActiveOwnsFile(s: State) { forall id :: OwnsFile(s, id) }

  /** The file has a creator, and a pid in it was written by that creator. */
  ghost predicate FileNamesCreator(s: State) {
    s.file.Some? ==>
      && s.file.value.creator in s.processes
      && (s.file.value.content.Pid? ==> s.processes[s.file.value.creator].pid == s.file.value.content.pid)
  }

  ghost predicate Inv(s: State) { LivePidsDiffer(s) && ActiveOwnsFile(s) && FileNamesCreator(s) }

  lemma ActiveMeansLive(s: State, id: ProcessId)
    requires Inv(s) && IsActive(s, id) && s.file.Some? && s.file.value.content.Pid?
    ensures PidIsLive(s, s.file.value.content.pid)
  {
    assert OwnsFile(s, id) && IsLive(s, id);
  }

  /** No live process stands behind a stale file. */
  lemma StaleHasNoOwner(s: State)
    requires Inv(s) && IsStale(s)
    ensures forall id :: !IsActive(s, id)
  {
    forall id ensures !IsActive(s, id) {
      if IsActive(s, id) { ActiveMeansLive(s, id); }
    }
  }

  lemma RemovedKeepsInv(s: State)
    requires Inv(s) && forall id :: !IsActive(s, id)
    ensures Inv(s.(file := None))
  {
    var t := s.(file := None);
    assert forall id :: IsLive(t, id) <==> IsLive(s, id);
    forall id ensures OwnsFile(t, id) { assert !IsActive(s, id); }
  }

  lemma StepKeepsOwner(s: State, step: Step, id: ProcessId)
    requires Inv(s) && Enabled(s, step) && !step.RemoveStale?
    ensures OwnsFile(Apply(s, step), id)
  {
    assert OwnsFile(s, id) && OwnsFile(s, step.id);
  }

  lemma StepKeepsPids(s: State, step: Step)
    requires LivePidsDiffer(s) && Enabled(s, step)
    ensures LivePidsDiffer(Apply(s, step))
  {
    var t := Apply(s, step);
    forall a, b | IsLive(t, a) && IsLive(t, b) && t.processes[a].pid == t.processes[b].pid ensures a == b {
      assert IsLive(s, a) || (step.Spawn? && a == step.id);
      assert IsLive(s, b) || (step.Spawn? && b == step.id);
    }
  }

  lemma StepKeepsInv(s: State, step: Step)
    requires Inv(s) && Enabled(s, step)
    ensures Inv(Apply(s, step))
  {
    if step.RemoveStale? {
      StaleHasNoOwner(s);
      RemovedKeepsInv(s);
    } else {
      StepKeepsPids(s, step);
      forall id ensures OwnsFile(Apply(s, step), id) { StepKeepsOwner(s, step, id); }
    }
  }

  lemma {:induction false} RunKeepsInv(s: State, steps: seq<Step>, t: State)
    requires Inv(s) && Runs(s, steps, t)
    ensures Inv(t)
    decreases |steps|
  {
    if steps != [] {
      StepKeepsInv(s, steps[0]);
      RunKeepsInv(Apply(s, steps[0]), steps[1..], t);
    }
  }

  /** In every interleaving at most one live process holds the lock, and the file on disk is the one it
      created, naming its pid. */
  lemma LockIsExclusive(steps: seq<Step>, t: State)
    requires Runs(INITIAL, steps, t)
    ensures forall a, b :: IsIn(t, a, Holding) && IsIn(t, b, Holding) ==> a == b
    ensures forall a :: IsIn(t, a, Holding) ==> t.file == Some(LockFile(a, Pid(t.processes[a].pid)))
  {
    RunKeepsInv(INITIAL, steps, t);
    forall a | IsIn(t, a, Holding) ensures t.file == Some(LockFile(a, Pid(t.processes[a].pid))) {
      assert OwnsFile(t, a);
    }
  }

  /* ---------- what becomes of a lock whose process is gone ---------- */

  /** A file left blank by a process that died before it wrote, or that failed to write. */
  ghost predicate Abandoned(s: State) {
    && s.file.Some? && s.file.value.content.Blank?
    && !IsIn(s, s.file.value.creator, Writing) && s.file.value.creator in s.processes
  }

  /** A death between creating and writing the file leaves it so. */
  lemma AbandonedIsReachable(pid: nat) returns (t: State)
    ensures Runs(INITIAL, [Spawn(0, pid), Create(0), Die(0)], t) && Abandoned(t)
  {
    var s1 := State(None, map[0 := Process(pid, true, Outside)]);
    var s2 := State(Some(LockFile(0, Blank)), map[0 := Process(pid, true, Writing)]);
    t := State(Some(LockFile(0, Blank)), map[0 := Process(pid, false, Writing)]);
    assert Apply(INITIAL, Spawn(0, pid)) == s1 && Apply(s1, Create(0)) == s2 && Apply(s2, Die(0)) == t;
    assert [Spawn(0, pid), Create(0), Die(0)][1..] == [Create(0), Die(0)];
    assert [Create(0), Die(0)][1..] == [Die(0)] && [Die(0)][1..] == [];
    assert Runs(s2, [Die(0)], t);
    assert Runs(s1, [Create(0), Die(0)], t);
  }

  lemma AbandonedStays(s: State, step: Step)
    requires Inv(s) && Abandoned(s) && Enabled(s, step)
    ensures Abandoned(Apply(s, step)) && Apply(s, step).file == s.file
  {
    assert OwnsFile(s, step.id);
  }

  /** Such a file is there for ever: no process can take the lock again in any continuation. */
  lemma {:induction false} AbandonedForever(s: State, steps: seq<Step>, t: State)
    requires Inv(s) && Abandoned(s) && Runs(s, steps, t)
    ensures t.file == s.file && forall id :: !IsActive(t, id)
    decreases |steps|
  {
    if steps == [] {
      forall id ensures !IsActive(t, id) { assert OwnsFile(t, id); }
    } else {
      StepKeepsInv(s, steps[0]);
      AbandonedStays(s, steps[0]);
      AbandonedForever(Apply(s, steps[0]), steps[1..], t);
    }
  }

  /* ---------- when the lock can still be taken ---------- */

  lemma {:induction false} RunsOn(s: State, a: seq<Step>, t: State, b: seq<Step>, u: State)
    requires Runs(s, a, t) && Runs(t, b, u)
    ensures Runs(s, a + b, u)
    decreases |a|
  {
    if a == [] {
      assert a + b == b;
    } else {
      assert (a + b)[1..] == a[1..] + b;
      RunsOn(Apply(s, a[0]), a[1..], t, b, u);
    }
  }

  lemma OneStep(s: State, step: Step)
    requires Enabled(s, step)
    ensures Runs(s, [step], Apply(s, step))
  {
    assert [step][1..] == [];
  }

  lemma {:induction false} UnusedNumber(used: set<nat>) returns (n: nat)
    ensures n !in used && forall u :: u in used ==> u < n
  {
    if used == {} {
      n := 0;
    } else {
      var u :| u in used;
      var m := UnusedNumber(used - {u});
      n := if u < m then m else u + 1;
      forall v | v in used ensures v < n { assert v == u || v in used - {u}; }
    }
  }

  /** Some continuation ends with a process that holds the lock. */
  ghost predicate CanBeHeld(s: State) {
    exists steps, t, id :: Runs(s, steps, t) && IsIn(t, id, Holding)
  }

  lemma HeldAfter(s: State, steps: seq<Step>, t: State)
    requires Runs(s, steps, t) && CanBeHeld(t)
    ensures CanBeHeld(s)
  {
    var more, u, id :| Runs(t, more, u) && IsIn(u, id, Holding);
    RunsOn(s, steps, t, more, u);
  }

  lemma WriterHolds(s: State, id: ProcessId)
    requires IsIn(s, id, Writing)
    ensures CanBeHeld(s)
  {
    OneStep(s, Write(id));
    assert IsIn(Apply(s, Write(id)), id, Holding);
  }

  /** A new process, with an id and a pid that nothing has used. */
  lemma NewProcess(s: State) returns (id: ProcessId, t: State)
    ensures IsIn(t, id, Outside) && t.file == s.file && Runs(s, [Spawn(id, t.processes[id].pid)], t)
    ensures forall pid :: PidIsLive(t, pid) ==> PidIsLive(s, pid) || pid == t.processes[id].pid
    ensures s.file.Some? && s.file.value.content.Pid? ==> t.processes[id].pid != s.file.value.content.pid
  {
    id := UnusedNumber(s.processes.Keys);
    var named := if s.file.Some? && s.file.value.content.Pid? then {s.file.value.content.pid} else {};
    var pid := UnusedNumber((set p | p in s.processes :: s.processes[p].pid) + named);
    t := Apply(s, Spawn(id, pid));
    OneStep(s, Spawn(id, pid));
    forall q | PidIsLive(t, q) ensures PidIsLive(s, q) || q == pid {
      var p :| IsLive(t, p) && t.processes[p].pid == q;
      if p != id { assert IsLive(s, p) && s.processes[p].pid == q; }
    }
  }

  lemma FreeLockIsHeld(s: State)
    requires s.file.None?
    ensures CanBeHeld(s)
  {
    var id, t := NewProcess(s);
    OneStep(t, Create(id));
    var u := Apply(t, Create(id));
    WriterHolds(u, id);
    HeldAfter(t, [Create(id)], u);
    HeldAfter(s, [Spawn(id, t.processes[id].pid)], t);
  }

  lemma StaleLockIsHeld(s: State)
    requires IsStale(s)
    ensures CanBeHeld(s)
  {
    var id, t := NewProcess(s);
    OneStep(t, RemoveStale(id));
    var u := Apply(t, RemoveStale(id));
    FreeLockIsHeld(u);
    HeldAfter(t, [RemoveStale(id)], u);
    HeldAfter(s, [Spawn(id, t.processes[id].pid)], t);
  }

  /** When the one live process with the pid in the file dies, the file is stale. */
  lemma NamedLockIsHeld(s: State)
    requires Inv(s) && s.file.Some? && s.file.value.content.Pid?
    ensures CanBeHeld(s)
  {
    var pid := s.file.value.content.pid;
    if PidIsLive(s, pid) {
      var id :| IsLive(s, id) && s.processes[id].pid == pid;
      OneStep(s, Die(id));
      var t := Apply(s, Die(id));
      forall other ensures !(IsLive(t, other) && t.processes[other].pid == pid) {
        assert IsLive(t, other) ==> other != id && IsLive(s, other);
      }
      assert !PidIsLive(t, pid);
      StaleLockIsHeld(t);
      HeldAfter(s, [Die(id)], t);
    } else {
      StaleLockIsHeld(s);
    }
  }

  /** From any state that a run reaches, the lock can be held again in some continuation exactly when
      the file is not an abandoned one: a crash is recovered from unless it fell between creating and
      writing the file, or the write failed. */
  lemma LockIsRecoverableIff(before: seq<Step>, s: State)
    requires Runs(INITIAL, before, s)
    ensures CanBeHeld(s) <==> !Abandoned(s)
  {
    RunKeepsInv(INITIAL, before, s);
    if Abandoned(s) {
      forall steps, t, id | Runs(s, steps, t) ensures !IsIn(t, id, Holding) {
        AbandonedForever(s, steps, t);
        assert !IsActive(t, id);
      }
    } else if s.file.None? {
      FreeLockIsHeld(s);
    } else if s.file.value.content.Pid? {
      NamedLockIsHeld(s);
    } else {
      WriterHolds(s, s.file.value.creator);
    }
  }

  /** After a release there is no file, nobody is in possession, and any live process outside can create
      the file at once. */
  lemma ReleaseFreesTheLock(before: seq<Step>, s: State, id: ProcessId)
    requires Runs(INITIAL, before, s) && Enabled(s, Release(id))
    ensures var t := Apply(s, Release(id));
            && t.file.None? && (forall other :: !IsActive(t, other))
            && (forall other :: IsLive(t, other) ==> Enabled(t, Create(other)))
  {
    RunKeepsInv(INITIAL, before, s);
    var t := Apply(s, Release(id));
    StepKeepsInv(s, Release(id));
    forall other
      ensures !IsActive(t, other) && (IsLive(t, other) ==> IsIn(t, other, Outside))
    {
      assert OwnsFile(t, other);
      if IsLive(t, other) { assert t.processes[other].phase == Outside; }
    }
  }

  /* ---------- the stale check and the removal apart ---------- */

  /** The program checks and then removes, and other processes may step in between: `checked` holds the
      processes that found the file stale and have not removed it yet. */
  datatype FineState = FineState(s: State, checked: set<ProcessId>)

  datatype FineStep = Plain(step: Step) | Check(id: ProcessId) | Remove(id: ProcessId)

  ghost predicate FineEnabled(f: FineState, step: FineStep) {
    match step
    case Plain(p) => Enabled(f.s, p) && !p.RemoveStale? && (p.Create? ==> p.id !in f.checked)
    case Check(id) => IsIn(f.s, id, Outside) && IsStale(f.s)
    case Remove(id) => IsIn(f.s, id, Outside) && id in f.checked
  }

  /** A removal takes away whatever file is there by then. */
  ghost function FineApply(f: FineState, step: FineStep): FineState
    requires FineEnabled(f, step)
  {
    match step
    case Plain(p) => f.(s := Apply(f.s, p))
    case Check(id) => f.(checked := f.checked + {id})
    case Remove(id) => FineState(f.s.(file := None), f.checked - {id})
  }

  ghost predicate FineRuns(f: FineState, steps: seq<FineStep>, t: FineState)
    decreases |steps|
  {
    if steps == [] then f == t else FineEnabled(f, steps[0]) && FineRuns(FineApply(f, steps[0]), steps[1..], t)
  }

  /** A check finds a stale file or does not succeed, and changes nothing. */
  lemma CheckNeedsAStaleFile(f: FineState, id: ProcessId)
    requires FineEnabled(f, Check(id))
    ensures IsStale(f.s) && IsLive(f.s, id) && !IsActive(f.s, id) && FineApply(f, Check(id)).s == f.s
  {
  }

  lemma Then(f: FineState, step: FineStep, rest: seq<FineStep>, t: FineState)
    requires FineEnabled(f, step) && FineRuns(FineApply(f, step), rest, t)
    ensures FineRuns(f, [step] + rest, t)
  {
    assert ([step] + rest)[1..] == rest;
  }

  /** Each removal finds no live process that has taken over the file. */
  ghost predicate Undisturbed(f: FineState, steps: seq<FineStep>)
    decreases |steps|
  {
    steps == [] ||
    (FineEnabled(f, steps[0]) && Undisturbed(FineApply(f, steps[0]), steps[1..])
     && (steps[0].Remove? ==> forall other :: !IsActive(f.s, other)))
  }

  lemma {:induction false} UndisturbedRunKeepsInv(f: FineState, steps: seq<FineStep>, t: FineState)
    requires Inv(f.s) && FineRuns(f, steps, t) && Undisturbed(f, steps)
    ensures Inv(t.s)
    decreases |steps|
  {
    if steps != [] {
      match steps[0] {
        case Plain(p) => StepKeepsInv(f.s, p);
        case Check(_) =>
        case Remove(id) => RemovedKeepsInv(f.s);
      }
      UndisturbedRunKeepsInv(FineApply(f, steps[0]), steps[1..], t);
    }
  }

  lemma {:induction false} FineRunsOn(f: FineState, a: seq<FineStep>, g: FineState, b: seq<FineStep>, t: FineState)
    requires FineRuns(f, a, g) && FineRuns(g, b, t)
    ensures FineRuns(f, a + b, t)
    decreases |a|
  {
    if a == [] {
      assert a + b == b;
    } else {
      assert (a + b)[1..] == a[1..] + b;
      FineRunsOn(FineApply(f, a[0]), a[1..], g, b, t);
    }
  }

  ghost predicate WithoutRemovals(steps: seq<FineStep>) { forall i :: 0 <= i < |steps| ==> !steps[i].Remove? }

  ghost predicate TwoHold(s: State) { exists a, b :: a != b && IsIn(s, a, Holding) && IsIn(s, b, Holding) }

  /** Some continuation, without any further removal, ends with two live processes that hold the lock. */
  ghost predicate LeadsToTwoHolders(f: FineState) {
    exists steps, t :: WithoutRemovals(steps) && FineRuns(f, steps, t) && TwoHold(t.s)
  }

  lemma {:induction false} QuietRunKeepsInv(f: FineState, steps: seq<FineStep>, t: FineState)
    requires Inv(f.s) && FineRuns(f, steps, t) && WithoutRemovals(steps)
    ensures Inv(t.s)
    decreases |steps|
  {
    if steps != [] {
      if steps[0].Plain? { StepKeepsInv(f.s, steps[0].step); }
      QuietRunKeepsInv(FineApply(f, steps[0]), steps[1..], t);
    }
  }

  lemma InvExcludes(s: State)
    requires Inv(s)
    ensures !TwoHold(s)
  {
    forall a, b | IsIn(s, a, Holding) && IsIn(s, b, Holding) ensures a == b { assert OwnsFile(s, a) && OwnsFile(s, b); }
  }

  /** The remover creates its own file and writes it, and the process whose file was removed, if it has
      not written yet, goes on to do so. */
  lemma BothGoOn(f: FineState, id: ProcessId, other: ProcessId)
    requires FineEnabled(f, Remove(id)) && IsActive(f.s, other)
    ensures LeadsToTwoHolders(FineApply(f, Remove(id)))
  {
    var f1 := FineApply(f, Remove(id));
    var f2 := FineApply(f1, Plain(Create(id)));
    var f3 := FineApply(f2, Plain(Write(id)));
    if IsIn(f.s, other, Holding) {
      OneFineStep(f2, Plain(Write(id)));
      Then(f1, Plain(Create(id)), [Plain(Write(id))], f3);
      assert IsIn(f3.s, id, Holding) && IsIn(f3.s, other, Holding);
    } else {
      var t := FineApply(f3, Plain(Write(other)));
      OneFineStep(f3, Plain(Write(other)));
      Then(f2, Plain(Write(id)), [Plain(Write(other))], t);
      Then(f1, Plain(Create(id)), [Plain(Write(id))] + [Plain(Write(other))], t);
      assert IsIn(t.s, id, Holding) && IsIn(t.s, other, Holding);
    }
  }

  /** The first removal of a run that could do harm: after undisturbed ones, a removal opens the way for
      two live processes to hold the lock exactly when some live process has taken over the file since
      the remover checked it. */
  lemma RemovalBreaksIff(before: seq<FineStep>, f: FineState, id: ProcessId)
    requires FineRuns(FineState(INITIAL, {}), before, f) && Undisturbed(FineState(INITIAL, {}), before)
    requires FineEnabled(f, Remove(id))
    ensures LeadsToTwoHolders(FineApply(f, Remove(id))) <==> exists other :: IsActive(f.s, other)
  {
    UndisturbedRunKeepsInv(FineState(INITIAL, {}), before, f);
    var f1 := FineApply(f, Remove(id));
    if other :| IsActive(f.s, other) {
      BothGoOn(f, id, other);
    } else {
      RemovedKeepsInv(f.s);
      forall steps, t | WithoutRemovals(steps) && FineRuns(f1, steps, t) ensures !TwoHold(t.s) {
        QuietRunKeepsInv(f1, steps, t);
        InvExcludes(t.s);
      }
    }
  }

  /** Process 0 died as the holder; processes 1 and 2 are about to acquire. */
  const CRASHED: FineState :=
    FineState(State(Some(LockFile(0, Pid(10))),
                    map[0 := Process(10, false, Holding), 1 := Process(11, true, Outside),
                        2 := Process(12, true, Outside)]), {})

  lemma OneFineStep(f: FineState, step: FineStep)
    requires FineEnabled(f, step)
    ensures FineRuns(f, [step], FineApply(f, step))
  {
    assert [step][1..] == [];
  }

  lemma CrashHappens() returns (steps: seq<FineStep>)
    ensures FineRuns(FineState(INITIAL, {}), steps, CRASHED)
  {
    var f0 := FineState(INITIAL, {});
    var f1 := FineState(State(None, map[0 := Process(10, true, Outside)]), {});
    var f2 := FineState(State(Some(LockFile(0, Blank)), map[0 := Process(10, true, Writing)]), {});
    var f3 := FineState(State(Some(LockFile(0, Pid(10))), map[0 := Process(10, true, Holding)]), {});
    var f4 := FineState(State(Some(LockFile(0, Pid(10))), map[0 := Process(10, false, Holding)]), {});
    var f5 := FineState(State(Some(LockFile(0, Pid(10))),
                              map[0 := Process(10, false, Holding), 1 := Process(11, true, Outside)]), {});
    assert FineApply(f0, Plain(Spawn(0, 10))) == f1;
    assert FineApply(f1, Plain(Create(0))) == f2;
    assert FineApply(f2, Plain(Write(0))) == f3;
    assert FineApply(f3, Plain(Die(0))) == f4;
    assert FineApply(f4, Plain(Spawn(1, 11))) == f5;
    assert FineApply(f5, Plain(Spawn(2, 12))) == CRASHED;
    OneFineStep(f5, Plain(Spawn(2, 12)));
    steps := [Plain(Spawn(2, 12))];
    Then(f4, Plain(Spawn(1, 11)), steps, CRASHED);
    steps := [Plain(Spawn(1, 11))] + steps;
    Then(f3, Plain(Die(0)), steps, CRASHED);
    steps := [Plain(Die(0))] + steps;
    Then(f2, Plain(Write(0)), steps, CRASHED);
    steps := [Plain(Write(0))] + steps;
    Then(f1, Plain(Create(0)), steps, CRASHED);
    steps := [Plain(Create(0))] + steps;
    Then(f0, Plain(Spawn(0, 10)), steps, CRASHED);
    steps := [Plain(Spawn(0, 10))] + steps;
  }

  /** Process `id` removes the file it checked, creates its own and writes it. */
  lemma TakesOver(f: FineState, id: ProcessId) returns (steps: seq<FineStep>, t: FineState)
    requires FineEnabled(f, Remove(id))
    ensures FineRuns(f, steps, t) && IsIn(t.s, id, Holding) && t.checked == f.checked - {id}
    ensures t.s.processes == f.s.processes[id := f.s.processes[id].(phase := Holding)]
  {
    var f1 := FineApply(f, Remove(id));
    var f2 := FineApply(f1, Plain(Create(id)));
    t := FineApply(f2, Plain(Write(id)));
    OneFineStep(f2, Plain(Write(id)));
    Then(f1, Plain(Create(id)), [Plain(Write(id))], t);
    steps := [Plain(Create(id))] + [Plain(Write(id))];
    Then(f, Remove(id), steps, t);
    steps := [Remove(id)] + steps;
  }

  /** The check and the removal must be one step: two processes that both find a dead holder's file stale
      can both end up holding the lock. */
  lemma SplitRemovalBreaks() returns (steps: seq<FineStep>, t: FineState)
    ensures FineRuns(FineState(INITIAL, {}), steps, t)
    ensures IsIn(t.s, 1, Holding) && IsIn(t.s, 2, Holding)
  {
    var crash := CrashHappens();
    var f1, f2 := FineApply(CRASHED, Check(1)), CRASHED.(checked := {1, 2});
    assert FineApply(f1, Check(2)) == f2;
    OneFineStep(f1, Check(2));
    Then(CRASHED, Check(1), [Check(2)], f2);
    var first, mid := TakesOver(f2, 1);
    var second;
    second, t := TakesOver(mid, 2);
    FineRunsOn(mid, second, t, [], t);
    FineRunsOn(f2, first, mid, second, t);
    FineRunsOn(CRASHED, [Check(1)] + [Check(2)], f2, first + second, t);
    FineRunsOn(FineState(INITIAL, {}), crash, CRASHED, [Check(1)] + [Check(2)] + (first + second), t);
    steps := crash + ([Check(1)] + [Check(2)] + (first + second));
  }
}
