// dashboard_edge.py: one-use bootstrap records. A record is claimed by renaming it, then read, judged
// and unlinked; any number of calls interleave, and any of them may die between two system calls.
module BootstrapToken {
  import opened Wrappers

  /** A record waits under the digest of its secret; a claimed one under a name of the claiming call. */
  datatype Name = Record(digest: nat) | Claim(digest: nat, token: nat)

  /** An issued record file; until it is written it does not parse. */
  datatype File = File(digest: nat, expires: int, written: bool)

  datatype Phase =
    | Started
    | Seen
    | Holding
    | Read(expires: Option<int>)
    | Judged(answer: bool)
    | Returned(answer: bool)
    | Died

  /** `file` and `judgedAt` record what the call ever claimed and when it compared the clock. */
  datatype Caller = Caller(digest: nat, phase: Phase, file: Option<nat>, judgedAt: Option<int>)

  datatype System = System(names: map<Name, nat>, files: seq<File>, callers: seq<Caller>, now: int)

  datatype Step =
    | Create(digest: nat, ttl: nat)
    | Write(file: nat)
    | Call(digest: nat)
    | Look(i: nat)
    | Rename(i: nat)
    | ReadFile(i: nat)
    | Judge(i: nat)
    | Unlink(i: nat)
    | Die(i: nat)
    | Clock(now: int)

  predicate InPhase(y: System, i: nat, phase: Phase)
  {
    i < |y.callers| && y.callers[i].phase == phase
  }

  predicate Enabled(y: System, step: Step)
  {
    match step
    case Create(digest, ttl) => Record(digest) !in y.names && 1 <= ttl <= 3600
    case Write(file) => file < |y.files|
    case Call(_) => true
    case Look(i) => InPhase(y, i, Started)
    case Rename(i) => InPhase(y, i, Seen)
    case ReadFile(i) => InPhase(y, i, Holding)
    case Judge(i) => i < |y.callers| && y.callers[i].phase.Read?
    case Unlink(i) => i < |y.callers| && y.callers[i].phase.Judged?
    case Die(i) => i < |y.callers| && !y.callers[i].phase.Returned?
    case Clock(_) => true
  }

  function With(y: System, i: nat, c: Caller): System
    requires i < |y.callers|
  {
    y.(callers := y.callers[i := c])
  }

  /** What the claimed name holds, if it is there and parses. */
  function Contents(y: System, name: Name): Option<int>
  {
    if name in y.names && y.names[name] < |y.files| && y.files[y.names[name]].written then Some(y.files[y.names[name]].expires) else None
  }

  function Perform(y: System, step: Step): System
    requires Enabled(y, step)
  {
    match step
    case Create(digest, ttl) =>
      y.(names := y.names[Record(digest) := |y.files|], files := y.files + [File(digest, y.now + ttl, false)])
    case Write(file) => y.(files := y.files[file := y.files[file].(written := true)])
    case Call(digest) => y.(callers := y.callers + [Caller(digest, Started, None, None)])
    case Look(i) =>
      var c := y.callers[i];
      With(y, i, c.(phase := if Record(c.digest) in y.names then Seen else Returned(false)))
    case Rename(i) =>
      var c := y.callers[i];
      if Record(c.digest) in y.names then
        var file := y.names[Record(c.digest)];
        With(y.(names := (y.names - {Record(c.digest)})[Claim(c.digest, i) := file]), i, c.(phase := Holding, file := Some(file)))
      else With(y, i, c.(phase := Returned(false)))
    case ReadFile(i) =>
      var c := y.callers[i];
      With(y, i, c.(phase := Read(Contents(y, Claim(c.digest, i)))))
    case Judge(i) =>
      var c := y.callers[i];
      With(y, i, c.(phase := Judged(c.phase.expires.Some? && c.phase.expires.value > y.now), judgedAt := Some(y.now)))
    case Unlink(i) =>
      var c := y.callers[i];
      With(y.(names := y.names - {Claim(c.digest, i)}), i, c.(phase := Returned(c.phase.answer)))
    case Die(i) => With(y, i, y.callers[i].(phase := Died))
    case Clock(now) => y.(now := now)
  }

  // ---------------------------------------------------------------- invariant

  predicate Accepted(c: Caller)
  {
    (c.phase.Judged? || c.phase.Returned?) && c.phase.answer
  }

  ghost predicate NamesInv(y: System)
  {
    && (forall n :: n in y.names ==> y.names[n] < |y.files| && y.files[y.names[n]].digest == n.digest)
    && (forall n :: n in y.names && n.Claim? ==>
          n.token < |y.callers| && y.callers[n.token].digest == n.digest && y.callers[n.token].file == Some(y.names[n]))
  }

  /** Nobody holds a record that still waits, and no two calls ever held the same one. */
  ghost predicate HoldersInv(y: System)
  {
    && (forall i, n :: 0 <= i < |y.callers| && n in y.names && n.Record? ==> y.callers[i].file != Some(y.names[n]))
    && (forall i, j :: 0 <= i < j < |y.callers| && y.callers[i].file.Some? ==> y.callers[i].file != y.callers[j].file)
    && (forall i :: 0 <= i < |y.callers| ==> CallerInv(y, y.callers[i]))
  }

  ghost predicate CallerInv(y: System, c: Caller)
  {
    && (c.file.Some? ==> c.file.value < |y.files| && y.files[c.file.value].digest == c.digest)
    && (c.phase in {Started, Seen} ==> c.file.None?)
    && (c.phase.Read? && c.phase.expires.Some? ==>
          c.file.Some? && y.files[c.file.value].written && c.phase.expires.value == y.files[c.file.value].expires)
    && (Accepted(c) ==>
          c.file.Some? && y.files[c.file.value].written && c.judgedAt.Some? && c.judgedAt.value < y.files[c.file.value].expires)
  }

  ghost predicate Inv(y: System)
  {
    NamesInv(y) && HoldersInv(y)
  }

  lemma {:induction false} CallerKeepsInv(y: System, i: nat, c: Caller)
    requires Inv(y) && i < |y.callers| && c.digest == y.callers[i].digest && c.file == y.callers[i].file && CallerInv(y, c)
    ensures Inv(With(y, i, c))
  {
  }

  lemma {:induction false} RenameKeepsInv(y: System, i: nat)
    requires Inv(y) && Enabled(y, Rename(i)) && Record(y.callers[i].digest) in y.names
    ensures Inv(Perform(y, Rename(i)))
  {
    var z := Perform(y, Rename(i));
    var file := y.names[Record(y.callers[i].digest)];
    assert z.callers[i].file == Some(file) && Claim(y.callers[i].digest, i) in z.names;
    forall n | n in z.names && n.Record? ensures y.names[n] != file {
      assert y.files[file].digest == y.callers[i].digest;
    }
  }

  lemma {:induction false} CreateKeepsInv(y: System, digest: nat, ttl: nat)
    requires Inv(y) && Enabled(y, Create(digest, ttl))
    ensures Inv(Perform(y, Create(digest, ttl)))
  {
    var z := Perform(y, Create(digest, ttl));
    forall i | 0 <= i < |z.callers| ensures CallerInv(z, z.callers[i]) {
      assert CallerInv(y, y.callers[i]);
    }
  }

  lemma {:induction false} WriteKeepsInv(y: System, file: nat)
    requires Inv(y) && file < |y.files|
    ensures Inv(Perform(y, Write(file)))
  {
    var z := Perform(y, Write(file));
    forall i | 0 <= i < |z.callers| ensures CallerInv(z, z.callers[i]) {
      assert CallerInv(y, y.callers[i]);
    }
  }

  lemma {:induction false} StepKeepsInv(y: System, step: Step)
    requires Inv(y) && Enabled(y, step)
    ensures Inv(Perform(y, step))
  {
    var z := Perform(y, step);
    match step
    case Create(digest, ttl) => CreateKeepsInv(y, digest, ttl);
    case Write(file) => WriteKeepsInv(y, file);
    case Call(digest) =>
    case Rename(i) =>
      if Record(y.callers[i].digest) in y.names {
        RenameKeepsInv(y, i);
      } else {
        CallerKeepsInv(y, i, z.callers[i]);
      }
    case Unlink(i) => UnlinkKeepsInv(y, i);
    case Clock(now) =>
    case _ => CallStepKeepsInv(y, step);
  }

  // The steps that change only where a call stands.
  lemma {:induction false} CallStepKeepsInv(y: System, step: Step)
    requires Inv(y) && Enabled(y, step) && (step.Look? || step.ReadFile? || step.Judge? || step.Die?)
    ensures Inv(Perform(y, step))
  {
    assert CallerInv(y, y.callers[step.i]);
    CallerKeepsInv(y, step.i, Perform(y, step).callers[step.i]);
  }

  lemma {:induction false} UnlinkKeepsInv(y: System, i: nat)
    requires Inv(y) && Enabled(y, Unlink(i))
    ensures Inv(Perform(y, Unlink(i)))
  {
    var z := Perform(y, Unlink(i));
    assert CallerInv(y, y.callers[i]);
    CallerKeepsInv(y.(names := z.names), i, z.callers[i]);
  }

  /** What a call has claimed it keeps, and what it answered stays. */
  ghost predicate Later(y: System, z: System)
  {
    && |y.callers| <= |z.callers|
    && forall i :: 0 <= i < |y.callers| ==>
      && (y.callers[i].file.Some? ==> z.callers[i].file == y.callers[i].file)
      && (y.callers[i].phase.Returned? ==> z.callers[i].phase == y.callers[i].phase)
  }

  ghost predicate Run(trace: seq<System>)
  {
    && trace != [] && trace[0].names == map[] && trace[0].files == [] && trace[0].callers == []
    && forall k :: 0 <= k < |trace| - 1 ==> Follows(trace[k], trace[k + 1])
  }

  ghost predicate Follows(y: System, z: System)
  {
    exists step :: Enabled(y, step) && z == Perform(y, step)
  }

  lemma {:induction false} RunKeepsInv(trace: seq<System>, k: nat)
    requires Run(trace) && k < |trace|
    ensures Inv(trace[k])
  {
    if k > 0 {
      RunKeepsInv(trace, k - 1);
      assert Follows(trace[k - 1], trace[k]);
      var step :| Enabled(trace[k - 1], step) && trace[k] == Perform(trace[k - 1], step);
      StepKeepsInv(trace[k - 1], step);
    }
  }

  lemma {:induction false} StepIsLater(y: System, step: Step)
    requires Inv(y) && Enabled(y, step)
    ensures Later(y, Perform(y, step))
  {
    if step.Rename? {
      assert CallerInv(y, y.callers[step.i]);
    }
  }

  lemma {:induction false} RunIsLater(trace: seq<System>, k: nat, m: nat)
    requires Run(trace) && k <= m < |trace|
    ensures Later(trace[k], trace[m])
    decreases m - k
  {
    if k < m {
      RunIsLater(trace, k, m - 1);
      RunKeepsInv(trace, m - 1);
      assert Follows(trace[m - 1], trace[m]);
      var step :| Enabled(trace[m - 1], step) && trace[m] == Perform(trace[m - 1], step);
      StepIsLater(trace[m - 1], step);
    }
  }

  // ---------------------------------------------------------------- results

  /** In every interleaving, no two calls succeed with the same issued record. */
  lemma {:induction false} AtMostOneSuccess(trace: seq<System>, k: nat, i: nat, j: nat)
    requires Run(trace) && k < |trace| && i < |trace[k].callers| && j < |trace[k].callers| && i != j
    requires Accepted(trace[k].callers[i]) && Accepted(trace[k].callers[j])
    ensures trace[k].callers[i].file.Some? && trace[k].callers[j].file.Some? && trace[k].callers[i].file != trace[k].callers[j].file
  {
    RunKeepsInv(trace, k);
    assert CallerInv(trace[k], trace[k].callers[i]) && CallerInv(trace[k], trace[k].callers[j]);
  }

  /** A call succeeds only with a record of its own digest, judged strictly before the record's expiry. */
  lemma {:induction false} NeverAtOrAfterExpiry(trace: seq<System>, k: nat, i: nat)
    requires Run(trace) && k < |trace| && i < |trace[k].callers| && Accepted(trace[k].callers[i])
    ensures var c := trace[k].callers[i];
      && c.file.Some? && c.file.value < |trace[k].files| && c.judgedAt.Some?
      && trace[k].files[c.file.value].digest == c.digest
      && c.judgedAt.value < trace[k].files[c.file.value].expires
  {
    RunKeepsInv(trace, k);
    assert CallerInv(trace[k], trace[k].callers[i]);
  }

  /** Once a call has claimed a record, no other call ever claims it, whatever becomes of the first. */
  lemma {:induction false} ClaimedForGood(trace: seq<System>, k: nat, m: nat, i: nat, j: nat)
    requires Run(trace) && k <= m < |trace| && i < |trace[k].callers| && trace[k].callers[i].file.Some?
    requires j < |trace[m].callers| && j != i
    ensures i < |trace[m].callers| && trace[m].callers[i].file == trace[k].callers[i].file
    ensures trace[m].callers[j].file != trace[k].callers[i].file
  {
    RunIsLater(trace, k, m);
    RunKeepsInv(trace, m);
  }

  /** A call with a record to find, undisturbed up to the moment it has read it. */
  function LoneRead(y: System, digest: nat): System
    requires Record(digest) in y.names
  {
    var i := |y.callers|;
    var seen := Perform(Perform(y, Call(digest)), Look(i));
    Perform(Perform(seen, Rename(i)), ReadFile(i))
  }

  function LoneCall(y: System, digest: nat): System
    requires Record(digest) in y.names
  {
    var i := |y.callers|;
    Perform(Perform(LoneRead(y, digest), Judge(i)), Unlink(i))
  }

  lemma {:induction false} LoneReadHolds(y: System, digest: nat)
    requires NamesInv(y) && Record(digest) in y.names
    ensures var file, i := y.names[Record(digest)], |y.callers|;
      && Claim(digest, i) !in y.names
      && LoneRead(y, digest) == y.(
           names := (y.names - {Record(digest)})[Claim(digest, i) := file],
           callers := y.callers + [Caller(digest, Read(if y.files[file].written then Some(y.files[file].expires) else None), Some(file), None)])
  {
    var i := |y.callers|;
    var seen := Perform(Perform(y, Call(digest)), Look(i));
    assert seen.callers == y.callers + [Caller(digest, Seen, None, None)];
    var held := Perform(seen, Rename(i));
    assert held.callers == y.callers + [Caller(digest, Holding, Some(y.names[Record(digest)]), None)];
  }

  /** A call of its own succeeds exactly with a written record before its expiry, and leaves neither name behind. */
  lemma {:induction false} UndisturbedCallSucceeds(y: System, digest: nat)
    requires Inv(y) && Record(digest) in y.names
    ensures var file, z, i := y.files[y.names[Record(digest)]], LoneCall(y, digest), |y.callers|;
      && Inv(z) && |z.callers| == i + 1 && z.files == y.files && z.now == y.now
      && z.callers[i].phase == Returned(file.written && file.expires > y.now)
      && z.names == y.names - {Record(digest)}
  {
    LoneReadHolds(y, digest);
    var read, i := LoneRead(y, digest), |y.callers|;
    assert read.names - {Claim(digest, i)} == y.names - {Record(digest)};
    LoneReadKeepsInv(y, digest);
    StepKeepsInv(read, Judge(i));
    StepKeepsInv(Perform(read, Judge(i)), Unlink(i));
  }

  lemma {:induction false} LoneReadKeepsInv(y: System, digest: nat)
    requires Inv(y) && Record(digest) in y.names
    ensures Inv(LoneRead(y, digest))
  {
    var i := |y.callers|;
    var called := Perform(y, Call(digest));
    StepKeepsInv(y, Call(digest));
    var seen := Perform(called, Look(i));
    StepKeepsInv(called, Look(i));
    var held := Perform(seen, Rename(i));
    StepKeepsInv(seen, Rename(i));
    StepKeepsInv(held, ReadFile(i));
  }

  // ---------------------------------------------------------------- the store

  /** The record that waits to be claimed under a digest. */
  function Waiting(y: System, digest: nat): Option<File>
    requires NamesInv(y)
  {
    if Record(digest) in y.names then Some(y.files[y.names[Record(digest)]]) else None
  }

  predicate Granted(record: Option<File>, now: int)
  {
    record.Some? && record.value.written && record.value.expires > now
  }

  /** Only what waits under one digest has changed. */
  ghost predicate Replaced(y: System, z: System, digest: nat, record: Option<File>)
    requires NamesInv(y) && NamesInv(z)
  {
    z.now == y.now && forall d: nat :: Waiting(z, d) == if d == digest then record else Waiting(y, d)
  }

  function LoneIssue(y: System, digest: nat, ttl: nat): System
    requires Enabled(y, Create(digest, ttl))
  {
    Perform(Perform(y, Create(digest, ttl)), Write(|y.files|))
  }

  lemma {:induction false} LoneIssueWaits(y: System, digest: nat, ttl: nat)
    requires Inv(y) && Enabled(y, Create(digest, ttl))
    ensures var z := LoneIssue(y, digest, ttl);
      Inv(z) && Replaced(y, z, digest, Some(File(digest, y.now + ttl, true)))
  {
    var created := Perform(y, Create(digest, ttl));
    StepKeepsInv(y, Create(digest, ttl));
    StepKeepsInv(created, Write(|y.files|));
    NewRecordWaits(y, LoneIssue(y, digest, ttl), digest, File(digest, y.now + ttl, true));
  }

  lemma {:induction false} NewRecordWaits(y: System, z: System, digest: nat, file: File)
    requires NamesInv(y) && NamesInv(z) && z.now == y.now
    requires z.names == y.names[Record(digest) := |y.files|] && z.files == y.files + [file]
    ensures Replaced(y, z, digest, Some(file))
  {
  }

  /** What one process does to the record directory when nothing else runs, system call by system call. */
  class FileBootstrapSecretStore {
    var disk: System

    constructor ()
      ensures disk == System(map[], [], [], 0) && Inv(disk)
    {
      disk := System(map[], [], [], 0);
    }

    /** Creating a record never overwrites one; a collision is left to the caller to retry. */
    method Issue(digest: nat, ttl: int) returns (issued: bool)
      requires Inv(disk)
      modifies this
      ensures Inv(disk)
      ensures issued <==> 1 <= ttl <= 3600 && old(Waiting(disk, digest)).None?
      ensures issued ==> Replaced(old(disk), disk, digest, Some(File(digest, disk.now + ttl, true)))
      ensures !issued ==> disk == old(disk)
    {
      var y := disk;
      if ttl < 1 || ttl > 3600 || Record(digest) in y.names {
        return false;
      }
      LoneIssueWaits(y, digest, ttl);
      disk := MakeRecord(y, digest, ttl);
      return true;
    }

    /** Only a secret of a plausible length is looked up; a record that is found is gone afterwards. */
    method Consume(length: nat, digest: nat) returns (accepted: bool)
      requires Inv(disk)
      modifies this
      ensures Inv(disk)
      ensures accepted <==> 32 <= length <= 512 && Granted(old(Waiting(disk, digest)), disk.now)
      ensures if 32 <= length <= 512 then Replaced(old(disk), disk, digest, None) else disk == old(disk)
    {
      if length < 32 || length > 512 {
        return false;
      }
      var y := disk;
      LoneCallAnswers(y, digest);
      accepted, disk := MakeCall(y, digest);
    }
  }

  method MakeRecord(start: System, digest: nat, ttl: nat) returns (y: System)
    requires Enabled(start, Create(digest, ttl))
    ensures y == LoneIssue(start, digest, ttl)
  {
    y := Perform(start, Create(digest, ttl));
    y := Perform(y, Write(|y.files| - 1));
  }

  /** The system calls of one consumption, in order. */
  method MakeCall(start: System, digest: nat) returns (accepted: bool, y: System)
    ensures (y, accepted) == LoneOutcome(start, digest)
  {
    var i := |start.callers|;
    y := Perform(start, Call(digest));
    y := Perform(y, Look(i));
    if y.callers[i].phase.Returned? {
      return false, y;
    }
    y := Perform(y, Rename(i));
    y := Perform(y, ReadFile(i));
    y := Perform(y, Judge(i));
    y := Perform(y, Unlink(i));
    accepted := y.callers[i].phase.answer;
  }

  function LoneOutcome(y: System, digest: nat): (System, bool)
  {
    if Record(digest) in y.names then (LoneCall(y, digest), LoneCall(y, digest).callers[|y.callers|].phase.answer)
    else (Perform(Perform(y, Call(digest)), Look(|y.callers|)), false)
  }

  /** A call of its own answers by what waits under its digest, and afterwards nothing does. */
  lemma {:induction false} LoneCallAnswers(y: System, digest: nat)
    requires Inv(y)
    ensures var (z, accepted) := LoneOutcome(y, digest);
      Inv(z) && Replaced(y, z, digest, None) && (accepted <==> Granted(Waiting(y, digest), y.now))
  {
    if Record(digest) in y.names {
      UndisturbedCallSucceeds(y, digest);
    } else {
      StepKeepsInv(y, Call(digest));
      StepKeepsInv(Perform(y, Call(digest)), Look(|y.callers|));
    }
  }
}
