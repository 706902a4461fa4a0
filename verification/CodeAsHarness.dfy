/** scripts/install-code-as-harness.py: the file swap behind the two-agent install, its
    rollback, its finalization and its recovery after an interruption. */
module CodeAsHarness {
  import opened Options
  import opened EndpointSwap
  import opened UndoSteps

  type Bytes = seq<bv8>

  /** A file is removed in one step. */
  const FILES: Way<Bytes> := Way((c: Option<Bytes>) => if c.Some? then 1 else 0, (_: Bytes) => None)

  lemma {:induction false} FilesCount()
    ensures Counts(FILES)
  {
  }

  function UndoCost(s: Slots<Bytes>, hadTarget: bool): nat {
    Steps(FILES, s, hadTarget)
  }

  ghost function FinishCost(s: Slots<Bytes>, hadTarget: bool): nat {
    (if hadTarget && s.backup.Some? then 1 else 0) + if s.stage.Some? then 1 else 0
  }

  ghost function StepsLeft(files: map<Path, Bytes>, record: Option<Record>): nat {
    Remaining(UndoCost, FinishCost, files, record)
  }

  /** The old content comes back. */
  method RestoreBackup(disk: Disk<Bytes>, i: nat) returns (r: Result)
    requires At(i, Backup) in disk.files
    modifies disk`files, disk`clock, disk`steps
    ensures Only(old(disk.files), disk.files, i) && !r.Exited?
    ensures disk.steps + UndoCost(View(disk.files, i), true) ==
            old(disk.steps) + UndoCost(old(View(disk.files, i)), true)
    ensures if r.Ok? then
              && Undoing(disk, FILES, old(disk.clock), disk.clock, old(View(disk.files, i)), View(disk.files, i), true)
              && UndoCost(View(disk.files, i), true) == FILES.size(View(disk.files, i).stage)
            else Taken(disk, FILES, old(disk.clock), disk.clock, old(View(disk.files, i)), View(disk.files, i), true, r)
  {
    ghost var was, clock := View(disk.files, i), disk.clock;
    FilesCount();
    if At(i, Target) in disk.files {
      UndoingOn(disk, FILES, clock, disk.clock, was, View(disk.files, i), true);
      r := disk.Unlink(i, Target);
      if !r.Ok? {
        return;
      }
    }
    UndoingOn(disk, FILES, clock, disk.clock, was, View(disk.files, i), true);
    r := disk.Replace(i, Backup, Target);
  }

  /** The first half: what was there comes back, or what was not there goes. */
  method RestoreTarget(disk: Disk<Bytes>, hadTarget: bool, i: nat) returns (r: Result)
    modifies disk`files, disk`clock, disk`steps
    ensures Only(old(disk.files), disk.files, i)
    ensures r.Exited? ==>
              && r == Exited(MissingBoth(i)) && hadTarget && Restored(old(View(disk.files, i)), hadTarget).None?
              && View(disk.files, i) == old(View(disk.files, i)) && disk.clock == old(disk.clock)
    ensures hadTarget && Restored(old(View(disk.files, i)), hadTarget).None? ==> r.Exited?
    ensures disk.steps + UndoCost(View(disk.files, i), hadTarget) ==
            old(disk.steps) + UndoCost(old(View(disk.files, i)), hadTarget)
    ensures r.Ok? ==>
              && Undoing(disk, FILES, old(disk.clock), disk.clock, old(View(disk.files, i)), View(disk.files, i),
                         hadTarget)
              && UndoCost(View(disk.files, i), hadTarget) == FILES.size(View(disk.files, i).stage)
    ensures r.Raised? || r.Killed? ==>
              Taken(disk, FILES, old(disk.clock), disk.clock, old(View(disk.files, i)), View(disk.files, i),
                    hadTarget, r)
  {
    ghost var was, clock := View(disk.files, i), disk.clock;
    FilesCount();
    if hadTarget && At(i, Backup) in disk.files {
      r := RestoreBackup(disk, i);
    } else if hadTarget {
      r := if At(i, Target) in disk.files then Ok else Exited(MissingBoth(i));
    } else if At(i, Target) in disk.files {
      UndoingOn(disk, FILES, clock, disk.clock, was, View(disk.files, i), hadTarget);
      r := disk.Unlink(i, Target);
    } else {
      r := Ok;
    }
  }

  method RollbackEndpoint(disk: Disk<Bytes>, hadTarget: bool, i: nat) returns (r: Result)
    modifies disk`files, disk`clock, disk`steps
    ensures Only(old(disk.files), disk.files, i)
    ensures r.Exited? ==> r == Exited(MissingBoth(i))
    ensures disk.steps + UndoCost(View(disk.files, i), hadTarget) ==
            old(disk.steps) + UndoCost(old(View(disk.files, i)), hadTarget)
    ensures Turned(disk, FILES, old(disk.clock), disk.clock, old(View(disk.files, i)), View(disk.files, i),
                   hadTarget, r)
  {
    ghost var was, clock := View(disk.files, i), disk.clock;
    FilesCount();
    r := RestoreTarget(disk, hadTarget, i);
    if r.Ok? && At(i, Stage) in disk.files {
      UndoingOn(disk, FILES, clock, disk.clock, was, View(disk.files, i), hadTarget);
      r := disk.Unlink(i, Stage);
    }
    if r.Ok? {
      UndoingEnds(disk, FILES, clock, disk.clock, was, View(disk.files, i), hadTarget);
    }
  }

  /** One turn. */
  method RollbackNext(disk: Disk<Bytes>, ghost start: map<Path, Bytes>, ghost clock: nat, t: Record, k: nat,
                      ghost done: bool)
    returns (r: Result)
    requires k < |t.endpoints| && RollingBack(start, disk.files, t, k + 1, done)
    requires AllRestorable(start, t) ==> GoneTo(disk, FILES, clock, disk.clock, start, disk.files, t, k + 1)
    modifies disk`files, disk`clock, disk`steps
    ensures RollingBack(start, disk.files, t, k, done && r.Ok?)
    ensures Only(old(disk.files), disk.files, k)
    ensures disk.steps + UndoCost(View(disk.files, k), t.endpoints[k].hadTarget) ==
            old(disk.steps) + UndoCost(old(View(disk.files, k)), t.endpoints[k].hadTarget)
    ensures r.Exited? ==>
              r == Exited(MissingBoth(k)) && t.endpoints[k].hadTarget && Restored(View(start, k), true).None?
    ensures disk.clock >= old(disk.clock)
    ensures r.Raised? || r.Killed? ==> disk.clock > old(disk.clock) && r == disk.Outcome(disk.clock - 1)
    ensures AllRestorable(start, t) ==>
              && Went(disk, FILES, clock, start, disk.files, t, k) && !r.Exited?
              && Turn(disk, clock, Costs(FILES, start, t), k) == (if r.Killed? then None else Some(disk.clock))
              && (Completes(disk, clock, Costs(FILES, start, t), k) <==>
                  Completes(disk, clock, Costs(FILES, start, t), k + 1) && r.Ok?)
  {
    ghost var was, at := disk.files, disk.clock;
    FilesCount();
    r := RollbackEndpoint(disk, t.endpoints[k].hadTarget, k);
    OneTurn(disk, FILES, clock, at, disk.clock, start, was, disk.files, t, k, done, r);
  }

  ghost function UndoLeft(files: map<Path, Bytes>, t: Record): nat {
    Sum(UndoCost, files, t.endpoints, |t.endpoints|)
  }

  lemma {:induction false} UndoLeftNow(was: map<Path, Bytes>, files: map<Path, Bytes>, t: Record, k: nat)
    requires k < |t.endpoints| && Only(was, files, k)
    ensures var had := t.endpoints[k].hadTarget;
            UndoLeft(files, t) + UndoCost(View(was, k), had) == UndoLeft(was, t) + UndoCost(View(files, k), had)
  {
    SumOnly(UndoCost, was, files, t.endpoints, k, |t.endpoints|);
  }

  /** An error is noted and the next endpoint has its turn. */
  method RollbackTurn(disk: Disk<Bytes>, ghost start: map<Path, Bytes>, ghost clock: nat, t: Record, k: nat,
                      errors: bool)
    returns (r: Result, errors': bool)
    requires k < |t.endpoints| && RollingBack(start, disk.files, t, k + 1, !errors)
    requires disk.clock >= clock && (errors ==> !disk.Clean(clock, disk.clock))
    requires AllRestorable(start, t) ==> GoneTo(disk, FILES, clock, disk.clock, start, disk.files, t, k + 1)
    requires AllRestorable(start, t) ==> (!errors <==> Completes(disk, clock, Costs(FILES, start, t), k + 1))
    modifies disk`files, disk`clock, disk`steps
    ensures !r.Raised? && RollingBack(start, disk.files, t, k, r.Ok? && !errors')
    ensures disk.steps + UndoLeft(disk.files, t) == old(disk.steps) + UndoLeft(old(disk.files), t)
    ensures r.Exited? ==>
              r == Exited(MissingBoth(k)) && t.endpoints[k].hadTarget && Restored(View(start, k), true).None?
    ensures disk.clock >= clock && (errors' || r.Killed? ==> !disk.Clean(clock, disk.clock))
    ensures AllRestorable(start, t) ==>
              && Went(disk, FILES, clock, start, disk.files, t, k) && !r.Exited?
              && Turn(disk, clock, Costs(FILES, start, t), k) == (if r.Ok? then Some(disk.clock) else None)
              && (r.Ok? && !errors' <==> Completes(disk, clock, Costs(FILES, start, t), k))
  {
    ghost var was := disk.files;
    r := RollbackNext(disk, start, clock, t, k, !errors);
    UndoLeftNow(was, disk.files, t, k);
    errors' := errors || r.Raised?;
    if r.Raised? {
      r := Ok;
    }
  }

  /** The endpoints, last first. An error is noted and the others are still rolled back; a
      target that is missing ends it. */
  method RollbackEach(disk: Disk<Bytes>, t: Record) returns (r: Result, errors: bool)
    modifies disk`files, disk`clock, disk`steps
    ensures !r.Raised? && RollingBack(old(disk.files), disk.files, t, 0, r.Ok? && !errors)
    ensures r.Exited? ==>
              r.reason.MissingBoth? && r.reason.endpoint < |t.endpoints|
              && t.endpoints[r.reason.endpoint].hadTarget
              && Restored(View(old(disk.files), r.reason.endpoint), true).None?
    ensures disk.steps + UndoLeft(disk.files, t) == old(disk.steps) + UndoLeft(old(disk.files), t)
    ensures disk.clock >= old(disk.clock) && (errors || r.Killed? ==> !disk.Clean(old(disk.clock), disk.clock))
    ensures AllRestorable(old(disk.files), t) ==>
              var costs := Costs(FILES, old(disk.files), t);
              && Went(disk, FILES, old(disk.clock), old(disk.files), disk.files, t, 0)
              && (r.Ok? ==> Turn(disk, old(disk.clock), costs, 0) == Some(disk.clock))
              && (r.Ok? && !errors <==> Completes(disk, old(disk.clock), costs, 0))
  {
    ghost var start, clock := disk.files, disk.clock;
    r, errors := Ok, false;
    var k := |t.endpoints|;
    while k > 0
      invariant 0 <= k <= |t.endpoints| && r.Ok? && RollingBack(start, disk.files, t, k, !errors)
      invariant disk.steps + UndoLeft(disk.files, t) == old(disk.steps) + UndoLeft(start, t)
      invariant disk.clock >= clock && (errors ==> !disk.Clean(clock, disk.clock))
      invariant AllRestorable(start, t) ==> GoneTo(disk, FILES, clock, disk.clock, start, disk.files, t, k)
      invariant AllRestorable(start, t) ==> (!errors <==> Completes(disk, clock, Costs(FILES, start, t), k))
    {
      k := k - 1;
      r, errors := RollbackTurn(disk, start, clock, t, k, errors);
      if !r.Ok? {
        CutShort(disk, FILES, clock, start, disk.files, t, k);
        return;
      }
    }
  }

  lemma {:induction false} NothingLeft(before: map<Path, Bytes>, files: map<Path, Bytes>, t: Record)
    requires RollingBack(before, files, t, 0, true)
    ensures UndoLeft(files, t) == 0 && RollingBack(before, files, t, 0, false)
  {
    SumOfZeros(UndoCost, files, t.endpoints, |t.endpoints|);
  }

  /** An error at one endpoint is noted and the others are still rolled back; the record
      then stays. */
  method RollbackTransaction(disk: Disk<Bytes>, t: Record) returns (r: Result)
    requires disk.record == Some(t)
    modifies disk`files, disk`record, disk`clock, disk`steps
    ensures RollingBack(old(disk.files), disk.files, t, 0, r.Ok?)
    ensures disk.record == if r.Ok? then None else Some(t)
    ensures r.Exited? && r.reason != RollbackFailed ==>
              r.reason.MissingBoth? && r.reason.endpoint < |t.endpoints|
              && t.endpoints[r.reason.endpoint].hadTarget
              && Restored(View(old(disk.files), r.reason.endpoint), true).None?
    ensures !t.state.Committed? ==>
              disk.steps + StepsLeft(disk.files, disk.record) == old(disk.steps + StepsLeft(disk.files, disk.record))
    ensures old(disk.Quiet()) ==> (r.Ok? || (r.Exited? && r.reason.MissingBoth?))
    ensures !r.Ok? && !(r.Exited? && r.reason.MissingBoth?) ==> disk.clock > old(disk.clock)
    ensures disk.clock >= old(disk.clock)
    ensures AllRestorable(old(disk.files), t) ==>
              var clock, costs := old(disk.clock), Costs(FILES, old(disk.files), t);
              && Went(disk, FILES, clock, old(disk.files), disk.files, t, 0)
              && (r.Ok? <==> disk.Clean(clock, clock + Total(costs, 0) + 1))
  {
    ghost var start, clock := disk.files, disk.clock;
    CompletesAndOne(disk, clock, Costs(FILES, disk.files, t));
    var errors;
    r, errors := RollbackEach(disk, t);
    if !r.Ok? {
      return;
    }
    if errors {
      RollingBackAny(start, disk.files, t, 0, false);
      return Exited(RollbackFailed);
    }
    r := disk.RemoveRecord();
    NothingLeft(start, disk.files, t);
  }

  ghost predicate Finished(s: Slots<Bytes>, was: Slots<Bytes>, hadTarget: bool) {
    s == Slots(was.target, None, if hadTarget then None else was.backup)
  }

  /** The only leftovers are the backups of what was replaced, as after a complete swap. */
  ghost predicate OnlyBackupsLeft(files: map<Path, Bytes>, t: Record) {
    forall i: nat | i < |t.endpoints| ::
      && View(files, i).target.Some? && View(files, i).stage.None?
      && View(files, i).backup.Some? == t.endpoints[i].hadTarget
  }

  /** The first `i` endpoints are finished, the others untouched. */
  ghost predicate FinishedBefore(before: map<Path, Bytes>, after: map<Path, Bytes>, t: Record, i: nat) {
    && Outside(after) == Outside(before)
    && forall j: nat | j < |t.endpoints| ::
         var s, was := View(after, j), View(before, j);
         if j < i then Finished(s, was, t.endpoints[j].hadTarget) && was.target.Some? else s == was
  }

  /** And endpoint `done` may be anywhere in between. */
  ghost predicate FinishedUpTo(before: map<Path, Bytes>, after: map<Path, Bytes>, t: Record, done: nat) {
    && Outside(after) == Outside(before)
    && forall i: nat | i < |t.endpoints| ::
         var had, s, was := t.endpoints[i].hadTarget, View(after, i), View(before, i);
         && s.target == was.target
         && (!had ==> s.backup == was.backup)
         && (i < done ==> Finished(s, was, had))
         && (i > done || (i == done && was.stage.None?) ==> s == was)
  }

  lemma {:induction false} OneFinished(before: map<Path, Bytes>, mid: map<Path, Bytes>, after: map<Path, Bytes>,
                                       t: Record, i: nat, ok: bool)
    requires FinishedBefore(before, mid, t, i) && i < |t.endpoints| && Only(mid, after, i)
    requires var had, s, was := t.endpoints[i].hadTarget, View(after, i), View(mid, i);
             && s.target == was.target && was.target.Some? && (!had ==> s.backup == was.backup)
             && (if ok then Finished(s, was, had) else was.stage.None? ==> s == was)
    ensures if ok then FinishedBefore(before, after, t, i + 1) else FinishedUpTo(before, after, t, i)
  {
  }

  lemma {:induction false} AllFinished(before: map<Path, Bytes>, after: map<Path, Bytes>, t: Record, i: nat)
    requires FinishedBefore(before, after, t, i)
    ensures FinishedUpTo(before, after, t, i)
    ensures forall j: nat | j < i && j < |t.endpoints| :: View(before, j).target.Some?
  {
  }

  method FinalizeNext(disk: Disk<Bytes>, ghost start: map<Path, Bytes>, t: Record, i: nat) returns (r: Result)
    requires i < |t.endpoints| && FinishedBefore(start, disk.files, t, i)
    modifies disk`files, disk`clock, disk`steps
    ensures if r.Ok? then FinishedBefore(start, disk.files, t, i + 1) else FinishedUpTo(start, disk.files, t, i)
    ensures r.Exited? ==> r.reason == NotInstalled(i) && View(start, i).target.None?
    ensures r.Ok? ==> disk.Clean(old(disk.clock), disk.clock)
    ensures r.Raised? || r.Killed? ==> disk.clock > old(disk.clock) && disk.Clean(old(disk.clock), disk.clock - 1)
    ensures OnlyBackupsLeft(start, t) ==>
              if t.endpoints[i].hadTarget then disk.clock == old(disk.clock) + 1 && r == disk.Outcome(old(disk.clock))
              else disk.clock == old(disk.clock) && r.Ok?
    ensures disk.steps + Sum(FinishCost, disk.files, t.endpoints, |t.endpoints|) ==
            old(disk.steps) + Sum(FinishCost, old(disk.files), t.endpoints, |t.endpoints|)
    ensures old(disk.Quiet()) ==> r.Ok? || r.Exited?
    ensures disk.clock >= old(disk.clock)
  {
    if At(i, Target) !in disk.files {
      AllFinished(start, disk.files, t, i);
      return Exited(NotInstalled(i));
    }
    ghost var was := disk.files;
    r := FinalizeEndpoint(disk, t.endpoints[i].hadTarget, i);
    SumOnly(FinishCost, was, disk.files, t.endpoints, i, |t.endpoints|);
    OneFinished(start, was, disk.files, t, i, r.Ok?);
  }

  /** `done` counts the endpoints whose leftovers are gone. */
  method FinalizeEach(disk: Disk<Bytes>, t: Record) returns (r: Result, ghost done: nat)
    modifies disk`files, disk`clock, disk`steps
    ensures done <= |t.endpoints| && FinishedUpTo(old(disk.files), disk.files, t, done)
    ensures r.Ok? ==> done == |t.endpoints| && forall i: nat | i < done :: View(old(disk.files), i).target.Some?
    ensures OnlyBackupsLeft(old(disk.files), t) ==>
              disk.clock == old(disk.clock) + Had(t.endpoints, done) + if r.Ok? then 0 else 1
    ensures OnlyBackupsLeft(old(disk.files), t) && !r.Ok? ==>
              r == disk.Outcome(disk.clock - 1) && done < |t.endpoints| && t.endpoints[done].hadTarget
    ensures disk.clock >= old(disk.clock) && (r.Ok? ==> disk.Clean(old(disk.clock), disk.clock))
    ensures r.Raised? || r.Killed? ==> disk.clock > old(disk.clock) && disk.Clean(old(disk.clock), disk.clock - 1)
    ensures old(disk.Quiet()) ==> r.Ok? || r.Exited?
    ensures r.Exited? ==>
              r.reason.NotInstalled? && r.reason.endpoint < |t.endpoints|
              && View(old(disk.files), r.reason.endpoint).target.None?
    ensures disk.steps + Sum(FinishCost, disk.files, t.endpoints, |t.endpoints|) ==
            old(disk.steps) + Sum(FinishCost, old(disk.files), t.endpoints, |t.endpoints|)
  {
    ghost var n, start := |t.endpoints|, disk.files;
    done := 0;
    for i := 0 to |t.endpoints|
      invariant done == i && FinishedBefore(start, disk.files, t, i)
      invariant disk.steps + Sum(FinishCost, disk.files, t.endpoints, n) ==
                old(disk.steps) + Sum(FinishCost, old(disk.files), t.endpoints, n)
      invariant old(disk.clock) <= disk.clock && disk.Clean(old(disk.clock), disk.clock)
      invariant OnlyBackupsLeft(old(disk.files), t) ==> disk.clock == old(disk.clock) + Had(t.endpoints, i)
    {
      r := FinalizeNext(disk, start, t, i);
      if !r.Ok? {
        return;
      }
      done := done + 1;
    }
    AllFinished(start, disk.files, t, n);
    r := Ok;
  }

  /** `done` counts the endpoints whose leftovers are gone. After a complete swap
      they cost one durable step for each backup, so the tape decides where it stops. */
  method FinalizeCommittedTransaction(disk: Disk<Bytes>, t: Record)
    returns (r: Result, ghost done: nat)
    requires disk.record == Some(t)
    modifies disk`files, disk`record, disk`clock, disk`steps
    ensures done <= |t.endpoints| && FinishedUpTo(old(disk.files), disk.files, t, done)
    ensures r.Ok? ==> done == |t.endpoints| && forall i: nat | i < done :: View(old(disk.files), i).target.Some?
    ensures OnlyBackupsLeft(old(disk.files), t) ==>
              disk.clock == old(disk.clock) + Had(t.endpoints, done) + 1
    ensures OnlyBackupsLeft(old(disk.files), t) ==>
              r == disk.Outcome(disk.clock - 1) && (!r.Ok? && done < |t.endpoints| ==> t.endpoints[done].hadTarget)
    ensures r.Ok? || r.Raised? || r.Killed? ==>
              disk.clock > old(disk.clock) && disk.Clean(old(disk.clock), disk.clock - 1)
    ensures disk.record == if r.Ok? then None else Some(t)
    ensures r.Exited? ==>
              r.reason.NotInstalled? && r.reason.endpoint < |t.endpoints|
              && View(old(disk.files), r.reason.endpoint).target.None?
    ensures t.state.Committed? ==>
              disk.steps + StepsLeft(disk.files, disk.record) == old(disk.steps + StepsLeft(disk.files, disk.record))
    ensures old(disk.Quiet()) ==> (r.Ok? || r.Exited?)
    ensures disk.clock >= old(disk.clock)
  {
    r, done := FinalizeEach(disk, t);
    if r.Ok? {
      r := disk.RemoveRecord();
      SumOfZeros(FinishCost, disk.files, t.endpoints, |t.endpoints|);
    }
  }

  method FinalizeEndpoint(disk: Disk<Bytes>, hadTarget: bool, i: nat) returns (r: Result)
    modifies disk`files, disk`clock, disk`steps
    ensures !r.Exited? && Only(old(disk.files), disk.files, i)
    ensures View(disk.files, i).target == old(View(disk.files, i)).target
    ensures !hadTarget ==> View(disk.files, i).backup == old(View(disk.files, i)).backup
    ensures r.Ok? ==> Finished(View(disk.files, i), old(View(disk.files, i)), hadTarget)
    ensures !r.Ok? && old(View(disk.files, i)).stage.None? ==> View(disk.files, i) == old(View(disk.files, i))
    ensures !r.Ok? ==> disk.clock > old(disk.clock) && disk.Clean(old(disk.clock), disk.clock - 1)
    ensures r.Ok? ==> disk.Clean(old(disk.clock), disk.clock)
    ensures old(View(disk.files, i)).stage.None? ==>
              if hadTarget && old(View(disk.files, i)).backup.Some?
              then disk.clock == old(disk.clock) + 1 && r == disk.Outcome(old(disk.clock))
              else disk.clock == old(disk.clock) && r.Ok?
    ensures disk.steps + FinishCost(View(disk.files, i), hadTarget) ==
            old(disk.steps) + FinishCost(old(View(disk.files, i)), hadTarget)
    ensures old(disk.Quiet()) ==> r.Ok?
    ensures disk.clock >= old(disk.clock)
  {
    if hadTarget && At(i, Backup) in disk.files {
      :- disk.Unlink(i, Backup);
    }
    if At(i, Stage) in disk.files {
      :- disk.Unlink(i, Stage);
    }
    return Ok;
  }

  /** A committed record beside a target that is missing. */
  ghost predicate Stuck(files: map<Path, Bytes>, record: Option<Record>) {
    record.Some? && record.value.state.Committed?
    && exists i: nat :: i < |record.value.endpoints| && View(files, i).target.None?
  }

  /** Recovery trusts the durable state alone: a committed record is finished, any other
      is undone. From every state a kill can leave it ends all-new or all-old, never
      meets a missing target, and each durable step shortens what is left by one. Where a
      committed target is missing it never succeeds. */
  method Recover(disk: Disk<Bytes>, ghost start: map<Path, Bytes>, n: nat) returns (r: Result)
    requires Ready(start, n)
    requires disk.record.Some? && !Stuck(disk.files, disk.record) ==>
             Consistent(start, disk.files, disk.record.value, n)
    modifies disk`files, disk`record, disk`clock, disk`steps
    ensures old(Stuck(disk.files, disk.record)) ==>
              !r.Ok? && disk.record == old(disk.record) && Stuck(disk.files, disk.record)
    ensures old(Stuck(disk.files, disk.record)) || StepsOn(old(disk.files), old(disk.record), disk, start, n, r)
    ensures !old(Stuck(disk.files, disk.record)) && r.Exited? ==> r.reason.RollbackFailed?
    ensures !old(Stuck(disk.files, disk.record)) && !r.Ok? ==> disk.clock > old(disk.clock)
    ensures disk.steps + StepsLeft(disk.files, disk.record) == old(disk.steps + StepsLeft(disk.files, disk.record))
    ensures !old(Stuck(disk.files, disk.record)) && old(disk.Quiet()) ==> r.Ok?
    ensures disk.clock >= old(disk.clock)
  {
    match disk.record
    case None => return Ok;
    case Some(t) =>
      if t.state.Committed? {
        ghost var done;
        r, done := FinalizeCommittedTransaction(disk, t);
      } else {
        r := RollbackTransaction(disk, t);
      }
  }

  /** What recovery does to a disk that is not stuck. */
  ghost predicate StepsOn(was: map<Path, Bytes>, record: Option<Record>, disk: Disk<Bytes>,
                          start: map<Path, Bytes>, n: nat, r: Result)
    reads disk
  {
    && (!r.Ok? ==>
        && disk.record == record && record.Some? && Consistent(start, disk.files, record.value, n))
    && (r.Ok? && record.Some? ==>
        disk.record == None && Settled(start, disk.files, n, record.value.state.Committed?))
    && (r.Ok? && record.None? ==> disk.record == None && disk.files == was)
  }

  /** The first thing that goes wrong, `clock` being the time of the first step of the swap, is
      an error at a step of finalization: the removal of the backup of endpoint `done`, or of
      the record when all endpoints are done. */
  ghost predicate LateAt(disk: Disk<Bytes>, clock: nat, t: Record, done: nat) {
    && done <= |t.endpoints| && (done < |t.endpoints| ==> t.endpoints[done].hadTarget)
    && var k := LateStep(clock, t, done);
    && disk.Clean(clock, k) && disk.Outcome(k) == Raised
  }

  function LateStep(clock: nat, t: Record, done: nat): nat
    requires done <= |t.endpoints|
  {
    clock + SwapSteps(t) + Had(t.endpoints, done)
  }

  method DiscardStages(disk: Disk<Bytes>, n: nat) returns (r: Result)
    modifies disk`files, disk`clock, disk`steps
    ensures Outside(disk.files) == Outside(old(disk.files)) && disk.clock >= old(disk.clock)
    ensures forall j: nat ::
              View(disk.files, j) == old(View(disk.files, j)) ||
              View(disk.files, j) == old(View(disk.files, j)).(stage := None)
    ensures r.Ok? ==> forall j: nat | j < n :: View(disk.files, j).stage.None?
  {
    for i := 0 to n
      invariant disk.clock >= old(disk.clock)
      invariant Outside(disk.files) == Outside(old(disk.files))
      invariant forall j: nat ::
                  View(disk.files, j) == old(View(disk.files, j)) ||
                  View(disk.files, j) == old(View(disk.files, j)).(stage := None)
      invariant forall j: nat | j < i :: View(disk.files, j).stage.None?
    {
      if At(i, Stage) in disk.files {
        :- disk.Unlink(i, Stage);
      }
    }
    return Ok;
  }

  /** An endpoint when finalization stops at endpoint `done` of a complete swap. */
  function LateSlots<C>(was: Slots<C>, i: nat, done: nat): Slots<C> {
    Slots(was.stage, None, if i < done then None else was.target)
  }

  function LateCosts(start: map<Path, Bytes>, n: nat, done: nat): seq<nat> {
    seq(n, i requires 0 <= i < n => UndoCost(LateSlots(View(start, i), i, done), View(start, i).target.Some?))
  }

  /** How many steps the rollback that begins at `clock` takes each endpoint back. */
  ghost function LateMoves(disk: Disk<Bytes>, start: map<Path, Bytes>, clock: nat, n: nat, done: nat): (moves: seq<nat>)
    ensures |moves| == n
  {
    Moves(disk, clock, LateCosts(start, n, done), n)
  }

  /** Nothing goes wrong in that rollback. */
  ghost predicate LateClean(disk: Disk<Bytes>, start: map<Path, Bytes>, clock: nat, n: nat, done: nat) {
    disk.Clean(clock, clock + Total(LateCosts(start, n, done), 0) + 1)
  }

  /** The endpoint after so many steps. */
  function LateSlotsAfter<C>(was: Slots<C>, i: nat, done: nat, d: nat): Slots<C> {
    var s := LateSlots(was, i, done);
    if d == 0 then s else if d == 1 then s.(target := None) else Slots(was.target, None, None)
  }

  /** Of those finalized none if it replaced something, else the removal of the new content and
      the return of the old. */
  function LateSteps<C>(was: Slots<C>, i: nat, done: nat): nat {
    if was.target.None? then 1 else if i < done then 0 else 2
  }

  lemma {:induction false} LateUndone(was: Slots<Bytes>, i: nat, done: nat, d: nat)
    requires was.stage.Some? && d <= UndoCost(LateSlots(was, i, done), was.target.Some?)
    ensures Undone(FILES, LateSlots(was, i, done), was.target.Some?, d) == LateSlotsAfter(was, i, done, d)
    ensures UndoCost(LateSlots(was, i, done), was.target.Some?) == LateSteps(was, i, done)
  {
    var s, had := LateSlots(was, i, done), was.target.Some?;
    if d > 0 {
      assert Undone(FILES, s, had, 1) == UndoStep(FILES, Undone(FILES, s, had, 0), had);
    }
    if d > 1 {
      assert Undone(FILES, s, had, 2) == UndoStep(FILES, Undone(FILES, s, had, 1), had);
    }
  }

  /** The moves are never more than the steps there are, and just as many if all goes well. */
  ghost predicate Within(start: map<Path, Bytes>, n: nat, done: nat, moves: seq<nat>, all: bool)
    requires n == |moves|
  {
    forall i: nat | i < n ::
      && moves[i] <= LateSteps(View(start, i), i, done)
      && (all ==> moves[i] == LateSteps(View(start, i), i, done))
  }

  lemma {:induction false} LateMovesWithin(disk: Disk<Bytes>, start: map<Path, Bytes>, clock: nat, n: nat, done: nat)
    requires Ready(start, n)
    ensures Within(start, n, done, LateMoves(disk, start, clock, n, done), LateClean(disk, start, clock, n, done))
  {
    forall i: nat | i < n
      ensures LateMoves(disk, start, clock, n, done)[i] <= LateSteps(View(start, i), i, done)
      ensures LateClean(disk, start, clock, n, done) ==>
                LateMoves(disk, start, clock, n, done)[i] == LateSteps(View(start, i), i, done)
    {
      LateMoveWithin(disk, start, clock, n, done, i);
    }
  }

  lemma {:induction false} LateMoveWithin(disk: Disk<Bytes>, start: map<Path, Bytes>, clock: nat, n: nat, done: nat,
                                          i: nat)
    requires i < n && View(start, i).stage.Some?
    ensures var d, steps := LateMoves(disk, start, clock, n, done)[i], LateSteps(View(start, i), i, done);
            d <= steps && (LateClean(disk, start, clock, n, done) ==> d == steps)
  {
    var costs := LateCosts(start, n, done);
    MovesAt(disk, clock, costs, n, i);
    LateUndone(View(start, i), i, done, 0);
    assert costs[i] == LateSteps(View(start, i), i, done);
    ProgressWithin(disk, clock, costs, i);
  }

  /** Finalization stopped at endpoint `done`: so the first `k` endpoints are. */
  ghost predicate StoppedAt(start: map<Path, Bytes>, files: map<Path, Bytes>, done: nat, k: nat) {
    k == 0 || (View(files, k - 1) == LateSlots(View(start, k - 1), k - 1, done) && StoppedAt(start, files, done, k - 1))
  }

  /** Where finalization stops, a rollback can begin. */
  lemma {:induction false} LateBegins(start: map<Path, Bytes>, swapped: map<Path, Bytes>, files: map<Path, Bytes>,
                                      t: Record, done: nat, k: nat)
    requires k <= |t.endpoints| && Ready(start, |t.endpoints|) && Describes(t, start, |t.endpoints|)
    requires forall i: nat | i < |t.endpoints| :: View(swapped, i) == Swapped(View(start, i))
    requires FinishedUpTo(swapped, files, t, done)
    ensures StoppedAt(start, files, done, k)
  {
    if k > 0 {
      LateBegins(start, swapped, files, t, done, k - 1);
      assert View(swapped, k - 1).stage.None?;
    }
  }

  lemma {:induction false} StoppedThere(start: map<Path, Bytes>, files: map<Path, Bytes>, done: nat, k: nat, i: nat)
    requires i < k && StoppedAt(start, files, done, k)
    ensures View(files, i) == LateSlots(View(start, i), i, done)
  {
    if i < k - 1 {
      StoppedThere(start, files, done, k - 1, i);
    }
  }

  lemma {:induction false} LateRestorable(start: map<Path, Bytes>, files: map<Path, Bytes>, t: Record, done: nat)
    requires Ready(start, |t.endpoints|) && Describes(t, start, |t.endpoints|)
    requires StoppedAt(start, files, done, |t.endpoints|)
    ensures AllRestorable(files, t) && Costs(FILES, files, t) == LateCosts(start, |t.endpoints|, done)
  {
    var n := |t.endpoints|;
    forall i: nat | i < n
      ensures View(files, i) == LateSlots(View(start, i), i, done)
    {
      StoppedThere(start, files, done, n, i);
    }
    assert |Costs(FILES, files, t)| == |LateCosts(start, n, done)|;
  }

  /** What the rollback leaves of the first `k` endpoints. */
  ghost predicate LateGone(start: map<Path, Bytes>, files: map<Path, Bytes>, done: nat, moves: seq<nat>, k: nat)
    requires k <= |moves|
    decreases k
  {
    k == 0
    || (&& View(files, k - 1) == LateSlotsAfter(View(start, k - 1), k - 1, done, moves[k - 1])
        && LateGone(start, files, done, moves, k - 1))
  }

  lemma {:induction false} LateGoneThere(start: map<Path, Bytes>, files: map<Path, Bytes>, done: nat, moves: seq<nat>,
                                         k: nat, i: nat)
    requires i < k <= |moves| && LateGone(start, files, done, moves, k)
    ensures View(files, i) == LateSlotsAfter(View(start, i), i, done, moves[i])
  {
    if i < k - 1 {
      LateGoneThere(start, files, done, moves, k - 1, i);
    }
  }

  lemma {:induction false} LateGoes(disk: Disk<Bytes>, start: map<Path, Bytes>, before: map<Path, Bytes>,
                                    after: map<Path, Bytes>, t: Record, clock: nat, done: nat, k: nat)
    requires k <= |t.endpoints| && Ready(start, |t.endpoints|) && Describes(t, start, |t.endpoints|)
    requires StoppedAt(start, before, done, |t.endpoints|)
    requires Costs(FILES, before, t) == LateCosts(start, |t.endpoints|, done)
    requires Went(disk, FILES, clock, before, after, t, 0)
    ensures LateGone(start, after, done, LateMoves(disk, start, clock, |t.endpoints|, done), k)
  {
    if k > 0 {
      LateGoes(disk, start, before, after, t, clock, done, k - 1);
      OneGoes(disk, start, before, after, t, clock, done, k - 1);
    }
  }

  lemma {:induction false} OneGoes(disk: Disk<Bytes>, start: map<Path, Bytes>, before: map<Path, Bytes>,
                                   after: map<Path, Bytes>, t: Record, clock: nat, done: nat, i: nat)
    requires i < |t.endpoints| && View(start, i).stage.Some? && Describes(t, start, |t.endpoints|)
    requires StoppedAt(start, before, done, |t.endpoints|)
    requires Costs(FILES, before, t) == LateCosts(start, |t.endpoints|, done)
    requires Went(disk, FILES, clock, before, after, t, 0)
    ensures View(after, i) ==
            LateSlotsAfter(View(start, i), i, done, LateMoves(disk, start, clock, |t.endpoints|, done)[i])
  {
    StoppedThere(start, before, done, |t.endpoints|, i);
    WentAt(disk, FILES, clock, before, after, t, 0, i);
    MovesAt(disk, clock, Costs(FILES, before, t), |t.endpoints|, i);
    LateUndone(View(start, i), i, done, LateMoves(disk, start, clock, |t.endpoints|, done)[i]);
  }

  /** What a rollback of a committed transaction leaves: every endpoint taken back so many steps, and
      the record, unless all went well. */
  ghost predicate Left(start: map<Path, Bytes>, disk: Disk<Bytes>, n: nat, done: nat, moves: seq<nat>, all: bool)
    requires n == |moves|
    reads disk
  {
    && Outside(disk.files) == Outside(start) && LateGone(start, disk.files, done, moves, n)
    && (disk.record.None? <==> all)
    && (disk.record.Some? ==> disk.record.value.state.Committed? && Describes(disk.record.value, start, n))
  }

  /** What a late failure leaves: the rollback began at `at`, right after the error, and the tape
      says how far it got. */
  ghost predicate LateLeft(start: map<Path, Bytes>, disk: Disk<Bytes>, at: nat, n: nat, done: nat)
    reads disk
  {
    Left(start, disk, n, done, LateMoves(disk, start, at, n, done), LateClean(disk, start, at, n, done))
  }

  /** The handler of an error in finalization. */
  method RollbackLate(disk: Disk<Bytes>, ghost start: map<Path, Bytes>, t: Record, ghost done: nat) returns (r: Result)
    requires Ready(start, |t.endpoints|) && Describes(t, start, |t.endpoints|) && disk.record == Some(t)
    requires t.state.Committed? && Outside(disk.files) == Outside(start)
    requires StoppedAt(start, disk.files, done, |t.endpoints|)
    modifies disk`files, disk`record, disk`clock, disk`steps
    ensures disk.clock >= old(disk.clock) && LateLeft(start, disk, old(disk.clock), |t.endpoints|, done)
  {
    ghost var before, clock := disk.files, disk.clock;
    LateRestorable(start, before, t, done);
    r := RollbackTransaction(disk, t);
    LateGoes(disk, start, before, disk.files, t, clock, done, |t.endpoints|);
  }

  /** Finalization right after a complete swap, and the handler that rolls back when it
      raises. `late` says that it did. */
  method FinalizeOrRollBack(disk: Disk<Bytes>, ghost start: map<Path, Bytes>, t: Record)
    returns (r: Result, late: bool, ghost done: nat, ghost at: nat)
    requires Ready(start, |t.endpoints|) && Describes(t, start, |t.endpoints|)
    requires disk.record == Some(t) && t.state.Committed? && Outside(disk.files) == Outside(start)
    requires forall i: nat | i < |t.endpoints| :: View(disk.files, i) == Swapped(View(start, i))
    modifies disk`files, disk`record, disk`clock, disk`steps
    ensures Stopped(disk, old(disk.clock), t, late, done)
    ensures Outside(disk.files) == Outside(start) && disk.clock >= old(disk.clock)
    ensures r.Ok? ==> !late && disk.record.None?
    ensures !late && disk.record.None? ==> AllNew(start, disk.files, |t.endpoints|)
    ensures !late && disk.record.Some? ==> disk.record == Some(t) && Finishable(start, disk.files, |t.endpoints|)
    ensures at == old(disk.clock) + Had(t.endpoints, done) + 1
    ensures late ==> LateLeft(start, disk, at, |t.endpoints|, done)
    ensures old(disk.Quiet()) ==> r.Ok?
  {
    assert OnlyBackupsLeft(disk.files, t);
    ghost var swapped := disk.files;
    r, done := FinalizeCommittedTransaction(disk, t);
    late, at := r.Raised?, old(disk.clock) + Had(t.endpoints, done) + 1;
    if r.Raised? {
      LateBegins(start, swapped, disk.files, t, done, |t.endpoints|);
      var e := RollbackLate(disk, start, t, done);
      if !e.Ok? {
        r := e;
      }
    }
  }

  /** The first fault of the tape that finalization meets. */
  ghost predicate Stopped(disk: Disk<Bytes>, clock: nat, t: Record, late: bool, done: nat) {
    && done <= |t.endpoints|
    && var k := clock + Had(t.endpoints, done);
    && disk.Clean(clock, k)
    && (late <==> disk.Outcome(k) == Raised)
    && (late && done < |t.endpoints| ==> t.endpoints[done].hadTarget)
    && (disk.Outcome(k) == Ok ==> done == |t.endpoints|)
  }

  /** Where the tape's first fault falls decides whether finalization raises, and at which endpoint. */
  lemma {:induction false} StopsAt(disk: Disk<Bytes>, clock: nat, t: Record, u: Record, late: bool, done: nat)
    requires SameTargets(t, u) && disk.Clean(clock, clock + SwapSteps(t))
    requires Stopped(disk, clock + SwapSteps(t), u, late, done)
    ensures Decided(disk, clock, t, true, late, done) && done <= |t.endpoints|
    ensures LateStep(clock, t, done) == clock + SwapSteps(t) + Had(u.endpoints, done)
  {
    HadSame(t, u, done);
    forall at: nat | LateAt(disk, clock, t, at)
      ensures late && at == done
    {
      HadSame(t, u, at);
      if done < at {
        HadMonotone(u.endpoints, done, at);
      } else {
        HadMonotone(u.endpoints, at, done);
      }
    }
  }

  /** The swap, undone at once by the handler if a step of it raises. */
  method SwapOrRollBack(disk: Disk<Bytes>, t: Record) returns (r: Result)
    requires Ready(disk.files, |t.endpoints|) && Describes(t, disk.files, |t.endpoints|)
    requires disk.record == Some(t) && t.state == Prepared && !disk.everCommitted
    modifies disk
    ensures Outside(disk.files) == Outside(old(disk.files)) && disk.clock >= old(disk.clock)
    ensures r.Ok? <==> disk.everCommitted
    ensures r.Ok? <==> disk.Clean(old(disk.clock), old(disk.clock) + SwapSteps(t))
    ensures r.Ok? ==>
              && disk.record.Some? && disk.record.value.state.Committed? && SameTargets(disk.record.value, t)
              && disk.clock == old(disk.clock) + SwapSteps(t)
              && forall i: nat | i < |t.endpoints| :: View(disk.files, i) == Swapped(View(old(disk.files), i))
    ensures !r.Ok? && disk.record.Some? ==>
              && Consistent(old(disk.files), disk.files, disk.record.value, |t.endpoints|)
              && !disk.record.value.state.Committed?
    ensures !r.Ok? && disk.record.None? ==> AllOld(old(disk.files), disk.files, |t.endpoints|)
  {
    r := SwapEndpoints(disk, t);
    if r.Raised? {
      var e := RollbackTransaction(disk, disk.record.value);
      if !e.Ok? {
        r := e;
      }
    }
  }

  /** What the tape decides, `clock` being the time of the first step of the swap: whether the
      swap commits, and whether finalization raises and at which endpoint. */
  ghost predicate Decided(disk: Disk<Bytes>, clock: nat, t: Record, committed: bool, late: bool, done: nat) {
    && (committed <==> disk.Clean(clock, clock + SwapSteps(t)))
    && (late ==> committed && LateAt(disk, clock, t, done))
    && forall at: nat | LateAt(disk, clock, t, at) :: late && at == done
  }

  ghost predicate LateResult(start: map<Path, Bytes>, disk: Disk<Bytes>, clock: nat, t: Record, done: nat)
    requires done <= |t.endpoints|
    reads disk
  {
    LateLeft(start, disk, LateStep(clock, t, done) + 1, |t.endpoints|, done)
  }

  /** Finalization and its handler, seen from the start of the swap. */
  method FinishSwapped(disk: Disk<Bytes>, ghost start: map<Path, Bytes>, ghost clock: nat, ghost t: Record, u: Record)
    returns (r: Result, late: bool, ghost done: nat)
    requires Ready(start, |u.endpoints|) && Describes(u, start, |u.endpoints|) && SameTargets(t, u)
    requires disk.record == Some(u) && u.state.Committed? && Outside(disk.files) == Outside(start)
    requires forall i: nat | i < |u.endpoints| :: View(disk.files, i) == Swapped(View(start, i))
    requires disk.clock == clock + SwapSteps(t) && disk.Clean(clock, disk.clock)
    modifies disk`files, disk`record, disk`clock, disk`steps
    ensures Outside(disk.files) == Outside(start) && disk.clock >= old(disk.clock)
    ensures done <= |t.endpoints| && Decided(disk, clock, t, true, late, done)
    ensures r.Ok? ==> !late && disk.record.None?
    ensures !late && disk.record.None? ==> AllNew(start, disk.files, |t.endpoints|)
    ensures !late && disk.record.Some? ==> disk.record == Some(u) && Finishable(start, disk.files, |t.endpoints|)
    ensures late ==> LateResult(start, disk, clock, t, done)
    ensures old(disk.Quiet()) ==> r.Ok?
  {
    ghost var at;
    r, late, done, at := FinalizeOrRollBack(disk, start, u);
    StopsAt(disk, clock, t, u, late, done);
    assert at == LateStep(clock, t, done) + 1;
  }

  /** Everything once the first record is durable. */
  method RunTransaction(disk: Disk<Bytes>, t: Record) returns (r: Result, late: bool, ghost done: nat)
    requires Ready(disk.files, |t.endpoints|) && Describes(t, disk.files, |t.endpoints|)
    requires disk.record == Some(t) && t.state == Prepared && !disk.everCommitted
    modifies disk
    ensures Outside(disk.files) == Outside(old(disk.files)) && disk.clock >= old(disk.clock)
    ensures done <= |t.endpoints| && Decided(disk, old(disk.clock), t, disk.everCommitted, late, done)
    ensures r.Ok? ==> !late && disk.everCommitted && disk.record.None?
    ensures disk.record.None? && !late ==> Settled(old(disk.files), disk.files, |t.endpoints|, disk.everCommitted)
    ensures disk.record.Some? && !late ==>
              && Consistent(old(disk.files), disk.files, disk.record.value, |t.endpoints|)
              && disk.record.value.state.Committed? == disk.everCommitted
    ensures late ==> LateResult(old(disk.files), disk, old(disk.clock), t, done)
    ensures old(disk.Quiet()) ==> r.Ok?
  {
    ghost var start := disk.files;
    late, done := false, 0;
    r := SwapOrRollBack(disk, t);
    if r.Ok? {
      r, late, done := FinishSwapped(disk, start, old(disk.clock), t, disk.record.value);
    } else {
      NotLate(disk, old(disk.clock), t);
    }
  }

  /** A swap that does not commit is not followed by a late failure. */
  lemma {:induction false} NotLate(disk: Disk<Bytes>, clock: nat, t: Record)
    requires !disk.Clean(clock, clock + SwapSteps(t))
    ensures forall at: nat :: !LateAt(disk, clock, t, at)
  {
  }

  /** The whole install after staging: what goes wrong first, if anything, decides. */
  method CommitStagedFiles(disk: Disk<Bytes>, n: nat) returns (r: Result, late: bool, ghost done: nat)
    requires Ready(disk.files, n) && disk.record.None? && !disk.everCommitted
    modifies disk
    ensures Outside(disk.files) == Outside(old(disk.files)) && disk.clock >= old(disk.clock)
    ensures var t := NewRecord(old(disk.files), n);
            if disk.Outcome(old(disk.clock)) == Ok
            then done <= n && Decided(disk, old(disk.clock) + 1, t, disk.everCommitted, late, done)
            else !disk.everCommitted && !late
    ensures r.Ok? ==> !late && disk.everCommitted && disk.record.None?
    ensures disk.record.None? && !late ==>
              if disk.Outcome(old(disk.clock)) == Ok then Settled(old(disk.files), disk.files, n, disk.everCommitted)
              else TargetsKept(old(disk.files), disk.files, n)
    ensures disk.record.Some? && !late ==>
              && disk.Outcome(old(disk.clock)) == Ok
              && Consistent(old(disk.files), disk.files, disk.record.value, n)
              && disk.record.value.state.Committed? == disk.everCommitted
    ensures late ==> LateResult(old(disk.files), disk, old(disk.clock) + 1, NewRecord(old(disk.files), n), done)
    ensures old(disk.Quiet()) ==> r.Ok?
  {
    late, done := false, 0;
    var t := NewRecord(disk.files, n);
    r := disk.WriteRecord(t);
    if r.Raised? {
      var e := DiscardStages(disk, n);
      r := if e.Ok? then Raised else e;
    } else if r.Ok? {
      r, late, done := RunTransaction(disk, t);
    }
  }

  ghost predicate TargetsKept(start: map<Path, Bytes>, files: map<Path, Bytes>, n: nat) {
    && Outside(files) == Outside(start)
    && forall i: nat | i < n ::
         && View(files, i).target == View(start, i).target && View(files, i).backup == View(start, i).backup
         && View(files, i).stage in {None, View(start, i).stage}
  }

  /** Some endpoint lost its new content and did not get its old one. */
  ghost predicate TakenOnce(moves: seq<nat>) {
    exists i :: 0 <= i < |moves| && moves[i] == 1
  }

  /** The first `k` endpoints are old where the rollback took a step, new where it took none. */
  ghost predicate LateSettled(start: map<Path, Bytes>, files: map<Path, Bytes>, moves: seq<nat>, k: nat)
    requires k <= |moves|
    decreases k
  {
    k == 0
    || (View(files, k - 1) == Ended(View(start, k - 1), moves[k - 1] > 0) && LateSettled(start, files, moves, k - 1))
  }

  lemma {:induction false} LateSettledThere(start: map<Path, Bytes>, files: map<Path, Bytes>, moves: seq<nat>, k: nat,
                                            i: nat)
    requires i < k <= |moves| && LateSettled(start, files, moves, k)
    ensures View(files, i) == Ended(View(start, i), moves[i] > 0)
  {
    if i < k - 1 {
      LateSettledThere(start, files, moves, k - 1, i);
    }
  }

  /** Where nothing is missing all is old exactly if every endpoint that stays new had the same
      content before, and all is new exactly if every endpoint that came back had. */
  lemma {:induction false} LateFailureOutcome(start: map<Path, Bytes>, files: map<Path, Bytes>, n: nat, moves: seq<nat>)
    requires n == |moves| && Outside(files) == Outside(start) && LateSettled(start, files, moves, n)
    ensures AllOld(start, files, n) <==>
            forall i: nat | i < n && moves[i] == 0 :: View(start, i).target == View(start, i).stage
    ensures AllNew(start, files, n) <==>
            forall i: nat | i < n && moves[i] > 0 :: View(start, i).target == View(start, i).stage
  {
    forall i: nat | i < n
      ensures View(files, i) == Ended(View(start, i), moves[i] > 0)
    {
      LateSettledThere(start, files, moves, n, i);
    }
    forall i: nat | i < n
      ensures View(files, i) == Ended(View(start, i), true) <==>
              moves[i] > 0 || View(start, i).target == View(start, i).stage
      ensures View(files, i) == Ended(View(start, i), false) <==>
              moves[i] == 0 || View(start, i).target == View(start, i).stage
    {
    }
  }

  /** Stuck, exactly if something went wrong and an endpoint was taken one step only. Else nothing is
      left but the targets, each old or new by the steps of the rollback. */
  ghost predicate End(start: map<Path, Bytes>, disk: Disk<Bytes>, n: nat, moves: seq<nat>, all: bool)
    requires n == |moves|
    reads disk
  {
    if !all && TakenOnce(moves) then Stuck(disk.files, disk.record)
    else disk.record.None? && Outside(disk.files) == Outside(start) && LateSettled(start, disk.files, moves, n)
  }

  /** What a late failure comes to in the end. */
  ghost predicate LateEnd(start: map<Path, Bytes>, disk: Disk<Bytes>, clock: nat, t: Record, done: nat)
    requires done <= |t.endpoints|
    reads disk
  {
    var n, at := |t.endpoints|, LateStep(clock, t, done) + 1;
    End(start, disk, n, LateMoves(disk, start, at, n, done), LateClean(disk, start, at, n, done))
  }

  /** Something is missing exactly if an endpoint was taken one step. */
  lemma {:induction false} LateIsStuck(start: map<Path, Bytes>, files: map<Path, Bytes>, n: nat, done: nat,
                                       moves: seq<nat>, all: bool)
    requires n == |moves| && Ready(start, n) && LateGone(start, files, done, moves, n)
             && Within(start, n, done, moves, all)
    ensures TakenOnce(moves) <==> exists i: nat :: i < n && View(files, i).target.None?
    ensures forall i: nat | i < n && View(start, i).target.None? :: View(files, i).backup.None?
  {
    forall i: nat | i < n
      ensures View(files, i).target.None? <==> moves[i] == 1
      ensures View(start, i).target.None? ==> View(files, i).backup.None?
    {
      LateGoneThere(start, files, done, moves, n, i);
    }
  }

  /** A rollback that went well settles every endpoint. */
  lemma {:induction false} LateIsSettled(start: map<Path, Bytes>, files: map<Path, Bytes>, n: nat, done: nat,
                                         moves: seq<nat>, k: nat)
    requires k <= n == |moves| && Within(start, n, done, moves, true) && LateGone(start, files, done, moves, k)
    ensures LateSettled(start, files, moves, k)
  {
    if k > 0 {
      LateIsSettled(start, files, n, done, moves, k - 1);
    }
  }

  /** Of the first `k` endpoints nothing is left but the targets, which were there. */
  ghost predicate Cleared(before: map<Path, Bytes>, files: map<Path, Bytes>, k: nat) {
    k == 0
    || (&& View(before, k - 1).target.Some? && View(files, k - 1) == Slots(View(before, k - 1).target, None, None)
        && Cleared(before, files, k - 1))
  }

  lemma {:induction false} AllCleared(before: map<Path, Bytes>, anew: map<Path, Bytes>, files: map<Path, Bytes>,
                                      n: nat, k: nat)
    requires k <= n && AllNew(anew, files, n) && forall i: nat | i < n :: View(anew, i).stage == View(before, i).target
    requires Ready(anew, n)
    ensures Cleared(before, files, k)
  {
    if k > 0 {
      AllCleared(before, anew, files, n, k - 1);
    }
  }

  /** So does one that was cut short where nothing is missing, once what is left over is gone. */
  lemma {:induction false} LateSettles(start: map<Path, Bytes>, before: map<Path, Bytes>, files: map<Path, Bytes>,
                                       n: nat, done: nat, moves: seq<nat>, all: bool, k: nat)
    requires k <= n == |moves| && Within(start, n, done, moves, all) && LateGone(start, before, done, moves, k)
    requires Cleared(before, files, k)
    ensures LateSettled(start, files, moves, k)
  {
    if k > 0 {
      LateSettles(start, before, files, n, done, moves, all, k - 1);
    }
  }

  /** Recovery of a committed transaction does not care how its targets came to be: as if each had
      just been staged. */
  lemma {:induction false} AsStaged(files: map<Path, Bytes>, t: Record) returns (anew: map<Path, Bytes>)
    requires t.state.Committed? && !Stuck(files, Some(t))
    requires forall i: nat | i < |t.endpoints| && !t.endpoints[i].hadTarget :: View(files, i).backup.None?
    ensures Ready(anew, |t.endpoints|) && Consistent(anew, files, t, |t.endpoints|)
    ensures forall i: nat | i < |t.endpoints| :: View(anew, i).stage == View(files, i).target
  {
    forall i: nat | i < |t.endpoints|
      ensures At(i, Target) in files
    {
      assert View(files, i).target.Some?;
    }
    anew := StagedAnew(files, t);
  }

  /** Recovery is run once more than there are faults, whatever they do to it. */
  method RecoverAll(disk: Disk<Bytes>, ghost start: map<Path, Bytes>, n: nat)
    requires Ready(start, n)
    requires disk.record.Some? && !Stuck(disk.files, disk.record) ==>
             Consistent(start, disk.files, disk.record.value, n)
    modifies disk`files, disk`record, disk`clock, disk`steps
    ensures old(Stuck(disk.files, disk.record)) ==> Stuck(disk.files, disk.record)
    ensures !old(Stuck(disk.files, disk.record)) ==>
              && disk.record.None?
              && if old(disk.record).Some? then Settled(start, disk.files, n, old(disk.record).value.state.Committed?)
                 else disk.files == old(disk.files)
  {
    ghost var stuck, record, files := Stuck(disk.files, disk.record), disk.record, disk.files;
    for k := 0 to |disk.faults| + 1
      invariant stuck ==> Stuck(disk.files, disk.record)
      invariant !stuck && disk.record.Some? ==>
                  && disk.record == record && Consistent(start, disk.files, disk.record.value, n)
                  && k <= disk.clock && k <= |disk.faults|
      invariant !stuck && disk.record.None? ==>
                  if record.Some? then Settled(start, disk.files, n, record.value.state.Committed?)
                  else disk.files == files
    {
      if disk.record.Some? && !stuck {
        NotStuck(start, disk.files, disk.record, n);
      }
      var r := Recover(disk, start, n);
    }
  }

  /** Recovery of any committed transaction: all leftovers go and the targets stay, unless one is
      missing. */
  method RecoverCommitted(disk: Disk<Bytes>, ghost start: map<Path, Bytes>, n: nat)
    requires disk.record.Some? && disk.record.value.state.Committed? && n == |disk.record.value.endpoints|
             && Ready(start, n)
    requires forall i: nat | i < n && !disk.record.value.endpoints[i].hadTarget :: View(disk.files, i).backup.None?
    modifies disk`files, disk`record, disk`clock, disk`steps
    ensures old(Stuck(disk.files, disk.record)) ==> Stuck(disk.files, disk.record)
    ensures !old(Stuck(disk.files, disk.record)) ==>
              && disk.record.None? && Outside(disk.files) == Outside(old(disk.files))
              && Cleared(old(disk.files), disk.files, n)
  {
    ghost var anew, before, stuck := start, disk.files, Stuck(disk.files, disk.record);
    if !stuck {
      anew := AsStaged(disk.files, disk.record.value);
    }
    RecoverAll(disk, anew, n);
    if !stuck {
      AllCleared(before, anew, disk.files, n, n);
    }
  }

  /** After a late failure. */
  method RecoverLeft(disk: Disk<Bytes>, ghost start: map<Path, Bytes>, n: nat, ghost done: nat, ghost moves: seq<nat>,
                     ghost all: bool)
    requires n == |moves| && Ready(start, n) && Within(start, n, done, moves, all)
             && Left(start, disk, n, done, moves, all)
    modifies disk`files, disk`record, disk`clock, disk`steps
    ensures End(start, disk, n, moves, all)
  {
    ghost var before := disk.files;
    if disk.record.None? {
      LateIsSettled(start, disk.files, n, done, moves, n);
    } else {
      LateIsStuck(start, disk.files, n, done, moves, all);
      RecoverCommitted(disk, start, n);
      if !TakenOnce(moves) {
        LateSettles(start, before, disk.files, n, done, moves, all, n);
      }
    }
  }

  method RecoverLate(disk: Disk<Bytes>, ghost start: map<Path, Bytes>, n: nat, ghost clock: nat, ghost t: Record,
                     ghost done: nat)
    requires Ready(start, n) && n == |t.endpoints| && done <= n && LateResult(start, disk, clock, t, done)
    modifies disk`files, disk`record, disk`clock, disk`steps
    ensures LateEnd(start, disk, clock, t, done)
  {
    ghost var at := LateStep(clock, t, done) + 1;
    LateMovesWithin(disk, start, at, n, done);
    RecoverLeft(disk, start, n, done, LateMoves(disk, start, at, n, done), LateClean(disk, start, at, n, done));
  }

  /** Install, then run recovery again and again, whatever the tape does to any step of any of these
      processes. A late failure there is exactly if the first fault is an error at a step of
      finalization. Without one this ends all new or all old, and nothing else left as soon as the
      first record was durable; with one, as `LateEnd` says. */
  method InstallUnderFaults(disk: Disk<Bytes>, n: nat) returns (late: bool, ghost done: nat)
    requires Ready(disk.files, n) && disk.record.None? && !disk.everCommitted
    modifies disk
    ensures var t := NewRecord(old(disk.files), n);
            if disk.Outcome(old(disk.clock)) == Ok
            then done <= n && Decided(disk, old(disk.clock) + 1, t, disk.everCommitted, late, done)
            else !disk.everCommitted && !late
    ensures !late ==>
              && disk.record.None?
              && if disk.Outcome(old(disk.clock)) == Ok then Settled(old(disk.files), disk.files, n, disk.everCommitted)
                 else TargetsKept(old(disk.files), disk.files, n)
    ensures late ==> LateEnd(old(disk.files), disk, old(disk.clock) + 1, NewRecord(old(disk.files), n), done)
    ensures old(disk.Quiet()) ==> !late && disk.everCommitted
  {
    ghost var start, clock := disk.files, disk.clock + 1;
    var r;
    r, late, done := CommitStagedFiles(disk, n);
    if late {
      RecoverLate(disk, start, n, clock, NewRecord(start, n), done);
    } else {
      if disk.record.Some? {
        NotStuck(start, disk.files, disk.record, n);
      }
      RecoverAll(disk, start, n);
    }
  }

  lemma {:induction false} NotStuck(start: map<Path, Bytes>, files: map<Path, Bytes>, record: Option<Record>, n: nat)
    requires Ready(start, n) && record.Some? && Consistent(start, files, record.value, n)
    ensures !Stuck(files, record)
  {
  }

  /** Kills alone: however many, and wherever they fall, the outcome is all new or all old. */
  method InstallUnderKills(disk: Disk<Bytes>, n: nat)
    requires Ready(disk.files, n) && disk.record.None? && !disk.everCommitted
    requires forall k :: disk.Outcome(k) != Raised
    modifies disk
    ensures disk.record.None?
    ensures if disk.Outcome(old(disk.clock)) == Ok then Settled(old(disk.files), disk.files, n, disk.everCommitted)
            else TargetsKept(old(disk.files), disk.files, n)
    ensures disk.Outcome(old(disk.clock)) == Ok ==>
              (disk.everCommitted <==>
               disk.Clean(old(disk.clock) + 1, old(disk.clock) + 1 + SwapSteps(NewRecord(old(disk.files), n))))
  {
    var late;
    ghost var done;
    late, done := InstallUnderFaults(disk, n);
  }

  /** Once stuck, always stuck: however often recovery is run, it never succeeds and the
      committed record stays. */
  method NeverRecovers(disk: Disk<Bytes>, ghost start: map<Path, Bytes>, n: nat, times: nat)
    requires Ready(start, n) && Stuck(disk.files, disk.record)
    modifies disk`files, disk`record, disk`clock, disk`steps
    ensures Stuck(disk.files, disk.record) && disk.record == old(disk.record)
  {
    for k := 0 to times
      invariant Stuck(disk.files, disk.record) && disk.record == old(disk.record)
    {
      var r := Recover(disk, start, n);
    }
  }

  /** It happens: a first install whose last finalization step raises, and whose rollback is killed
      right after it has removed the target. */
  method GetsStuck() returns (disk: Disk<Bytes>)
    ensures fresh(disk) && Stuck(disk.files, disk.record)
  {
    var files: map<Path, Bytes> := map[At(0, Stage) := []];
    disk := new Disk(files, [Proceed, Proceed, Proceed, Proceed, Proceed, Raise, Proceed, Kill]);
    assert Ready(files, 1) && View(files, 0) == Slots(None, Some([]), None);
    StuckAhead(disk, files);
    var late;
    ghost var done;
    late, done := InstallUnderFaults(disk, 1);
  }

  lemma {:induction false} StuckAhead(disk: Disk<Bytes>, files: map<Path, Bytes>)
    requires disk.faults == [Proceed, Proceed, Proceed, Proceed, Proceed, Raise, Proceed, Kill]
    requires View(files, 0) == Slots(None, Some([]), None)
    ensures var t := NewRecord(files, 1);
            && LateAt(disk, 1, t, 1) && LateStep(1, t, 1) == 5
            && !LateClean(disk, files, 6, 1, 1) && TakenOnce(LateMoves(disk, files, 6, 1, 1))
  {
    var t, costs := NewRecord(files, 1), LateCosts(files, 1, 1);
    assert Had(t.endpoints, 0) == 0 && Had(t.endpoints, 1) == 0;
    assert costs == [1];
    assert Total(costs, 1) == 0 && Total(costs, 0) == 1;
    assert disk.Outcome(7) == Killed;
    ThroughIs(disk, 6, 1, 1);
    assert Turn(disk, 6, costs, 1) == Some(6);
    assert Progress(disk, 6, costs, 0) == 1;
    MovesAt(disk, 6, costs, 1, 0);
  }
}
