/** scripts/install-archify.py: the same swap over directory trees, whose removal takes one
    durable step an entry and can be cut anywhere. */
module Archify {
  import opened Options
  import opened EndpointSwap
  import opened UndoSteps

  type Bytes = seq<bv8>

  /** A file of a Skill tree; the ownership marker is read as its JSON fields. */
  datatype Entry = Blob(bytes: Bytes) | Marker(schemaVersion: int, managedBy: string, skill: string)
  datatype Item = Item(name: string, entry: Entry)

  /** A directory tree, in the order in which its entries are removed. */
  datatype Tree = Tree(items: seq<Item>)

  const MARKER_FILENAME := ".codex-workbench-archify.json"
  const MANAGED_BY := "codex-workbench"
  const SKILL_NAME := "archify"

  predicate Owned(t: Tree) {
    Item(MARKER_FILENAME, Marker(1, MANAGED_BY, SKILL_NAME)) in t.items
  }

  predicate OwnedThere(t: Option<Tree>) {
    t.Some? && Owned(t.value)
  }

  /** Its entries, then the directory itself. */
  function Size(t: Option<Tree>): nat {
    if t.None? then 0 else |t.value.items| + 1
  }

  function Shrink(t: Tree): Option<Tree> {
    if t.items == [] then None else Some(Tree(t.items[1..]))
  }

  /** What so many steps of its removal leave of a tree. */
  function Rest(t: Option<Tree>, d: nat): Option<Tree> {
    if t.Some? && d <= |t.value.items| then Some(Tree(t.value.items[d..])) else None
  }

  const TREES: Way<Tree> := Way(Size, Shrink)

  lemma {:induction false} TreesCount()
    ensures Counts(TREES)
  {
  }

  function UndoCost(s: Slots<Tree>, hadTarget: bool): nat {
    Steps(TREES, s, hadTarget)
  }

  ghost function FinishCost(s: Slots<Tree>, hadTarget: bool): nat {
    (if hadTarget then Size(s.backup) else 0) + Size(s.stage)
  }

  ghost function StepsLeft(files: map<Path, Tree>, record: Option<Record>): nat {
    Remaining(UndoCost, FinishCost, files, record)
  }

  /** What may be left of a tree while it is being removed. */
  predicate Part(t: Option<Tree>, whole: Option<Tree>) {
    Size(t) <= Size(whole) && t == Rest(whole, Size(whole) - Size(t))
  }

  /** `_remove_owned_tree`: every entry in turn, then the directory itself. */
  method RemoveTree(disk: Disk<Tree>, i: nat, slot: Slot) returns (r: Result)
    requires At(i, slot) in disk.files
    modifies disk`files, disk`clock, disk`steps
    ensures !r.Exited? && Only(old(disk.files), disk.files, i) && disk.steps >= old(disk.steps)
    ensures var whole := Get(old(View(disk.files, i)), slot);
            && View(disk.files, i) == Put(old(View(disk.files, i)), slot, Rest(whole, disk.steps - old(disk.steps)))
            && disk.steps - old(disk.steps) <= Size(whole) && (r.Ok? <==> disk.steps - old(disk.steps) == Size(whole))
    ensures disk.clock - old(disk.clock) == disk.steps - old(disk.steps) + if r.Ok? then 0 else 1
    ensures disk.clock > old(disk.clock) && disk.Clean(old(disk.clock), disk.clock - 1)
            && r == disk.Outcome(disk.clock - 1)
  {
    var p := At(i, slot);
    ghost var whole := disk.files[p];
    while disk.files[p].items != []
      invariant p in disk.files && disk.steps >= old(disk.steps) && disk.steps - old(disk.steps) <= |whole.items|
      invariant disk.files[p] == Tree(whole.items[disk.steps - old(disk.steps)..])
      invariant Only(old(disk.files), disk.files, i)
      invariant View(disk.files, i) == Put(old(View(disk.files, i)), slot, Some(disk.files[p]))
      invariant disk.clock - old(disk.clock) == disk.steps - old(disk.steps)
      invariant disk.clock >= old(disk.clock) && disk.Clean(old(disk.clock), disk.clock)
      decreases |disk.files[p].items|
    {
      :- RemoveEntry(disk, i, slot);
    }
    r := disk.Unlink(i, slot);
  }

  method RemoveEntry(disk: Disk<Tree>, i: nat, slot: Slot) returns (r: Result)
    requires At(i, slot) in disk.files && disk.files[At(i, slot)].items != []
    modifies disk`files, disk`clock, disk`steps
    ensures Only(old(disk.files), disk.files, i)
    ensures At(i, slot) in disk.files
    ensures View(disk.files, i) == Put(old(View(disk.files, i)), slot, Some(disk.files[At(i, slot)]))
    ensures disk.files[At(i, slot)] ==
            if r.Ok? then Tree(old(disk.files[At(i, slot)]).items[1..]) else old(disk.files[At(i, slot)])
    ensures disk.clock == old(disk.clock) + 1 && r == disk.Outcome(old(disk.clock))
    ensures disk.steps == old(disk.steps) + if r.Ok? then 1 else 0
  {
    r := disk.Tick();
    if r.Ok? {
      var p := At(i, slot);
      disk.files := disk.files[p := Tree(disk.files[p].items[1..])];
    }
  }

  /** Remove the tree if it is there; `d` counts the steps that took effect. */
  method Discard(disk: Disk<Tree>, i: nat, slot: Slot) returns (r: Result, ghost d: nat)
    modifies disk`files, disk`clock, disk`steps
    ensures !r.Exited? && Only(old(disk.files), disk.files, i)
    ensures var whole := Get(old(View(disk.files, i)), slot);
            && View(disk.files, i) == Put(old(View(disk.files, i)), slot, Rest(whole, d))
            && d <= Size(whole) && (r.Ok? <==> d == Size(whole))
    ensures disk.steps == old(disk.steps) + d && disk.clock == old(disk.clock) + d + if r.Ok? then 0 else 1
    ensures disk.Clean(old(disk.clock), old(disk.clock) + d) && (!r.Ok? ==> r == disk.Outcome(old(disk.clock) + d))
  {
    r, d := Ok, 0;
    if At(i, slot) in disk.files {
      r := RemoveTree(disk, i, slot);
      d := disk.steps - old(disk.steps);
    }
  }

  lemma {:induction false} RestShrinks(t: Option<Tree>, d: nat)
    requires d <= Size(t)
    ensures Rest(t, d) == ShrunkBy(TREES, t, d)
  {
    if d > 0 {
      RestShrinks(t, d - 1);
    }
  }

  /** The new tree goes. */
  method DiscardTarget(disk: Disk<Tree>, hadTarget: bool, i: nat) returns (r: Result)
    requires hadTarget ==> View(disk.files, i).backup.Some?
    modifies disk`files, disk`clock, disk`steps
    ensures Only(old(disk.files), disk.files, i) && !r.Exited?
    ensures disk.steps + UndoCost(View(disk.files, i), hadTarget) ==
            old(disk.steps) + UndoCost(old(View(disk.files, i)), hadTarget)
    ensures if r.Ok? then
              && Undoing(disk, TREES, old(disk.clock), disk.clock, old(View(disk.files, i)), View(disk.files, i),
                         hadTarget)
              && View(disk.files, i) == old(View(disk.files, i)).(target := None)
            else
              Taken(disk, TREES, old(disk.clock), disk.clock, old(View(disk.files, i)), View(disk.files, i),
                    hadTarget, r)
  {
    ghost var was, clock, d := View(disk.files, i), disk.clock, 0;
    r, d := Discard(disk, i, Target);
    TreesCount();
    RestShrinks(was.target, d);
    TargetDiscarded(disk, TREES, clock, clock, disk.clock, was, was, hadTarget, d, r);
  }

  /** The old tree comes back. */
  method RestoreBackup(disk: Disk<Tree>, i: nat) returns (r: Result)
    requires At(i, Backup) in disk.files
    modifies disk`files, disk`clock, disk`steps
    ensures Only(old(disk.files), disk.files, i) && !r.Exited?
    ensures disk.steps + UndoCost(View(disk.files, i), true) ==
            old(disk.steps) + UndoCost(old(View(disk.files, i)), true)
    ensures if r.Ok? then
              && Undoing(disk, TREES, old(disk.clock), disk.clock, old(View(disk.files, i)), View(disk.files, i), true)
              && View(disk.files, i).backup.None?
            else Taken(disk, TREES, old(disk.clock), disk.clock, old(View(disk.files, i)), View(disk.files, i), true, r)
  {
    ghost var was, clock := View(disk.files, i), disk.clock;
    r := DiscardTarget(disk, true, i);
    if r.Ok? {
      ghost var s, at := View(disk.files, i), disk.clock;
      r := disk.Replace(i, Backup, Target);
      BackupReturns(disk, clock, at, was, s, View(disk.files, i), r);
    }
  }

  lemma {:induction false} BackupReturns(disk: Disk<Tree>, clock: nat, at: nat, was: Slots<Tree>, s: Slots<Tree>,
                                         u: Slots<Tree>, r: Result)
    requires Undoing(disk, TREES, clock, at, was, s, true) && s.target.None? && s.backup.Some? && r == disk.Outcome(at)
    requires u == if r.Ok? then Slots(s.backup, s.stage, None) else s
    ensures UndoCost(u, true) + (if r.Ok? then 1 else 0) == UndoCost(s, true)
    ensures if r.Ok? then Undoing(disk, TREES, clock, at + 1, was, u, true)
            else Taken(disk, TREES, clock, at + 1, was, u, true, r)
  {
    TreesCount();
    UndoingOn(disk, TREES, clock, at, was, s, true);
  }

  /** The first half: what was there comes back, or what was not there goes. */
  method RestoreTarget(disk: Disk<Tree>, hadTarget: bool, i: nat) returns (r: Result)
    modifies disk`files, disk`clock, disk`steps
    ensures Only(old(disk.files), disk.files, i)
    ensures r.Exited? ==>
              && hadTarget && Restored(old(View(disk.files, i)), hadTarget).None?
              && View(disk.files, i) == old(View(disk.files, i)) && disk.clock == old(disk.clock)
    ensures hadTarget && Restored(old(View(disk.files, i)), hadTarget).None? ==> r.Exited?
    ensures disk.steps + UndoCost(View(disk.files, i), hadTarget) ==
            old(disk.steps) + UndoCost(old(View(disk.files, i)), hadTarget)
    ensures r.Ok? ==>
              && Undoing(disk, TREES, old(disk.clock), disk.clock, old(View(disk.files, i)), View(disk.files, i),
                         hadTarget)
              && if hadTarget then View(disk.files, i).backup.None? else View(disk.files, i).target.None?
    ensures r.Raised? || r.Killed? ==>
              Taken(disk, TREES, old(disk.clock), disk.clock, old(View(disk.files, i)), View(disk.files, i),
                    hadTarget, r)
  {
    if hadTarget && At(i, Backup) in disk.files {
      r := RestoreBackup(disk, i);
    } else if hadTarget {
      r := if At(i, Target) in disk.files then Ok else Exited(MissingBoth(i));
    } else {
      r := DiscardTarget(disk, false, i);
    }
  }

  /** The second half: the stage goes. */
  method DiscardStage(disk: Disk<Tree>, hadTarget: bool, i: nat, ghost was: Slots<Tree>, ghost clock: nat)
    returns (r: Result)
    requires Undoing(disk, TREES, clock, disk.clock, was, View(disk.files, i), hadTarget)
    requires if hadTarget then View(disk.files, i).backup.None? else View(disk.files, i).target.None?
    modifies disk`files, disk`clock, disk`steps
    ensures Only(old(disk.files), disk.files, i) && !r.Exited? && disk.clock >= old(disk.clock)
    ensures disk.steps + UndoCost(View(disk.files, i), hadTarget) ==
            old(disk.steps) + UndoCost(old(View(disk.files, i)), hadTarget)
    ensures Taken(disk, TREES, clock, disk.clock, was, View(disk.files, i), hadTarget, r)
  {
    ghost var s, at, d := View(disk.files, i), disk.clock, 0;
    r, d := Discard(disk, i, Stage);
    StageGone(disk, clock, at, disk.clock, was, s, View(disk.files, i), hadTarget, d, r);
  }

  lemma {:induction false} StageGone(disk: Disk<Tree>, clock: nat, at: nat, now: nat, was: Slots<Tree>, s: Slots<Tree>,
                                     u: Slots<Tree>, had: bool, d: nat, r: Result)
    requires Undoing(disk, TREES, clock, at, was, s, had) && (if had then s.backup.None? else s.target.None?)
    requires u == Put(s, Stage, Rest(s.stage, d)) && d <= Size(s.stage)
    requires disk.Clean(at, at + d) && now == at + d + if r.Ok? then 0 else 1
    requires if r.Ok? then d == Size(s.stage) else d < Size(s.stage) && r == disk.Outcome(at + d)
    ensures UndoCost(u, had) + d == UndoCost(s, had) && Taken(disk, TREES, clock, now, was, u, had, r)
  {
    TreesCount();
    RestShrinks(s.stage, d);
    StageDiscarded(disk, TREES, clock, at, now, was, s, had, d, r);
    assert u == s.(stage := ShrunkBy(TREES, s.stage, d));
    if r.Ok? {
      UndoingEnds(disk, TREES, clock, now, was, u, had);
    }
  }

  method RollbackEndpoint(disk: Disk<Tree>, hadTarget: bool, i: nat) returns (r: Result)
    modifies disk`files, disk`clock, disk`steps
    ensures Only(old(disk.files), disk.files, i)
    ensures disk.steps + UndoCost(View(disk.files, i), hadTarget) ==
            old(disk.steps) + UndoCost(old(View(disk.files, i)), hadTarget)
    ensures Turned(disk, TREES, old(disk.clock), disk.clock, old(View(disk.files, i)), View(disk.files, i),
                   hadTarget, r)
  {
    ghost var was, clock := View(disk.files, i), disk.clock;
    r := RestoreTarget(disk, hadTarget, i);
    if r.Ok? {
      r := DiscardStage(disk, hadTarget, i, was, clock);
    }
  }

  /** One turn. */
  method RollbackNext(disk: Disk<Tree>, ghost start: map<Path, Tree>, ghost clock: nat, t: Record, k: nat,
                      ghost done: bool)
    returns (r: Result)
    requires k < |t.endpoints| && RollingBack(start, disk.files, t, k + 1, done)
    requires AllRestorable(start, t) ==> GoneTo(disk, TREES, clock, disk.clock, start, disk.files, t, k + 1)
    modifies disk`files, disk`clock, disk`steps
    ensures RollingBack(start, disk.files, t, k, done && r.Ok?)
    ensures Only(old(disk.files), disk.files, k)
    ensures disk.steps + UndoCost(View(disk.files, k), t.endpoints[k].hadTarget) ==
            old(disk.steps) + UndoCost(old(View(disk.files, k)), t.endpoints[k].hadTarget)
    ensures disk.clock >= old(disk.clock)
    ensures r.Raised? || r.Killed? ==> disk.clock > old(disk.clock) && r == disk.Outcome(disk.clock - 1)
    ensures AllRestorable(start, t) ==>
              && Went(disk, TREES, clock, start, disk.files, t, k) && !r.Exited?
              && Turn(disk, clock, Costs(TREES, start, t), k) == (if r.Killed? then None else Some(disk.clock))
              && (Completes(disk, clock, Costs(TREES, start, t), k) <==>
                  Completes(disk, clock, Costs(TREES, start, t), k + 1) && r.Ok?)
  {
    ghost var was, at := disk.files, disk.clock;
    TreesCount();
    r := RollbackEndpoint(disk, t.endpoints[k].hadTarget, k);
    OneTurn(disk, TREES, clock, at, disk.clock, start, was, disk.files, t, k, done, r);
  }

  ghost function UndoLeft(files: map<Path, Tree>, t: Record): nat {
    Sum(UndoCost, files, t.endpoints, |t.endpoints|)
  }

  lemma {:induction false} UndoLeftNow(was: map<Path, Tree>, files: map<Path, Tree>, t: Record, k: nat)
    requires k < |t.endpoints| && Only(was, files, k)
    ensures var had := t.endpoints[k].hadTarget;
            UndoLeft(files, t) + UndoCost(View(was, k), had) == UndoLeft(was, t) + UndoCost(View(files, k), had)
  {
    SumOnly(UndoCost, was, files, t.endpoints, k, |t.endpoints|);
  }

  /** An error is noted and the next endpoint has its turn. */
  method RollbackTurn(disk: Disk<Tree>, ghost start: map<Path, Tree>, ghost clock: nat, t: Record, k: nat, errors: bool)
    returns (r: Result, errors': bool)
    requires k < |t.endpoints| && RollingBack(start, disk.files, t, k + 1, !errors)
    requires disk.clock >= clock && (AllRestorable(start, t) && errors ==> !disk.Clean(clock, disk.clock))
    requires AllRestorable(start, t) ==> GoneTo(disk, TREES, clock, disk.clock, start, disk.files, t, k + 1)
    requires AllRestorable(start, t) ==> (!errors <==> Completes(disk, clock, Costs(TREES, start, t), k + 1))
    modifies disk`files, disk`clock, disk`steps
    ensures (r.Ok? || r.Killed?) && RollingBack(start, disk.files, t, k, r.Ok? && !errors')
    ensures disk.steps + UndoLeft(disk.files, t) == old(disk.steps) + UndoLeft(old(disk.files), t)
    ensures disk.clock >= clock
    ensures AllRestorable(start, t) && (errors' || r.Killed?) ==> !disk.Clean(clock, disk.clock)
    ensures AllRestorable(start, t) ==>
              && Went(disk, TREES, clock, start, disk.files, t, k)
              && Turn(disk, clock, Costs(TREES, start, t), k) == (if r.Ok? then Some(disk.clock) else None)
              && (r.Ok? && !errors' <==> Completes(disk, clock, Costs(TREES, start, t), k))
  {
    ghost var was := disk.files;
    r := RollbackNext(disk, start, clock, t, k, !errors);
    UndoLeftNow(was, disk.files, t, k);
    errors' := errors || r.Raised? || r.Exited?;
    if r.Raised? || r.Exited? {
      r := Ok;
    }
  }

  /** The endpoints, last first. An error, a missing target included, is noted and the others are
      still rolled back. */
  method RollbackEach(disk: Disk<Tree>, t: Record) returns (r: Result, errors: bool)
    modifies disk`files, disk`clock, disk`steps
    ensures (r.Ok? || r.Killed?) && RollingBack(old(disk.files), disk.files, t, 0, r.Ok? && !errors)
    ensures disk.steps + UndoLeft(disk.files, t) == old(disk.steps) + UndoLeft(old(disk.files), t)
    ensures disk.clock >= old(disk.clock)
    ensures AllRestorable(old(disk.files), t) && (errors || r.Killed?) ==> !disk.Clean(old(disk.clock), disk.clock)
    ensures AllRestorable(old(disk.files), t) ==>
              var costs := Costs(TREES, old(disk.files), t);
              && Went(disk, TREES, old(disk.clock), old(disk.files), disk.files, t, 0)
              && (r.Ok? ==> Turn(disk, old(disk.clock), costs, 0) == Some(disk.clock))
              && (r.Ok? && !errors <==> Completes(disk, old(disk.clock), costs, 0))
  {
    ghost var start, clock := disk.files, disk.clock;
    r, errors := Ok, false;
    var k := |t.endpoints|;
    while k > 0
      invariant 0 <= k <= |t.endpoints| && r.Ok? && RollingBack(start, disk.files, t, k, !errors)
      invariant disk.steps + UndoLeft(disk.files, t) == old(disk.steps) + UndoLeft(start, t)
      invariant disk.clock >= clock && (AllRestorable(start, t) && errors ==> !disk.Clean(clock, disk.clock))
      invariant AllRestorable(start, t) ==> GoneTo(disk, TREES, clock, disk.clock, start, disk.files, t, k)
      invariant AllRestorable(start, t) ==> (!errors <==> Completes(disk, clock, Costs(TREES, start, t), k))
    {
      k := k - 1;
      r, errors := RollbackTurn(disk, start, clock, t, k, errors);
      if !r.Ok? {
        CutShort(disk, TREES, clock, start, disk.files, t, k);
        return;
      }
    }
  }

  lemma {:induction false} NothingLeft(before: map<Path, Tree>, files: map<Path, Tree>, t: Record)
    requires RollingBack(before, files, t, 0, true)
    ensures UndoLeft(files, t) == 0 && RollingBack(before, files, t, 0, false)
  {
    SumOfZeros(UndoCost, files, t.endpoints, |t.endpoints|);
  }

  /** An error at one endpoint is noted and the others are still rolled back; the record
      then stays. */
  method RollbackTransaction(disk: Disk<Tree>, t: Record) returns (r: Result)
    requires disk.record == Some(t)
    modifies disk`files, disk`record, disk`clock, disk`steps
    ensures RollingBack(old(disk.files), disk.files, t, 0, r.Ok?)
    ensures disk.record == if r.Ok? then None else Some(t)
    ensures r.Exited? ==> r == Exited(RollbackFailed)
    ensures !t.state.Committed? ==>
              disk.steps + StepsLeft(disk.files, disk.record) == old(disk.steps + StepsLeft(disk.files, disk.record))
    ensures disk.clock >= old(disk.clock)
    ensures AllRestorable(old(disk.files), t) ==>
              var clock, costs := old(disk.clock), Costs(TREES, old(disk.files), t);
              && Went(disk, TREES, clock, old(disk.files), disk.files, t, 0)
              && (r.Ok? <==> disk.Clean(clock, clock + Total(costs, 0) + 1))
              && (!r.Ok? ==> !disk.Clean(clock, disk.clock))
  {
    ghost var start, clock := disk.files, disk.clock;
    CompletesAndOne(disk, clock, Costs(TREES, disk.files, t));
    var errors;
    r, errors := RollbackEach(disk, t);
    if r.Killed? {
      return;
    }
    if errors {
      RollingBackAny(start, disk.files, t, 0, false);
      return Exited(RollbackFailed);
    }
    r := disk.RemoveRecord();
    NothingLeft(start, disk.files, t);
  }

  ghost predicate Finished(s: Slots<Tree>, was: Slots<Tree>, hadTarget: bool) {
    s == Slots(was.target, None, if hadTarget then None else was.backup)
  }

  /** The slots while their leftovers are being removed: the target is never touched. */
  ghost predicate Finishing(s: Slots<Tree>, was: Slots<Tree>, hadTarget: bool) {
    && s.target == was.target
    && Part(s.stage, was.stage)
    && Part(s.backup, was.backup)
    && (!hadTarget ==> s.backup == was.backup)
  }

  method FinalizeEndpoint(disk: Disk<Tree>, hadTarget: bool, i: nat) returns (r: Result)
    modifies disk`files, disk`clock, disk`steps
    ensures !r.Exited? && Only(old(disk.files), disk.files, i)
    ensures Finishing(View(disk.files, i), old(View(disk.files, i)), hadTarget)
    ensures r.Ok? ==> Finished(View(disk.files, i), old(View(disk.files, i)), hadTarget)
    ensures disk.steps + FinishCost(View(disk.files, i), hadTarget) ==
            old(disk.steps) + FinishCost(old(View(disk.files, i)), hadTarget)
    ensures disk.clock - old(disk.clock) == disk.steps - old(disk.steps) + if r.Ok? then 0 else 1
    ensures disk.clock >= old(disk.clock)
    ensures r.Ok? ==> disk.Clean(old(disk.clock), disk.clock)
    ensures !r.Ok? ==>
              && disk.clock > old(disk.clock) && disk.Clean(old(disk.clock), disk.clock - 1)
              && r == disk.Outcome(disk.clock - 1)
              && FinishCost(View(disk.files, i), hadTarget) > 0
  {
    ghost var was, d := View(disk.files, i), 0;
    r := Ok;
    if hadTarget {
      r, d := Discard(disk, i, Backup);
      PartRest(was.backup, d);
    }
    if r.Ok? {
      r, d := Discard(disk, i, Stage);
      PartRest(was.stage, d);
    }
    PartWhole(was.backup);
    PartWhole(was.stage);
  }

  lemma {:induction false} PartRest(whole: Option<Tree>, d: nat)
    requires d <= Size(whole)
    ensures Part(Rest(whole, d), whole) && Size(Rest(whole, d)) == Size(whole) - d
  {
  }

  lemma {:induction false} PartWhole(whole: Option<Tree>)
    ensures Part(whole, whole) && Rest(whole, 0) == whole
  {
    if whole.Some? {
      assert whole.value.items[0..] == whole.value.items;
    }
  }

  /** The first `done` endpoints are finished, the next may be half way. */
  ghost predicate FinishedUpTo(before: map<Path, Tree>, after: map<Path, Tree>, t: Record, done: nat) {
    && Outside(after) == Outside(before)
    && forall i: nat | i < |t.endpoints| ::
         var had, s, was := t.endpoints[i].hadTarget, View(after, i), View(before, i);
         && Finishing(s, was, had)
         && (i < done ==> Finished(s, was, had))
         && (i > done ==> s == was)
  }

  /** The first `i` endpoints are finished, the others untouched. */
  ghost predicate FinishedBefore(before: map<Path, Tree>, after: map<Path, Tree>, t: Record, i: nat) {
    && Outside(after) == Outside(before)
    && forall j: nat | j < |t.endpoints| ::
         if j < i then Finished(View(after, j), View(before, j), t.endpoints[j].hadTarget)
         else View(after, j) == View(before, j)
  }

  lemma {:induction false} FinishingAny(s: Slots<Tree>, was: Slots<Tree>, had: bool)
    requires s == was || Finished(s, was, had)
    ensures Finishing(s, was, had)
  {
    PartWhole(was.backup);
    PartWhole(was.stage);
  }

  lemma {:induction false} OneFinished(before: map<Path, Tree>, mid: map<Path, Tree>, after: map<Path, Tree>,
                                       t: Record, i: nat)
    requires FinishedBefore(before, mid, t, i) && i < |t.endpoints| && Only(mid, after, i)
    requires Finishing(View(after, i), View(mid, i), t.endpoints[i].hadTarget)
    ensures FinishedUpTo(before, after, t, i)
    ensures Finished(View(after, i), View(mid, i), t.endpoints[i].hadTarget) ==> FinishedBefore(before, after, t, i + 1)
  {
    forall j: nat | j < |t.endpoints| && j != i
      ensures Finishing(View(after, j), View(before, j), t.endpoints[j].hadTarget)
    {
      FinishingAny(View(after, j), View(before, j), t.endpoints[j].hadTarget);
    }
  }

  lemma {:induction false} AllFinished(before: map<Path, Tree>, after: map<Path, Tree>, t: Record, i: nat)
    requires FinishedBefore(before, after, t, i)
    ensures FinishedUpTo(before, after, t, i)
  {
    forall j: nat | j < |t.endpoints|
      ensures Finishing(View(after, j), View(before, j), t.endpoints[j].hadTarget)
    {
      FinishingAny(View(after, j), View(before, j), t.endpoints[j].hadTarget);
    }
  }

  method FinalizeNext(disk: Disk<Tree>, ghost start: map<Path, Tree>, t: Record, i: nat) returns (r: Result)
    requires i < |t.endpoints| && FinishedBefore(start, disk.files, t, i)
    modifies disk`files, disk`clock, disk`steps
    ensures FinishedUpTo(start, disk.files, t, i) && (r.Ok? ==> FinishedBefore(start, disk.files, t, i + 1))
    ensures r.Ok? ==> OwnedThere(View(start, i).target)
    ensures r.Exited? ==>
              && r.reason == NotInstalled(i)
              && var s := View(start, i); s.target.Some? ==> !Owned(s.target.value)
    ensures disk.steps + Sum(FinishCost, disk.files, t.endpoints, |t.endpoints|) ==
            old(disk.steps) + Sum(FinishCost, old(disk.files), t.endpoints, |t.endpoints|)
    ensures disk.clock - old(disk.clock) == disk.steps - old(disk.steps) + if r.Ok? || r.Exited? then 0 else 1
    ensures disk.clock >= old(disk.clock)
    ensures r.Ok? || r.Exited? ==> disk.Clean(old(disk.clock), disk.clock)
    ensures r.Raised? || r.Killed? ==>
              && disk.clock > old(disk.clock) && disk.Clean(old(disk.clock), disk.clock - 1)
              && r == disk.Outcome(disk.clock - 1)
              && FinishCost(View(disk.files, i), t.endpoints[i].hadTarget) > 0
  {
    if At(i, Target) !in disk.files || !Owned(disk.files[At(i, Target)]) {
      AllFinished(start, disk.files, t, i);
      return Exited(NotInstalled(i));
    }
    ghost var was := disk.files;
    r := FinalizeEndpoint(disk, t.endpoints[i].hadTarget, i);
    SumOnly(FinishCost, was, disk.files, t.endpoints, i, |t.endpoints|);
    OneFinished(start, was, disk.files, t, i);
  }

  /** `done` counts the endpoints whose leftovers are gone. Finalization is all there is
      until its first fault, so the number of steps taken says how far it got. */
  method FinalizeEach(disk: Disk<Tree>, t: Record) returns (r: Result, ghost done: nat)
    modifies disk`files, disk`clock, disk`steps
    ensures done <= |t.endpoints| && FinishedUpTo(old(disk.files), disk.files, t, done)
    ensures r.Ok? ==> done == |t.endpoints| && forall i: nat | i < done :: OwnedThere(View(old(disk.files), i).target)
    ensures r.Exited? ==>
              r.reason.NotInstalled? && r.reason.endpoint < |t.endpoints|
              && var s := View(old(disk.files), r.reason.endpoint); s.target.Some? ==> !Owned(s.target.value)
    ensures disk.steps + Sum(FinishCost, disk.files, t.endpoints, |t.endpoints|) ==
            old(disk.steps) + Sum(FinishCost, old(disk.files), t.endpoints, |t.endpoints|)
    ensures disk.clock - old(disk.clock) == disk.steps - old(disk.steps) + if r.Ok? || r.Exited? then 0 else 1
    ensures disk.clock >= old(disk.clock) && (r.Ok? ==> disk.Clean(old(disk.clock), disk.clock))
    ensures r.Raised? || r.Killed? ==>
              && disk.clock > old(disk.clock) && disk.Clean(old(disk.clock), disk.clock - 1)
              && r == disk.Outcome(disk.clock - 1)
              && done < |t.endpoints| && FinishCost(View(disk.files, done), t.endpoints[done].hadTarget) > 0
  {
    ghost var n, start := |t.endpoints|, disk.files;
    done := 0;
    for i := 0 to |t.endpoints|
      invariant done == i && FinishedBefore(start, disk.files, t, i)
      invariant forall j: nat | j < i :: OwnedThere(View(start, j).target)
      invariant disk.steps + Sum(FinishCost, disk.files, t.endpoints, n) ==
                old(disk.steps) + Sum(FinishCost, old(disk.files), t.endpoints, n)
      invariant disk.clock >= old(disk.clock) && disk.Clean(old(disk.clock), disk.clock)
      invariant disk.clock - old(disk.clock) == disk.steps - old(disk.steps)
    {
      r := FinalizeNext(disk, start, t, i);
      if !r.Ok? {
        return;
      }
      done := done + 1;
    }
    AllFinished(start, disk.files, t, n);
    r := Ok;
  }

  method FinalizeCommittedTransaction(disk: Disk<Tree>, t: Record) returns (r: Result, ghost done: nat)
    requires disk.record == Some(t)
    modifies disk`files, disk`record, disk`clock, disk`steps
    ensures done <= |t.endpoints| && FinishedUpTo(old(disk.files), disk.files, t, done)
    ensures r.Ok? ==> done == |t.endpoints| && forall i: nat | i < done :: OwnedThere(View(old(disk.files), i).target)
    ensures disk.record == if r.Ok? then None else Some(t)
    ensures r.Exited? ==>
              r.reason.NotInstalled? && r.reason.endpoint < |t.endpoints|
              && var s := View(old(disk.files), r.reason.endpoint); s.target.Some? ==> !Owned(s.target.value)
    ensures t.state.Committed? ==>
              disk.steps + StepsLeft(disk.files, disk.record) == old(disk.steps + StepsLeft(disk.files, disk.record))
    ensures disk.clock >= old(disk.clock)
    ensures !r.Exited? ==>
              && disk.clock > old(disk.clock) && disk.Clean(old(disk.clock), disk.clock - 1)
              && r == disk.Outcome(disk.clock - 1)
              && disk.clock - 1 == old(disk.clock) + Sum(FinishCost, old(disk.files), t.endpoints, |t.endpoints|)
                                   - Sum(FinishCost, disk.files, t.endpoints, |t.endpoints|)
    ensures !r.Exited? && done < |t.endpoints| ==>
              FinishCost(View(disk.files, done), t.endpoints[done].hadTarget) > 0
  {
    r, done := FinalizeEach(disk, t);
    if r.Ok? {
      SumOfZeros(FinishCost, disk.files, t.endpoints, |t.endpoints|);
      r := disk.RemoveRecord();
    }
  }

  /** As staged by `_prepare_staging`: every stage carries the ownership marker. */
  ghost predicate Staged(start: map<Path, Tree>, n: nat) {
    && Ready(start, n)
    && forall i: nat | i < n :: Owned(View(start, i).stage.value)
  }

  /** A committed record beside a target that is missing or has lost its marker. */
  ghost predicate Blocked(files: map<Path, Tree>, record: Option<Record>) {
    && record.Some? && record.value.state.Committed?
    && exists i: nat :: i < |record.value.endpoints| && !OwnedThere(View(files, i).target)
  }

  lemma {:induction false} FinalizeOn(start: map<Path, Tree>, was: map<Path, Tree>, files: map<Path, Tree>, t: Record,
                                      n: nat, done: nat)
    requires Staged(start, n) && Consistent(start, was, t, n) && t.state.Committed? && FinishedUpTo(was, files, t, done)
    ensures Consistent(start, files, t, n) && (done == n ==> AllNew(start, files, n))
    ensures forall i: nat | i < n :: OwnedThere(View(was, i).target)
  {
  }

  lemma {:induction false} RollbackOn(start: map<Path, Tree>, was: map<Path, Tree>, files: map<Path, Tree>, t: Record,
                                      n: nat, ok: bool)
    requires Consistent(start, was, t, n) && !t.state.Committed? && RollingBack(was, files, t, 0, ok)
    ensures Consistent(start, files, t, n) && (ok ==> AllOld(start, files, n))
  {
  }

  /** Recovery from every state a kill can leave ends all-new or all-old; the ownership
      check of a committed target always passes, and each durable step shortens what is left
      by one, so recoveries cut anywhere still converge. Where a committed target is missing or
      not owned it never succeeds. */
  method Recover(disk: Disk<Tree>, ghost start: map<Path, Tree>, n: nat) returns (r: Result)
    requires Staged(start, n)
    requires disk.record.Some? && !Blocked(disk.files, disk.record) ==>
             Consistent(start, disk.files, disk.record.value, n)
    modifies disk`files, disk`record, disk`clock, disk`steps
    ensures old(Blocked(disk.files, disk.record)) ==>
              !r.Ok? && disk.record == old(disk.record) && Blocked(disk.files, disk.record)
    ensures old(Blocked(disk.files, disk.record)) || StepsOn(old(disk.files), old(disk.record), disk, start, n, r)
    ensures !old(Blocked(disk.files, disk.record)) && r.Exited? ==> r.reason.RollbackFailed?
    ensures disk.steps + StepsLeft(disk.files, disk.record) == old(disk.steps + StepsLeft(disk.files, disk.record))
    ensures !old(Blocked(disk.files, disk.record)) && !r.Ok? ==> !disk.Clean(old(disk.clock), disk.clock)
    ensures disk.clock >= old(disk.clock)
  {
    ghost var was, blocked := disk.files, Blocked(disk.files, disk.record);
    match disk.record
    case None => return Ok;
    case Some(t) =>
      if t.state.Committed? {
        ghost var done;
        r, done := FinalizeCommittedTransaction(disk, t);
        if !blocked {
          FinalizeOn(start, was, disk.files, t, n, done);
        }
      } else {
        r := RollbackTransaction(disk, t);
        RollbackOn(start, was, disk.files, t, n, r.Ok?);
      }
  }

  /** What recovery does to a disk that is not blocked. */
  ghost predicate StepsOn(was: map<Path, Tree>, record: Option<Record>, disk: Disk<Tree>,
                          start: map<Path, Tree>, n: nat, r: Result)
    reads disk
  {
    && (!r.Ok? ==>
        && disk.record == record && record.Some? && Consistent(start, disk.files, record.value, n))
    && (r.Ok? && record.Some? ==>
        disk.record == None && Settled(start, disk.files, n, record.value.state.Committed?))
    && (r.Ok? && record.None? ==> disk.record == None && disk.files == was)
  }

  lemma {:induction false} NotBlocked(start: map<Path, Tree>, files: map<Path, Tree>, record: Option<Record>, n: nat)
    requires Staged(start, n) && record.Some? && Consistent(start, files, record.value, n)
    ensures !Blocked(files, record)
  {
  }

  /** All that may have changed is that stages are gone, wholly or in part. */
  ghost predicate OnlyStages(before: map<Path, Tree>, after: map<Path, Tree>) {
    && Outside(after) == Outside(before)
    && forall i: nat ::
         && View(after, i) == View(before, i).(stage := View(after, i).stage)
         && (View(before, i).stage.None? ==> View(after, i).stage.None?)
  }

  method DiscardStages(disk: Disk<Tree>, n: nat) returns (r: Result)
    modifies disk`files, disk`clock, disk`steps
    ensures OnlyStages(old(disk.files), disk.files) && disk.clock >= old(disk.clock)
    ensures r.Ok? ==> forall j: nat | j < n :: View(disk.files, j).stage.None?
  {
    for i := 0 to n
      invariant disk.clock >= old(disk.clock)
      invariant Outside(disk.files) == Outside(old(disk.files))
      invariant forall j: nat ::
                  View(disk.files, j) == old(View(disk.files, j)).(stage := View(disk.files, j).stage)
      invariant forall j: nat :: old(View(disk.files, j)).stage.None? ==> View(disk.files, j).stage.None?
      invariant forall j: nat | j < i :: View(disk.files, j).stage.None?
    {
      ghost var d;
      r, d := Discard(disk, i, Stage);
      if !r.Ok? {
        return;
      }
    }
    return Ok;
  }

  /** Entries and directories in the first `k` old trees: what finalization deletes for them. */
  ghost function OldEntries(start: map<Path, Tree>, k: nat): nat {
    if k == 0 then 0 else OldEntries(start, k - 1) + Size(View(start, k - 1).target)
  }

  lemma {:induction false} OldEntriesMonotone(start: map<Path, Tree>, i: nat, k: nat)
    requires i < k
    ensures OldEntries(start, i) + Size(View(start, i).target) <= OldEntries(start, k)
  {
    if i + 1 < k {
      OldEntriesMonotone(start, i, k - 1);
    }
  }

  lemma {:induction false} OneToFinish(was: Slots<Tree>, s: Slots<Tree>, had: bool, i: nat, done: nat)
    requires had == was.target.Some? && Finishing(s, Swapped(was), had)
    requires (i < done ==> Finished(s, Swapped(was), had)) && (i > done ==> s == Swapped(was))
    ensures i < done ==> FinishCost(s, had) == 0
    ensures i > done ==> FinishCost(s, had) == Size(was.target)
  {
  }

  /** All there is to finish after a complete swap. */
  lemma {:induction false} AllToFinish(start: map<Path, Tree>, swapped: map<Path, Tree>, t: Record, k: nat)
    requires k <= |t.endpoints| && Describes(t, start, |t.endpoints|)
    requires forall i: nat | i < |t.endpoints| :: View(swapped, i) == Swapped(View(start, i))
    ensures Sum(FinishCost, swapped, t.endpoints, k) == OldEntries(start, k)
  {
    if k > 0 {
      AllToFinish(start, swapped, t, k - 1);
      assert FinishCost(View(swapped, k - 1), t.endpoints[k - 1].hadTarget) == Size(View(start, k - 1).target);
    }
  }

  /** What is left to finish after `done` endpoints and part of the next. */
  lemma {:induction false} LeftToFinish(start: map<Path, Tree>, swapped: map<Path, Tree>,
      files: map<Path, Tree>, t: Record, done: nat, k: nat)
    requires k <= |t.endpoints| && Describes(t, start, |t.endpoints|)
    requires forall i: nat | i < |t.endpoints| :: View(swapped, i) == Swapped(View(start, i))
    requires FinishedUpTo(swapped, files, t, done)
    ensures Sum(FinishCost, files, t.endpoints, k) ==
            if k <= done then 0
            else OldEntries(start, k) - OldEntries(start, done + 1)
                 + FinishCost(View(files, done), t.endpoints[done].hadTarget)
  {
    if k > 0 {
      LeftToFinish(start, swapped, files, t, done, k - 1);
      OneToFinish(View(start, k - 1), View(files, k - 1), t.endpoints[k - 1].hadTarget, k - 1, done);
    }
  }

  /** How much of the old tree of endpoint `i` is gone when finalization stops. */
  function EntriesGone(was: Slots<Tree>, i: nat, done: nat, lost: nat): nat {
    if i < done then Size(was.target) else if i == done then lost else 0
  }

  /** An endpoint then. */
  function LateSlots(was: Slots<Tree>, gone: nat): Slots<Tree> {
    Slots(was.stage, None, Rest(was.target, gone))
  }

  function LateCosts(start: map<Path, Tree>, n: nat, done: nat, lost: nat): seq<nat> {
    seq(n, i requires 0 <= i < n =>
      UndoCost(LateSlots(View(start, i), EntriesGone(View(start, i), i, done, lost)), View(start, i).target.Some?))
  }

  /** How many steps the rollback that begins at `clock` takes each endpoint back. */
  ghost function LateMoves(disk: Disk<Tree>, start: map<Path, Tree>, clock: nat, n: nat, done: nat, lost: nat)
    : (moves: seq<nat>)
    ensures |moves| == n
  {
    Moves(disk, clock, LateCosts(start, n, done, lost), n)
  }

  /** Nothing goes wrong in that rollback. */
  ghost predicate LateClean(disk: Disk<Tree>, start: map<Path, Tree>, clock: nat, n: nat, done: nat, lost: nat) {
    disk.Clean(clock, clock + Total(LateCosts(start, n, done, lost), 0) + 1)
  }

  /** The target after so many steps: what is left of the new tree, or of the old one. */
  function LateTarget(was: Slots<Tree>, gone: nat, d: nat): Option<Tree> {
    if d <= Size(was.stage) then Rest(was.stage, d) else Rest(was.target, gone)
  }

  function LateSlotsAfter(was: Slots<Tree>, gone: nat, d: nat): Slots<Tree> {
    Slots(LateTarget(was, gone, d), None, if d <= Size(was.stage) then Rest(was.target, gone) else None)
  }

  /** None if the old tree was replaced and is gone, else the removal of the new tree and the
      return of what is left of the old. */
  function LateSteps(was: Slots<Tree>, gone: nat): nat {
    if was.target.None? then Size(was.stage) else if Rest(was.target, gone).None? then 0 else Size(was.stage) + 1
  }

  lemma {:induction false} LateUndone(was: Slots<Tree>, gone: nat, d: nat)
    requires was.stage.Some? && d <= UndoCost(LateSlots(was, gone), was.target.Some?)
    ensures Undone(TREES, LateSlots(was, gone), was.target.Some?, d) == LateSlotsAfter(was, gone, d)
    ensures UndoCost(LateSlots(was, gone), was.target.Some?) == LateSteps(was, gone)
  {
    if was.target.Some? && Rest(was.target, gone).None? {
      PartWhole(was.stage);
    } else if d <= Size(was.stage) {
      LateUndoneNew(was, gone, d);
    } else {
      LateUndoneNew(was, gone, Size(was.stage));
      LateUndoneOld(was, gone);
    }
  }

  lemma {:induction false} LateUndoneNew(was: Slots<Tree>, gone: nat, d: nat)
    requires was.stage.Some? && d <= Size(was.stage) && (was.target.Some? ==> Rest(was.target, gone).Some?)
    ensures Undone(TREES, LateSlots(was, gone), was.target.Some?, d) ==
            LateSlots(was, gone).(target := Rest(was.stage, d))
  {
    TreesCount();
    UndoneShrinks(TREES, LateSlots(was, gone), was.target.Some?, d);
    RestShrinks(was.stage, d);
  }

  lemma {:induction false} LateUndoneOld(was: Slots<Tree>, gone: nat)
    requires was.stage.Some? && was.target.Some? && Rest(was.target, gone).Some?
    requires Undone(TREES, LateSlots(was, gone), true, Size(was.stage)) ==
             LateSlots(was, gone).(target := Rest(was.stage, Size(was.stage)))
    ensures Undone(TREES, LateSlots(was, gone), true, Size(was.stage) + 1) == Slots(Rest(was.target, gone), None, None)
  {
    var s := LateSlots(was, gone).(target := None);
    assert UndoStep(TREES, s, true) == Slots(s.backup, s.stage, None);
  }

  /** The moves are never more than the steps there are, and just as many if all goes well. */
  ghost predicate Within(start: map<Path, Tree>, n: nat, done: nat, lost: nat, moves: seq<nat>, all: bool)
    requires n == |moves|
  {
    forall i: nat | i < n ::
      && moves[i] <= LateSteps(View(start, i), EntriesGone(View(start, i), i, done, lost))
      && (all ==> moves[i] == LateSteps(View(start, i), EntriesGone(View(start, i), i, done, lost)))
  }

  lemma {:induction false} LateMovesWithin(disk: Disk<Tree>, start: map<Path, Tree>, clock: nat, n: nat, done: nat,
                                           lost: nat, moves: seq<nat>, all: bool)
    requires Ready(start, n)
    requires moves == LateMoves(disk, start, clock, n, done, lost)
             && all == LateClean(disk, start, clock, n, done, lost)
    ensures Within(start, n, done, lost, moves, all)
  {
    forall i: nat | i < n
      ensures moves[i] <= LateSteps(View(start, i), EntriesGone(View(start, i), i, done, lost))
      ensures all ==> moves[i] == LateSteps(View(start, i), EntriesGone(View(start, i), i, done, lost))
    {
      LateMoveWithin(disk, start, clock, n, done, lost, i);
    }
  }

  lemma {:induction false} LateMoveWithin(disk: Disk<Tree>, start: map<Path, Tree>, clock: nat, n: nat, done: nat,
                                          lost: nat, i: nat)
    requires i < n && View(start, i).stage.Some?
    ensures var d, steps := LateMoves(disk, start, clock, n, done, lost)[i],
                            LateSteps(View(start, i), EntriesGone(View(start, i), i, done, lost));
            d <= steps && (LateClean(disk, start, clock, n, done, lost) ==> d == steps)
  {
    var costs := LateCosts(start, n, done, lost);
    MovesAt(disk, clock, costs, n, i);
    LateUndone(View(start, i), EntriesGone(View(start, i), i, done, lost), 0);
    assert costs[i] == LateSteps(View(start, i), EntriesGone(View(start, i), i, done, lost));
    ProgressWithin(disk, clock, costs, i);
  }

  /** Finalization stopped at endpoint `done`: so the first `k` endpoints are. */
  ghost predicate StoppedAt(start: map<Path, Tree>, files: map<Path, Tree>, done: nat, lost: nat, k: nat) {
    k == 0
    || (&& View(files, k - 1) == LateSlots(View(start, k - 1), EntriesGone(View(start, k - 1), k - 1, done, lost))
        && StoppedAt(start, files, done, lost, k - 1))
  }

  lemma {:induction false} OneStopped(was: Slots<Tree>, s: Slots<Tree>, had: bool, i: nat, done: nat, lost: nat)
    requires was.stage.Some? && had == was.target.Some? && Finishing(s, Swapped(was), had)
    requires i < done ==> Finished(s, Swapped(was), had)
    requires i > done ==> s == Swapped(was)
    requires i == done ==> lost == Size(was.target) - Size(s.backup)
    ensures s == LateSlots(was, EntriesGone(was, i, done, lost))
  {
    PartWhole(was.target);
  }

  lemma {:induction false} LateBegins(start: map<Path, Tree>, swapped: map<Path, Tree>, files: map<Path, Tree>,
                                      t: Record, done: nat, lost: nat, k: nat)
    requires k <= |t.endpoints| && Ready(start, |t.endpoints|) && Describes(t, start, |t.endpoints|)
    requires forall i: nat | i < |t.endpoints| :: View(swapped, i) == Swapped(View(start, i))
    requires FinishedUpTo(swapped, files, t, done)
    requires done < |t.endpoints| ==> lost == Size(View(start, done).target) - Size(View(files, done).backup)
    ensures StoppedAt(start, files, done, lost, k)
  {
    if k > 0 {
      LateBegins(start, swapped, files, t, done, lost, k - 1);
      OneStopped(View(start, k - 1), View(files, k - 1), t.endpoints[k - 1].hadTarget, k - 1, done, lost);
    }
  }

  lemma {:induction false} StoppedThere(start: map<Path, Tree>, files: map<Path, Tree>, done: nat, lost: nat, k: nat,
                                        i: nat)
    requires i < k && StoppedAt(start, files, done, lost, k)
    ensures View(files, i) == LateSlots(View(start, i), EntriesGone(View(start, i), i, done, lost))
  {
    if i < k - 1 {
      StoppedThere(start, files, done, lost, k - 1, i);
    }
  }

  lemma {:induction false} LateRestorable(start: map<Path, Tree>, files: map<Path, Tree>, t: Record, done: nat,
                                          lost: nat)
    requires Ready(start, |t.endpoints|) && Describes(t, start, |t.endpoints|)
    requires StoppedAt(start, files, done, lost, |t.endpoints|)
    ensures AllRestorable(files, t) && Costs(TREES, files, t) == LateCosts(start, |t.endpoints|, done, lost)
  {
    var n := |t.endpoints|;
    forall i: nat | i < n
      ensures View(files, i) == LateSlots(View(start, i), EntriesGone(View(start, i), i, done, lost))
    {
      StoppedThere(start, files, done, lost, n, i);
    }
    assert |Costs(TREES, files, t)| == |LateCosts(start, n, done, lost)|;
  }

  /** What the rollback leaves of the first `k` endpoints. */
  ghost predicate LateGone(start: map<Path, Tree>, files: map<Path, Tree>, done: nat, lost: nat, moves: seq<nat>,
                           k: nat)
    requires k <= |moves|
    decreases k
  {
    k == 0
    || (&& View(files, k - 1) ==
           LateSlotsAfter(View(start, k - 1), EntriesGone(View(start, k - 1), k - 1, done, lost), moves[k - 1])
        && LateGone(start, files, done, lost, moves, k - 1))
  }

  lemma {:induction false} LateGoneThere(start: map<Path, Tree>, files: map<Path, Tree>, done: nat, lost: nat,
                                         moves: seq<nat>, k: nat, i: nat)
    requires i < k <= |moves| && LateGone(start, files, done, lost, moves, k)
    ensures View(files, i) == LateSlotsAfter(View(start, i), EntriesGone(View(start, i), i, done, lost), moves[i])
  {
    if i < k - 1 {
      LateGoneThere(start, files, done, lost, moves, k - 1, i);
    }
  }

  lemma {:induction false} SameGone(start: map<Path, Tree>, before: map<Path, Tree>, after: map<Path, Tree>, done: nat,
                                    lost: nat, moves: seq<nat>, k: nat)
    requires k <= |moves| && LateGone(start, before, done, lost, moves, k)
    requires forall i: nat | i < k :: View(before, i).stage.None? ==> View(after, i) == View(before, i)
    ensures LateGone(start, after, done, lost, moves, k)
    decreases k
  {
    if k > 0 {
      SameGone(start, before, after, done, lost, moves, k - 1);
    }
  }

  lemma {:induction false} GoneWhere(start: map<Path, Tree>, files: map<Path, Tree>, done: nat, lost: nat,
                                     moves: seq<nat>, k: nat)
    requires k <= |moves|
    requires forall i: nat | i < k ::
               View(files, i) == LateSlotsAfter(View(start, i), EntriesGone(View(start, i), i, done, lost), moves[i])
    ensures LateGone(start, files, done, lost, moves, k)
  {
    if k > 0 {
      GoneWhere(start, files, done, lost, moves, k - 1);
    }
  }

  lemma {:induction false} LateGoes(disk: Disk<Tree>, start: map<Path, Tree>, before: map<Path, Tree>,
                                    after: map<Path, Tree>, t: Record, clock: nat, done: nat, lost: nat)
    returns (moves: seq<nat>)
    requires Ready(start, |t.endpoints|) && Describes(t, start, |t.endpoints|)
    requires StoppedAt(start, before, done, lost, |t.endpoints|)
    requires Costs(TREES, before, t) == LateCosts(start, |t.endpoints|, done, lost)
    requires Went(disk, TREES, clock, before, after, t, 0)
    ensures moves == LateMoves(disk, start, clock, |t.endpoints|, done, lost)
    ensures LateGone(start, after, done, lost, moves, |t.endpoints|)
  {
    var n := |t.endpoints|;
    moves := LateMoves(disk, start, clock, n, done, lost);
    forall i: nat | i < n
      ensures View(after, i) ==
              LateSlotsAfter(View(start, i), EntriesGone(View(start, i), i, done, lost),
                             LateMoves(disk, start, clock, n, done, lost)[i])
    {
      OneGoes(disk, start, before, after, t, clock, done, lost, i);
    }
    GoneWhere(start, after, done, lost, moves, n);
  }

  lemma {:induction false} OneGoes(disk: Disk<Tree>, start: map<Path, Tree>, before: map<Path, Tree>,
                                   after: map<Path, Tree>, t: Record, clock: nat, done: nat, lost: nat, i: nat)
    requires i < |t.endpoints| && View(start, i).stage.Some? && Describes(t, start, |t.endpoints|)
    requires StoppedAt(start, before, done, lost, |t.endpoints|)
    requires Costs(TREES, before, t) == LateCosts(start, |t.endpoints|, done, lost)
    requires Went(disk, TREES, clock, before, after, t, 0)
    ensures View(after, i) ==
            LateSlotsAfter(View(start, i), EntriesGone(View(start, i), i, done, lost),
                           LateMoves(disk, start, clock, |t.endpoints|, done, lost)[i])
  {
    StoppedThere(start, before, done, lost, |t.endpoints|, i);
    WentAt(disk, TREES, clock, before, after, t, 0, i);
    MovesAt(disk, clock, Costs(TREES, before, t), |t.endpoints|, i);
    LateUndone(View(start, i), EntriesGone(View(start, i), i, done, lost),
               LateMoves(disk, start, clock, |t.endpoints|, done, lost)[i]);
  }

  /** What a rollback of a committed transaction leaves: every endpoint taken back so many steps, and
      the record, unless all went well. */
  ghost predicate Left(start: map<Path, Tree>, files: map<Path, Tree>, record: Option<Record>, n: nat, done: nat,
                       lost: nat, moves: seq<nat>, all: bool)
    requires n == |moves|
  {
    && Outside(files) == Outside(start) && LateGone(start, files, done, lost, moves, n)
    && (record.None? <==> all)
    && (record.Some? ==> record.value.state.Committed? && Describes(record.value, start, n))
  }

  /** What a late failure leaves: the rollback began at `at`, right after the error, and the tape
      says how far it got. */
  ghost predicate LateLeft(disk: Disk<Tree>, start: map<Path, Tree>, files: map<Path, Tree>, record: Option<Record>,
                           at: nat, n: nat, done: nat, lost: nat)
  {
    Left(start, files, record, n, done, lost, LateMoves(disk, start, at, n, done, lost),
         LateClean(disk, start, at, n, done, lost))
  }

  /** Taken apart. */
  lemma {:induction false} LateParts(disk: Disk<Tree>, start: map<Path, Tree>, files: map<Path, Tree>,
                                     record: Option<Record>, at: nat, n: nat, done: nat, lost: nat)
    returns (moves: seq<nat>, all: bool)
    requires LateLeft(disk, start, files, record, at, n, done, lost)
    ensures moves == LateMoves(disk, start, at, n, done, lost) && all == LateClean(disk, start, at, n, done, lost)
    ensures Left(start, files, record, n, done, lost, moves, all)
  {
    moves, all := LateMoves(disk, start, at, n, done, lost), LateClean(disk, start, at, n, done, lost);
  }

  /** And put together. */
  lemma {:induction false} LateWhole(disk: Disk<Tree>, start: map<Path, Tree>, files: map<Path, Tree>,
                                     record: Option<Record>, at: nat, n: nat, done: nat, lost: nat, moves: seq<nat>,
                                     all: bool)
    requires moves == LateMoves(disk, start, at, n, done, lost) && all == LateClean(disk, start, at, n, done, lost)
    requires Left(start, files, record, n, done, lost, moves, all)
    ensures LateLeft(disk, start, files, record, at, n, done, lost)
  {
  }

  /** The handler of an error in finalization. */
  method RollbackLate(disk: Disk<Tree>, ghost start: map<Path, Tree>, t: Record, ghost done: nat, ghost lost: nat)
    returns (r: Result)
    requires Ready(start, |t.endpoints|) && Describes(t, start, |t.endpoints|) && disk.record == Some(t)
    requires t.state.Committed? && Outside(disk.files) == Outside(start)
    requires StoppedAt(start, disk.files, done, lost, |t.endpoints|)
    modifies disk`files, disk`record, disk`clock, disk`steps
    ensures disk.clock >= old(disk.clock)
    ensures LateLeft(disk, start, disk.files, disk.record, old(disk.clock), |t.endpoints|, done, lost)
  {
    ghost var before, clock := disk.files, disk.clock;
    LateRestorable(start, before, t, done, lost);
    r := RollbackTransaction(disk, t);
    ghost var moves := LateGoes(disk, start, before, disk.files, t, clock, done, lost);
    LateWhole(disk, start, disk.files, disk.record, clock, |t.endpoints|, done, lost, moves, r.Ok?);
  }

  /** The first fault of the tape that finalization meets. */
  ghost predicate Stopped(disk: Disk<Tree>, clock: nat, start: map<Path, Tree>, n: nat, late: bool, done: nat,
                          lost: nat) {
    && done <= n && lost < (if done == n then 1 else Size(View(start, done).target))
    && var k := clock + OldEntries(start, done) + lost;
    && disk.Clean(clock, k)
    && (late <==> disk.Outcome(k) == Raised)
    && (disk.Outcome(k) == Ok ==> done == n)
  }

  lemma {:induction false} StillFinishable(start: map<Path, Tree>, swapped: map<Path, Tree>, files: map<Path, Tree>,
                                           t: Record, done: nat)
    requires Ready(start, |t.endpoints|) && Describes(t, start, |t.endpoints|)
    requires Outside(swapped) == Outside(start)
    requires forall i: nat | i < |t.endpoints| :: View(swapped, i) == Swapped(View(start, i))
    requires done <= |t.endpoints| && FinishedUpTo(swapped, files, t, done)
    ensures Finishable(start, files, |t.endpoints|)
    ensures done == |t.endpoints| ==> AllNew(start, files, |t.endpoints|)
  {
  }

  /** The steps taken say where it stopped. */
  lemma {:induction false} WhereStopped(disk: Disk<Tree>, clock: nat, now: nat, start: map<Path, Tree>,
      swapped: map<Path, Tree>, files: map<Path, Tree>, t: Record, done: nat, r: Result) returns (lost: nat)
    requires Ready(start, |t.endpoints|) && Describes(t, start, |t.endpoints|) && done <= |t.endpoints|
    requires forall i: nat | i < |t.endpoints| :: View(swapped, i) == Swapped(View(start, i))
    requires FinishedUpTo(swapped, files, t, done) && (r.Ok? ==> done == |t.endpoints|)
    requires clock < now && disk.Clean(clock, now - 1) && r == disk.Outcome(now - 1)
    requires now - 1 == clock + Sum(FinishCost, swapped, t.endpoints, |t.endpoints|)
                        - Sum(FinishCost, files, t.endpoints, |t.endpoints|)
    requires done < |t.endpoints| ==> FinishCost(View(files, done), t.endpoints[done].hadTarget) > 0
    ensures Stopped(disk, clock, start, |t.endpoints|, r.Raised?, done, lost)
    ensures now == clock + OldEntries(start, done) + lost + 1
    ensures done < |t.endpoints| ==> lost == Size(View(start, done).target) - Size(View(files, done).backup)
  {
    var n := |t.endpoints|;
    AllToFinish(start, swapped, t, n);
    LeftToFinish(start, swapped, files, t, done, n);
    lost := 0;
    if done < n {
      OldEntriesMonotone(start, done, done + 1);
      lost := Size(View(start, done).target) - FinishCost(View(files, done), t.endpoints[done].hadTarget);
    }
  }

  /** Finalization right after a complete swap: where it stopped, and how many entries of the
      backup it was removing were already gone. */
  method FinalizeSwapped(disk: Disk<Tree>, ghost start: map<Path, Tree>, t: Record)
    returns (r: Result, ghost done: nat, ghost lost: nat)
    requires Staged(start, |t.endpoints|) && Describes(t, start, |t.endpoints|)
    requires disk.record == Some(t) && t.state.Committed? && Outside(disk.files) == Outside(start)
    requires forall i: nat | i < |t.endpoints| :: View(disk.files, i) == Swapped(View(start, i))
    modifies disk`files, disk`record, disk`clock, disk`steps
    ensures Stopped(disk, old(disk.clock), start, |t.endpoints|, r.Raised?, done, lost) && !r.Exited?
    ensures Outside(disk.files) == Outside(start)
    ensures disk.clock == old(disk.clock) + OldEntries(start, done) + lost + 1
    ensures disk.record == if r.Ok? then None else Some(t)
    ensures if r.Ok? then AllNew(start, disk.files, |t.endpoints|) else Finishable(start, disk.files, |t.endpoints|)
    ensures StoppedAt(start, disk.files, done, lost, |t.endpoints|)
  {
    ghost var n := |t.endpoints|;
    ghost var swapped, clock := disk.files, disk.clock;
    r, done := FinalizeCommittedTransaction(disk, t);
    lost := WhereStopped(disk, clock, disk.clock, start, swapped, disk.files, t, done, r);
    LateBegins(start, swapped, disk.files, t, done, lost, n);
    StillFinishable(start, swapped, disk.files, t, done);
  }

  /** What the handler does when finalization raises: it rolls the committed transaction back.
      `late` says that it did. */
  method FinalizeOrRollBack(disk: Disk<Tree>, ghost start: map<Path, Tree>, t: Record)
    returns (r: Result, late: bool, ghost done: nat, ghost lost: nat, ghost at: nat)
    requires Staged(start, |t.endpoints|) && Describes(t, start, |t.endpoints|)
    requires disk.record == Some(t) && t.state.Committed? && Outside(disk.files) == Outside(start)
    requires forall i: nat | i < |t.endpoints| :: View(disk.files, i) == Swapped(View(start, i))
    modifies disk`files, disk`record, disk`clock, disk`steps
    ensures Stopped(disk, old(disk.clock), start, |t.endpoints|, late, done, lost)
    ensures Outside(disk.files) == Outside(start) && disk.clock >= old(disk.clock)
    ensures r.Ok? ==> !late && disk.record.None?
    ensures !late && disk.record.None? ==> AllNew(start, disk.files, |t.endpoints|)
    ensures !late && disk.record.Some? ==>
            r.Killed? && disk.record == Some(t) && Finishable(start, disk.files, |t.endpoints|)
    ensures at == old(disk.clock) + OldEntries(start, done) + lost + 1
    ensures late ==> LateLeft(disk, start, disk.files, disk.record, at, |t.endpoints|, done, lost)
  {
    r, done, lost := FinalizeSwapped(disk, start, t);
    late, at := r.Raised?, disk.clock;
    if late {
      var e := RollbackLate(disk, start, t, done, lost);
      if !e.Ok? {
        r := e;
      }
    }
  }

  function LateStep(clock: nat, t: Record, gone: nat): nat {
    clock + SwapSteps(t) + gone
  }

  /** The first thing that goes wrong, `clock` being the time of the first step of the swap, is
      an error at a step of finalization: with `done` endpoints finished and `lost` entries of
      the next backup removed, or at the removal of the record when all endpoints are done. */
  ghost predicate LateAt(disk: Disk<Tree>, clock: nat, start: map<Path, Tree>, t: Record, done: nat, lost: nat) {
    && done <= |t.endpoints| && lost < (if done == |t.endpoints| then 1 else Size(View(start, done).target))
    && var k := LateStep(clock, t, OldEntries(start, done) + lost);
    && disk.Clean(clock, k) && disk.Outcome(k) == Raised
  }

  /** What the tape decides, `clock` being the time of the first step of the swap: whether the
      swap commits, and whether finalization raises and after how many removed entries. */
  ghost predicate Decided(disk: Disk<Tree>, clock: nat, start: map<Path, Tree>, t: Record,
                          committed: bool, late: bool, done: nat, lost: nat) {
    && (committed <==> disk.Clean(clock, clock + SwapSteps(t)))
    && (late ==> committed && LateAt(disk, clock, start, t, done, lost))
    && forall at: nat, gone: nat | LateAt(disk, clock, start, t, at, gone) :: late && at == done && gone == lost
  }

  /** Where the tape's first fault falls decides whether finalization raises, and how far it gets. */
  lemma {:induction false} StopsAt(disk: Disk<Tree>, clock: nat, swapped: nat, start: map<Path, Tree>, t: Record,
                                   n: nat, late: bool, done: nat, lost: nat)
    requires swapped == clock + SwapSteps(t) && n == |t.endpoints| && disk.Clean(clock, swapped)
    requires Stopped(disk, swapped, start, n, late, done, lost)
    ensures Decided(disk, clock, start, t, true, late, done, lost)
    ensures LateStep(clock, t, OldEntries(start, done) + lost) == swapped + OldEntries(start, done) + lost
  {
    forall at: nat, gone: nat | LateAt(disk, clock, start, t, at, gone)
      ensures late && at == done && gone == lost
    {
      if done < at {
        OldEntriesMonotone(start, done, at);
      } else if at < done {
        OldEntriesMonotone(start, at, done);
      }
    }
  }

  /** The swap, undone at once by the handler if a step of it raises. */
  method SwapOrRollBack(disk: Disk<Tree>, t: Record) returns (r: Result)
    requires Staged(disk.files, |t.endpoints|) && Describes(t, disk.files, |t.endpoints|)
    requires disk.record == Some(t) && t.state == Prepared && !disk.everCommitted
    modifies disk
    ensures Outside(disk.files) == Outside(old(disk.files)) && disk.clock >= old(disk.clock)
    ensures r.Ok? <==> disk.everCommitted
    ensures r.Ok? ==>
              && disk.record.Some? && disk.record.value.state.Committed? && SameTargets(disk.record.value, t)
              && disk.clock == old(disk.clock) + SwapSteps(t)
              && forall i: nat | i < |t.endpoints| :: View(disk.files, i) == Swapped(View(old(disk.files), i))
    ensures !r.Ok? && disk.record.Some? ==>
              && Consistent(old(disk.files), disk.files, disk.record.value, |t.endpoints|)
              && !disk.record.value.state.Committed?
    ensures !r.Ok? && disk.record.None? ==> AllOld(old(disk.files), disk.files, |t.endpoints|)
    ensures r.Ok? <==> disk.Clean(old(disk.clock), old(disk.clock) + SwapSteps(t))
  {
    r := SwapEndpoints(disk, t);
    if r.Raised? {
      var e := RollbackTransaction(disk, disk.record.value);
      if !e.Ok? {
        r := e;
      }
    }
  }

  lemma {:induction false} NotLate(disk: Disk<Tree>, clock: nat, start: map<Path, Tree>, t: Record)
    requires !disk.Clean(clock, clock + SwapSteps(t))
    ensures forall at: nat, gone: nat :: !LateAt(disk, clock, start, t, at, gone)
  {
  }

  ghost predicate LateResult(start: map<Path, Tree>, disk: Disk<Tree>, clock: nat, t: Record, done: nat, lost: nat)
    reads disk
  {
    LateLeft(disk, start, disk.files, disk.record, LateStep(clock, t, OldEntries(start, done) + lost) + 1,
             |t.endpoints|, done, lost)
  }

  lemma {:induction false} LateSeen(start: map<Path, Tree>, disk: Disk<Tree>, at: nat, clock: nat, t: Record, n: nat,
                                    done: nat, lost: nat)
    requires n == |t.endpoints| && at == LateStep(clock, t, OldEntries(start, done) + lost) + 1
    requires LateLeft(disk, start, disk.files, disk.record, at, n, done, lost)
    ensures LateResult(start, disk, clock, t, done, lost)
  {
  }

  /** Finalization and its handler, seen from the start of the swap. */
  method FinishSwapped(disk: Disk<Tree>, ghost start: map<Path, Tree>, ghost clock: nat, ghost t: Record, u: Record)
    returns (r: Result, late: bool, ghost done: nat, ghost lost: nat)
    requires Staged(start, |u.endpoints|) && Describes(u, start, |u.endpoints|) && SameTargets(u, t)
    requires disk.record == Some(u) && u.state.Committed? && Outside(disk.files) == Outside(start)
    requires forall i: nat | i < |u.endpoints| :: View(disk.files, i) == Swapped(View(start, i))
    requires disk.clock == clock + SwapSteps(t) && disk.Clean(clock, disk.clock)
    modifies disk`files, disk`record, disk`clock, disk`steps
    ensures Outside(disk.files) == Outside(start) && disk.clock >= old(disk.clock)
    ensures Decided(disk, clock, start, t, true, late, done, lost)
    ensures r.Ok? ==> !late && disk.record.None?
    ensures !late && disk.record.None? ==> AllNew(start, disk.files, |t.endpoints|)
    ensures !late && disk.record.Some? ==>
            r.Killed? && disk.record == Some(u) && Finishable(start, disk.files, |t.endpoints|)
    ensures late ==> LateResult(start, disk, clock, t, done, lost)
  {
    ghost var at;
    r, late, done, lost, at := FinalizeOrRollBack(disk, start, u);
    StopsAt(disk, clock, old(disk.clock), start, t, |t.endpoints|, late, done, lost);
    if late {
      LateSeen(start, disk, at, clock, t, |t.endpoints|, done, lost);
    }
  }

  /** Everything once the first record is durable. */
  method RunTransaction(disk: Disk<Tree>, t: Record)
    returns (r: Result, late: bool, ghost done: nat, ghost lost: nat)
    requires Staged(disk.files, |t.endpoints|) && Describes(t, disk.files, |t.endpoints|)
    requires disk.record == Some(t) && t.state == Prepared && !disk.everCommitted
    modifies disk
    ensures Outside(disk.files) == Outside(old(disk.files)) && disk.clock >= old(disk.clock)
    ensures Decided(disk, old(disk.clock), old(disk.files), t, disk.everCommitted, late, done, lost)
    ensures r.Ok? ==> !late && disk.everCommitted && disk.record.None?
    ensures disk.record.None? && !late ==> Settled(old(disk.files), disk.files, |t.endpoints|, disk.everCommitted)
    ensures disk.record.Some? && !late ==>
              && Consistent(old(disk.files), disk.files, disk.record.value, |t.endpoints|)
              && disk.record.value.state.Committed? == disk.everCommitted
              && (disk.everCommitted ==> r.Killed?)
    ensures late ==> LateResult(old(disk.files), disk, old(disk.clock), t, done, lost)
  {
    ghost var start := disk.files;
    late, done, lost := false, 0, 0;
    r := SwapOrRollBack(disk, t);
    if r.Ok? {
      r, late, done, lost := FinishSwapped(disk, start, old(disk.clock), t, disk.record.value);
    } else {
      NotLate(disk, old(disk.clock), start, t);
    }
  }

  /** Targets and backups as they were, whatever became of the stages. */
  ghost predicate TargetsKept(start: map<Path, Tree>, files: map<Path, Tree>, n: nat) {
    && Outside(files) == Outside(start)
    && forall i: nat | i < n :: View(files, i) == View(start, i).(stage := View(files, i).stage)
  }

  /** What the installation leaves, the first record having been due at `clock`. */
  ghost predicate Leaves(start: map<Path, Tree>, disk: Disk<Tree>, clock: nat, n: nat, late: bool, done: nat, lost: nat)
    reads disk
  {
    if late then LateResult(start, disk, clock + 1, NewRecord(start, n), done, lost)
    else if disk.record.Some? then
      && disk.Outcome(clock) == Ok
      && Consistent(start, disk.files, disk.record.value, n)
      && disk.record.value.state.Committed? == disk.everCommitted
    else if disk.Outcome(clock) == Ok then Settled(start, disk.files, n, disk.everCommitted)
    else TargetsKept(start, disk.files, n)
  }

  lemma {:induction false} StagesDoNotMatter(start: map<Path, Tree>, before: map<Path, Tree>, after: map<Path, Tree>,
                                             n: nat)
    requires OnlyStages(before, after)
    ensures TargetsKept(start, before, n) ==> TargetsKept(start, after, n)
    ensures AllOld(start, before, n) ==> AllOld(start, after, n)
    ensures AllNew(start, before, n) ==> AllNew(start, after, n)
    ensures Revertible(start, before, n) ==> Revertible(start, after, n)
  {
  }

  lemma {:induction false} LateStagesGone(start: map<Path, Tree>, before: map<Path, Tree>, after: map<Path, Tree>,
                                          record: Option<Record>, n: nat, done: nat, lost: nat, moves: seq<nat>,
                                          all: bool)
    requires n == |moves| && OnlyStages(before, after) && Left(start, before, record, n, done, lost, moves, all)
    ensures Left(start, after, record, n, done, lost, moves, all)
  {
    forall i: nat | i < n && View(before, i).stage.None?
      ensures View(after, i) == View(before, i)
    {
    }
    SameGone(start, before, after, done, lost, moves, n);
  }

  lemma {:induction false} LateStill(disk: Disk<Tree>, start: map<Path, Tree>, before: map<Path, Tree>,
                                     after: map<Path, Tree>, record: Option<Record>, at: nat, n: nat, done: nat,
                                     lost: nat)
    requires LateLeft(disk, start, before, record, at, n, done, lost) && OnlyStages(before, after)
    ensures LateLeft(disk, start, after, record, at, n, done, lost)
  {
    var moves, all := LateParts(disk, start, before, record, at, n, done, lost);
    LateStagesGone(start, before, after, record, n, done, lost, moves, all);
    LateWhole(disk, start, after, record, at, n, done, lost, moves, all);
  }

  /** The caller's clean-up takes nothing from what was left. */
  method CleanUp(disk: Disk<Tree>, ghost start: map<Path, Tree>, ghost clock: nat, n: nat, late: bool, ghost done: nat,
                 ghost lost: nat)
    returns (e: Result)
    requires Leaves(start, disk, clock, n, late, done, lost)
    requires !late && disk.record.Some? ==> !disk.everCommitted
    modifies disk`files, disk`clock, disk`steps
    ensures Outside(disk.files) == Outside(old(disk.files)) && disk.clock >= old(disk.clock)
    ensures Leaves(start, disk, clock, n, late, done, lost)
  {
    ghost var before := disk.files;
    e := DiscardStages(disk, n);
    if late {
      ghost var at := LateStep(clock + 1, NewRecord(start, n), OldEntries(start, done) + lost) + 1;
      LateStill(disk, start, before, disk.files, disk.record, at, n, done, lost);
    } else {
      StagesDoNotMatter(start, before, disk.files, n);
    }
  }

  /** `install_archify` after staging: on any error the caller also discards the stages. What
      goes wrong first, if anything, decides. */
  method InstallStaged(disk: Disk<Tree>, n: nat) returns (r: Result, late: bool, ghost done: nat, ghost lost: nat)
    requires Staged(disk.files, n) && disk.record.None? && !disk.everCommitted
    modifies disk
    ensures Outside(disk.files) == Outside(old(disk.files)) && disk.clock >= old(disk.clock)
    ensures var t := NewRecord(old(disk.files), n);
            if disk.Outcome(old(disk.clock)) == Ok
            then Decided(disk, old(disk.clock) + 1, old(disk.files), t, disk.everCommitted, late, done, lost)
            else !disk.everCommitted && !late
    ensures r.Ok? ==> !late && disk.everCommitted && disk.record.None?
    ensures Leaves(old(disk.files), disk, old(disk.clock), n, late, done, lost)
  {
    ghost var start, clock := disk.files, disk.clock;
    late, done, lost := false, 0, 0;
    var t := NewRecord(disk.files, n);
    r := disk.WriteRecord(t);
    if r.Ok? {
      r, late, done, lost := RunTransaction(disk, t);
    }
    if r.Raised? || r.Exited? {
      var e := CleanUp(disk, start, clock, n, late, done, lost);
      if !e.Ok? {
        r := e;
      }
    }
  }

  // ---- after a late failure ----

  /** Some target is missing or has lost its marker. */
  ghost predicate Broken(start: map<Path, Tree>, done: nat, lost: nat, moves: seq<nat>) {
    exists i: nat :: i < |moves| &&
      !OwnedThere(LateTarget(View(start, i), EntriesGone(View(start, i), i, done, lost), moves[i]))
  }

  /** Nothing is left of the first `k` endpoints but the targets, as the rollback left them. */
  ghost predicate LateSettled(start: map<Path, Tree>, files: map<Path, Tree>, done: nat, lost: nat, moves: seq<nat>,
                              k: nat)
    requires k <= |moves|
    decreases k
  {
    k == 0
    || (&& View(files, k - 1) ==
           Slots(LateTarget(View(start, k - 1), EntriesGone(View(start, k - 1), k - 1, done, lost), moves[k - 1]),
                 None, None)
        && LateSettled(start, files, done, lost, moves, k - 1))
  }

  lemma {:induction false} LateSettledThere(start: map<Path, Tree>, files: map<Path, Tree>, done: nat, lost: nat,
                                            moves: seq<nat>, k: nat, i: nat)
    requires i < k <= |moves| && LateSettled(start, files, done, lost, moves, k)
    ensures View(files, i) ==
            Slots(LateTarget(View(start, i), EntriesGone(View(start, i), i, done, lost), moves[i]), None, None)
  {
    if i < k - 1 {
      LateSettledThere(start, files, done, lost, moves, k - 1, i);
    }
  }

  /** The target is the new tree. */
  predicate EndsNew(was: Slots<Tree>, gone: nat, d: nat) {
    d == 0 || (d > Size(was.stage) && Rest(was.target, gone) == was.stage)
  }

  /** The target is the old tree. */
  predicate EndsOld(was: Slots<Tree>, gone: nat, d: nat) {
    if d <= Size(was.stage) then Rest(was.stage, d) == was.target else gone == 0
  }

  lemma {:induction false} EndsAs(was: Slots<Tree>, gone: nat, d: nat)
    requires was.stage.Some? && d <= LateSteps(was, gone)
    ensures LateTarget(was, gone, d) == was.stage <==> EndsNew(was, gone, d)
    ensures LateTarget(was, gone, d) == was.target <==> EndsOld(was, gone, d)
  {
    RestSize(was.stage, d);
    if d > Size(was.stage) {
      RestSize(was.target, gone);
    }
  }

  lemma {:induction false} RestSize(t: Option<Tree>, d: nat)
    requires t.Some?
    ensures Rest(t, d) == t <==> d == 0
  {
    if d == 0 {
      PartWhole(t);
    }
  }

  /** Which targets end new, which old, and so which neither. */
  lemma {:induction false} LateFailureOutcome(start: map<Path, Tree>, files: map<Path, Tree>, n: nat, done: nat,
                                              lost: nat, moves: seq<nat>, all: bool)
    requires n == |moves| && Ready(start, n) && Within(start, n, done, lost, moves, all)
    requires Outside(files) == Outside(start) && LateSettled(start, files, done, lost, moves, n)
    ensures forall i: nat | i < n ::
              && View(files, i).stage.None? && View(files, i).backup.None?
              && (View(files, i).target == View(start, i).stage <==>
                  EndsNew(View(start, i), EntriesGone(View(start, i), i, done, lost), moves[i]))
              && (View(files, i).target == View(start, i).target <==>
                  EndsOld(View(start, i), EntriesGone(View(start, i), i, done, lost), moves[i]))
    ensures AllNew(start, files, n) <==>
            forall i: nat | i < n :: EndsNew(View(start, i), EntriesGone(View(start, i), i, done, lost), moves[i])
    ensures AllOld(start, files, n) <==>
            forall i: nat | i < n :: EndsOld(View(start, i), EntriesGone(View(start, i), i, done, lost), moves[i])
  {
    forall i: nat | i < n
      ensures View(files, i).stage.None? && View(files, i).backup.None?
      ensures View(files, i).target == View(start, i).stage <==>
              EndsNew(View(start, i), EntriesGone(View(start, i), i, done, lost), moves[i])
      ensures View(files, i).target == View(start, i).target <==>
              EndsOld(View(start, i), EntriesGone(View(start, i), i, done, lost), moves[i])
    {
      LateSettledThere(start, files, done, lost, moves, n, i);
      EndsAs(View(start, i), EntriesGone(View(start, i), i, done, lost), moves[i]);
    }
  }

  /** Blocked, exactly if something went wrong and a target is missing or not owned. Else nothing is
      left but the targets as the rollback left them, and every recovery is content with them. */
  ghost predicate End(start: map<Path, Tree>, disk: Disk<Tree>, n: nat, done: nat, lost: nat, moves: seq<nat>,
                      all: bool)
    requires n == |moves|
    reads disk
  {
    if !all && Broken(start, done, lost, moves) then Blocked(disk.files, disk.record)
    else
      && disk.record.None? && Outside(disk.files) == Outside(start)
      && LateSettled(start, disk.files, done, lost, moves, n)
  }

  /** What a late failure comes to in the end. */
  ghost predicate LateEnd(start: map<Path, Tree>, disk: Disk<Tree>, clock: nat, t: Record, done: nat, lost: nat)
    reads disk
  {
    var n, at := |t.endpoints|, LateStep(clock, t, OldEntries(start, done) + lost) + 1;
    End(start, disk, n, done, lost, LateMoves(disk, start, at, n, done, lost),
        LateClean(disk, start, at, n, done, lost))
  }

  lemma {:induction false} LateEnds(start: map<Path, Tree>, disk: Disk<Tree>, clock: nat, t: Record, done: nat,
                                    lost: nat, at: nat, moves: seq<nat>, all: bool)
    requires at == LateStep(clock, t, OldEntries(start, done) + lost) + 1 && |moves| == |t.endpoints|
    requires moves == LateMoves(disk, start, at, |t.endpoints|, done, lost)
    requires all == LateClean(disk, start, at, |t.endpoints|, done, lost)
    requires End(start, disk, |t.endpoints|, done, lost, moves, all)
    ensures LateEnd(start, disk, clock, t, done, lost)
  {
  }

  lemma {:induction false} LateIsBlocked(start: map<Path, Tree>, files: map<Path, Tree>, n: nat, done: nat, lost: nat,
                                         moves: seq<nat>)
    requires n == |moves| && LateGone(start, files, done, lost, moves, n)
    ensures Broken(start, done, lost, moves) <==> exists i: nat :: i < n && !OwnedThere(View(files, i).target)
    ensures forall i: nat | i < n && View(start, i).target.None? :: View(files, i).backup.None?
  {
    forall i: nat | i < n
      ensures View(files, i).target == LateTarget(View(start, i), EntriesGone(View(start, i), i, done, lost), moves[i])
      ensures View(start, i).target.None? ==> View(files, i).backup.None?
    {
      LateGoneThere(start, files, done, lost, moves, n, i);
    }
  }

  /** A rollback that went well settles every endpoint. */
  lemma {:induction false} LateIsSettled(start: map<Path, Tree>, files: map<Path, Tree>, n: nat, done: nat, lost: nat,
                                         moves: seq<nat>, k: nat)
    requires k <= n == |moves| && Within(start, n, done, lost, moves, true)
             && LateGone(start, files, done, lost, moves, k)
    ensures LateSettled(start, files, done, lost, moves, k)
  {
    if k > 0 {
      LateIsSettled(start, files, n, done, lost, moves, k - 1);
    }
  }

  /** Of the first `k` endpoints nothing is left but the targets. */
  ghost predicate Cleared(before: map<Path, Tree>, files: map<Path, Tree>, k: nat) {
    k == 0 || (View(files, k - 1) == Slots(View(before, k - 1).target, None, None) && Cleared(before, files, k - 1))
  }

  lemma {:induction false} AllCleared(before: map<Path, Tree>, anew: map<Path, Tree>, files: map<Path, Tree>, n: nat,
                                      k: nat)
    requires k <= n && AllNew(anew, files, n) && forall i: nat | i < n :: View(anew, i).stage == View(before, i).target
    ensures Cleared(before, files, k)
  {
    if k > 0 {
      AllCleared(before, anew, files, n, k - 1);
    }
  }

  /** So does one that was cut short, once what is left over is gone. */
  lemma {:induction false} LateSettles(start: map<Path, Tree>, before: map<Path, Tree>, files: map<Path, Tree>,
                                       done: nat, lost: nat, moves: seq<nat>, k: nat)
    requires k <= |moves| && LateGone(start, before, done, lost, moves, k) && Cleared(before, files, k)
    ensures LateSettled(start, files, done, lost, moves, k)
  {
    if k > 0 {
      LateSettles(start, before, files, done, lost, moves, k - 1);
    }
  }

  /** Recovery of a committed transaction does not care how its targets came to be: as if each had
      just been staged. */
  lemma {:induction false} AsStaged(files: map<Path, Tree>, t: Record) returns (anew: map<Path, Tree>)
    requires t.state.Committed? && !Blocked(files, Some(t))
    requires forall i: nat | i < |t.endpoints| && !t.endpoints[i].hadTarget :: View(files, i).backup.None?
    ensures Staged(anew, |t.endpoints|) && Consistent(anew, files, t, |t.endpoints|)
    ensures forall i: nat | i < |t.endpoints| :: View(anew, i).stage == View(files, i).target
  {
    forall i: nat | i < |t.endpoints|
      ensures At(i, Target) in files && OwnedThere(View(files, i).target)
    {
      assert OwnedThere(View(files, i).target);
    }
    anew := StagedAnew(files, t);
  }

  /** Recovery is run once more than there are faults, whatever they do to it. */
  method RecoverAll(disk: Disk<Tree>, ghost start: map<Path, Tree>, n: nat)
    requires Staged(start, n)
    requires disk.record.Some? && !Blocked(disk.files, disk.record) ==>
             Consistent(start, disk.files, disk.record.value, n)
    modifies disk`files, disk`record, disk`clock, disk`steps
    ensures old(Blocked(disk.files, disk.record)) ==> Blocked(disk.files, disk.record)
    ensures !old(Blocked(disk.files, disk.record)) ==>
              && disk.record.None?
              && if old(disk.record).Some? then Settled(start, disk.files, n, old(disk.record).value.state.Committed?)
                 else disk.files == old(disk.files)
  {
    ghost var blocked, record, files := Blocked(disk.files, disk.record), disk.record, disk.files;
    for k := 0 to |disk.faults| + 1
      invariant blocked ==> Blocked(disk.files, disk.record)
      invariant !blocked && disk.record.Some? ==>
                  && disk.record == record && Consistent(start, disk.files, disk.record.value, n)
                  && k <= disk.clock && k <= |disk.faults|
      invariant !blocked && disk.record.None? ==>
                  if record.Some? then Settled(start, disk.files, n, record.value.state.Committed?)
                  else disk.files == files
    {
      if disk.record.Some? && !blocked {
        NotBlocked(start, disk.files, disk.record, n);
      }
      var r := Recover(disk, start, n);
    }
  }

  /** Recovery of any committed transaction: all leftovers go and the targets stay, unless one is
      missing or not owned. */
  method RecoverCommitted(disk: Disk<Tree>, ghost start: map<Path, Tree>, n: nat)
    requires disk.record.Some? && disk.record.value.state.Committed? && n == |disk.record.value.endpoints|
             && Staged(start, n)
    requires forall i: nat | i < n && !disk.record.value.endpoints[i].hadTarget :: View(disk.files, i).backup.None?
    modifies disk`files, disk`record, disk`clock, disk`steps
    ensures old(Blocked(disk.files, disk.record)) ==> Blocked(disk.files, disk.record)
    ensures !old(Blocked(disk.files, disk.record)) ==>
              && disk.record.None? && Outside(disk.files) == Outside(old(disk.files))
              && Cleared(old(disk.files), disk.files, n)
  {
    ghost var anew, before, blocked := start, disk.files, Blocked(disk.files, disk.record);
    if !blocked {
      anew := AsStaged(disk.files, disk.record.value);
    }
    RecoverAll(disk, anew, n);
    if !blocked {
      AllCleared(before, anew, disk.files, n, n);
    }
  }

  /** After a late failure. */
  method RecoverLeft(disk: Disk<Tree>, ghost start: map<Path, Tree>, n: nat, ghost done: nat, ghost lost: nat,
                     ghost moves: seq<nat>, ghost all: bool)
    requires n == |moves| && Staged(start, n) && Within(start, n, done, lost, moves, all)
    requires Left(start, disk.files, disk.record, n, done, lost, moves, all)
    modifies disk`files, disk`record, disk`clock, disk`steps
    ensures End(start, disk, n, done, lost, moves, all)
  {
    ghost var before := disk.files;
    if disk.record.None? {
      LateIsSettled(start, disk.files, n, done, lost, moves, n);
    } else {
      LateIsBlocked(start, disk.files, n, done, lost, moves);
      RecoverCommitted(disk, start, n);
      if !Broken(start, done, lost, moves) {
        LateSettles(start, before, disk.files, done, lost, moves, n);
      }
    }
  }

  lemma {:induction false} LateBefore(start: map<Path, Tree>, disk: Disk<Tree>, clock: nat, t: Record, n: nat,
                                      done: nat, lost: nat)
    returns (at: nat, moves: seq<nat>, all: bool)
    requires Ready(start, n) && n == |t.endpoints| && LateResult(start, disk, clock, t, done, lost)
    ensures at == LateStep(clock, t, OldEntries(start, done) + lost) + 1
    ensures moves == LateMoves(disk, start, at, n, done, lost) && all == LateClean(disk, start, at, n, done, lost)
    ensures Within(start, n, done, lost, moves, all) && Left(start, disk.files, disk.record, n, done, lost, moves, all)
  {
    at := LateStep(clock, t, OldEntries(start, done) + lost) + 1;
    moves, all := LateParts(disk, start, disk.files, disk.record, at, n, done, lost);
    LateMovesWithin(disk, start, at, n, done, lost, moves, all);
  }

  method RecoverLate(disk: Disk<Tree>, ghost start: map<Path, Tree>, n: nat, ghost clock: nat, ghost t: Record,
                     ghost done: nat, ghost lost: nat)
    requires Staged(start, n) && n == |t.endpoints| && LateResult(start, disk, clock, t, done, lost)
    modifies disk`files, disk`record, disk`clock, disk`steps
    ensures LateEnd(start, disk, clock, t, done, lost)
  {
    ghost var at, moves, all := LateBefore(start, disk, clock, t, n, done, lost);
    RecoverLeft(disk, start, n, done, lost, moves, all);
    LateEnds(start, disk, clock, t, done, lost, at, moves, all);
  }

  // ---- the whole ----

  /** Install, then run recovery again and again, whatever the tape does to any entry removal of any of
      these processes. A late failure there is exactly if the first fault is an error at a step of
      finalization. Without one this ends all new or all old, and nothing else left as soon as the
      first record was durable; with one, as `LateEnd` says. */
  method InstallUnderFaults(disk: Disk<Tree>, n: nat) returns (late: bool, ghost done: nat, ghost lost: nat)
    requires Staged(disk.files, n) && disk.record.None? && !disk.everCommitted
    modifies disk
    ensures var t := NewRecord(old(disk.files), n);
            if disk.Outcome(old(disk.clock)) == Ok
            then Decided(disk, old(disk.clock) + 1, old(disk.files), t, disk.everCommitted, late, done, lost)
            else !disk.everCommitted && !late
    ensures !late ==>
              && disk.record.None?
              && if disk.Outcome(old(disk.clock)) == Ok then Settled(old(disk.files), disk.files, n, disk.everCommitted)
                 else TargetsKept(old(disk.files), disk.files, n)
    ensures late ==> LateEnd(old(disk.files), disk, old(disk.clock) + 1, NewRecord(old(disk.files), n), done, lost)
  {
    ghost var start, clock := disk.files, disk.clock + 1;
    var r;
    r, late, done, lost := InstallStaged(disk, n);
    if late {
      RecoverLate(disk, start, n, clock, NewRecord(start, n), done, lost);
    } else {
      if disk.record.Some? {
        NotBlocked(start, disk.files, disk.record, n);
      }
      RecoverAll(disk, start, n);
    }
  }

  /** Kills alone: however many, and wherever they fall, the outcome is all new or all old. */
  method InstallUnderKills(disk: Disk<Tree>, n: nat)
    requires Staged(disk.files, n) && disk.record.None? && !disk.everCommitted
    requires forall k :: disk.Outcome(k) != Raised
    modifies disk
    ensures disk.record.None?
    ensures if disk.Outcome(old(disk.clock)) == Ok then Settled(old(disk.files), disk.files, n, disk.everCommitted)
            else TargetsKept(old(disk.files), disk.files, n)
    ensures disk.Outcome(old(disk.clock)) == Ok ==>
              (disk.everCommitted <==>
               disk.Clean(old(disk.clock) + 1, old(disk.clock) + 1 + SwapSteps(NewRecord(old(disk.files), n))))
  {
    var late;
    ghost var done, lost;
    late, done, lost := InstallUnderFaults(disk, n);
  }

  /** Once blocked, always blocked: however often recovery is run, it never succeeds and the
      committed record stays. */
  method NeverRecovers(disk: Disk<Tree>, ghost start: map<Path, Tree>, n: nat, times: nat)
    requires Staged(start, n) && Blocked(disk.files, disk.record)
    modifies disk`files, disk`record, disk`clock, disk`steps
    ensures Blocked(disk.files, disk.record) && disk.record == old(disk.record)
  {
    for k := 0 to times
      invariant Blocked(disk.files, disk.record) && disk.record == old(disk.record)
    {
      var r := Recover(disk, start, n);
    }
  }

  /** It happens, whatever the new Skill holds: a first install whose last finalization step raises,
      and whose rollback is killed after it has removed one entry. If that entry was the marker, no
      recovery ever succeeds. If not, recovery succeeds and keeps the rest, neither old nor new. */
  method TruncatedSurvives(items: seq<Item>) returns (disk: Disk<Tree>)
    requires items != [] && Owned(Tree(items))
    ensures fresh(disk)
    ensures if Owned(Tree(items[1..]))
            then disk.record.None? && View(disk.files, 0) == Slots(Some(Tree(items[1..])), None, None)
            else Blocked(disk.files, disk.record)
  {
    var files: map<Path, Tree> := map[At(0, Stage) := Tree(items)];
    disk := new Disk(files, [Proceed, Proceed, Proceed, Proceed, Proceed, Raise, Proceed, Kill]);
    assert Staged(files, 1) && View(files, 0) == Slots(None, Some(Tree(items)), None);
    var late;
    ghost var done, lost;
    late, done, lost := InstallUnderFaults(disk, 1);
    assert disk.Outcome(0) == Ok;
    OneEntryDecides(disk, files, items, disk.everCommitted, late, done, lost);
    OneEntryGone(files, disk, items, done, lost);
  }

  lemma {:induction false} OneEntryAhead(disk: Disk<Tree>, files: map<Path, Tree>, items: seq<Item>)
    requires disk.faults == [Proceed, Proceed, Proceed, Proceed, Proceed, Raise, Proceed, Kill] && items != []
    requires View(files, 0) == Slots(None, Some(Tree(items)), None)
    ensures var t := NewRecord(files, 1);
            && LateAt(disk, 1, files, t, 1, 0) && LateStep(1, t, OldEntries(files, 1) + 0) == 5
            && !LateClean(disk, files, 6, 1, 1, 0) && LateMoves(disk, files, 6, 1, 1, 0) == [1]
  {
    var t, costs := NewRecord(files, 1), LateCosts(files, 1, 1, 0);
    assert Had(t.endpoints, 0) == 0 && Had(t.endpoints, 1) == 0;
    assert OldEntries(files, 0) == 0 && OldEntries(files, 1) == 0;
    assert costs == [|items| + 1];
    assert Total(costs, 1) == 0 && Total(costs, 0) == |items| + 1;
    assert disk.Outcome(7) == Killed;
    ThroughIs(disk, 6, |items| + 1, 1);
    assert Turn(disk, 6, costs, 1) == Some(6);
    assert Progress(disk, 6, costs, 0) == 1;
    MovesAt(disk, 6, costs, 1, 0);
  }

  lemma {:induction false} OneEntryDecides(disk: Disk<Tree>, files: map<Path, Tree>, items: seq<Item>, committed: bool,
                                           late: bool, done: nat, lost: nat)
    requires disk.faults == [Proceed, Proceed, Proceed, Proceed, Proceed, Raise, Proceed, Kill] && items != []
    requires View(files, 0) == Slots(None, Some(Tree(items)), None)
    requires Decided(disk, 1, files, NewRecord(files, 1), committed, late, done, lost)
    ensures late && done == 1 && lost == 0
  {
    OneEntryAhead(disk, files, items);
  }

  lemma {:induction false} OneEntryGone(files: map<Path, Tree>, disk: Disk<Tree>, items: seq<Item>, done: nat,
                                        lost: nat)
    requires disk.faults == [Proceed, Proceed, Proceed, Proceed, Proceed, Raise, Proceed, Kill] && items != []
    requires View(files, 0) == Slots(None, Some(Tree(items)), None)
    requires done == 1 && lost == 0 && LateEnd(files, disk, 1, NewRecord(files, 1), done, lost)
    ensures if Owned(Tree(items[1..]))
            then disk.record.None? && View(disk.files, 0) == Slots(Some(Tree(items[1..])), None, None)
            else Blocked(disk.files, disk.record)
  {
    var was := View(files, 0);
    OneEntryAhead(disk, files, items);
    assert End(files, disk, 1, 1, 0, [1], false);
    assert LateTarget(was, EntriesGone(was, 0, 1, 0), 1) == Some(Tree(items[1..]));
    assert Broken(files, 1, 0, [1]) <==> !Owned(Tree(items[1..]));
    if Owned(Tree(items[1..])) {
      LateSettledThere(files, disk.files, 1, 0, [1], 1, 0);
    }
  }
}
