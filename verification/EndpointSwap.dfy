/** What both crash-recoverable installers share: the paths of one swap endpoint, the
    transaction record, a disk whose every durable step may be cut by a raised error or by a
    kill, and the swap loop the two scripts write alike. */
module EndpointSwap {
  import opened Options

  /** An endpoint owns three sibling paths; everything else on the disk is `Elsewhere`. */
  datatype Slot = Target | Stage | Backup
  datatype Path = At(endpoint: nat, slot: Slot) | Elsewhere(name: string)

  datatype State = Prepared | Swapping | Committed
  datatype Phase = Untouched | BackedUp | Installed
  datatype Endpoint = Endpoint(hadTarget: bool, phase: Phase)
  datatype Record = Record(state: State, endpoints: seq<Endpoint>)

  /** What the environment does to one durable step: lets it happen, makes it raise an
      `OSError` without effect, or kills the process just before it. */
  datatype Fault = Proceed | Raise | Kill

  datatype Reason = RollbackFailed | MissingBoth(endpoint: nat) | NotInstalled(endpoint: nat)

  /** How a procedure ends. `Exited` is an exception the installer raises itself. */
  datatype Result = Ok | Raised | Killed | Exited(reason: Reason) {
    predicate IsFailure() {
      !Ok?
    }

    function PropagateFailure(): Result
      requires IsFailure()
    {
      this
    }
  }

  /** The three slots of one endpoint, read off the disk. */
  datatype Slots<+C> = Slots(target: Option<C>, stage: Option<C>, backup: Option<C>)

  function Lookup<C>(files: map<Path, C>, p: Path): Option<C> {
    if p in files then Some(files[p]) else None
  }

  function View<C>(files: map<Path, C>, i: nat): Slots<C> {
    Slots(Lookup(files, At(i, Target)), Lookup(files, At(i, Stage)), Lookup(files, At(i, Backup)))
  }

  function Get<C>(s: Slots<C>, slot: Slot): Option<C> {
    match slot
    case Target => s.target
    case Stage => s.stage
    case Backup => s.backup
  }

  function Put<C>(s: Slots<C>, slot: Slot, content: Option<C>): Slots<C> {
    match slot
    case Target => s.(target := content)
    case Stage => s.(stage := content)
    case Backup => s.(backup := content)
  }

  function Outside<C>(files: map<Path, C>): map<Path, C> {
    map p | p in files && p.Elsewhere? :: files[p]
  }

  /** Nothing changed except possibly the slots of endpoint `i`. */
  ghost predicate Only<C>(before: map<Path, C>, after: map<Path, C>, i: nat) {
    && (forall j: nat | j != i :: View(after, j) == View(before, j))
    && Outside(after) == Outside(before)
  }

  /** The content rolling an endpoint back leaves at its target. */
  function Restored<C>(s: Slots<C>, hadTarget: bool): Option<C> {
    if !hadTarget then None else if s.backup.Some? then s.backup else s.target
  }

  function RolledBack<C>(s: Slots<C>, hadTarget: bool): Slots<C> {
    Slots(Restored(s, hadTarget), None, if hadTarget then None else s.backup)
  }

  /** The record describes the `n` endpoints as they were in `start`. */
  ghost predicate Describes<C>(t: Record, start: map<Path, C>, n: nat) {
    && |t.endpoints| == n
    && forall i: nat | i < n :: t.endpoints[i].hadTarget == View(start, i).target.Some?
  }

  /** Everything staged, nothing swapped yet. */
  ghost predicate Ready<C>(start: map<Path, C>, n: nat) {
    forall i: nat | i < n :: View(start, i).stage.Some? && View(start, i).backup.None?
  }

  ghost predicate Revertible<C>(start: map<Path, C>, files: map<Path, C>, n: nat) {
    && Outside(files) == Outside(start)
    && forall i: nat | i < n ::
         && Restored(View(files, i), View(start, i).target.Some?) == View(start, i).target
         && (View(start, i).target.None? ==> View(files, i).backup.None?)
  }

  ghost predicate Finishable<C>(start: map<Path, C>, files: map<Path, C>, n: nat) {
    && Outside(files) == Outside(start)
    && forall i: nat | i < n ::
         && View(files, i).target == View(start, i).stage
         && (View(start, i).target.None? ==> View(files, i).backup.None?)
  }

  /** The crash invariant: whenever a record is durable, the disk can still be brought
      to all-new (committed record) or to all-old (any other record). */
  ghost predicate Consistent<C>(start: map<Path, C>, files: map<Path, C>, t: Record, n: nat) {
    && Describes(t, start, n)
    && if t.state.Committed? then Finishable(start, files, n) else Revertible(start, files, n)
  }

  ghost predicate AllOld<C>(start: map<Path, C>, files: map<Path, C>, n: nat) {
    && Outside(files) == Outside(start)
    && forall i: nat | i < n :: View(files, i) == Slots(View(start, i).target, None, None)
  }

  ghost predicate AllNew<C>(start: map<Path, C>, files: map<Path, C>, n: nat) {
    && Outside(files) == Outside(start)
    && forall i: nat | i < n :: View(files, i) == Slots(View(start, i).stage, None, None)
  }

  /** The outcome a finished transaction promises. */
  ghost predicate Settled<C>(start: map<Path, C>, files: map<Path, C>, n: nat, committed: bool) {
    if committed then AllNew(start, files, n) else AllOld(start, files, n)
  }

  /** `cost` summed over the first `k` endpoints. */
  ghost function Sum<C>(cost: (Slots<C>, bool) -> nat, files: map<Path, C>,
                        endpoints: seq<Endpoint>, k: nat): nat
    requires k <= |endpoints|
  {
    if k == 0 then 0
    else Sum(cost, files, endpoints, k - 1) + cost(View(files, k - 1), endpoints[k - 1].hadTarget)
  }

  /** A change confined to endpoint `i` moves the sum by what it moves endpoint `i`. */
  lemma {:induction false} SumOnly<C>(cost: (Slots<C>, bool) -> nat, before: map<Path, C>,
      after: map<Path, C>, endpoints: seq<Endpoint>, i: nat, k: nat)
    requires i < |endpoints| && k <= |endpoints| && Only(before, after, i)
    ensures Sum(cost, after, endpoints, k) - Sum(cost, before, endpoints, k) ==
            if i < k then cost(View(after, i), endpoints[i].hadTarget) -
                          cost(View(before, i), endpoints[i].hadTarget)
            else 0
  {
    if k > 0 {
      SumOnly(cost, before, after, endpoints, i, k - 1);
    }
  }

  /** The costs of undoing and of finishing one endpoint, and so of the steps a recovery
      still has to take, the removal of the record included. */
  ghost function Remaining<C>(undo: (Slots<C>, bool) -> nat, finish: (Slots<C>, bool) -> nat,
                              files: map<Path, C>, record: Option<Record>): nat
  {
    match record
    case None => 0
    case Some(t) =>
      1 + Sum(if t.state.Committed? then finish else undo, files, t.endpoints, |t.endpoints|)
  }

  class Disk<C> {
    var files: map<Path, C>
    var record: Option<Record>
    /** What happens to each durable step ever attempted, across every process that runs on
        this disk; past the end of the tape nothing goes wrong. */
    const faults: seq<Fault>
    var clock: nat
    /** Durable steps that took effect. */
    ghost var steps: nat
    /** Whether a committed record ever became durable. */
    ghost var everCommitted: bool

    constructor (files: map<Path, C>, faults: seq<Fault>)
      ensures this.files == files && record == None && this.faults == faults
      ensures clock == 0 && steps == 0 && !everCommitted
    {
      this.files, this.record, this.faults := files, None, faults;
      clock, steps, everCommitted := 0, 0, false;
    }

    function Outcome(k: nat): Result {
      if k >= |faults| then Ok
      else match faults[k]
        case Proceed => Ok
        case Raise => Raised
        case Kill => Killed
    }

    ghost predicate Clean(from: nat, to: nat) {
      forall k: nat | from <= k < to :: Outcome(k) == Ok
    }

    /** Nothing goes wrong from here on. */
    ghost predicate Quiet()
      reads this
    {
      forall k: nat | clock <= k :: Outcome(k) == Ok
    }

    method Tick() returns (r: Result)
      modifies this`clock, this`steps
      ensures clock == old(clock) + 1 && r == Outcome(old(clock))
      ensures steps == old(steps) + if r.Ok? then 1 else 0
    {
      r := Outcome(clock);
      clock := clock + 1;
      if r.Ok? {
        steps := steps + 1;
      }
    }

    /** `os.replace` between two slots of one endpoint: atomic, and the source name is gone
        afterwards. */
    method Replace(i: nat, source: Slot, destination: Slot) returns (r: Result)
      requires At(i, source) in files && source != destination
      modifies this`files, this`clock, this`steps
      ensures clock == old(clock) + 1 && r == Outcome(old(clock))
      ensures steps == old(steps) + if r.Ok? then 1 else 0
      ensures Only(old(files), files, i)
      ensures View(files, i) ==
              if r.Ok? then Put(Put(old(View(files, i)), destination, Get(old(View(files, i)), source)), source, None)
              else old(View(files, i))
    {
      r := Tick();
      if r.Ok? {
        files := files[At(i, destination) := files[At(i, source)]] - {At(i, source)};
      }
    }

    method Unlink(i: nat, slot: Slot) returns (r: Result)
      modifies this`files, this`clock, this`steps
      ensures clock == old(clock) + 1 && r == Outcome(old(clock))
      ensures steps == old(steps) + if r.Ok? then 1 else 0
      ensures Only(old(files), files, i)
      ensures View(files, i) == if r.Ok? then Put(old(View(files, i)), slot, None) else old(View(files, i))
    {
      r := Tick();
      if r.Ok? {
        files := files - {At(i, slot)};
      }
    }

    /** Temporary file, fsync, `os.replace`: the new record appears at once or not at all. */
    method WriteRecord(t: Record) returns (r: Result)
      modifies this`record, this`clock, this`steps, this`everCommitted
      ensures clock == old(clock) + 1 && r == Outcome(old(clock))
      ensures steps == old(steps) + if r.Ok? then 1 else 0
      ensures record == if r.Ok? then Some(t) else old(record)
      ensures everCommitted == (old(everCommitted) || (r.Ok? && t.state.Committed?))
    {
      r := Tick();
      if r.Ok? {
        record := Some(t);
        everCommitted := everCommitted || t.state.Committed?;
      }
    }

    method RemoveRecord() returns (r: Result)
      modifies this`record, this`clock, this`steps
      ensures clock == old(clock) + 1 && r == Outcome(old(clock))
      ensures steps == old(steps) + if r.Ok? then 1 else 0
      ensures record == if r.Ok? then None else old(record)
    {
      r := Tick();
      if r.Ok? {
        record := None;
      }
    }
  }

  /** How many of the first `k` endpoints replaced something. */
  function Had(endpoints: seq<Endpoint>, k: nat): (h: nat)
    requires k <= |endpoints|
    ensures h <= k
  {
    if k == 0 then 0 else Had(endpoints, k - 1) + if endpoints[k - 1].hadTarget then 1 else 0
  }

  lemma {:induction false} HadMonotone(endpoints: seq<Endpoint>, i: nat, k: nat)
    requires i <= k <= |endpoints|
    ensures Had(endpoints, i) <= Had(endpoints, k)
    ensures i < k && endpoints[i].hadTarget ==> Had(endpoints, i) < Had(endpoints, k)
  {
    if i < k {
      HadMonotone(endpoints, i, k - 1);
    }
  }

  /** Nothing is left to do once every endpoint costs nothing. */
  lemma {:induction false} SumOfZeros<C>(cost: (Slots<C>, bool) -> nat, files: map<Path, C>,
      endpoints: seq<Endpoint>, k: nat)
    requires k <= |endpoints|
    requires forall i: nat | i < k :: cost(View(files, i), endpoints[i].hadTarget) == 0
    ensures Sum(cost, files, endpoints, k) == 0
  {
    if k > 0 {
      SumOfZeros(cost, files, endpoints, k - 1);
    }
  }

  /** `_new_transaction`: which targets exist is read off the disk once. */
  function NewRecord<C>(files: map<Path, C>, n: nat): (t: Record)
    ensures t.state == Prepared && Describes(t, files, n)
  {
    Record(Prepared, seq(n, i requires 0 <= i < n => Endpoint(At(i, Target) in files, Untouched)))
  }

  ghost function Swapped<C>(s: Slots<C>): Slots<C> {
    Slots(s.stage, None, s.target)
  }

  /** Two durable steps an endpoint, two more where there is something to back up, and the
      first and last record of the swap. */
  function SwapSteps(t: Record): nat {
    2 + 2 * |t.endpoints| + 2 * Had(t.endpoints, |t.endpoints|)
  }

  /** One turn of the swap loop: two renames, each followed by its record. */
  method SwapEndpoint<C>(disk: Disk<C>, t: Record, i: nat) returns (r: Result, u: Record)
    requires i < |t.endpoints| && disk.record == Some(t) && !t.state.Committed?
    requires var s := View(disk.files, i);
             s.stage.Some? && s.backup.None? && s.target.Some? == t.endpoints[i].hadTarget
    modifies disk
    ensures Only(old(disk.files), disk.files, i)
    ensures Restored(View(disk.files, i), t.endpoints[i].hadTarget) == old(View(disk.files, i)).target
    ensures !t.endpoints[i].hadTarget ==> View(disk.files, i).backup.None?
    ensures r.Ok? ==> View(disk.files, i) == Swapped(old(View(disk.files, i)))
    ensures disk.record.Some? && disk.record.value.state == t.state == u.state
    ensures SameTargets(disk.record.value, t) && (r.Ok? ==> disk.record == Some(u))
    ensures disk.everCommitted == old(disk.everCommitted)
    ensures var cost := if t.endpoints[i].hadTarget then 4 else 2;
            if r.Ok? then disk.clock == old(disk.clock) + cost
            else old(disk.clock) < disk.clock <= old(disk.clock) + cost && r == disk.Outcome(disk.clock - 1)
    ensures disk.Clean(old(disk.clock), if r.Ok? then disk.clock else disk.clock - 1)
  {
    u := t;
    if u.endpoints[i].hadTarget {
      r := disk.Replace(i, Target, Backup);
      if !r.Ok? { return; }
      u := u.(endpoints := u.endpoints[i := u.endpoints[i].(phase := BackedUp)]);
      r := disk.WriteRecord(u);
      if !r.Ok? { return; }
    }
    r := disk.Replace(i, Stage, Target);
    if !r.Ok? { return; }
    u := u.(endpoints := u.endpoints[i := u.endpoints[i].(phase := Installed)]);
    r := disk.WriteRecord(u);
  }

  ghost predicate SameTargets(t: Record, u: Record) {
    && |t.endpoints| == |u.endpoints|
    && forall i: nat | i < |t.endpoints| :: t.endpoints[i].hadTarget == u.endpoints[i].hadTarget
  }

  /** The swap stays revertible while endpoint `i` is under way. */
  lemma {:induction false} MidSwap<C>(start: map<Path, C>, files: map<Path, C>, t: Record, i: nat)
    requires Ready(start, |t.endpoints|) && Describes(t, start, |t.endpoints|)
    requires Outside(files) == Outside(start)
    requires forall j: nat | j < i && j < |t.endpoints| :: View(files, j) == Swapped(View(start, j))
    requires forall j: nat | i < j < |t.endpoints| :: View(files, j) == View(start, j)
    requires i < |t.endpoints| ==>
               && Restored(View(files, i), t.endpoints[i].hadTarget) == View(start, i).target
               && (!t.endpoints[i].hadTarget ==> View(files, i).backup.None?)
    ensures Revertible(start, files, |t.endpoints|)
  {
  }

  /** Complete up to endpoint `i`, untouched from there on. */
  ghost predicate SwappedUpTo<C>(start: map<Path, C>, files: map<Path, C>, n: nat, i: nat) {
    && Outside(files) == Outside(start)
    && (forall j: nat | j < i && j < n :: View(files, j) == Swapped(View(start, j)))
    && forall j: nat | i <= j < n :: View(files, j) == View(start, j)
  }

  lemma {:induction false} OneSwapped<C>(start: map<Path, C>, was: map<Path, C>, files: map<Path, C>, t: Record,
                                         i: nat, ok: bool)
    requires Ready(start, |t.endpoints|) && Describes(t, start, |t.endpoints|) && i < |t.endpoints|
    requires SwappedUpTo(start, was, |t.endpoints|, i) && Only(was, files, i)
    requires Restored(View(files, i), t.endpoints[i].hadTarget) == View(was, i).target
    requires !t.endpoints[i].hadTarget ==> View(files, i).backup.None?
    requires ok ==> View(files, i) == Swapped(View(was, i))
    ensures ok ==> SwappedUpTo(start, files, |t.endpoints|, i + 1)
    ensures Revertible(start, files, |t.endpoints|)
  {
    MidSwap(start, files, t, i);
  }

  /** Durable steps of the first `i` endpoints. */
  function StepsOf(t: Record, i: nat): nat
    requires i <= |t.endpoints|
  {
    2 * i + 2 * Had(t.endpoints, i)
  }

  /** One turn of the swap loop, seen from its start: `clock` was the time then. */
  method SwapNext<C>(disk: Disk<C>, ghost start: map<Path, C>, ghost clock: nat, ghost t: Record, u: Record, i: nat)
    returns (r: Result, v: Record)
    requires Ready(start, |t.endpoints|) && Describes(t, start, |t.endpoints|) && i < |t.endpoints|
    requires disk.record == Some(u) && SameTargets(u, t) && u.state == t.state && !t.state.Committed?
    requires SwappedUpTo(start, disk.files, |t.endpoints|, i)
    requires disk.clock == clock + StepsOf(t, i) && disk.Clean(clock, disk.clock)
    modifies disk
    ensures Revertible(start, disk.files, |t.endpoints|)
    ensures r.Ok? ==> SwappedUpTo(start, disk.files, |t.endpoints|, i + 1)
    ensures disk.record.Some? && disk.record.value.state == t.state == v.state
    ensures SameTargets(disk.record.value, t) && (r.Ok? ==> disk.record == Some(v))
    ensures disk.everCommitted == old(disk.everCommitted)
    ensures if r.Ok? then disk.clock == clock + StepsOf(t, i + 1)
            else clock < disk.clock <= clock + StepsOf(t, |t.endpoints|) && r == disk.Outcome(disk.clock - 1)
    ensures disk.Clean(clock, if r.Ok? then disk.clock else disk.clock - 1)
  {
    ghost var was := disk.files;
    assert u.endpoints[i].hadTarget == t.endpoints[i].hadTarget;
    assert StepsOf(t, i + 1) == StepsOf(t, i) + if t.endpoints[i].hadTarget then 4 else 2;
    HadMonotone(t.endpoints, i + 1, |t.endpoints|);
    r, v := SwapEndpoint(disk, u, i);
    OneSwapped(start, was, disk.files, t, i, r.Ok?);
  }

  method SwapEach<C>(disk: Disk<C>, t: Record) returns (r: Result, u: Record)
    requires Ready(disk.files, |t.endpoints|) && Describes(t, disk.files, |t.endpoints|)
    requires disk.record == Some(t) && !t.state.Committed?
    modifies disk
    ensures Revertible(old(disk.files), disk.files, |t.endpoints|)
    ensures r.Ok? ==> SwappedUpTo(old(disk.files), disk.files, |t.endpoints|, |t.endpoints|)
    ensures disk.record.Some? && disk.record.value.state == t.state == u.state
    ensures SameTargets(disk.record.value, t) && (r.Ok? ==> disk.record == Some(u))
    ensures disk.everCommitted == old(disk.everCommitted)
    ensures var cost := StepsOf(t, |t.endpoints|);
            if r.Ok? then disk.clock == old(disk.clock) + cost
            else old(disk.clock) < disk.clock <= old(disk.clock) + cost && r == disk.Outcome(disk.clock - 1)
    ensures disk.Clean(old(disk.clock), if r.Ok? then disk.clock else disk.clock - 1)
  {
    ghost var n, start, clock := |t.endpoints|, disk.files, disk.clock;
    r, u := Ok, t;
    for i := 0 to |t.endpoints|
      invariant r.Ok? && disk.record == Some(u) && SameTargets(u, t) && u.state == t.state
      invariant disk.everCommitted == old(disk.everCommitted)
      invariant SwappedUpTo(start, disk.files, n, i)
      invariant disk.clock == clock + StepsOf(t, i) && disk.Clean(clock, disk.clock)
    {
      r, u := SwapNext(disk, start, clock, t, u, i);
      if !r.Ok? {
        return;
      }
    }
    MidSwap(start, disk.files, t, n);
  }

  /** The `try` body up to the committed record. Whatever cuts it short, the disk stays
      revertible; only its last step makes the new content durable. */
  method SwapEndpoints<C>(disk: Disk<C>, t: Record) returns (r: Result)
    requires Ready(disk.files, |t.endpoints|) && Describes(t, disk.files, |t.endpoints|)
    requires disk.record == Some(t) && !t.state.Committed?
    modifies disk
    ensures disk.record.Some? && SameTargets(disk.record.value, t)
    ensures r.Ok? <==> disk.record.value.state.Committed?
    ensures !r.Ok? ==> Revertible(old(disk.files), disk.files, |t.endpoints|)
    ensures r.Ok? ==>
              Outside(disk.files) == Outside(old(disk.files))
              && forall i: nat | i < |t.endpoints| :: View(disk.files, i) == Swapped(View(old(disk.files), i))
    ensures disk.everCommitted == (old(disk.everCommitted) || r.Ok?)
    ensures if r.Ok? then disk.clock == old(disk.clock) + SwapSteps(t)
            else old(disk.clock) < disk.clock <= old(disk.clock) + SwapSteps(t) && r == disk.Outcome(disk.clock - 1)
    ensures disk.Clean(old(disk.clock), if r.Ok? then disk.clock else disk.clock - 1)
  {
    MidSwap(disk.files, disk.files, t, 0);
    var u := t.(state := Swapping);
    r := disk.WriteRecord(u);
    if !r.Ok? { return; }
    r, u := SwapEach(disk, u);
    if !r.Ok? { return; }
    r := disk.WriteRecord(u.(state := Committed));
  }

  lemma {:induction false} HadSame(t: Record, u: Record, k: nat)
    requires SameTargets(t, u) && k <= |t.endpoints|
    ensures Had(t.endpoints, k) == Had(u.endpoints, k)
  {
    if k > 0 {
      HadSame(t, u, k - 1);
    }
  }

  /** An endpoint with nothing left over, old or new. */
  function Ended<C>(was: Slots<C>, back: bool): Slots<C> {
    Slots(if back then was.target else was.stage, None, None)
  }
}
