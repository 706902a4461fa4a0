/** A rollback taken step by step: how far a tape of outcomes lets it get with each endpoint, and
    what the endpoint is then. The installers differ in what one step removes of a file or tree. */
module UndoSteps {
  import opened Options
  import opened EndpointSwap

  // ---- how far the tape lets it get ----

  /** How many of so many steps take effect before the first that does not. */
  ghost function Through<C>(disk: Disk<C>, from: nat, steps: nat): (d: nat)
    ensures d <= steps
    decreases steps
  {
    if steps == 0 || disk.Outcome(from) != Ok then 0 else 1 + Through(disk, from + 1, steps - 1)
  }

  lemma {:induction false} ThroughStops<C>(disk: Disk<C>, from: nat, steps: nat)
    ensures var d := Through(disk, from, steps);
            disk.Clean(from, from + d) && (d < steps ==> disk.Outcome(from + d) != Ok)
    decreases steps
  {
    if steps != 0 && disk.Outcome(from) == Ok {
      ThroughStops(disk, from + 1, steps - 1);
    }
  }

  lemma {:induction false} ThroughIs<C>(disk: Disk<C>, from: nat, steps: nat, d: nat)
    requires d <= steps && disk.Clean(from, from + d) && (d < steps ==> disk.Outcome(from + d) != Ok)
    ensures Through(disk, from, steps) == d
    decreases d
  {
    if d > 0 {
      ThroughIs(disk, from + 1, steps - 1, d - 1);
    }
  }

  /** The time at which endpoint `k - 1` has its turn, the last one being first and endpoint `i`
      taking `costs[i]` steps; an error ends a turn. `None` if the process has died. */
  ghost function Turn<C>(disk: Disk<C>, clock: nat, costs: seq<nat>, k: nat): Option<nat>
    requires k <= |costs|
    decreases |costs| - k
  {
    if k == |costs| then Some(clock)
    else
      var at := Turn(disk, clock, costs, k + 1);
      if at.None? then None else After(disk, at.value, costs[k])
  }

  ghost function After<C>(disk: Disk<C>, at: nat, steps: nat): Option<nat> {
    var d := Through(disk, at, steps);
    if d == steps then Some(at + d) else if disk.Outcome(at + d).Killed? then None else Some(at + d + 1)
  }

  /** How many steps endpoint `i` is taken. */
  ghost function Progress<C>(disk: Disk<C>, clock: nat, costs: seq<nat>, i: nat): nat
    requires i < |costs|
  {
    var at := Turn(disk, clock, costs, i + 1);
    if at.None? then 0 else Through(disk, at.value, costs[i])
  }

  ghost function Total(costs: seq<nat>, k: nat): nat
    requires k <= |costs|
    decreases |costs| - k
  {
    if k == |costs| then 0 else costs[k] + Total(costs, k + 1)
  }

  /** Every turn down to that of endpoint `k` is completed. */
  ghost predicate Completes<C>(disk: Disk<C>, clock: nat, costs: seq<nat>, k: nat)
    requires k <= |costs|
    decreases |costs| - k
  {
    k == |costs| || (Completes(disk, clock, costs, k + 1) && Progress(disk, clock, costs, k) == costs[k])
  }

  lemma {:induction false} CompletesMeans<C>(disk: Disk<C>, clock: nat, costs: seq<nat>, k: nat)
    requires k <= |costs|
    ensures Completes(disk, clock, costs, k) <==>
            forall i | k <= i < |costs| :: Progress(disk, clock, costs, i) == costs[i]
    decreases |costs| - k
  {
    if k < |costs| {
      CompletesMeans(disk, clock, costs, k + 1);
    }
  }

  lemma {:induction false} ThroughAll<C>(disk: Disk<C>, from: nat, steps: nat)
    ensures Through(disk, from, steps) == steps <==> disk.Clean(from, from + steps)
  {
    ThroughStops(disk, from, steps);
    if disk.Clean(from, from + steps) {
      ThroughIs(disk, from, steps, steps);
    }
  }

  lemma {:induction false} CleanJoin<C>(disk: Disk<C>, a: nat, b: nat, c: nat)
    requires a <= b <= c
    ensures disk.Clean(a, c) <==> disk.Clean(a, b) && disk.Clean(b, c)
  {
  }

  /** All turns are completed exactly if nothing goes wrong until the last of their steps. */
  lemma {:induction false} CompletesClean<C>(disk: Disk<C>, clock: nat, costs: seq<nat>, k: nat)
    requires k <= |costs|
    ensures Completes(disk, clock, costs, k) <==> disk.Clean(clock, clock + Total(costs, k))
    ensures Completes(disk, clock, costs, k) ==> Turn(disk, clock, costs, k) == Some(clock + Total(costs, k))
    decreases |costs| - k
  {
    if k < |costs| {
      CompletesClean(disk, clock, costs, k + 1);
      CompletesNext(disk, clock, costs, k, clock + Total(costs, k + 1));
    }
  }

  lemma {:induction false} CompletesNext<C>(disk: Disk<C>, clock: nat, costs: seq<nat>, k: nat, at: nat)
    requires k < |costs| && clock <= at
    ensures disk.Clean(clock, at + costs[k]) ==> disk.Clean(clock, at)
    ensures Turn(disk, clock, costs, k + 1) == Some(at) && disk.Clean(clock, at) ==>
              && (Progress(disk, clock, costs, k) == costs[k] <==> disk.Clean(clock, at + costs[k]))
              && (Progress(disk, clock, costs, k) == costs[k] ==> Turn(disk, clock, costs, k) == Some(at + costs[k]))
  {
    ThroughAll(disk, at, costs[k]);
    CleanJoin(disk, clock, at, at + costs[k]);
  }

  /** Together with one step more, the removal of the record. */
  lemma {:induction false} CompletesAndOne<C>(disk: Disk<C>, clock: nat, costs: seq<nat>)
    ensures var end := clock + Total(costs, 0);
            && (Completes(disk, clock, costs, 0) ==> Turn(disk, clock, costs, 0) == Some(end))
            && (disk.Clean(clock, end + 1) <==> Completes(disk, clock, costs, 0) && disk.Outcome(end) == Ok)
  {
    CompletesClean(disk, clock, costs, 0);
    CleanJoin(disk, clock, clock + Total(costs, 0), clock + Total(costs, 0) + 1);
  }

  /** No endpoint is taken more steps than it has, and all exactly these if nothing goes wrong. */
  lemma {:induction false} ProgressWithin<C>(disk: Disk<C>, clock: nat, costs: seq<nat>, i: nat)
    requires i < |costs|
    ensures Progress(disk, clock, costs, i) <= costs[i]
    ensures disk.Clean(clock, clock + Total(costs, 0) + 1) ==> Progress(disk, clock, costs, i) == costs[i]
  {
    CompletesAndOne(disk, clock, costs);
    CompletesMeans(disk, clock, costs, 0);
  }

  /** The steps that the first `k` endpoints are taken. */
  ghost function Moves<C>(disk: Disk<C>, clock: nat, costs: seq<nat>, k: nat): (moves: seq<nat>)
    requires k <= |costs|
    ensures |moves| == k
    decreases k
  {
    if k == 0 then [] else Moves(disk, clock, costs, k - 1) + [Progress(disk, clock, costs, k - 1)]
  }

  lemma {:induction false} MovesAt<C>(disk: Disk<C>, clock: nat, costs: seq<nat>, k: nat, i: nat)
    requires i < k <= |costs|
    ensures Moves(disk, clock, costs, k)[i] == Progress(disk, clock, costs, i)
    decreases k
  {
    if i < k - 1 {
      MovesAt(disk, clock, costs, k - 1, i);
    }
  }

  /** After a kill no endpoint has its turn. */
  lemma {:induction false} TurnsEnd<C>(disk: Disk<C>, clock: nat, costs: seq<nat>, k: nat)
    requires k <= |costs| && Turn(disk, clock, costs, k).None?
    ensures Turn(disk, clock, costs, 0).None? && !Completes(disk, clock, costs, 0)
    ensures forall i | 0 <= i < k :: Progress(disk, clock, costs, i) == 0
  {
    CompletesClean(disk, clock, costs, k);
    if k > 0 {
      TurnsEnd(disk, clock, costs, k - 1);
    }
  }

  // ---- what the steps do ----

  /** How a content is removed: `size` counts the steps, `shrink` is what one of them leaves. */
  datatype Way<!C> = Way(size: Option<C> -> nat, shrink: C -> Option<C>)

  ghost predicate Counts<C(!new)>(w: Way<C>) {
    (forall t :: w.size(t) == 0 <==> t.None?) && forall c :: w.size(Some(c)) == 1 + w.size(w.shrink(c))
  }

  function Shrunk<C>(w: Way<C>, content: Option<C>): Option<C> {
    if content.None? then None else w.shrink(content.value)
  }

  /** One step of rolling an endpoint back. */
  function UndoStep<C>(w: Way<C>, s: Slots<C>, had: bool): Slots<C> {
    if had && s.backup.Some? then
      if s.target.Some? then s.(target := Shrunk(w, s.target)) else Slots(s.backup, s.stage, None)
    else if !had && s.target.Some? then s.(target := Shrunk(w, s.target))
    else s.(stage := Shrunk(w, s.stage))
  }

  function Undone<C>(w: Way<C>, s: Slots<C>, had: bool, d: nat): Slots<C> {
    if d == 0 then s else UndoStep(w, Undone(w, s, had, d - 1), had)
  }

  function Steps<C>(w: Way<C>, s: Slots<C>, had: bool): nat {
    (if !had then w.size(s.target) else if s.backup.None? then 0 else w.size(s.target) + 1) + w.size(s.stage)
  }

  ghost predicate Restorable<C>(s: Slots<C>, had: bool) {
    had ==> Restored(s, true).Some?
  }

  lemma {:induction false} OneStep<C(!new)>(w: Way<C>, s: Slots<C>, had: bool)
    requires Counts(w) && Steps(w, s, had) > 0
    ensures var u := UndoStep(w, s, had);
            && Steps(w, u, had) == Steps(w, s, had) - 1 && Restored(u, had) == Restored(s, had)
            && (!had ==> u.backup == s.backup) && RolledBack(u, had) == RolledBack(s, had)
  {
  }

  /** Fewer steps lead to the same end; all of them lead there. */
  lemma {:induction false} UndoneRestores<C(!new)>(w: Way<C>, s: Slots<C>, had: bool, d: nat)
    requires Counts(w) && d <= Steps(w, s, had)
    ensures var u := Undone(w, s, had, d);
            && Steps(w, u, had) == Steps(w, s, had) - d
            && Restored(u, had) == Restored(s, had) && RolledBack(u, had) == RolledBack(s, had)
            && (!had ==> u.backup == s.backup)
            && (d == Steps(w, s, had) && Restorable(s, had) ==> u == RolledBack(s, had))
  {
    if d > 0 {
      UndoneRestores(w, s, had, d - 1);
      OneStep(w, Undone(w, s, had, d - 1), had);
    }
    if d == Steps(w, s, had) && Restorable(s, had) {
      AtEnd(w, Undone(w, s, had, d), had);
    }
  }

  lemma {:induction false} AtEnd<C(!new)>(w: Way<C>, s: Slots<C>, had: bool)
    requires Counts(w) && Steps(w, s, had) == 0 && Restorable(s, had)
    ensures s == RolledBack(s, had)
  {
  }

  // ---- one endpoint ----

  /** How far the tape lets a rollback of one endpoint get from `clock` to `now`, and what the
      endpoint is then. */
  ghost predicate Taken<C>(disk: Disk<C>, w: Way<C>, clock: nat, now: nat, was: Slots<C>, s: Slots<C>, had: bool,
                           r: Result) {
    var cost := Steps(w, was, had);
    var d := Through(disk, clock, cost);
    && s == Undone(w, was, had, d)
    && if d == cost then r.Ok? && now == clock + d else r == disk.Outcome(clock + d) && now == clock + d + 1
  }

  /** A rollback of one endpoint that has gone well from `clock` to `now`. */
  ghost predicate Undoing<C>(disk: Disk<C>, w: Way<C>, clock: nat, now: nat, was: Slots<C>, s: Slots<C>, had: bool) {
    && clock <= now && disk.Clean(clock, now)
    && now - clock + Steps(w, s, had) == Steps(w, was, had)
    && s == Undone(w, was, had, now - clock)
  }

  lemma {:induction false} UndoingOn<C(!new)>(disk: Disk<C>, w: Way<C>, clock: nat, now: nat, was: Slots<C>,
                                              s: Slots<C>, had: bool)
    requires Counts(w) && Undoing(disk, w, clock, now, was, s, had) && Steps(w, s, had) > 0
    ensures if disk.Outcome(now) == Ok then Undoing(disk, w, clock, now + 1, was, UndoStep(w, s, had), had)
            else Taken(disk, w, clock, now + 1, was, s, had, disk.Outcome(now))
    ensures Steps(w, UndoStep(w, s, had), had) == Steps(w, s, had) - 1
  {
    OneStep(w, s, had);
    if disk.Outcome(now) != Ok {
      ThroughIs(disk, clock, Steps(w, was, had), now - clock);
    }
  }

  lemma {:induction false} UndoingEnds<C>(disk: Disk<C>, w: Way<C>, clock: nat, now: nat, was: Slots<C>, s: Slots<C>,
                                          had: bool)
    requires Undoing(disk, w, clock, now, was, s, had) && Steps(w, s, had) == 0
    ensures Taken(disk, w, clock, now, was, s, had, Ok)
  {
    ThroughIs(disk, clock, Steps(w, was, had), now - clock);
  }

  function ShrunkBy<C>(w: Way<C>, content: Option<C>, d: nat): Option<C> {
    if d == 0 then content else Shrunk(w, ShrunkBy(w, content, d - 1))
  }

  /** As long as the target is being removed. */
  lemma {:induction false} UndoneShrinks<C(!new)>(w: Way<C>, s: Slots<C>, had: bool, d: nat)
    requires Counts(w) && (had ==> s.backup.Some?) && d <= w.size(s.target)
    ensures Undone(w, s, had, d) == s.(target := ShrunkBy(w, s.target, d))
    ensures w.size(ShrunkBy(w, s.target, d)) == w.size(s.target) - d
  {
    if d > 0 {
      UndoneShrinks(w, s, had, d - 1);
      var t := ShrunkBy(w, s.target, d - 1);
      assert w.size(t) == 1 + w.size(w.shrink(t.value));
    }
  }

  lemma {:induction false} TargetOn<C(!new)>(disk: Disk<C>, w: Way<C>, clock: nat, now: nat, was: Slots<C>, s: Slots<C>,
                                             had: bool)
    requires Counts(w) && Undoing(disk, w, clock, now, was, s, had) && (had ==> s.backup.Some?) && s.target.Some?
    ensures if disk.Outcome(now) == Ok
            then Undoing(disk, w, clock, now + 1, was, s.(target := Shrunk(w, s.target)), had)
            else Taken(disk, w, clock, now + 1, was, s, had, disk.Outcome(now))
    ensures w.size(Shrunk(w, s.target)) == w.size(s.target) - 1
  {
    assert w.size(s.target) == 1 + w.size(w.shrink(s.target.value));
    UndoingOn(disk, w, clock, now, was, s, had);
  }

  /** Removing a target step by step. */
  lemma {:induction false} TargetGoes<C(!new)>(disk: Disk<C>, w: Way<C>, clock: nat, at: nat, was: Slots<C>,
                                               s: Slots<C>, had: bool, d: nat)
    requires Counts(w) && Undoing(disk, w, clock, at, was, s, had) && (had ==> s.backup.Some?)
    requires d <= w.size(s.target) && disk.Clean(at, at + d)
    ensures Undoing(disk, w, clock, at + d, was, s.(target := ShrunkBy(w, s.target, d)), had)
    ensures w.size(ShrunkBy(w, s.target, d)) == w.size(s.target) - d
  {
    if d > 0 {
      TargetGoes(disk, w, clock, at, was, s, had, d - 1);
      TargetOn(disk, w, clock, at + d - 1, was, s.(target := ShrunkBy(w, s.target, d - 1)), had);
    }
  }

  lemma {:induction false} TargetDiscarded<C(!new)>(disk: Disk<C>, w: Way<C>, clock: nat, at: nat, now: nat,
                                                    was: Slots<C>, s: Slots<C>, had: bool, d: nat, r: Result)
    requires Counts(w) && Undoing(disk, w, clock, at, was, s, had) && (had ==> s.backup.Some?)
    requires d <= w.size(s.target) && disk.Clean(at, at + d) && now == at + d + if r.Ok? then 0 else 1
    requires if r.Ok? then d == w.size(s.target) else d < w.size(s.target) && r == disk.Outcome(at + d)
    ensures var u := s.(target := ShrunkBy(w, s.target, d));
            && Steps(w, u, had) + d == Steps(w, s, had)
            && if r.Ok? then Undoing(disk, w, clock, now, was, u, had) && u.target.None?
               else Taken(disk, w, clock, now, was, u, had, r)
  {
    TargetGoes(disk, w, clock, at, was, s, had, d);
    if !r.Ok? {
      TargetOn(disk, w, clock, at + d, was, s.(target := ShrunkBy(w, s.target, d)), had);
    }
  }

  lemma {:induction false} StageOn<C(!new)>(disk: Disk<C>, w: Way<C>, clock: nat, now: nat, was: Slots<C>, s: Slots<C>,
                                             had: bool)
    requires Counts(w) && Undoing(disk, w, clock, now, was, s, had)
             && (if had then s.backup.None? else s.target.None?) && s.stage.Some?
    ensures if disk.Outcome(now) == Ok then Undoing(disk, w, clock, now + 1, was, s.(stage := Shrunk(w, s.stage)), had)
            else Taken(disk, w, clock, now + 1, was, s, had, disk.Outcome(now))
    ensures w.size(Shrunk(w, s.stage)) == w.size(s.stage) - 1
  {
    assert w.size(s.stage) == 1 + w.size(w.shrink(s.stage.value));
    UndoingOn(disk, w, clock, now, was, s, had);
  }

  /** And a stage, once the target is done. */
  lemma {:induction false} StageGoes<C(!new)>(disk: Disk<C>, w: Way<C>, clock: nat, at: nat, was: Slots<C>, s: Slots<C>,
                                               had: bool, d: nat)
    requires Counts(w) && Undoing(disk, w, clock, at, was, s, had) && (if had then s.backup.None? else s.target.None?)
    requires d <= w.size(s.stage) && disk.Clean(at, at + d)
    ensures Undoing(disk, w, clock, at + d, was, s.(stage := ShrunkBy(w, s.stage, d)), had)
    ensures w.size(ShrunkBy(w, s.stage, d)) == w.size(s.stage) - d
  {
    if d > 0 {
      StageGoes(disk, w, clock, at, was, s, had, d - 1);
      StageOn(disk, w, clock, at + d - 1, was, s.(stage := ShrunkBy(w, s.stage, d - 1)), had);
    }
  }

  lemma {:induction false} StageDiscarded<C(!new)>(disk: Disk<C>, w: Way<C>, clock: nat, at: nat, now: nat,
                                                   was: Slots<C>, s: Slots<C>, had: bool, d: nat, r: Result)
    requires Counts(w) && Undoing(disk, w, clock, at, was, s, had) && (if had then s.backup.None? else s.target.None?)
    requires d <= w.size(s.stage) && disk.Clean(at, at + d) && now == at + d + if r.Ok? then 0 else 1
    requires if r.Ok? then d == w.size(s.stage) else d < w.size(s.stage) && r == disk.Outcome(at + d)
    ensures var u := s.(stage := ShrunkBy(w, s.stage, d));
            && Steps(w, u, had) + d == Steps(w, s, had)
            && if r.Ok? then Undoing(disk, w, clock, now, was, u, had) && u.stage.None?
               else Taken(disk, w, clock, now, was, u, had, r)
  {
    StageGoes(disk, w, clock, at, was, s, had, d);
    if !r.Ok? {
      StageOn(disk, w, clock, at + d, was, s.(stage := ShrunkBy(w, s.stage, d)), had);
    }
  }

  /** What follows for the endpoint. */
  lemma {:induction false} TakenRestores<C(!new)>(disk: Disk<C>, w: Way<C>, clock: nat, now: nat, was: Slots<C>,
                                                  s: Slots<C>, had: bool, r: Result)
    requires Counts(w) && Taken(disk, w, clock, now, was, s, had, r) && (r.Ok? ==> Restorable(was, had))
    ensures Restored(s, had) == Restored(was, had) && (!had ==> s.backup == was.backup)
    ensures r.Ok? ==> s == RolledBack(was, had)
    ensures !r.Ok? ==> now > clock && r == disk.Outcome(now - 1)
  {
    ThroughStops(disk, clock, Steps(w, was, had));
    UndoneRestores(w, was, had, Through(disk, clock, Steps(w, was, had)));
  }

  // ---- all endpoints ----

  /** What rolling back endpoints leaves of each: what it would restore stays the same, even
      where the work is cut short. */
  ghost predicate RollingBack<C>(before: map<Path, C>, after: map<Path, C>, t: Record, from: nat, done: bool) {
    && Outside(after) == Outside(before)
    && (forall i: nat | i < from :: View(after, i) == View(before, i))
    && forall i: nat | i < |t.endpoints| ::
         var had := t.endpoints[i].hadTarget;
         && Restored(View(after, i), had) == Restored(View(before, i), had)
         && (!had ==> View(after, i).backup == View(before, i).backup)
         && (from <= i && done ==> View(after, i) == RolledBack(View(before, i), had))
  }

  lemma {:induction false} OneRolledBack<C>(before: map<Path, C>, was: map<Path, C>, after: map<Path, C>, t: Record,
                                            i: nat, done: bool, ok: bool)
    requires i < |t.endpoints| && RollingBack(before, was, t, i + 1, done) && Only(was, after, i)
    requires var had := t.endpoints[i].hadTarget;
             && Restored(View(after, i), had) == Restored(View(was, i), had)
             && (!had ==> View(after, i).backup == View(was, i).backup)
             && (ok ==> View(after, i) == RolledBack(View(was, i), had))
    ensures RollingBack(before, after, t, i, done && ok)
  {
  }

  lemma {:induction false} RollingBackAny<C>(before: map<Path, C>, after: map<Path, C>, t: Record, from: nat,
                                             done: bool)
    requires RollingBack(before, after, t, from, done)
    ensures RollingBack(before, after, t, 0, false)
  {
  }

  function Costs<C>(w: Way<C>, files: map<Path, C>, t: Record): seq<nat> {
    seq(|t.endpoints|, i requires 0 <= i < |t.endpoints| => Steps(w, View(files, i), t.endpoints[i].hadTarget))
  }

  ghost predicate AllRestorable<C>(files: map<Path, C>, t: Record) {
    forall i: nat | i < |t.endpoints| :: Restorable(View(files, i), t.endpoints[i].hadTarget)
  }

  /** Endpoint `i` is rolled back as far as the tape lets it. */
  ghost predicate Gone<C(!new)>(disk: Disk<C>, w: Way<C>, clock: nat, before: map<Path, C>, after: map<Path, C>,
                                t: Record, i: nat)
    requires i < |t.endpoints|
  {
    View(after, i) == Undone(w, View(before, i), t.endpoints[i].hadTarget,
                             Progress(disk, clock, Costs(w, before, t), i))
  }

  /** And so is every endpoint from `k` on. */
  ghost predicate Went<C(!new)>(disk: Disk<C>, w: Way<C>, clock: nat, before: map<Path, C>, after: map<Path, C>,
                                t: Record, k: nat)
    requires k <= |t.endpoints|
    decreases |t.endpoints| - k
  {
    k == |t.endpoints| || (Gone(disk, w, clock, before, after, t, k) && Went(disk, w, clock, before, after, t, k + 1))
  }

  lemma {:induction false} WentAt<C(!new)>(disk: Disk<C>, w: Way<C>, clock: nat, before: map<Path, C>,
                                           after: map<Path, C>, t: Record, k: nat, i: nat)
    requires k <= i < |t.endpoints| && Went(disk, w, clock, before, after, t, k)
    ensures Gone(disk, w, clock, before, after, t, i)
    decreases |t.endpoints| - k
  {
    if k < i {
      WentAt(disk, w, clock, before, after, t, k + 1, i);
    }
  }

  lemma {:induction false} WentAll<C(!new)>(disk: Disk<C>, w: Way<C>, clock: nat, before: map<Path, C>,
                                            after: map<Path, C>, t: Record, k: nat)
    requires k <= |t.endpoints| && forall i: nat | k <= i < |t.endpoints| :: Gone(disk, w, clock, before, after, t, i)
    ensures Went(disk, w, clock, before, after, t, k)
    decreases |t.endpoints| - k
  {
    if k < |t.endpoints| {
      WentAll(disk, w, clock, before, after, t, k + 1);
    }
  }

  lemma {:induction false} WentFrame<C(!new)>(disk: Disk<C>, w: Way<C>, clock: nat, before: map<Path, C>,
                                              was: map<Path, C>, after: map<Path, C>, t: Record, i: nat, k: nat)
    requires i < k <= |t.endpoints| && Went(disk, w, clock, before, was, t, k) && Only(was, after, i)
    ensures Went(disk, w, clock, before, after, t, k)
    decreases |t.endpoints| - k
  {
    if k < |t.endpoints| {
      WentFrame(disk, w, clock, before, was, after, t, i, k + 1);
    }
  }

  lemma {:induction false} WentOn<C(!new)>(disk: Disk<C>, w: Way<C>, clock: nat, at: nat, now: nat,
                                           before: map<Path, C>, was: map<Path, C>, after: map<Path, C>, t: Record,
                                           k: nat, r: Result)
    requires k < |t.endpoints| && GoneTo(disk, w, clock, at, before, was, t, k + 1)
    requires Only(was, after, k) && View(was, k) == View(before, k)
    requires Taken(disk, w, at, now, View(was, k), View(after, k), t.endpoints[k].hadTarget, r)
    ensures Went(disk, w, clock, before, after, t, k)
    ensures Turn(disk, clock, Costs(w, before, t), k) == if r.Killed? then None else Some(now)
    ensures Completes(disk, clock, Costs(w, before, t), k) <==>
            Completes(disk, clock, Costs(w, before, t), k + 1) && r.Ok?
  {
    WentFrame(disk, w, clock, before, was, after, t, k, k + 1);
    TakenTurns(disk, w, clock, at, now, Costs(w, before, t), k, View(was, k), View(after, k),
               t.endpoints[k].hadTarget, r);
  }

  lemma {:induction false} TakenTurns<C(!new)>(disk: Disk<C>, w: Way<C>, clock: nat, at: nat, now: nat,
                                               costs: seq<nat>, k: nat, was: Slots<C>, s: Slots<C>, had: bool,
                                               r: Result)
    requires k < |costs| && costs[k] == Steps(w, was, had) && Turn(disk, clock, costs, k + 1) == Some(at)
    requires Taken(disk, w, at, now, was, s, had, r)
    ensures Turn(disk, clock, costs, k) == if r.Killed? then None else Some(now)
    ensures Completes(disk, clock, costs, k) <==> Completes(disk, clock, costs, k + 1) && r.Ok?
    ensures s == Undone(w, was, had, Progress(disk, clock, costs, k))
  {
    ThroughStops(disk, at, costs[k]);
  }

  /** After a kill nothing moves. */
  lemma {:induction false} WentNoFurther<C(!new)>(disk: Disk<C>, w: Way<C>, clock: nat, before: map<Path, C>,
                                         after: map<Path, C>, t: Record, k: nat)
    requires k <= |t.endpoints| && Went(disk, w, clock, before, after, t, k)
    requires Turn(disk, clock, Costs(w, before, t), k).None?
             && forall i: nat | i < k :: View(after, i) == View(before, i)
    ensures Went(disk, w, clock, before, after, t, 0) && !Completes(disk, clock, Costs(w, before, t), 0)
  {
    TurnsEnd(disk, clock, Costs(w, before, t), k);
    forall i: nat | i < |t.endpoints|
      ensures Gone(disk, w, clock, before, after, t, i)
    {
      if k <= i {
        WentAt(disk, w, clock, before, after, t, k, i);
      }
    }
    WentAll(disk, w, clock, before, after, t, 0);
  }

  /** The endpoints from `k` on are rolled back, and the next has its turn now. */
  ghost predicate GoneTo<C(!new)>(disk: Disk<C>, w: Way<C>, clock: nat, now: nat, before: map<Path, C>,
                                  after: map<Path, C>, t: Record, k: nat)
    requires k <= |t.endpoints|
  {
    Went(disk, w, clock, before, after, t, k) && Turn(disk, clock, Costs(w, before, t), k) == Some(now)
  }

  lemma {:induction false} OneGone<C(!new)>(disk: Disk<C>, w: Way<C>, clock: nat, at: nat, now: nat,
                                            start: map<Path, C>, was: map<Path, C>, after: map<Path, C>, t: Record,
                                            k: nat, done: bool, r: Result)
    requires Counts(w) && k < |t.endpoints| && RollingBack(start, was, t, k + 1, done) && Only(was, after, k)
    requires Taken(disk, w, at, now, View(was, k), View(after, k), t.endpoints[k].hadTarget, r)
    requires r.Ok? ==> Restorable(View(was, k), t.endpoints[k].hadTarget)
    requires AllRestorable(start, t) ==> GoneTo(disk, w, clock, at, start, was, t, k + 1)
    ensures RollingBack(start, after, t, k, done && r.Ok?) && (!r.Ok? ==> now > at && r == disk.Outcome(now - 1))
    ensures AllRestorable(start, t) ==>
              && Went(disk, w, clock, start, after, t, k)
              && Turn(disk, clock, Costs(w, start, t), k) == (if r.Killed? then None else Some(now))
              && (Completes(disk, clock, Costs(w, start, t), k) <==>
                  Completes(disk, clock, Costs(w, start, t), k + 1) && r.Ok?)
  {
    TakenRestores(disk, w, at, now, View(was, k), View(after, k), t.endpoints[k].hadTarget, r);
    if AllRestorable(start, t) {
      WentOn(disk, w, clock, at, now, start, was, after, t, k, r);
    }
    OneRolledBack(start, was, after, t, k, done, r.Ok?);
  }

  /** What an endpoint's turn comes to: an exit if there is nothing to restore it from. */
  ghost predicate Turned<C>(disk: Disk<C>, w: Way<C>, at: nat, now: nat, was: Slots<C>, s: Slots<C>, had: bool,
                            r: Result) {
    if r.Exited? then s == was && now == at && !Restorable(was, had)
    else Taken(disk, w, at, now, was, s, had, r) && Restorable(was, had)
  }

  lemma {:induction false} OneTurn<C(!new)>(disk: Disk<C>, w: Way<C>, clock: nat, at: nat, now: nat,
                                            start: map<Path, C>, was: map<Path, C>, after: map<Path, C>, t: Record,
                                            k: nat, done: bool, r: Result)
    requires Counts(w) && k < |t.endpoints| && RollingBack(start, was, t, k + 1, done) && Only(was, after, k)
    requires Turned(disk, w, at, now, View(was, k), View(after, k), t.endpoints[k].hadTarget, r)
    requires AllRestorable(start, t) ==> GoneTo(disk, w, clock, at, start, was, t, k + 1)
    ensures RollingBack(start, after, t, k, done && r.Ok?)
    ensures if r.Ok? || r.Exited? then now >= at else now > at && r == disk.Outcome(now - 1)
    ensures AllRestorable(start, t) ==>
              && Went(disk, w, clock, start, after, t, k) && !r.Exited?
              && Turn(disk, clock, Costs(w, start, t), k) == (if r.Killed? then None else Some(now))
              && (Completes(disk, clock, Costs(w, start, t), k) <==>
                  Completes(disk, clock, Costs(w, start, t), k + 1) && r.Ok?)
  {
    if r.Exited? {
      OneRolledBack(start, was, after, t, k, done, false);
    } else {
      OneGone(disk, w, clock, at, now, start, was, after, t, k, done, r);
    }
  }

  /** A rollback cut short by a kill. */
  lemma {:induction false} CutShort<C(!new)>(disk: Disk<C>, w: Way<C>, clock: nat, before: map<Path, C>,
                                             after: map<Path, C>, t: Record, k: nat)
    requires k <= |t.endpoints| && RollingBack(before, after, t, k, false)
    ensures RollingBack(before, after, t, 0, false)
    ensures Went(disk, w, clock, before, after, t, k) && Turn(disk, clock, Costs(w, before, t), k).None? ==>
              && Went(disk, w, clock, before, after, t, 0) && !Completes(disk, clock, Costs(w, before, t), 0)
  {
    RollingBackAny(before, after, t, k, false);
    if Went(disk, w, clock, before, after, t, k) && Turn(disk, clock, Costs(w, before, t), k).None? {
      WentNoFurther(disk, w, clock, before, after, t, k);
    }
  }

  // ---- a committed transaction anew ----

  /** Files in which the present targets are still staged, over old ones where there were some. */
  lemma {:induction false} StagedAnew<C>(files: map<Path, C>, t: Record) returns (anew: map<Path, C>)
    requires forall i: nat | i < |t.endpoints| :: At(i, Target) in files
    ensures Outside(anew) == Outside(files)
    ensures forall i: nat | i < |t.endpoints| ::
              View(anew, i) ==
              Slots(if t.endpoints[i].hadTarget then View(files, i).target else None, View(files, i).target, None)
  {
    var n := |t.endpoints|;
    var staged := map i: nat | i < n :: At(i, Stage) := files[At(i, Target)];
    var old' := map i: nat | i < n && t.endpoints[i].hadTarget :: At(i, Target) := files[At(i, Target)];
    anew := staged + old' + Outside(files);
  }
}
