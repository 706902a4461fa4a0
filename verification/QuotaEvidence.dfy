/** src/codex_workbench/acceptance.py: the verdicts on five-hour and weekly quota evidence.
    Times are counted in microseconds. */
module QuotaEvidence {
  import opened Options

  /** A floating point number, up to rounding. */
  datatype Number = NaN | NegativeInfinity | Finite(value: real) | PositiveInfinity

  /** The order of floating point numbers: none with a NaN. */
  predicate Less(a: Number, b: Number) {
    match (a, b)
    case (Finite(x), Finite(y)) => x < y
    case (NegativeInfinity, Finite(_)) => true
    case (NegativeInfinity, PositiveInfinity) => true
    case (Finite(_), PositiveInfinity) => true
    case _ => false
  }

  datatype Window = Window(id: string)
  datatype Field = Missing | Unreadable | Read(number: Number)

  /** What the checks read of a stored snapshot. A missing or empty window id is `None`, and
      so is a missing or unreadable time. */
  datatype Snapshot = Snapshot(compatible: bool, window: Option<Window>, observedAt: Option<int>, remaining: seq<Field>)
  datatype Sample = Sample(window: Window, at: int, values: seq<Number>)

  const HOUR := 3_600_000_000
  const FIVE_HOUR_SPAN := 4 * HOUR
  const FIVE_HOUR_GAP := HOUR / 2
  const WEEKLY_SPAN := 6 * 24 * HOUR
  const WEEKLY_GAP := 12 * HOUR
  const RESERVE := Finite(20.0)

  predicate Usable(s: Snapshot) {
    && s.compatible && s.window.Some? && s.observedAt.Some?
    && forall k | 0 <= k < |s.remaining| :: s.remaining[k].Read?
  }

  function SampleOf(s: Snapshot): Sample
    requires Usable(s)
  {
    Sample(s.window.value, s.observedAt.value,
           seq(|s.remaining|, k requires 0 <= k < |s.remaining| => s.remaining[k].number))
  }

  function Samples(quota: seq<Snapshot>): seq<Sample> {
    if quota == [] then []
    else
      var last := quota[|quota| - 1];
      Samples(quota[..|quota| - 1]) + if Usable(last) then [SampleOf(last)] else []
  }

  function OfWindow(samples: seq<Sample>, w: Window): (r: seq<Sample>)
    ensures forall k | 0 <= k < |r| :: r[k].window == w
  {
    if samples == [] then []
    else
      var last := samples[|samples| - 1];
      OfWindow(samples[..|samples| - 1], w) + if last.window == w then [last] else []
  }

  /** Puts a sample behind all that are not later. */
  function Insert(sorted: seq<Sample>, s: Sample): seq<Sample> {
    if sorted == [] || sorted[|sorted| - 1].at <= s.at then sorted + [s]
    else Insert(sorted[..|sorted| - 1], s) + [sorted[|sorted| - 1]]
  }

  /** A stable sort by time. */
  function SortByTime(samples: seq<Sample>): seq<Sample> {
    if samples == [] then [] else Insert(SortByTime(samples[..|samples| - 1]), samples[|samples| - 1])
  }

  predicate Rises(previous: seq<Number>, current: seq<Number>) {
    exists k | 0 <= k < |previous| && k < |current| :: Less(previous[k], current[k])
  }

  predicate Increases(samples: seq<Sample>) {
    exists k | 0 <= k < |samples| - 1 :: Rises(samples[k].values, samples[k + 1].values)
  }

  predicate Covered(samples: seq<Sample>, span: int, gap: int) {
    && |samples| >= 2 && samples[|samples| - 1].at - samples[0].at >= span
    && forall k | 0 <= k < |samples| - 1 :: samples[k + 1].at - samples[k].at <= gap
  }

  function Windows(samples: seq<Sample>): set<Window> {
    set k | 0 <= k < |samples| :: samples[k].window
  }

  /** The windows with evidence, each with its samples in order. */
  function Coverage(samples: seq<Sample>): map<Window, seq<Sample>> {
    map w | w in Windows(samples) && !Increases(SortByTime(OfWindow(samples, w))) :: SortByTime(OfWindow(samples, w))
  }

  function CoveredWindows(samples: seq<Sample>, span: int, gap: int): set<Window> {
    set w | w in Coverage(samples) && Covered(Coverage(samples)[w], span, gap)
  }

  /** All values, sample by sample. */
  function Values(samples: seq<Sample>): seq<Number> {
    if samples == [] then [] else Values(samples[..|samples| - 1]) + samples[|samples| - 1].values
  }

  /** `min`: the first value, unless a later one is less. */
  function Minimum(values: seq<Number>): Option<Number> {
    if values == [] then None
    else
      var last := values[|values| - 1];
      match Minimum(values[..|values| - 1])
      case None => Some(last)
      case Some(m) => Some(if Less(last, m) then last else m)
  }

  datatype Verdict = Error | Pending | Ok

  function Check(quota: seq<Snapshot>, windows: nat, span: int, gap: int): Verdict {
    var samples := Samples(quota);
    var minimum := Minimum(Values(samples));
    if minimum.Some? && Less(minimum.value, RESERVE) then Error
    else if |CoveredWindows(samples, span, gap)| < windows then Pending
    else Ok
  }

  function FiveHourCheck(quota: seq<Snapshot>): Verdict {
    Check(quota, 2, FIVE_HOUR_SPAN, FIVE_HOUR_GAP)
  }

  function WeeklyCheck(quota: seq<Snapshot>): Verdict {
    Check(quota, 1, WEEKLY_SPAN, WEEKLY_GAP)
  }

  lemma LessTransitive(a: Number, b: Number, c: Number)
    ensures Less(a, b) && Less(b, c) ==> Less(a, c)
    ensures Less(a, b) && c != NaN ==> Less(a, c) || Less(c, b)
  {
  }

  /** The minimum is below a limit exactly when the first value is a number, and some value is
      below: a NaN in front hides all others. */
  lemma {:induction false} MinimumBelow(values: seq<Number>, limit: Number)
    requires limit != NaN
    ensures Minimum(values).Some? <==> values != []
    ensures Minimum(values).Some? ==> (Minimum(values).value == NaN <==> values[0] == NaN)
    ensures Minimum(values).Some? && Less(Minimum(values).value, limit) <==>
            values != [] && values[0] != NaN && exists k | 0 <= k < |values| :: Less(values[k], limit)
  {
    if values != [] {
      var last, rest := values[|values| - 1], values[..|values| - 1];
      MinimumBelow(rest, limit);
      if rest != [] {
        var m := Minimum(rest).value;
        LessTransitive(last, m, limit);
        LessTransitive(last, limit, m);
        assert rest[0] == values[0];
        if m != NaN && exists k | 0 <= k < |values| :: Less(values[k], limit) {
          var k :| 0 <= k < |values| && Less(values[k], limit);
          assert k < |rest| ==> Less(rest[k], limit);
        }
        if m != NaN && Less(m, limit) {
          var k :| 0 <= k < |rest| && Less(rest[k], limit);
          assert Less(values[k], limit);
        }
      }
    }
  }

  predicate Sorted(samples: seq<Sample>) {
    forall i, j | 0 <= i < j < |samples| :: samples[i].at <= samples[j].at
  }

  lemma {:induction false} InsertKeeps(sorted: seq<Sample>, s: Sample)
    ensures multiset(Insert(sorted, s)) == multiset(sorted) + multiset{s}
  {
    if sorted != [] && sorted[|sorted| - 1].at > s.at {
      var rest, last := sorted[..|sorted| - 1], sorted[|sorted| - 1];
      assert sorted == rest + [last];
      InsertKeeps(rest, s);
    }
  }

  predicate UpTo(samples: seq<Sample>, at: int) {
    forall k | 0 <= k < |samples| :: samples[k].at <= at
  }

  lemma {:induction false} InsertSorts(sorted: seq<Sample>, s: Sample, latest: int)
    requires Sorted(sorted) && UpTo(sorted, latest) && s.at <= latest
    ensures Sorted(Insert(sorted, s)) && UpTo(Insert(sorted, s), latest)
  {
    if sorted != [] && sorted[|sorted| - 1].at > s.at {
      InsertSorts(sorted[..|sorted| - 1], s, sorted[|sorted| - 1].at);
    }
  }

  lemma {:induction false} SortKeeps(samples: seq<Sample>)
    ensures multiset(SortByTime(samples)) == multiset(samples) && |SortByTime(samples)| == |samples|
  {
    if samples != [] {
      var rest, last := samples[..|samples| - 1], samples[|samples| - 1];
      assert samples == rest + [last];
      SortKeeps(rest);
      InsertKeeps(SortByTime(rest), last);
      assert |multiset(SortByTime(samples))| == |samples|;
    }
  }

  /** The samples of a window are put in order, none lost. */
  lemma {:induction false} SortSorts(samples: seq<Sample>)
    ensures Sorted(SortByTime(samples)) && multiset(SortByTime(samples)) == multiset(samples)
    ensures |SortByTime(samples)| == |samples|
  {
    SortKeeps(samples);
    if samples != [] {
      var rest, last := samples[..|samples| - 1], samples[|samples| - 1];
      SortSorts(rest);
      var sorted := SortByTime(rest);
      var latest := if sorted == [] || sorted[|sorted| - 1].at <= last.at then last.at else sorted[|sorted| - 1].at;
      InsertSorts(sorted, last, latest);
    }
  }

  /** A span covered in steps of at most `gap` needs one sample more than the gaps it takes. */
  lemma {:induction false} StepsCover(samples: seq<Sample>, gap: int)
    requires samples != [] && forall k | 0 <= k < |samples| - 1 :: samples[k + 1].at - samples[k].at <= gap
    ensures samples[|samples| - 1].at - samples[0].at <= (|samples| - 1) * gap
  {
    if |samples| > 1 {
      var rest := samples[..|samples| - 1];
      StepsCover(rest, gap);
      assert samples[|samples| - 1].at - rest[|rest| - 1].at <= gap;
      assert (|samples| - 1) * gap == (|rest| - 1) * gap + gap;
    }
  }

  lemma CoverTakesSamples(samples: seq<Sample>, span: int, gap: int, steps: int)
    requires Covered(samples, span, gap) && gap > 0 && steps * gap <= span
    ensures |samples| > steps
  {
    StepsCover(samples, gap);
    if |samples| <= steps {
      Scaled(|samples| - 1, steps - 1, gap);
    }
  }

  lemma Scaled(n: int, m: int, gap: int)
    requires n <= m && gap > 0
    ensures n * gap <= m * gap == (m + 1) * gap - gap
  {
  }

  /** Where no step rises, no number later exceeds one earlier, as long as there is no NaN. */
  lemma {:induction false} NeverRises(samples: seq<Sample>, i: nat, j: nat, f: nat)
    requires !Increases(samples) && i <= j < |samples|
    requires forall k | i <= k <= j :: f < |samples[k].values| && samples[k].values[f] != NaN
    ensures !Less(samples[i].values[f], samples[j].values[f])
  {
    if i < j {
      NeverRises(samples, i, j - 1, f);
      assert !Rises(samples[j - 1].values, samples[j].values);
      LessTransitive(samples[i].values[f], samples[j].values[f], samples[j - 1].values[f]);
    }
  }

  /** What a window must show: `least` samples, in order, none far from the next, and no rise. */
  ghost predicate Evidence(quota: seq<Snapshot>, w: Window, span: int, gap: int, least: nat) {
    exists ordered: seq<Sample> ::
      && multiset(ordered) == multiset(OfWindow(Samples(quota), w)) && Sorted(ordered)
      && |ordered| >= least && Covered(ordered, span, gap) && !Increases(ordered)
  }

  /** A verdict is an error exactly when the first value is a number and some value is below
      the reserve, whatever the coverage. */
  lemma ErrorMeans(quota: seq<Snapshot>, windows: nat, span: int, gap: int)
    ensures var values := Values(Samples(quota));
            Check(quota, windows, span, gap) == Error <==>
            values != [] && values[0] != NaN && exists k | 0 <= k < |values| :: Less(values[k], RESERVE)
  {
    MinimumBelow(Values(Samples(quota)), RESERVE);
  }

  lemma CoveredIsEvidence(quota: seq<Snapshot>, w: Window, span: int, gap: int, steps: nat)
    requires w in CoveredWindows(Samples(quota), span, gap) && gap > 0 && steps * gap <= span
    ensures Evidence(quota, w, span, gap, steps + 1)
  {
    var ordered := SortByTime(OfWindow(Samples(quota), w));
    SortSorts(OfWindow(Samples(quota), w));
    CoverTakesSamples(ordered, span, gap, steps);
  }

  /** What any ok verdict rests on. */
  lemma OkMeans(quota: seq<Snapshot>, windows: nat, span: int, gap: int, steps: nat)
    requires Check(quota, windows, span, gap) == Ok && gap > 0 && steps * gap <= span
    ensures |CoveredWindows(Samples(quota), span, gap)| >= windows
    ensures forall w | w in CoveredWindows(Samples(quota), span, gap) :: Evidence(quota, w, span, gap, steps + 1)
    ensures ReserveKept(Values(Samples(quota)))
  {
    ErrorMeans(quota, windows, span, gap);
    forall w | w in CoveredWindows(Samples(quota), span, gap)
      ensures Evidence(quota, w, span, gap, steps + 1)
    {
      CoveredIsEvidence(quota, w, span, gap, steps);
    }
  }

  /** The samples of a window, in order of time, cover the span and never rise. */
  predicate Shows(samples: seq<Sample>, w: Window, span: int, gap: int) {
    var ordered := SortByTime(OfWindow(samples, w));
    Covered(ordered, span, gap) && !Increases(ordered)
  }

  /** A verdict that is no error is ok exactly if that many windows show what they must. */
  lemma OkExactly(quota: seq<Snapshot>, windows: nat, span: int, gap: int)
    requires Check(quota, windows, span, gap) != Error
    ensures Check(quota, windows, span, gap) == Ok <==>
            exists s: set<Window> :: |s| >= windows && forall w | w in s :: Shows(Samples(quota), w, span, gap)
  {
    var samples := Samples(quota);
    var covered := CoveredWindows(samples, span, gap);
    assert forall w | w in covered :: Shows(samples, w, span, gap);
    forall s: set<Window> | |s| >= windows && forall w | w in s :: Shows(samples, w, span, gap)
      ensures |covered| >= windows
    {
      forall w | w in s
        ensures w in covered
      {
        ShownIsCovered(samples, w, span, gap);
      }
      Within(s, covered);
    }
  }

  lemma ShownIsCovered(samples: seq<Sample>, w: Window, span: int, gap: int)
    requires Shows(samples, w, span, gap)
    ensures w in CoveredWindows(samples, span, gap)
  {
    if w !in Windows(samples) {
      NoneOfWindow(samples, w);
    }
  }

  lemma {:induction false} Within<T>(s: set<T>, t: set<T>)
    requires s <= t
    ensures |s| <= |t|
  {
    if s != {} {
      var x :| x in s;
      Within(s - {x}, t - {x});
    }
  }

  /** No value is below the reserve, unless the first is a NaN. */
  predicate ReserveKept(values: seq<Number>) {
    values != [] && values[0] != NaN ==> forall k | 0 <= k < |values| :: !Less(values[k], RESERVE)
  }

  lemma TwoOf<T>(s: set<T>) returns (v: T, w: T)
    requires |s| >= 2
    ensures v in s && w in s && v != w
  {
    v :| v in s;
    assert |s - {v}| > 0;
    w :| w in s - {v};
  }

  /** `a <= b`; never with a NaN. */
  predicate AtMost(a: Number, b: Number) {
    a != NaN && b != NaN && !Less(b, a)
  }

  predicate InRange(n: Number) {
    AtMost(Finite(0.0), n) && AtMost(n, Finite(100.0))
  }

  /** src/codex_workbench/model.py, `QuotaSnapshot.validate`, of the remaining percentages. */
  predicate Validated(s: Snapshot) {
    forall k | 0 <= k < |s.remaining| ::
      s.remaining[k].Missing? || (s.remaining[k].Read? && InRange(s.remaining[k].number))
  }

  /** The ledger after these calls of `write_quota`, its only writer. */
  function Ledger(writes: seq<Snapshot>): seq<Snapshot> {
    if writes == [] then []
    else
      var last := writes[|writes| - 1];
      Ledger(writes[..|writes| - 1]) + if Validated(last) then [last] else []
  }

  /** Snapshots that the ledger holds, read for `fields` remaining percentages. */
  ghost predicate Stored(quota: seq<Snapshot>, fields: nat) {
    && (exists writes :: forall s | s in quota :: s in Ledger(writes))
    && forall s | s in quota :: |s.remaining| == fields
  }

  lemma {:induction false} LedgerValidated(writes: seq<Snapshot>)
    ensures forall s | s in Ledger(writes) :: Validated(s)
  {
    if writes != [] {
      LedgerValidated(writes[..|writes| - 1]);
    }
  }

  predicate Bounded(s: Sample, fields: nat) {
    |s.values| == fields && forall f | 0 <= f < fields :: InRange(s.values[f])
  }

  lemma {:induction false} SamplesBounded(quota: seq<Snapshot>, fields: nat)
    requires forall s | s in quota :: Validated(s) && |s.remaining| == fields
    ensures forall s | s in Samples(quota) :: Bounded(s, fields)
  {
    if quota != [] {
      var rest, last := quota[..|quota| - 1], quota[|quota| - 1];
      assert last in quota && forall s | s in rest :: s in quota;
      SamplesBounded(rest, fields);
    }
  }

  lemma StoredBounded(quota: seq<Snapshot>, fields: nat)
    requires Stored(quota, fields)
    ensures forall s | s in Samples(quota) :: Bounded(s, fields)
  {
    var writes :| forall s | s in quota :: s in Ledger(writes);
    LedgerValidated(writes);
    SamplesBounded(quota, fields);
  }

  lemma {:induction false} OfWindowIn(samples: seq<Sample>, w: Window)
    ensures forall s | s in OfWindow(samples, w) :: s in samples
  {
    if samples != [] {
      OfWindowIn(samples[..|samples| - 1], w);
    }
  }

  lemma {:induction false} ValuesBounded(samples: seq<Sample>, fields: nat)
    requires forall s | s in samples :: Bounded(s, fields)
    ensures forall v | v in Values(samples) :: InRange(v)
  {
    if samples != [] {
      var rest := samples[..|samples| - 1];
      assert forall s | s in rest :: s in samples;
      ValuesBounded(rest, fields);
      assert samples[|samples| - 1] in samples;
    }
  }

  /** Every sample value is at least the reserve. */
  predicate AboveReserve(samples: seq<Sample>) {
    forall v | v in Values(samples) :: AtMost(RESERVE, v)
  }

  /** No field ever rises from one sample to any later one. */
  predicate Steady(ordered: seq<Sample>, fields: nat) {
    forall i, j, f | 0 <= i <= j < |ordered| && 0 <= f < fields && f < |ordered[i].values| && f < |ordered[j].values| ::
      AtMost(ordered[j].values[f], ordered[i].values[f])
  }

  /** Evidence of a window, with all its samples in an order of time in which nothing rises. */
  ghost predicate SteadyEvidence(quota: seq<Snapshot>, w: Window, span: int, gap: int, least: nat, fields: nat) {
    exists ordered: seq<Sample> ::
      && multiset(ordered) == multiset(OfWindow(Samples(quota), w)) && Sorted(ordered)
      && |ordered| >= least && Covered(ordered, span, gap) && Steady(ordered, fields)
  }

  lemma BoundedSteady(ordered: seq<Sample>, fields: nat)
    requires !Increases(ordered) && forall s | s in ordered :: Bounded(s, fields)
    ensures Steady(ordered, fields)
  {
    forall i, j, f | 0 <= i <= j < |ordered| && 0 <= f < fields && f < |ordered[i].values| && f < |ordered[j].values|
      ensures AtMost(ordered[j].values[f], ordered[i].values[f])
    {
      forall k | i <= k <= j
        ensures f < |ordered[k].values| && ordered[k].values[f] != NaN
      {
        assert ordered[k] in ordered;
      }
      NeverRises(ordered, i, j, f);
    }
  }

  lemma EvidenceSteady(quota: seq<Snapshot>, w: Window, span: int, gap: int, least: nat, fields: nat)
    requires Stored(quota, fields) && Evidence(quota, w, span, gap, least)
    ensures SteadyEvidence(quota, w, span, gap, least, fields)
  {
    var mine := OfWindow(Samples(quota), w);
    var ordered: seq<Sample> :|
      && multiset(ordered) == multiset(mine) && Sorted(ordered)
      && |ordered| >= least && Covered(ordered, span, gap) && !Increases(ordered);
    StoredBounded(quota, fields);
    OfWindowIn(Samples(quota), w);
    forall s | s in ordered
      ensures Bounded(s, fields)
    {
      assert s in multiset(ordered);
      assert s in mine;
    }
    BoundedSteady(ordered, fields);
  }

  lemma ReserveAlwaysKept(quota: seq<Snapshot>, fields: nat)
    requires Stored(quota, fields) && ReserveKept(Values(Samples(quota)))
    ensures AboveReserve(Samples(quota))
  {
    var values := Values(Samples(quota));
    StoredBounded(quota, fields);
    ValuesBounded(Samples(quota), fields);
    forall v | v in values
      ensures AtMost(RESERVE, v)
    {
      assert values[0] in values;
      var k :| 0 <= k < |values| && values[k] == v;
    }
  }

  /** Of stored snapshots, any value below the reserve is an error, and nothing else is. */
  lemma StoredErrorMeans(quota: seq<Snapshot>, windows: nat, span: int, gap: int, fields: nat)
    requires Stored(quota, fields)
    ensures Check(quota, windows, span, gap) == Error <==> !AboveReserve(Samples(quota))
  {
    var values := Values(Samples(quota));
    ErrorMeans(quota, windows, span, gap);
    StoredBounded(quota, fields);
    ValuesBounded(Samples(quota), fields);
    if Check(quota, windows, span, gap) == Error {
      var k :| 0 <= k < |values| && Less(values[k], RESERVE);
      assert values[k] in values;
    } else {
      ReserveAlwaysKept(quota, fields);
    }
  }

  /** An ok five-hour verdict: two windows with nine samples each, and nothing below the reserve. */
  lemma FiveHourOk(quota: seq<Snapshot>)
    requires FiveHourCheck(quota) == Ok && Stored(quota, 1)
    ensures exists v, w :: v != w && SteadyEvidence(quota, v, FIVE_HOUR_SPAN, FIVE_HOUR_GAP, 9, 1)
                           && SteadyEvidence(quota, w, FIVE_HOUR_SPAN, FIVE_HOUR_GAP, 9, 1)
    ensures AboveReserve(Samples(quota))
  {
    OkMeans(quota, 2, FIVE_HOUR_SPAN, FIVE_HOUR_GAP, 8);
    var v, w := TwoOf(CoveredWindows(Samples(quota), FIVE_HOUR_SPAN, FIVE_HOUR_GAP));
    EvidenceSteady(quota, v, FIVE_HOUR_SPAN, FIVE_HOUR_GAP, 9, 1);
    EvidenceSteady(quota, w, FIVE_HOUR_SPAN, FIVE_HOUR_GAP, 9, 1);
    ReserveAlwaysKept(quota, 1);
  }

  /** An ok weekly verdict: a window with thirteen samples, and nothing below the reserve. */
  lemma WeeklyOk(quota: seq<Snapshot>)
    requires WeeklyCheck(quota) == Ok && Stored(quota, 2)
    ensures exists w :: SteadyEvidence(quota, w, WEEKLY_SPAN, WEEKLY_GAP, 13, 2)
    ensures AboveReserve(Samples(quota))
  {
    OkMeans(quota, 1, WEEKLY_SPAN, WEEKLY_GAP, 12);
    var w :| w in CoveredWindows(Samples(quota), WEEKLY_SPAN, WEEKLY_GAP);
    EvidenceSteady(quota, w, WEEKLY_SPAN, WEEKLY_GAP, 13, 2);
    ReserveAlwaysKept(quota, 2);
  }

  /** The check alone would not do: it relies on the ledger for numbers. With a NaN in front,
      which the ledger never holds, a value below the reserve is no error. */
  lemma NaNHides() returns (quota: seq<Snapshot>)
    ensures |Values(Samples(quota))| == 2 && Less(Values(Samples(quota))[1], RESERVE)
    ensures FiveHourCheck(quota) != Error
  {
    var hidden := Snapshot(true, Some(Window("w")), Some(0), [Read(NaN)]);
    var low := Snapshot(true, Some(Window("w")), Some(1), [Read(Finite(1.0))]);
    quota := [hidden, low];
    TwoSamples(hidden, low);
    TwoValues(SampleOf(hidden), SampleOf(low));
    var values := Values(Samples(quota));
    assert values[0] == NaN && Less(values[1], RESERVE);
    ErrorMeans(quota, 2, FIVE_HOUR_SPAN, FIVE_HOUR_GAP);
  }

  lemma TwoSamples(a: Snapshot, b: Snapshot)
    requires Usable(a) && Usable(b)
    ensures Samples([a, b]) == [SampleOf(a), SampleOf(b)]
  {
    assert [a, b][..1] == [a] && [a][..0] == [];
    assert Samples([]) == [] && Samples([a]) == [SampleOf(a)];
  }

  lemma TwoValues(a: Sample, b: Sample)
    ensures Values([a, b]) == a.values + b.values
  {
    assert [a, b][..1] == [a] && [a][..0] == [];
    assert Values([]) == [] && Values([a]) == [] + a.values == a.values;
  }

  /** The loop of `_quota_samples`. */
  method QuotaSamples(quota: seq<Snapshot>) returns (samples: seq<Sample>)
    ensures samples == Samples(quota)
  {
    samples := [];
    for i := 0 to |quota|
      invariant samples == Samples(quota[..i])
    {
      assert quota[..i + 1][..i] == quota[..i];
      if Usable(quota[i]) {
        samples := samples + [SampleOf(quota[i])];
      }
    }
    assert quota[..|quota|] == quota;
  }

  function Grouped(samples: seq<Sample>): map<Window, seq<Sample>> {
    map w | w in Windows(samples) :: OfWindow(samples, w)
  }

  /** The first loop of `_quota_coverage`. */
  method GroupByWindow(samples: seq<Sample>) returns (windows: map<Window, seq<Sample>>)
    ensures windows == Grouped(samples)
  {
    windows := map[];
    for i := 0 to |samples|
      invariant windows == Grouped(samples[..i])
    {
      var s := samples[i];
      GroupedMore(samples, i);
      windows := windows[s.window := (if s.window in windows then windows[s.window] else []) + [s]];
    }
    assert samples[..|samples|] == samples;
  }

  lemma GroupedMore(samples: seq<Sample>, i: nat)
    requires i < |samples|
    ensures var before, w := Grouped(samples[..i]), samples[i].window;
            Grouped(samples[..i + 1]) == before[w := (if w in before then before[w] else []) + [samples[i]]]
  {
    GroupGrows(samples, i);
    var before, after, w := Grouped(samples[..i]), Grouped(samples[..i + 1]), samples[i].window;
    assert after.Keys == before.Keys + {w};
    forall v | v in after && v != w
      ensures v in before && after[v] == before[v]
    {
      assert OfWindow(samples[..i], v) + [] == OfWindow(samples[..i], v);
    }
  }

  /** `_quota_coverage`: groups the samples by window, sorts each group, and drops those that
      show a rise. */
  method QuotaCoverage(quota: seq<Snapshot>) returns (coverage: map<Window, seq<Sample>>)
    ensures coverage == Coverage(Samples(quota))
  {
    var samples := QuotaSamples(quota);
    var windows := GroupByWindow(samples);
    var sorted := map w | w in windows :: SortByTime(windows[w]);
    coverage := map w | w in sorted && !Increases(sorted[w]) :: sorted[w];
  }

  lemma GroupGrows(samples: seq<Sample>, i: nat)
    requires i < |samples|
    ensures Windows(samples[..i + 1]) == Windows(samples[..i]) + {samples[i].window}
    ensures forall w :: OfWindow(samples[..i + 1], w) ==
                        OfWindow(samples[..i], w) + if samples[i].window == w then [samples[i]] else []
    ensures samples[i].window !in Windows(samples[..i]) ==> OfWindow(samples[..i], samples[i].window) == []
  {
    var before, after := samples[..i], samples[..i + 1];
    assert after[..i] == before && after == before + [samples[i]];
    forall w | w in Windows(after)
      ensures w in Windows(before) + {samples[i].window}
    {
      var k :| 0 <= k < |after| && after[k].window == w;
      assert k < i ==> before[k].window == w;
    }
    forall w | w in Windows(before)
      ensures w in Windows(after)
    {
      var k :| 0 <= k < |before| && before[k].window == w;
      assert after[k].window == w;
    }
    assert after[i].window == samples[i].window;
    if samples[i].window !in Windows(before) {
      NoneOfWindow(before, samples[i].window);
    }
  }

  lemma {:induction false} NoneOfWindow(samples: seq<Sample>, w: Window)
    requires w !in Windows(samples)
    ensures OfWindow(samples, w) == []
  {
    if samples != [] {
      var rest := samples[..|samples| - 1];
      assert forall k | 0 <= k < |rest| :: rest[k].window == samples[k].window;
      assert w !in Windows(rest);
      NoneOfWindow(rest, w);
    }
  }
}
