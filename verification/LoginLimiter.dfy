/** src/codex_workbench/api.py: the sliding-window limit on failed logins and its bounded,
    least-recently-touched table of addresses. Times are exact reals. */
module LoginLimiter {
  import opened Options

  const WINDOW := 60.0
  const LIMIT := 5
  const TRACKER_LIMIT := 256

  datatype Address = Address(text: string)

  /** The ordered dictionary: its keys, least recently touched first, and its deques. */
  datatype Table = Table(order: seq<Address>, deques: map<Address, seq<real>>)

  function Attempts(t: Table, a: Address): seq<real> {
    if a in t.deques then t.deques[a] else []
  }

  function Without(s: seq<Address>, a: Address): seq<Address> {
    if s == [] then [] else Without(s[..|s| - 1], a) + if s[|s| - 1] == a then [] else [s[|s| - 1]]
  }

  function MoveToEnd(t: Table, a: Address): Table {
    t.(order := Without(t.order, a) + [a])
  }

  function Remove(t: Table, a: Address): Table {
    if a !in t.deques then t else Table(Without(t.order, a), t.deques - {a})
  }

  function DropOld(d: seq<real>, now: real): seq<real> {
    if d != [] && d[0] <= now - WINDOW then DropOld(d[1..], now) else d
  }

  function Ceil(x: real): int {
    if x.Floor as real == x then x.Floor else x.Floor + 1
  }

  /** The table once what left the window is dropped for one address. */
  function Expire(t: Table, a: Address, now: real): Table {
    var d := DropOld(Attempts(t, a), now);
    if a !in t.deques then t else if d == [] then Remove(t, a) else t.(deques := t.deques[a := d])
  }

  function MakeRoom(t: Table): Table {
    if |t.order| >= TRACKER_LIMIT then Table(t.order[1..], t.deques - {t.order[0]}) else t
  }

  function RecordFailure(t: Table, a: Address, now: real): (Table, Option<int>) {
    var e := Expire(t, a, now);
    if |Attempts(e, a)| >= LIMIT then
      var wait := Ceil(Attempts(e, a)[0] + WINDOW - now);
      (MoveToEnd(e, a), Some(if wait < 1 then 1 else wait))
    else
      var f := if a in e.deques then e else MakeRoom(e);
      (MoveToEnd(f.(deques := f.deques[a := Attempts(f, a) + [now]]), a), None)
  }

  class Limiter {
    var order: seq<Address>
    var deques: map<Address, seq<real>>

    constructor ()
      ensures order == [] && deques == map[]
    {
      order, deques := [], map[];
    }

    method RecordFailedLogin(a: Address, now: real) returns (retryAfter: Option<int>)
      modifies this
      ensures (Table(order, deques), retryAfter) == RecordFailure(old(Table(order, deques)), a, now)
    {
      var attempts := if a in deques then deques[a] else [];
      while attempts != [] && attempts[0] <= now - WINDOW
        invariant DropOld(attempts, now) == DropOld(old(Attempts(Table(order, deques), a)), now)
        invariant order == old(order) && deques == old(deques)
      {
        attempts := attempts[1..];
      }
      if a in deques {
        if attempts == [] {
          order, deques := Without(order, a), deques - {a};
        } else {
          deques := deques[a := attempts];
        }
      }
      if |attempts| >= LIMIT {
        order := Without(order, a) + [a];
        var wait := Ceil(attempts[0] + WINDOW - now);
        return Some(if wait < 1 then 1 else wait);
      }
      if attempts == [] && |order| >= TRACKER_LIMIT {
        order, deques := order[1..], deques - {order[0]};
      }
      deques := deques[a := attempts + [now]];
      order := Without(order, a) + [a];
      return None;
    }

    method ClearLoginFailures(a: Address)
      modifies this
      ensures Table(order, deques) == Remove(old(Table(order, deques)), a)
    {
      if a in deques {
        order, deques := Without(order, a), deques - {a};
      }
    }
  }

  // ---- every run ----

  datatype Op = Failed(address: Address, now: real) | Cleared(address: Address)

  /** A run as seen by one arbitrary address: all its failures recorded since it was last
      evicted or cleared; when each address was last touched; the latest time. */
  datatype Watch = Watch(table: Table, history: seq<real>, touched: map<Address, nat>, ticks: nat, latest: real)

  function Step(w: Watch, watched: Address, op: Op): Watch {
    match op
    case Failed(a, now) =>
      var (t, refused) := RecordFailure(w.table, a, now);
      var history :=
        if a == watched then (if refused.None? then w.history + [now] else w.history)
        else if watched in w.table.deques && watched !in t.deques then []
        else w.history;
      Watch(t, history, w.touched[a := w.ticks], w.ticks + 1, now)
    case Cleared(a) =>
      w.(table := Remove(w.table, a), history := if a == watched then [] else w.history)
  }

  function Run(w: Watch, watched: Address, ops: seq<Op>): Watch
    decreases |ops|
  {
    if ops == [] then w else Run(Step(w, watched, ops[0]), watched, ops[1..])
  }

  /** The clock never goes back. */
  predicate Timely(latest: real, ops: seq<Op>)
    decreases |ops|
  {
    if ops == [] then true
    else match ops[0]
      case Failed(_, now) => latest <= now && Timely(now, ops[1..])
      case Cleared(_) => Timely(latest, ops[1..])
  }

  /** Five recorded failures later, at least 60 seconds have passed: no half-open window of
      that length holds more than five. */
  ghost predicate Limited(times: seq<real>) {
    forall i, j | 0 <= i && i + LIMIT <= j < |times| :: times[j] - times[i] >= WINDOW
  }

  /** The deque `d` holds the latest of the recorded failures `h`, which are limited; all
      earlier ones have left the window. */
  ghost predicate Tracks(h: seq<real>, d: seq<real>, latest: real) {
    && |d| <= LIMIT && |d| <= |h| && h[|h| - |d|..] == d
    && Limited(h)
    && (forall k: nat | k < |h| :: h[k] <= latest)
    && forall k: nat | k < |h| - |d| :: h[k] <= latest - WINDOW
  }

  /** Touched earlier, listed earlier. */
  ghost predicate OrderedBy(s: seq<Address>, touched: map<Address, nat>, ticks: nat) {
    && (forall i | 0 <= i < |s| :: s[i] in touched && touched[s[i]] < ticks)
    && forall i, j | 0 <= i < j < |s| :: touched[s[i]] < touched[s[j]]
  }

  function Elems(s: seq<Address>): set<Address> {
    set i | 0 <= i < |s| :: s[i]
  }

  ghost predicate Bounded(t: Table) {
    Elems(t.order) == t.deques.Keys && |t.order| <= TRACKER_LIMIT
  }

  ghost predicate Inv(w: Watch, watched: Address) {
    && Bounded(w.table)
    && OrderedBy(w.table.order, w.touched, w.ticks)
    && Tracks(w.history, Attempts(w.table, watched), w.latest)
  }

  // ---- the order of the table ----

  lemma ElemsAppend(s: seq<Address>, a: Address)
    ensures Elems(s + [a]) == Elems(s) + {a}
  {
    assert forall i | 0 <= i < |s| :: (s + [a])[i] == s[i];
    assert (s + [a])[|s|] == a;
  }

  lemma {:induction false} WithoutElems(s: seq<Address>, a: Address)
    ensures Elems(Without(s, a)) == Elems(s) - {a} && |Without(s, a)| <= |s|
    ensures a in Elems(s) ==> |Without(s, a)| < |s|
  {
    if s == [] {
      assert Elems(s) == {};
    } else {
      var rest := s[..|s| - 1];
      WithoutElems(rest, a);
      ElemsAppend(rest, s[|s| - 1]);
      ElemsAppend(Without(rest, a), s[|s| - 1]);
      assert s == rest + [s[|s| - 1]];
      assert Without(rest, a) + [] == Without(rest, a);
    }
  }

  lemma {:induction false} WithoutOrdered(s: seq<Address>, a: Address, touched: map<Address, nat>, ticks: nat)
    requires OrderedBy(s, touched, ticks)
    ensures OrderedBy(Without(s, a), touched, ticks)
    ensures forall i | 0 <= i < |Without(s, a)| :: Without(s, a)[i] in s
  {
    if s != [] {
      var rest, last := s[..|s| - 1], s[|s| - 1];
      WithoutOrdered(rest, a, touched, ticks);
      forall i | 0 <= i < |Without(rest, a)|
        ensures touched[Without(rest, a)[i]] < touched[last]
      {
        var j :| 0 <= j < |rest| && rest[j] == Without(rest, a)[i];
      }
    }
  }

  lemma MovedOrdered(s: seq<Address>, a: Address, touched: map<Address, nat>, ticks: nat)
    requires OrderedBy(s, touched, ticks)
    ensures OrderedBy(Without(s, a) + [a], touched[a := ticks], ticks + 1)
  {
    WithoutOrdered(s, a, touched, ticks);
    WithoutElems(s, a);
    var r := Without(s, a);
    forall i | 0 <= i < |r|
      ensures r[i] != a
    {
      assert r[i] in Elems(r);
    }
  }

  lemma OrderKept(w: Watch, watched: Address, op: Op)
    requires OrderedBy(w.table.order, w.touched, w.ticks)
    ensures OrderedBy(Step(w, watched, op).table.order, Step(w, watched, op).touched, Step(w, watched, op).ticks)
  {
    if op.Failed? {
      RecordedOrdered(w.table, op.address, op.now, w.touched, w.ticks);
    } else {
      WithoutOrdered(w.table.order, op.address, w.touched, w.ticks);
    }
  }

  lemma RecordedOrdered(t: Table, a: Address, now: real, touched: map<Address, nat>, ticks: nat)
    requires OrderedBy(t.order, touched, ticks)
    ensures OrderedBy(RecordFailure(t, a, now).0.order, touched[a := ticks], ticks + 1)
  {
    var e := Expire(t, a, now);
    WithoutOrdered(t.order, a, touched, ticks);
    MovedOrdered(e.order, a, touched, ticks);
    MovedOrdered(MakeRoom(e).order, a, touched, ticks);
  }

  lemma MakeRoomBounded(t: Table, touched: map<Address, nat>, ticks: nat)
    requires Bounded(t) && OrderedBy(t.order, touched, ticks)
    ensures Bounded(MakeRoom(t)) && |MakeRoom(t).order| < TRACKER_LIMIT
  {
    if |t.order| >= TRACKER_LIMIT {
      var first, rest := t.order[0], t.order[1..];
      assert forall i | 0 <= i < |rest| :: rest[i] == t.order[i + 1];
      forall b
        ensures b in Elems(rest) <==> b in Elems(t.order) && b != first
      {
        if b in Elems(t.order) && b != first {
          var i :| 0 <= i < |t.order| && t.order[i] == b;
          assert rest[i - 1] == b;
        }
      }
    }
  }

  lemma MovedBounded(t: Table, a: Address, d: seq<real>)
    requires Bounded(t) && (a in t.deques || |t.order| < TRACKER_LIMIT)
    ensures Bounded(MoveToEnd(t.(deques := t.deques[a := d]), a))
  {
    WithoutElems(t.order, a);
    ElemsAppend(Without(t.order, a), a);
  }

  lemma ExpiredBounded(t: Table, a: Address, now: real)
    requires Bounded(t)
    ensures Bounded(Expire(t, a, now)) && Bounded(Remove(t, a))
  {
    WithoutElems(t.order, a);
  }

  /** The table never exceeds 256 addresses, and its list and its deques agree. */
  lemma BoundKept(w: Watch, watched: Address, op: Op)
    requires Bounded(w.table) && OrderedBy(w.table.order, w.touched, w.ticks)
    ensures Bounded(Step(w, watched, op).table)
  {
    var a := op.address;
    if op.Cleared? {
      ExpiredBounded(w.table, a, 0.0);
    } else {
      var e := Expire(w.table, a, op.now);
      ExpiredBounded(w.table, a, op.now);
      WithoutOrdered(w.table.order, a, w.touched, w.ticks);
      if |Attempts(e, a)| >= LIMIT {
        assert e.deques[a := e.deques[a]] == e.deques;
        MovedBounded(e, a, e.deques[a]);
      } else {
        MakeRoomBounded(e, w.touched, w.ticks);
        var f := if a in e.deques then e else MakeRoom(e);
        MovedBounded(f, a, Attempts(f, a) + [op.now]);
      }
    }
  }

  /** Who makes room was touched before everybody else in the table. */
  lemma EvictsLeastRecent(w: Watch, watched: Address, b: Address, c: Address)
    requires Bounded(w.table) && OrderedBy(w.table.order, w.touched, w.ticks)
    requires b in w.table.deques && b !in MakeRoom(w.table).deques && c in w.table.deques && c != b
    ensures w.touched[b] < w.touched[c]
  {
    var i :| 0 <= i < |w.table.order| && w.table.order[i] == c;
  }

  // ---- the window of one address ----

  lemma {:induction false} DropOldTracks(h: seq<real>, d: seq<real>, now: real)
    requires Tracks(h, d, now)
    ensures Tracks(h, DropOld(d, now), now)
    ensures DropOld(d, now) != [] ==> DropOld(d, now)[0] > now - WINDOW
  {
    if d != [] && d[0] <= now - WINDOW {
      assert h[|h| - |d|] == d[0];
      assert h[|h| - |d| + 1..] == h[|h| - |d|..][1..];
      DropOldTracks(h, d[1..], now);
    }
  }

  lemma TracksLater(h: seq<real>, d: seq<real>, latest: real, now: real)
    requires Tracks(h, d, latest) && latest <= now
    ensures Tracks(h, d, now)
  {
  }

  /** With fewer than five left in the window, one more keeps the limit. */
  lemma TracksOneMore(h: seq<real>, d: seq<real>, now: real)
    requires Tracks(h, d, now) && |d| < LIMIT
    ensures Tracks(h + [now], d + [now], now)
  {
    var h', d' := h + [now], d + [now];
    assert h'[|h'| - |d'|..] == h[|h| - |d|..] + [now];
    assert forall i | 0 <= i < |h| :: h'[i] == h[i];
  }

  lemma WindowKept(w: Watch, watched: Address, op: Op)
    requires Tracks(w.history, Attempts(w.table, watched), w.latest)
    requires op.Failed? ==> w.latest <= op.now
    ensures var v := Step(w, watched, op); Tracks(v.history, Attempts(v.table, watched), v.latest)
  {
    var a, d := op.address, Attempts(w.table, watched);
    if op.Failed? {
      TracksLater(w.history, d, w.latest, op.now);
      if a == watched {
        DropOldTracks(w.history, d, op.now);
        var d' := DropOld(d, op.now);
        assert Attempts(Expire(w.table, a, op.now), a) == d';
        if |d'| < LIMIT {
          TracksOneMore(w.history, d', op.now);
        }
      } else {
        var e := Expire(w.table, a, op.now);
        assert Attempts(e, watched) == d;
      }
    }
  }

  /** A failed login is refused exactly when five recorded failures of the address are less
      than 60 seconds old; the delay is between 1 and 60 seconds and long enough for the
      oldest of the five to leave the window. */
  lemma RefusedExactly(w: Watch, a: Address, now: real)
    requires Inv(w, a) && w.latest <= now
    ensures var h, refused := w.history, RecordFailure(w.table, a, now).1;
            && (refused.Some? <==> |h| >= LIMIT && h[|h| - LIMIT] > now - WINDOW)
            && (refused.Some? ==> 1 <= refused.value <= 60 && h[|h| - LIMIT] + WINDOW <= now + refused.value as real)
  {
    var h, d := w.history, Attempts(w.table, a);
    TracksLater(h, d, w.latest, now);
    DropOldTracks(h, d, now);
    var d' := DropOld(d, now);
    assert Attempts(Expire(w.table, a, now), a) == d';
    if |d'| > 0 {
      assert d'[0] == h[|h| - |d'|];
    }
  }

  /** Having waited out the delay, the next failure of the address is recorded, not refused. */
  lemma WaitedOut(w: Watch, a: Address, now: real, later: real)
    requires Inv(w, a) && w.latest <= now
    requires RecordFailure(w.table, a, now).1.Some?
    requires later >= now + RecordFailure(w.table, a, now).1.value as real
    ensures var v := Step(w, a, Failed(a, now));
            RecordFailure(v.table, a, later).1.None? && Step(v, a, Failed(a, later)).history == w.history + [later]
  {
    RefusedExactly(w, a, now);
    InvKept(w, a, Failed(a, now));
    RefusedExactly(Step(w, a, Failed(a, now)), a, later);
  }

  lemma InvKept(w: Watch, watched: Address, op: Op)
    requires Inv(w, watched) && (op.Failed? ==> w.latest <= op.now)
    ensures Inv(Step(w, watched, op), watched)
  {
    BoundKept(w, watched, op);
    OrderKept(w, watched, op);
    WindowKept(w, watched, op);
  }

  /** Every run, seen by any address. */
  lemma {:induction false} RunKept(w: Watch, watched: Address, ops: seq<Op>)
    requires Inv(w, watched) && Timely(w.latest, ops)
    ensures Inv(Run(w, watched, ops), watched)
    decreases |ops|
  {
    if ops != [] {
      InvKept(w, watched, ops[0]);
      RunKept(Step(w, watched, ops[0]), watched, ops[1..]);
    }
  }

  function Initially(now: real): Watch {
    Watch(Table([], map[]), [], map[], 0, now)
  }

  /** From the empty table on, whatever comes: at most 256 addresses, listed by last touch, and
      for any address no half-open window of 60 seconds with more than five recorded failures. */
  lemma AlwaysLimited(watched: Address, now: real, ops: seq<Op>)
    requires Timely(now, ops)
    ensures var w := Run(Initially(now), watched, ops);
            && |w.table.order| <= TRACKER_LIMIT && OrderedBy(w.table.order, w.touched, w.ticks) && Limited(w.history)
  {
    RunKept(Initially(now), watched, ops);
  }
}
