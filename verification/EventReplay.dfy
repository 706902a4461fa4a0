/** scripts/workbench-mcp-bridge.py, `PrivateState.record_events`: durable event cursors and
    the bounded memory of events already handed to the host. */
module EventReplay {
  import opened Options

  const MAX_STORED_EVENT_DIGESTS := 512
  const ALL_TASKS := "__all_tasks__"

  /** `Plain` is an event that is not a mapping. `identity` holds its stable metadata fields. */
  datatype Event =
    | Event(taskId: Option<string>, cursor: Option<nat>, identity: map<string, string>, payload: string)
    | Plain(payload: string)

  /** `cursor:<n>` and `metadata:<digest>`. */
  datatype ReplayKey = Cursor(n: nat) | Metadata(identity: map<string, string>)

  function ReplayKeyOf(e: Event): Option<ReplayKey> {
    if e.Plain? then None
    else if e.cursor.Some? then Some(Cursor(e.cursor.value))
    else if e.identity != map[] then Some(Metadata(e.identity))
    else None
  }

  function TaskOf(taskId: Option<string>, e: Event): string {
    if taskId.Some? then taskId.value
    else if e.Event? && e.taskId.Some? then e.taskId.value
    else ALL_TASKS
  }

  function Task(taskId: Option<string>): string {
    if taskId.Some? then taskId.value else ALL_TASKS
  }

  function Last<T>(s: seq<T>): (r: seq<T>)
    ensures |r| <= MAX_STORED_EVENT_DIGESTS
  {
    if |s| <= MAX_STORED_EVENT_DIGESTS then s else s[|s| - MAX_STORED_EVENT_DIGESTS..]
  }

  ghost predicate Distinct<T>(s: seq<T>) {
    forall i, j | 0 <= i < j < |s| :: s[i] != s[j]
  }

  type Cursors = map<string, nat>
  type Memory = map<string, seq<ReplayKey>>

  function Stored(memory: Memory, task: string): seq<ReplayKey> {
    if task in memory then memory[task] else []
  }

  // ---- what one call computes, event by event ----

  function Advance(cursors: Cursors, task: string, candidate: Option<nat>): Cursors {
    if candidate.None? || (task in cursors && candidate.value <= cursors[task]) then cursors
    else cursors[task := candidate.value]
  }

  function CursorOf(e: Event): Option<nat> {
    if e.Plain? then None else e.cursor
  }

  /** The variables of the loop over the events: the lists loaded so far hold what their
      task already knew and what the batch added. */
  datatype Batch = Batch(cursors: Cursors, known: Memory, kept: seq<Event>)

  function KnownTo(memory: Memory, b: Batch, task: string): seq<ReplayKey> {
    if task in b.known then b.known[task] else Last(Stored(memory, task))
  }

  predicate Duplicate(memory: Memory, taskId: Option<string>, b: Batch, e: Event) {
    ReplayKeyOf(e).Some? && ReplayKeyOf(e).value in KnownTo(memory, b, TaskOf(taskId, e))
  }

  function RecordOne(memory: Memory, taskId: Option<string>, deduplicate: bool, b: Batch, e: Event): Batch {
    var task, key := TaskOf(taskId, e), ReplayKeyOf(e);
    var list := KnownTo(memory, b, task);
    var duplicate := Duplicate(memory, taskId, b, e);
    Batch(Advance(b.cursors, task, CursorOf(e)),
          b.known[task := if key.Some? && !duplicate then list + [key.value] else list],
          if duplicate && deduplicate then b.kept else b.kept + [e])
  }

  function RecordAll(memory: Memory, taskId: Option<string>, deduplicate: bool, cursors: Cursors,
                     events: seq<Event>): Batch {
    if events == [] then Batch(cursors, map[], [])
    else
      var rest := RecordAll(memory, taskId, deduplicate, cursors, events[..|events| - 1]);
      RecordOne(memory, taskId, deduplicate, rest, events[|events| - 1])
  }

  function Remember(memory: Memory, known: Memory): Memory {
    map task | task in memory.Keys + known.Keys :: if task in known then Last(known[task]) else memory[task]
  }

  class EventState {
    var cursors: Cursors
    var memory: Memory

    method RecordEvents(taskId: Option<string>, cursor: Option<nat>, events: Option<seq<Event>>, deduplicate: bool)
      returns (filtered: Option<seq<Event>>)
      modifies this
      ensures events.None? ==>
                filtered.None? && memory == old(memory) && cursors == Advance(old(cursors), Task(taskId), cursor)
      ensures events.Some? ==>
                var first := Advance(old(cursors), Task(taskId), cursor);
                var b := RecordAll(old(memory), taskId, deduplicate, first, events.value);
                filtered == Some(b.kept) && cursors == b.cursors && memory == Remember(old(memory), b.known)
    {
      RecordCursor(Task(taskId), cursor);
      if events.None? {
        return None;
      }
      ghost var first := cursors;
      var known: Memory := map[];
      var kept := [];
      for k := 0 to |events.value|
        invariant memory == old(memory)
        invariant Batch(cursors, known, kept) == RecordAll(memory, taskId, deduplicate, first, events.value[..k])
      {
        var e := events.value[k];
        assert events.value[..k + 1][..k] == events.value[..k];
        known, kept := RecordEvent(taskId, deduplicate, known, kept, e);
      }
      assert events.value[..|events.value|] == events.value;
      memory := Remember(memory, known);
      return Some(kept);
    }

    /** The loop body. */
    method RecordEvent(taskId: Option<string>, deduplicate: bool, known0: Memory, kept0: seq<Event>, e: Event)
      returns (known: Memory, kept: seq<Event>)
      modifies this`cursors
      ensures Batch(cursors, known, kept) ==
              RecordOne(memory, taskId, deduplicate, Batch(old(cursors), known0, kept0), e)
    {
      var task, key := TaskOf(taskId, e), ReplayKeyOf(e);
      RecordCursor(task, CursorOf(e));
      var list := if task in known0 then known0[task] else Last(Stored(memory, task));
      var duplicate := key.Some? && key.value in list;
      kept := if !duplicate || !deduplicate then kept0 + [e] else kept0;
      if key.Some? && !duplicate {
        list := list + [key.value];
      }
      known := known0[task := list];
    }

    method RecordCursor(task: string, candidate: Option<nat>)
      modifies this`cursors
      ensures cursors == Advance(old(cursors), task, candidate)
    {
      if candidate.Some? {
        var prior := if task in cursors then cursors[task] else 0;
        cursors := cursors[task := if candidate.value < prior then prior else candidate.value];
      }
    }
  }

  // ---- what it means ----

  /** A durable cursor never decreases and reaches every cursor the batch names. */
  lemma {:induction false} CursorsAdvance(memory: Memory, taskId: Option<string>, deduplicate: bool, cursors: Cursors,
                                          events: seq<Event>, task: string)
    ensures var after := RecordAll(memory, taskId, deduplicate, cursors, events).cursors;
            && (task in cursors ==> task in after && after[task] >= cursors[task])
            && (forall i | 0 <= i < |events| && TaskOf(taskId, events[i]) == task && CursorOf(events[i]).Some? ::
                  task in after && after[task] >= CursorOf(events[i]).value)
            && (task in after ==>
                  || (task in cursors && after[task] == cursors[task])
                  || exists i :: 0 <= i < |events| && TaskOf(taskId, events[i]) == task
                                 && CursorOf(events[i]) == Some(after[task]))
  {
    if events != [] {
      var before := events[..|events| - 1];
      CursorsAdvance(memory, taskId, deduplicate, cursors, before, task);
      assert forall i | 0 <= i < |before| :: before[i] == events[i];
    }
  }

  /** Some event of the batch prefix carries this key for this task. */
  ghost predicate Mentions(taskId: Option<string>, events: seq<Event>, n: nat, task: string, key: ReplayKey)
    requires n <= |events|
  {
    exists i :: 0 <= i < n && TaskOf(taskId, events[i]) == task && ReplayKeyOf(events[i]) == Some(key)
  }

  /** What a task knows: what was stored, cut to size, and the keys of the batch. */
  lemma {:induction false} KnownMeans(memory: Memory, taskId: Option<string>, deduplicate: bool, cursors: Cursors,
                                      events: seq<Event>, task: string, key: ReplayKey)
    ensures var b := RecordAll(memory, taskId, deduplicate, cursors, events);
            key in KnownTo(memory, b, task) <==>
            key in Last(Stored(memory, task)) || Mentions(taskId, events, |events|, task, key)
  {
    if events != [] {
      var n := |events| - 1;
      var before, e := events[..n], events[n];
      KnownMeans(memory, taskId, deduplicate, cursors, before, task, key);
      MentionsStep(taskId, events, task, key);
      var b := RecordAll(memory, taskId, deduplicate, cursors, before);
      var c := RecordOne(memory, taskId, deduplicate, b, e);
      if TaskOf(taskId, e) != task {
        assert KnownTo(memory, c, task) == KnownTo(memory, b, task);
      }
    }
  }

  lemma MentionsStep(taskId: Option<string>, events: seq<Event>, task: string, key: ReplayKey)
    requires events != []
    ensures var n := |events| - 1;
            Mentions(taskId, events, n + 1, task, key) <==>
            || Mentions(taskId, events[..n], n, task, key)
            || (TaskOf(taskId, events[n]) == task && ReplayKeyOf(events[n]) == Some(key))
  {
    var n := |events| - 1;
    assert forall i | 0 <= i < n :: events[..n][i] == events[i];
    if Mentions(taskId, events[..n], n, task, key) {
      var i :| 0 <= i < n && TaskOf(taskId, events[..n][i]) == task && ReplayKeyOf(events[..n][i]) == Some(key);
      assert TaskOf(taskId, events[i]) == task && ReplayKeyOf(events[i]) == Some(key);
    }
  }

  /** Event `i` was handed out before: its key is stored for its task, or an earlier event of
      the batch carries it. */
  ghost predicate Replayed(memory: Memory, taskId: Option<string>, events: seq<Event>, i: nat)
    requires i < |events|
  {
    && ReplayKeyOf(events[i]).Some?
    && var task, key := TaskOf(taskId, events[i]), ReplayKeyOf(events[i]).value;
    && (key in Last(Stored(memory, task)) || Mentions(taskId, events, i, task, key))
  }

  /** `kept` are the events at the positions `at`, in order. */
  ghost predicate PicksOut(at: seq<nat>, events: seq<Event>, kept: seq<Event>) {
    && |at| == |kept|
    && (forall k | 0 <= k < |at| :: at[k] < |events| && kept[k] == events[at[k]])
    && (forall j, k | 0 <= j < k < |at| :: at[j] < at[k])
  }

  ghost predicate AreNew(memory: Memory, taskId: Option<string>, events: seq<Event>, at: seq<nat>) {
    forall i: nat | i < |events| :: i in at <==> !Replayed(memory, taskId, events, i)
  }

  /** Deduplication returns exactly the events that were not handed out before, in their
      order: `at` are their positions. */
  lemma {:induction false} KeptExactly(memory: Memory, taskId: Option<string>, cursors: Cursors, events: seq<Event>)
    returns (at: seq<nat>)
    ensures PicksOut(at, events, RecordAll(memory, taskId, true, cursors, events).kept)
    ensures AreNew(memory, taskId, events, at)
  {
    at := [];
    if events != [] {
      var n := |events| - 1;
      var before := KeptExactly(memory, taskId, cursors, events[..n]);
      LastKept(memory, taskId, cursors, events);
      at := if Replayed(memory, taskId, events, n) then before else before + [n];
      PicksOutMore(before, events, RecordAll(memory, taskId, true, cursors, events[..n]).kept);
      AreNewMore(memory, taskId, events, before, at);
    }
  }

  lemma LastKept(memory: Memory, taskId: Option<string>, cursors: Cursors, events: seq<Event>)
    requires events != []
    ensures var n := |events| - 1;
            RecordAll(memory, taskId, true, cursors, events).kept ==
            RecordAll(memory, taskId, true, cursors, events[..n]).kept
            + if Replayed(memory, taskId, events, n) then [] else [events[n]]
  {
    var n := |events| - 1;
    var e := events[n];
    if ReplayKeyOf(e).Some? {
      KnownMeans(memory, taskId, true, cursors, events[..n], TaskOf(taskId, e), ReplayKeyOf(e).value);
      SameMentions(taskId, events[..n], events, n, TaskOf(taskId, e));
    }
  }

  lemma PicksOutMore(at: seq<nat>, events: seq<Event>, kept: seq<Event>)
    requires events != [] && PicksOut(at, events[..|events| - 1], kept)
    ensures PicksOut(at, events, kept) && PicksOut(at + [|events| - 1], events, kept + [events[|events| - 1]])
  {
  }

  lemma AreNewMore(memory: Memory, taskId: Option<string>, events: seq<Event>, before: seq<nat>, at: seq<nat>)
    requires events != [] && AreNew(memory, taskId, events[..|events| - 1], before)
    requires forall k | k in before :: k < |events| - 1
    requires at == if Replayed(memory, taskId, events, |events| - 1) then before else before + [|events| - 1]
    ensures AreNew(memory, taskId, events, at)
  {
    var n := |events| - 1;
    forall i: nat | i < n
      ensures Replayed(memory, taskId, events[..n], i) == Replayed(memory, taskId, events, i)
    {
      assert events[..n][..i] == events[..i];
      SameMentions(taskId, events[..n], events, i, TaskOf(taskId, events[i]));
    }
  }

  lemma SameMentions(taskId: Option<string>, a: seq<Event>, b: seq<Event>, n: nat, task: string)
    requires n <= |a| && n <= |b| && a[..n] == b[..n]
    ensures forall key :: Mentions(taskId, a, n, task, key) <==> Mentions(taskId, b, n, task, key)
  {
    assert forall i | 0 <= i < n :: a[i] == a[..n][i] == b[i];
  }

  lemma {:induction false} KeptAll(memory: Memory, taskId: Option<string>, cursors: Cursors, events: seq<Event>)
    ensures RecordAll(memory, taskId, false, cursors, events).kept == events
  {
    if events != [] {
      KeptAll(memory, taskId, cursors, events[..|events| - 1]);
    }
  }

  lemma {:induction false} KnownDistinct(memory: Memory, taskId: Option<string>, deduplicate: bool, cursors: Cursors,
                                         events: seq<Event>, task: string)
    requires Distinct(Stored(memory, task))
    ensures Distinct(KnownTo(memory, RecordAll(memory, taskId, deduplicate, cursors, events), task))
  {
    if events != [] {
      var before, e := events[..|events| - 1], events[|events| - 1];
      KnownDistinct(memory, taskId, deduplicate, cursors, before, task);
      var b := RecordAll(memory, taskId, deduplicate, cursors, before);
      assert KnownTo(memory, RecordOne(memory, taskId, deduplicate, b, e), task) ==
             if TaskOf(taskId, e) == task && ReplayKeyOf(e).Some? && !Duplicate(memory, taskId, b, e)
             then KnownTo(memory, b, task) + [ReplayKeyOf(e).value] else KnownTo(memory, b, task);
    }
  }

  /** Stored lists stay free of repetitions; those the batch touches end at most 512 long,
      the others as they were. */
  lemma MemoryStaysTidy(memory: Memory, taskId: Option<string>, deduplicate: bool, cursors: Cursors,
                        events: seq<Event>, task: string)
    requires Distinct(Stored(memory, task))
    ensures var b := RecordAll(memory, taskId, deduplicate, cursors, events);
            var after := Stored(Remember(memory, b.known), task);
            && Distinct(after)
            && (if task in b.known then |after| <= MAX_STORED_EVENT_DIGESTS else after == Stored(memory, task))
  {
    KnownDistinct(memory, taskId, deduplicate, cursors, events, task);
  }

  lemma {:induction false} TouchedIsKnown(memory: Memory, taskId: Option<string>, deduplicate: bool, cursors: Cursors,
                                          events: seq<Event>, i: nat)
    requires i < |events|
    ensures TaskOf(taskId, events[i]) in RecordAll(memory, taskId, deduplicate, cursors, events).known
  {
    if i < |events| - 1 {
      TouchedIsKnown(memory, taskId, deduplicate, cursors, events[..|events| - 1], i);
    }
  }

  /** The key of event `i` is still stored after the batch. */
  ghost predicate Retained(memory: Memory, taskId: Option<string>, b: Batch, e: Event) {
    ReplayKeyOf(e).Some? ==> ReplayKeyOf(e).value in Last(KnownTo(memory, b, TaskOf(taskId, e)))
  }

  lemma StoredAgain(memory: Memory, taskId: Option<string>, deduplicate: bool, cursors: Cursors,
                    events: seq<Event>, i: nat)
    requires i < |events|
    ensures var b := RecordAll(memory, taskId, deduplicate, cursors, events);
            var task := TaskOf(taskId, events[i]);
            Last(Stored(Remember(memory, b.known), task)) == Last(KnownTo(memory, b, task))
  {
    TouchedIsKnown(memory, taskId, deduplicate, cursors, events, i);
  }

  /** An event whose key was cut away comes back on a replay. */
  lemma CutReturns(memory: Memory, taskId: Option<string>, deduplicate: bool, cursors: Cursors,
                   later: Cursors, events: seq<Event>, i: nat)
    requires i < |events|
    requires !Retained(memory, taskId, RecordAll(memory, taskId, deduplicate, cursors, events), events[i])
    ensures var b := RecordAll(memory, taskId, deduplicate, cursors, events);
            exists e ::
              e in RecordAll(Remember(memory, b.known), taskId, true, later, events).kept && ReplayKeyOf(e).Some?
  {
    var memory' := Remember(memory, RecordAll(memory, taskId, deduplicate, cursors, events).known);
    var at := KeptExactly(memory', taskId, later, events);
    var j := FirstMention(taskId, events, i);
    StoredAgain(memory, taskId, deduplicate, cursors, events, j);
    assert !Replayed(memory', taskId, events, j);
    var k :| 0 <= k < |at| && at[k] == j;
    assert RecordAll(memory', taskId, true, later, events).kept[k] == events[j];
  }

  lemma RetainedDoesNotReturn(memory: Memory, taskId: Option<string>, deduplicate: bool, cursors: Cursors,
                              later: Cursors, events: seq<Event>, e: Event)
    requires forall i | 0 <= i < |events| ::
               Retained(memory, taskId, RecordAll(memory, taskId, deduplicate, cursors, events), events[i])
    requires var b := RecordAll(memory, taskId, deduplicate, cursors, events);
             e in RecordAll(Remember(memory, b.known), taskId, true, later, events).kept
    ensures ReplayKeyOf(e).None?
  {
    var memory' := Remember(memory, RecordAll(memory, taskId, deduplicate, cursors, events).known);
    var kept := RecordAll(memory', taskId, true, later, events).kept;
    var at := KeptExactly(memory', taskId, later, events);
    var k :| 0 <= k < |kept| && kept[k] == e;
    assert at[k] in at;
    StoredAgain(memory, taskId, deduplicate, cursors, events, at[k]);
    assert !Replayed(memory', taskId, events, at[k]);
  }

  /** The same batch again, with deduplication, yields keyless events only, exactly when
      every key of the batch survived the cut to 512. */
  lemma ReplayYieldsKeyless(memory: Memory, taskId: Option<string>, deduplicate: bool, cursors: Cursors,
                            later: Cursors, events: seq<Event>)
    ensures var b := RecordAll(memory, taskId, deduplicate, cursors, events);
            var again := RecordAll(Remember(memory, b.known), taskId, true, later, events);
            (forall e | e in again.kept :: ReplayKeyOf(e).None?) <==>
            (forall i | 0 <= i < |events| :: Retained(memory, taskId, b, events[i]))
  {
    var b := RecordAll(memory, taskId, deduplicate, cursors, events);
    if i :| 0 <= i < |events| && !Retained(memory, taskId, b, events[i]) {
      CutReturns(memory, taskId, deduplicate, cursors, later, events, i);
    } else {
      forall e | e in RecordAll(Remember(memory, b.known), taskId, true, later, events).kept
        ensures ReplayKeyOf(e).None?
      {
        RetainedDoesNotReturn(memory, taskId, deduplicate, cursors, later, events, e);
      }
    }
  }

  /** The first event of the batch with the task and key of event `i`. */
  lemma {:induction false} FirstMention(taskId: Option<string>, events: seq<Event>, i: nat) returns (j: nat)
    requires i < |events| && ReplayKeyOf(events[i]).Some?
    ensures j <= i && TaskOf(taskId, events[j]) == TaskOf(taskId, events[i])
    ensures ReplayKeyOf(events[j]) == ReplayKeyOf(events[i])
    ensures !Mentions(taskId, events, j, TaskOf(taskId, events[i]), ReplayKeyOf(events[i]).value)
  {
    j := i;
    if Mentions(taskId, events, i, TaskOf(taskId, events[i]), ReplayKeyOf(events[i]).value) {
      var k :| 0 <= k < i && TaskOf(taskId, events[k]) == TaskOf(taskId, events[i])
        && ReplayKeyOf(events[k]) == ReplayKeyOf(events[i]);
      j := FirstMention(taskId, events, k);
    }
  }

  /** In particular when the retained and the new keys of every task fit in 512. */
  lemma ReplayYieldsKeylessWhenItFits(memory: Memory, taskId: Option<string>, deduplicate: bool, cursors: Cursors,
                                      later: Cursors, events: seq<Event>)
    requires var b := RecordAll(memory, taskId, deduplicate, cursors, events);
             forall task | task in b.known :: |b.known[task]| <= MAX_STORED_EVENT_DIGESTS
    ensures var b := RecordAll(memory, taskId, deduplicate, cursors, events);
            forall e | e in RecordAll(Remember(memory, b.known), taskId, true, later, events).kept ::
              ReplayKeyOf(e).None?
  {
    var b := RecordAll(memory, taskId, deduplicate, cursors, events);
    forall i | 0 <= i < |events|
      ensures Retained(memory, taskId, b, events[i])
    {
      TouchedIsKnown(memory, taskId, deduplicate, cursors, events, i);
      if ReplayKeyOf(events[i]).Some? {
        var task, key := TaskOf(taskId, events[i]), ReplayKeyOf(events[i]).value;
        KnownMeans(memory, taskId, deduplicate, cursors, events, task, key);
        assert Mentions(taskId, events, |events|, task, key);
      }
    }
    ReplayYieldsKeyless(memory, taskId, deduplicate, cursors, later, events);
  }
}
