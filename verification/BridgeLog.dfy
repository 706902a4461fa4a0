/** scripts/workbench-mcp-bridge.py: what the bridge reads of messages, what can happen to it,
    and what a log of its doings says about writes and about the catalog gate. */
module BridgeLog {
  import opened Options

  // ---- JSON-RPC as far as the bridge looks at it ----

  type Id = string

  /** A request to the child carries the host's id or one of the bridge's own. */
  datatype WireId = HostId(id: Id) | OwnId(number: nat)

  /** The arguments of a tool call the bridge reads; `None` where they are not strings. */
  datatype Args = Args(requestId: Option<string>, operationId: Option<string>, op: Option<string>, dryRun: bool)

  datatype Call = Initialize | Initialized | ToolsCall(name: Option<string>, args: Args) | ToolsList | Ping | Other

  datatype Message = Message(id: Option<Id>, call: Call)

  datatype Tool = Tool(name: string, readOnlyHint: bool)

  /** The catalog stands for its digest: equal digests, equal catalogs. */
  type Catalog = seq<Tool>

  /** The durable record of one service request, as the Authority reports it. `Completed`
      carries a result object; `Rejected` is a complete rejection: no effects, not enqueued,
      both field lists present. `Pending` is everything else. */
  datatype Outcome = Completed | Rejected | Indeterminate | Pending
  datatype Report = Report(requestId: string, outcome: Outcome)

  datatype Body =
    Error(message: string) | Malformed | Ready | Tools(tools: Catalog) | Content(report: Option<Report>, events: bool)
  datatype Response = Response(id: WireId, body: Body)

  datatype Answer =
    Child(response: Response) | Settled(report: Report) | ToolError(code: string) | RpcError(code: string)

  /** A line for the host; no id is a null id. */
  datatype Reply = Reply(id: Option<WireId>, answer: Answer)

  // ---- the environment ----

  datatype Kind =
    StartFailed | WriteFailed | NotConnected | TooLarge | InitializeRejected | BadCatalog | Unanswered | Unexpected
  datatype Notification = ListChanged | Diagnostic

  /** What one interaction with the child or the state file does: the process is killed, or
      it fails (a state file may have been replaced all the same), or it works. A request then
      yields notifications and the response that the child gives to this id. */
  datatype Happening = Happening(kill: bool, fail: bool, landed: bool, failure: Kind,
                                 notifications: seq<Notification>, respond: WireId -> Response)

  predicate Works(h: Happening) {
    !h.kill && !h.fail
  }

  predicate Fails(h: Happening) {
    !h.kill && h.fail
  }

  /** The child answers the request of this id and says nothing else. */
  predicate Replies(h: Happening, id: WireId) {
    Works(h) && h.notifications == [] && h.respond(id).id == id
  }

  datatype Failure = Transport(kind: Kind) | StateError | Killed
  datatype Try<+T> = Ok(value: T) | Fail(error: Failure) {
    predicate IsFailure() {
      Fail?
    }

    function PropagateFailure<U>(): Try<U>
      requires Fail?
    {
      Fail(error)
    }

    function Extract(): T
      requires Ok?
    {
      value
    }
  }

  // ---- what happened ----

  datatype Key = Key(requestId: string)
  datatype Read = Read(id: WireId, list: bool)

  /** Requests to the child, what came of them, and writes of the state file at their time.
      `list` marks a tools/list; a handshake is an initialize, or the bridge's own tools/list. */
  datatype Event =
    | Restarted(server: Option<Catalog>)
    | SentWrite(key: Key, id: WireId)
    | SentRead(id: WireId, list: bool)
    | SentQuery(requestId: string, id: WireId)
    | SentHandshake(id: WireId, list: bool)
    | Received(response: Response)
    | ChildListChanged
    | StateWrite(at: nat, ok: bool)

  predicate Request(e: Event) {
    e.SentWrite? || e.SentRead? || e.SentQuery? || e.SentHandshake?
  }

  /** No two writes of the log carry the same key. */
  ghost predicate AtMostOnce(log: seq<Event>) {
    forall i, j | 0 <= i < j < |log| && log[i].SentWrite? && log[j].SentWrite? :: log[i].key != log[j].key
  }

  function WriteOf(e: Event): set<Key> {
    if e.SentWrite? then {e.key} else {}
  }

  function ReadOf(e: Event): multiset<Read> {
    if e.SentRead? then multiset{Read(e.id, e.list)} else multiset{}
  }

  function QueryOf(e: Event): set<string> {
    if e.SentQuery? then {e.requestId} else {}
  }

  predicate FailedWrite(e: Event) {
    e.StateWrite? && !e.ok
  }

  // ---- the catalog gate ----

  /** Whose tools/list the last request was, if it was one. */
  datatype Asked = Nobody | TheHost | TheBridge

  function AskedBy(e: Event): Asked {
    match e
    case SentRead(_, true) => TheHost
    case SentHandshake(_, true) => TheBridge
    case _ => Nobody
  }

  /** The gate read off the messages. `stored` is the last catalog that a tools/list returned,
      `promised` what the contract demands: no new write since another catalog than the stored
      one was seen on a reconnect, or since the child said that its list changed, until a
      tools/list of the host returns a catalog. `shut` is what the program keeps of it. Right
      after such a catalog the state file is `pending`, after a catalog for the host the gate is
      `opening`, until the state file is written. `noted`: the state in memory knows the stored
      catalog, else the `prior` one. */
  datatype Gate = Gate(stored: Option<Catalog>, prior: Option<Catalog>, noted: bool, asked: Asked,
                       promised: bool, pending: bool, opening: bool, shut: bool)

  function Changed(prior: Option<Catalog>, tools: Catalog): bool {
    prior.Some? && prior.value != tools
  }

  function GateStep(g: Gate, e: Event): Gate {
    match e
    case Restarted(server) => Gate(server, server, true, Nobody, false, false, false, false)
    case ChildListChanged => g.(promised := true, pending := false, opening := false, shut := true)
    case StateWrite(_, ok) =>
      g.(noted := true, pending := false, opening := false,
         shut := if ok && (g.pending || g.opening) then g.pending else g.shut)
    case Received(Response(_, Tools(tools))) =>
      if g.asked.Nobody? then g.(pending := false, opening := false)
      else
        var known := if g.noted then g.stored else g.prior;
        if g.asked.TheHost? then Gate(Some(tools), known, false, Nobody, false, false, true, g.shut)
        else
          var changed := Changed(g.stored, tools);
          Gate(Some(tools), known, false, Nobody, g.promised || changed, changed, false, g.shut)
    case Received(_) => g.(asked := Nobody, pending := false, opening := false)
    case _ => g.(asked := AskedBy(e), pending := false, opening := false)
  }

  const FIRST_GATE := Gate(None, None, true, Nobody, false, false, false, false)

  /** Gathered event by event: the processes started, the keys written and whether each was written once, the reads and
      status queries sent, how often and when last the state file could not be written, the gate,
      and whether every write left with the gate open and the state file followed on every
      changed catalog. */
  datatype Summary = Summary(starts: nat, keys: set<Key>, once: bool, reads': multiset<Read>, queries: set<string>,
                             failures: nat, lastFailure: int, gate: Gate, respected: bool)

  function SummaryStep(s: Summary, e: Event): Summary {
    Summary(if e.Restarted? then s.starts + 1 else s.starts,
            s.keys + WriteOf(e), s.once && WriteOf(e) !! s.keys, s.reads' + ReadOf(e), s.queries + QueryOf(e),
            if FailedWrite(e) then s.failures + 1 else s.failures, if FailedWrite(e) then e.at else s.lastFailure,
            GateStep(s.gate, e), s.respected && (e.SentWrite? ==> !s.gate.shut) && (s.gate.pending ==> e.StateWrite?))
  }

  function SummaryOf(log: seq<Event>): Summary {
    if log == [] then Summary(0, {}, true, multiset{}, {}, 0, -1, FIRST_GATE, true)
    else SummaryStep(SummaryOf(log[..|log| - 1]), log[|log| - 1])
  }

  lemma Append(log: seq<Event>, e: Event)
    ensures SummaryOf(log + [e]) == SummaryStep(SummaryOf(log), e)
  {
    assert (log + [e])[..|log + [e]| - 1] == log;
  }

  lemma {:induction false} KeysMean(log: seq<Event>, k: Key)
    ensures k in SummaryOf(log).keys <==> exists i :: 0 <= i < |log| && log[i].SentWrite? && log[i].key == k
  {
    if log != [] {
      var rest := log[..|log| - 1];
      KeysMean(rest, k);
      assert forall i | 0 <= i < |rest| :: log[i] == rest[i];
    }
  }

  /** The summary says what it should about the positions of the log. */
  lemma {:induction false} OnceMeans(log: seq<Event>)
    requires SummaryOf(log).once
    ensures AtMostOnce(log)
  {
    if log != [] {
      var rest, e := log[..|log| - 1], log[|log| - 1];
      OnceMeans(rest);
      if e.SentWrite? {
        KeysMean(rest, e.key);
        assert forall i | 0 <= i < |rest| :: log[i] == rest[i];
      }
    }
  }

  lemma {:induction false} RespectedMeans(log: seq<Event>, i: nat)
    requires SummaryOf(log).respected && i < |log|
    ensures log[i].SentWrite? ==> !GateBefore(log, i).shut
    ensures GateBefore(log, i).pending ==> log[i].StateWrite?
  {
    if i < |log| - 1 {
      var rest := log[..|log| - 1];
      RespectedMeans(rest, i);
      assert rest[..i] == log[..i];
    }
  }

  function FailuresBefore(log: seq<Event>, n: nat): nat
    requires n <= |log|
  {
    SummaryOf(log[..n]).failures
  }

  lemma FailuresOn(log: seq<Event>, n: nat)
    requires n < |log|
    ensures FailuresBefore(log, n + 1) == FailuresBefore(log, n) + if FailedWrite(log[n]) then 1 else 0
  {
    assert log[..n + 1] == log[..n] + [log[n]];
    Append(log[..n], log[n]);
  }

  /** The state file could not be written somewhere between two points of the log. */
  ghost predicate FailedBetween(log: seq<Event>, from: nat, to: nat)
    requires to <= |log|
  {
    exists i :: from <= i < to && FailedWrite(log[i])
  }

  lemma FailedFurther(log: seq<Event>, from: nat, n: nat, end: nat)
    requires from <= n < |log| && end == n + 1
    ensures FailedBetween(log, from, end) <==> FailedBetween(log, from, n) || FailedWrite(log[n])
  {
  }

  /** The count of failures grows exactly if the state file could not be written meanwhile. */
  lemma {:induction false} FailuresMean(log: seq<Event>, from: nat, to: nat)
    requires from <= to <= |log|
    ensures FailuresBefore(log, to) >= FailuresBefore(log, from)
    ensures FailuresBefore(log, to) > FailuresBefore(log, from) <==> FailedBetween(log, from, to)
  {
    if from < to {
      FailuresMean(log, from, to - 1);
      FailuresOn(log, to - 1);
      FailedFurther(log, from, to - 1, to);
    }
  }

  function GateBefore(log: seq<Event>, i: nat): Gate
    requires i <= |log|
  {
    SummaryOf(log[..i]).gate
  }

  lemma GateAfter(log: seq<Event>, i: nat)
    requires i < |log|
    ensures GateBefore(log, i + 1) == GateStep(GateBefore(log, i), log[i])
  {
    assert log[..i + 1] == log[..i] + [log[i]];
    Append(log[..i], log[i]);
  }

  /** A tools/list of the host returned a catalog at `i`. */
  predicate Lists(log: seq<Event>, i: nat)
    requires i < |log|
  {
    log[i].Received? && log[i].response.body.Tools? && GateBefore(log, i).asked.TheHost?
  }

  /** A tools/list of the bridge showed another catalog at `i` than the one stored before. */
  predicate Shows(log: seq<Event>, i: nat)
    requires i < |log|
  {
    && log[i].Received? && log[i].response.body.Tools?
    && GateBefore(log, i).asked.TheBridge? && Changed(GateBefore(log, i).stored, log[i].response.body.tools)
  }

  /** The contract closes the gate at `i`. */
  predicate Closes(log: seq<Event>, i: nat)
    requires i < |log|
  {
    log[i].ChildListChanged? || Shows(log, i)
  }

  /** It started at `i`, and until `n` nothing ended it. */
  ghost predicate SinceAt(starts: nat -> bool, ends: nat -> bool, i: nat, n: nat) {
    i < n && starts(i) && forall j | i < j < n :: !ends(j)
  }

  ghost predicate Since(starts: nat -> bool, ends: nat -> bool, n: nat) {
    exists i: nat :: SinceAt(starts, ends, i, n)
  }

  lemma SinceOn(starts: nat -> bool, ends: nat -> bool, n: nat)
    ensures Since(starts, ends, n + 1) <==> starts(n) || (!ends(n) && Since(starts, ends, n))
  {
    if starts(n) {
      assert SinceAt(starts, ends, n, n + 1);
    }
    if !ends(n) && Since(starts, ends, n) {
      var i: nat :| SinceAt(starts, ends, i, n);
      assert SinceAt(starts, ends, i, n + 1);
    }
    if Since(starts, ends, n + 1) && !starts(n) {
      var i: nat :| SinceAt(starts, ends, i, n + 1);
      assert SinceAt(starts, ends, i, n);
    }
  }

  function Closing(log: seq<Event>): nat -> bool {
    (i: nat) => i < |log| && Closes(log, i)
  }

  /** A new process, or a tools/list of the host. */
  function Opening(log: seq<Event>): nat -> bool {
    (i: nat) => i < |log| && (log[i].Restarted? || Lists(log, i))
  }

  /** Something closed the gate before `n`, and nothing opened it since. */
  ghost predicate Closed(log: seq<Event>, n: nat) {
    Since(Closing(log), Opening(log), n)
  }

  lemma PromisedOn(log: seq<Event>, n: nat)
    requires n < |log|
    ensures GateBefore(log, n + 1).promised <==>
            Closes(log, n) || (!log[n].Restarted? && !Lists(log, n) && GateBefore(log, n).promised)
  {
    GateAfter(log, n);
  }

  lemma {:induction false} PromisedSince(log: seq<Event>, n: nat)
    requires n <= |log|
    ensures GateBefore(log, n).promised <==> Closed(log, n)
  {
    if n == 0 {
      assert log[..0] == [];
    } else {
      PromisedSince(log, n - 1);
      PromisedOn(log, n - 1);
      SinceOn(Closing(log), Opening(log), n - 1);
    }
  }

  /** The promise stands exactly if something closed the gate in this process and no tools/list
      of the host has returned a catalog since. */
  lemma PromiseMeans(log: seq<Event>)
    ensures SummaryOf(log).gate.promised <==> Closed(log, |log|)
  {
    assert log[..|log|] == log;
    PromisedSince(log, |log|);
  }

  // ---- the gate itself ----

  /** The program shuts the gate at `i`: a list change, or another catalog that is recorded. */
  predicate Shuts(log: seq<Event>, i: nat)
    requires i < |log|
  {
    log[i].ChildListChanged? || (i > 0 && log[i].StateWrite? && log[i].ok && Shows(log, i - 1))
  }

  /** It opens it at `i`: a new process, or a catalog for the host that is recorded. */
  predicate Opens(log: seq<Event>, i: nat)
    requires i < |log|
  {
    log[i].Restarted? || (i > 0 && log[i].StateWrite? && log[i].ok && Lists(log, i - 1))
  }

  function Shutting(log: seq<Event>): nat -> bool {
    (i: nat) => i < |log| && Shuts(log, i)
  }

  function Unshutting(log: seq<Event>): nat -> bool {
    (i: nat) => i < |log| && Opens(log, i)
  }

  ghost predicate Shut(log: seq<Event>, n: nat) {
    Since(Shutting(log), Unshutting(log), n)
  }

  lemma CatalogMeans(log: seq<Event>, n: nat)
    requires n < |log|
    ensures GateBefore(log, n + 1).pending <==> Shows(log, n)
    ensures GateBefore(log, n + 1).opening <==> Lists(log, n)
    ensures Lists(log, n) ==> !GateBefore(log, n + 1).promised
    ensures Shows(log, n) ==> GateBefore(log, n + 1).shut == GateBefore(log, n).shut
  {
    GateAfter(log, n);
  }

  /** What was last said about catalogs, right before `n`. */
  lemma CatalogBefore(log: seq<Event>, n: nat)
    requires n <= |log|
    ensures GateBefore(log, n).pending <==> n > 0 && Shows(log, n - 1)
    ensures GateBefore(log, n).opening <==> n > 0 && Lists(log, n - 1)
    ensures GateBefore(log, n).opening ==> !GateBefore(log, n).promised
  {
    if n == 0 {
      assert log[..0] == [];
    } else {
      CatalogMeans(log, n - 1);
    }
  }

  lemma ShutOn(log: seq<Event>, n: nat)
    requires n < |log|
    ensures GateBefore(log, n + 1).shut <==> Shuts(log, n) || (!Opens(log, n) && GateBefore(log, n).shut)
  {
    GateAfter(log, n);
    CatalogBefore(log, n);
    StepShuts(GateBefore(log, n), log[n]);
  }

  lemma StepShuts(g: Gate, e: Event)
    ensures GateStep(g, e).shut <==>
            || e.ChildListChanged? || (e.StateWrite? && e.ok && g.pending)
            || (g.shut && !e.Restarted? && !(e.StateWrite? && e.ok && g.opening))
  {
  }

  lemma {:induction false} ShutSince(log: seq<Event>, n: nat)
    requires n <= |log|
    ensures GateBefore(log, n).shut <==> Shut(log, n)
  {
    if n == 0 {
      assert log[..0] == [];
    } else {
      ShutSince(log, n - 1);
      ShutOn(log, n - 1);
      SinceOn(Shutting(log), Unshutting(log), n - 1);
    }
  }

  /** The gate is shut exactly if a list change came, or another catalog was recorded, in this
      process, and no catalog for the host was recorded since. */
  lemma ShutMeans(log: seq<Event>)
    ensures SummaryOf(log).gate.shut <==> Shut(log, |log|)
  {
    assert log[..|log|] == log;
    ShutSince(log, |log|);
  }

  /** Another catalog was shown while the gate was open, and the write of the state file right
      after it, at `i`, failed. */
  ghost predicate Slips(log: seq<Event>, i: nat)
    requires i < |log|
  {
    i > 0 && log[i].StateWrite? && !log[i].ok && Shows(log, i - 1) && !Shut(log, i)
  }

  /** The gate is shut after all, or need not be. */
  predicate Heals(log: seq<Event>, i: nat)
    requires i < |log|
  {
    log[i].Restarted? || Lists(log, i) || Shuts(log, i)
  }

  ghost function Slipping(log: seq<Event>): nat -> bool {
    (i: nat) => i < |log| && Slips(log, i)
  }

  function Healing(log: seq<Event>): nat -> bool {
    (i: nat) => i < |log| && Heals(log, i)
  }

  /** Something slipped before `n`, and nothing healed it since. */
  ghost predicate Slipped(log: seq<Event>, n: nat) {
    Since(Slipping(log), Healing(log), n)
  }

  predicate OpenAgainst(g: Gate) {
    g.promised && !g.shut
  }

  lemma OpenOn(log: seq<Event>, n: nat)
    requires n < |log|
    ensures OpenAgainst(GateBefore(log, n + 1)) <==>
            || (Shows(log, n) && !GateBefore(log, n).shut)
            || (!Heals(log, n) && OpenAgainst(GateBefore(log, n)))
  {
    PromisedOn(log, n);
    ShutOn(log, n);
    CatalogBefore(log, n);
  }

  /** Before `n` the gate is open against the promise exactly if one slipped, or another
      catalog has just come in. */
  lemma {:induction false} OpenBefore(log: seq<Event>, n: nat)
    requires n <= |log| && SummaryOf(log).respected
    ensures OpenAgainst(GateBefore(log, n)) <==>
            Slipped(log, n) || (GateBefore(log, n).pending && !GateBefore(log, n).shut)
  {
    if n == 0 {
      assert log[..0] == [];
    } else {
      OpenBefore(log, n - 1);
      OpenOn(log, n - 1);
      RespectedMeans(log, n - 1);
      ShutSince(log, n - 1);
      CatalogBefore(log, n - 1);
      CatalogMeans(log, n - 1);
      SinceOn(Slipping(log), Healing(log), n - 1);
    }
  }

  /** In a log whose every changed catalog is followed by the state file: the gate is open
      against the promise exactly if, with the gate open, the state file could not be written
      after another catalog, and nothing since has healed it; but for a catalog that has just
      come in. */
  lemma SlippedMeans(log: seq<Event>)
    requires SummaryOf(log).respected
    ensures Closed(log, |log|) && !Shut(log, |log|) <==>
            Slipped(log, |log|) || (|log| > 0 && Shows(log, |log| - 1) && !Shut(log, |log|))
  {
    OpenBefore(log, |log|);
    PromisedSince(log, |log|);
    ShutSince(log, |log|);
    CatalogBefore(log, |log|);
  }

  /** Both, right after no catalog. */
  lemma GateMeans(log: seq<Event>)
    requires SummaryOf(log).respected && !SummaryOf(log).gate.pending
    ensures SummaryOf(log).gate.shut <==> Shut(log, |log|)
    ensures Closed(log, |log|) && !Shut(log, |log|) <==> Slipped(log, |log|)
  {
    assert log[..|log|] == log;
    ShutMeans(log);
    SlippedMeans(log);
    CatalogBefore(log, |log|);
  }

  // ---- replies ----

  /** The response came after `from`, to a request of its id that was sent after `from`. */
  ghost predicate Heard(log: seq<Event>, from: nat, response: Response) {
    exists i, j {:trigger log[i], log[j]} ::
      from <= i < j < |log| && Request(log[i]) && log[i].id == response.id && log[j] == Received(response)
  }

  lemma HeardLater(log: seq<Event>, longer: seq<Event>, from: nat, start: nat, response: Response)
    requires log <= longer && start <= from && Heard(log, from, response)
    ensures Heard(longer, start, response)
  {
    var i, j :| from <= i < j < |log| && Request(log[i]) && log[i].id == response.id && log[j] == Received(response);
    assert longer[i] == log[i] && longer[j] == log[j];
  }

  /** The Authority's own final record of this request came in after `from`, to a status query. */
  ghost predicate Reported(log: seq<Event>, from: nat, report: Report) {
    exists i, j {:trigger log[i], log[j]} ::
      && from <= i < j < |log| && log[i].SentQuery? && log[i].requestId == report.requestId
      && log[j].Received? && log[j].response.id == log[i].id
      && log[j].response.body.Content? && log[j].response.body.report == Some(report)
  }

  lemma ReportedLater(log: seq<Event>, longer: seq<Event>, from: nat, start: nat, report: Report)
    requires log <= longer && start <= from && Reported(log, from, report)
    ensures Reported(longer, start, report)
  {
    var i, j :|
      && from <= i < j < |log| && log[i].SentQuery? && log[i].requestId == report.requestId
      && log[j].Received? && log[j].response.id == log[i].id
      && log[j].response.body.Content? && log[j].response.body.report == Some(report);
    assert longer[i] == log[i] && longer[j] == log[j];
  }

  // ---- classification of tool calls ----

  const INTRINSIC_READ := "workbench_get_service_request"
  const READ_EVENTS := "workbench_read_events"
  const HANDOFF := "workbench_handoff_lockfile"
  const OPERATION_READS := {HANDOFF, "workbench_restore_accepted_source", "workbench_repair_blocked_source"}
  const DRY_RUN_READS := {"workbench_control_task", "workbench_validate_blocked_node",
                          "workbench_amend_task_acceptance"}
  const RESPONSE_TOO_LARGE := "response_too_large"
  const STATE_UNAVAILABLE := "private_state_unavailable"
  const MAX_REQUEST_ID_CHARS := 200

  function CatalogReadOnly(tools: Catalog): map<string, bool> {
    if tools == [] then map[INTRINSIC_READ := true]
    else CatalogReadOnly(tools[..|tools| - 1])[tools[|tools| - 1].name := tools[|tools| - 1].readOnlyHint]
  }

  predicate ReadPath(readOnly: map<string, bool>, name: Option<string>, args: Args) {
    && name.Some? && name.value in readOnly
    && (readOnly[name.value]
        || (name.value in OPERATION_READS && args.op.Some? && args.op.value in {"preview", "status"})
        || (name.value in DRY_RUN_READS && args.dryRun))
  }

  /** The stable identity of a write, when it has a usable one. */
  function WriteIdentity(name: Option<string>, args: Args): Option<string> {
    var raw := if name == Some(HANDOFF) && args.op.Some? && args.op.value in {"cancel", "reconcile"}
               then args.operationId else args.requestId;
    if raw.Some? && ValidRequestId(raw.value) then raw else None
  }

  predicate ValidRequestId(s: string) {
    && 0 < |s| <= MAX_REQUEST_ID_CHARS
    && forall c <- s :: c >= ' ' && c != 127 as char
  }

  /** The key a call may write under. */
  function CallKeys(call: Call): set<Key> {
    if call.ToolsCall? && WriteIdentity(call.name, call.args).Some?
    then {Key(WriteIdentity(call.name, call.args).value)} else {}
  }

  /** The replay-safety part of the private state. */
  datatype PrivateState = PrivateState(writes: set<Key>, server: Option<Catalog>)

  /** How one try of a read ends: with an answer or without a connection, or cut off. */
  datatype Attempt = Done(answer: Option<Answer>) | Lost

  const READ_CODES := {RESPONSE_TOO_LARGE, "connection_unavailable"}
  const WRITE_CODES := {"write_indeterminate", "connection_unavailable", "tools_list_refresh_required",
                        "stable_request_id_required"}
  const RPC_CODES := {RESPONSE_TOO_LARGE, "connection_unavailable", "invalid_tools_catalog",
                      "method_not_supported_by_bridge"}

  /** What may answer a host request whose handling began at `from`: the child's own reply to
      this very request, the Authority's final record of the write, or an explicit error. */
  ghost predicate Fits(log: seq<Event>, from: nat, m: Message, answer: Answer)
    requires m.id.Some?
  {
    match answer
    case Child(response) => response.id == HostId(m.id.value) && Heard(log, from, response)
    case Settled(report) =>
      && m.call.ToolsCall? && WriteIdentity(m.call.name, m.call.args) == Some(report.requestId)
      && (report.outcome.Completed? || report.outcome.Rejected?) && Reported(log, from, report)
    case ToolError(code) => m.call.ToolsCall? && code in READ_CODES + WRITE_CODES
    case RpcError(code) => !m.call.ToolsCall? && code in RPC_CODES
  }

  /** The answer where the state file could not be written. */
  function Unavailable(call: Call): Answer {
    if call.ToolsCall? then ToolError(STATE_UNAVAILABLE) else RpcError(STATE_UNAVAILABLE)
  }

  /** The line for a request: the child's own reply as it is, or one made for the request. */
  function LineOf(id: Id, answer: Answer): Reply {
    Reply(Some(if answer.Child? then answer.response.id else HostId(id)), answer)
  }

  /** The bridge at one moment. */
  datatype Moment = Moment(clock: nat, counter: nat, data: PrivateState, connected: bool, initializeSeen: bool,
                           hostInitialized: bool, readOnly: map<string, bool>, shut: bool, log: seq<Event>,
                           sum: Summary)
}
