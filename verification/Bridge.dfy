/** scripts/workbench-mcp-bridge.py: one reconnectable child, a durable write fence and the
    catalog gate. */
module Bridge {
  import opened Options
  import opened BridgeLog

  class Bridge {
    const world: nat -> Happening
    var clock: nat
    const maxAttempts: nat

    /** The state file, which outlives the process, and its copy in memory. */
    var disk: PrivateState
    var data: PrivateState

    var connected: bool
    var initializeSeen: bool
    var hostInitialized: bool
    var readOnly: map<string, bool>
    var catalogRefreshRequired: bool
    var counter: nat

    /** The fences found in the state file at first; everything that happened since, through
        all restarts. */
    ghost const firstWrites: set<Key>
    ghost var log: seq<Event>
    ghost var sum: Summary
    /** `SummaryOf`. */
    ghost const summarize: seq<Event> -> Summary

    ghost predicate Summarizes() {
      forall l, e {:trigger summarize(l + [e])} :: summarize(l + [e]) == SummaryStep(summarize(l), e)
    }

    /** What holds even while a catalog that just came in is not noted yet. */
    ghost predicate Base()
      reads this
    {
      var s := sum;
      && s == summarize(log) && s.once && s.respected
      && s.keys + firstWrites <= disk.writes <= data.writes && s.keys !! firstWrites
      && data.server == (if s.gate.noted then s.gate.stored else s.gate.prior)
      && Summarizes() && catalogRefreshRequired == s.gate.shut
      && (s.gate.pending ==> s.gate.promised && !s.gate.noted) && (s.gate.opening ==> !s.gate.noted)
      && -1 <= s.lastFailure < clock && (s.failures > 0 ==> s.lastFailure >= 0 && !Works(world(s.lastFailure)))
    }

    ghost predicate Inv()
      reads this
    {
      Base() && sum.gate.noted
    }

    constructor (world: nat -> Happening, maxAttempts: nat, file: PrivateState)
      ensures Inv() && disk == data == file && firstWrites == file.writes && log == [Restarted(file.server)]
      ensures sum.keys == {} && !sum.gate.promised && sum.starts == 1
      ensures summarize == SummaryOf && this.world == world && this.maxAttempts == maxAttempts && clock == 0
      ensures !connected && !initializeSeen && !hostInitialized && !catalogRefreshRequired
      ensures readOnly == map[INTRINSIC_READ := true]
    {
      this.world, this.maxAttempts, clock, counter := world, maxAttempts, 0, 0;
      disk, data := file, file;
      connected, initializeSeen, hostInitialized := false, false, false;
      readOnly, catalogRefreshRequired := map[INTRINSIC_READ := true], false;
      firstWrites := file.writes;
      log, sum := [Restarted(file.server)], SummaryOf([Restarted(file.server)]);
      summarize := SummaryOf;
      Append([], Restarted(file.server));
      assert [] + [Restarted(file.server)] == [Restarted(file.server)];
      forall l: seq<Event>, e
        ensures SummaryOf(l + [e]) == SummaryStep(SummaryOf(l), e)
      {
        Append(l, e);
      }
    }

    ghost method Add(e: Event)
      requires sum == summarize(log) && Summarizes()
      modifies this`log, this`sum
      ensures log == old(log) + [e] && sum == SummaryStep(old(sum), e) == summarize(log)
    {
      log, sum := log + [e], SummaryStep(sum, e);
    }

    /** The process died; another one starts on the same state file. */
    method Restart()
      requires Inv()
      modifies this
      ensures Inv() && log == old(log) + [Restarted(disk.server)] && disk == old(disk)
              && sum.starts == old(sum).starts + 1
    {
      Add(Restarted(disk.server));
      data := disk;
      connected, initializeSeen, hostInitialized := false, false, false;
      readOnly, catalogRefreshRequired := map[INTRINSIC_READ := true], false;
    }

    /** Time goes on and the log grows; of the fences in memory none is taken back, and the state
        file has its own or those in memory. */
    twostate predicate Grows()
      reads this
    {
      && old(log) <= log && old(clock) <= clock && sum.starts == old(sum).starts
      && (disk.writes == old(disk).writes || disk.writes == old(data).writes || disk.writes == data.writes)
    }

    /** Nothing the host asked for was sent to the child. */
    twostate predicate Quiet()
      reads this
    {
      && Grows() && data.writes == old(data).writes
      && sum.keys == old(sum).keys && sum.reads' == old(sum).reads' && sum.queries == old(sum).queries
    }

    /** And a closed gate stays closed. */
    twostate predicate StaysShut()
      reads this
    {
      Quiet() && (old(catalogRefreshRequired) ==> catalogRefreshRequired)
    }

    /** What `r` says about the process and the state file: killed only by the last thing that
        happened, else a failure exactly if a write of the state file failed meanwhile. */
    twostate predicate Blames<T>(new r: Try<T>)
      reads this
    {
      if r.Fail? && r.error.Killed? then old(clock) < clock && world(clock - 1).kill
      else if r.Fail? && r.error.StateError? then
        sum.failures > old(sum).failures && sum.lastFailure >= old(clock) && Fails(world(sum.lastFailure))
      else sum.failures == old(sum).failures && sum.lastFailure == old(sum).lastFailure
    }

    /** The state file was written without failure, or not at all. */
    twostate predicate Wrote()
      reads this
    {
      sum.failures == old(sum).failures && sum.lastFailure == old(sum).lastFailure
    }

    // ---- the state file ----

    /** Replace the state file by the memory copy. */
    method PersistRaw() returns (r: Try<()>)
      requires sum == summarize(log) && Summarizes()
      modifies this`clock, this`disk, this`log, this`sum
      ensures clock == old(clock) + 1 && log == old(log) + [StateWrite(old(clock), Works(world(old(clock))))]
      ensures sum == summarize(log) == SummaryStep(old(sum), log[|log| - 1])
      ensures disk == data || (disk == old(disk) && !r.Ok?)
      ensures r == (if Works(world(old(clock))) then Ok(())
                    else Fail(if world(old(clock)).kill then Killed else StateError))
    {
      var h := world(clock);
      Add(StateWrite(clock, Works(h)));
      clock := clock + 1;
      if Works(h) || h.landed {
        disk := data;
      }
      return if h.kill then Fail(Killed) else if h.fail then Fail(StateError) else Ok(());
    }

    method Persist() returns (r: Try<()>)
      requires Inv()
      modifies this`clock, this`disk, this`log, this`sum
      ensures Inv() && StaysShut()
      ensures Blames(r) && sum == old(sum).(failures := sum.failures, lastFailure := sum.lastFailure)
      ensures clock == old(clock) + 1 && log == old(log) + [StateWrite(old(clock), Works(world(old(clock))))]
      ensures r == (if Works(world(old(clock))) then Ok(())
                    else Fail(if world(old(clock)).kill then Killed else StateError))
      ensures r.Ok? ==> disk == data
    {
      r := PersistRaw();
    }

    // ---- the child ----

    method NoteListChanged()
      requires Inv()
      modifies this`log, this`sum, this`catalogRefreshRequired
      ensures Inv() && log == old(log) + [ChildListChanged] && catalogRefreshRequired
      ensures StaysShut() && sum.gate.asked == old(sum).gate.asked && Wrote()
    {
      Add(ChildListChanged);
      catalogRefreshRequired := true;
    }

    method OnChildNotifications(notifications: seq<Notification>)
      requires Inv()
      modifies this`log, this`sum, this`catalogRefreshRequired
      ensures Inv() && StaysShut() && sum.gate.asked == old(sum).gate.asked
      ensures Wrote()
      ensures notifications == [] ==> log == old(log) && catalogRefreshRequired == old(catalogRefreshRequired)
    {
      for k := 0 to |notifications|
        invariant Inv() && StaysShut() && sum.gate.asked == old(sum).gate.asked
        invariant Wrote()
        invariant k == 0 ==> log == old(log) && catalogRefreshRequired == old(catalogRefreshRequired)
      {
        if notifications[k].ListChanged? {
          NoteListChanged();
        }
      }
    }

    /** A catalog just came in, to a tools/list of the host or of the bridge, and is not noted yet. */
    ghost predicate JustListed(tools: Catalog, asked: Asked)
      reads this
    {
      var g := sum.gate;
      && Base() && !g.noted && g.stored == Some(tools) && !asked.Nobody?
      && (asked.TheBridge? ==> g.pending == Changed(g.prior, tools) && !g.opening)
      && (asked.TheHost? ==> g.opening && !g.pending)
    }

    /** The invariant, but for a catalog that this very response brought. */
    ghost predicate InvOr(r: Try<Response>, asked: Asked)
      reads this
    {
      if r.Ok? && r.value.body.Tools? && !asked.Nobody? then JustListed(r.value.body.tools, asked) else Inv()
    }

    ghost method NoteReceived(response: Response)
      requires Inv()
      modifies this`log, this`sum
      ensures log == old(log) + [Received(response)] && StaysShut() && Wrote()
      ensures InvOr(Ok(response), old(sum).gate.asked)
    {
      Add(Received(response));
    }

    /** `wait_for`: hands on notifications, then takes the response of this id, and no other. */
    method Await(id: WireId) returns (r: Try<Response>)
      requires Inv()
      modifies this`clock, this`log, this`sum, this`catalogRefreshRequired
      ensures StaysShut() && InvOr(r, old(sum).gate.asked) && Wrote()
      ensures r.Ok? ==> r.value.id == id && |log| > |old(log)| && log[|log| - 1] == Received(r.value)
      ensures r.Ok? ==> Works(world(old(clock))) && r.value == world(old(clock)).respond(id)
      ensures r.Fail? ==> r.error != StateError && (r.error.Killed? ==> world(old(clock)).kill)
      ensures clock == old(clock) + 1
      ensures Replies(world(old(clock)), id) ==>
                && r == Ok(world(old(clock)).respond(id)) && log == old(log) + [Received(r.value)]
                && catalogRefreshRequired == old(catalogRefreshRequired)
    {
      var h := world(clock);
      clock := clock + 1;
      if h.kill {
        return Fail(Killed);
      }
      OnChildNotifications(h.notifications);
      if h.fail {
        return Fail(Transport(h.failure));
      }
      var response := h.respond(id);
      if response.id != id {
        return Fail(Transport(Unexpected));
      }
      NoteReceived(response);
      return Ok(response);
    }

    /** The fence is durable, the key unused and the gate open. */
    ghost predicate MaySend(key: Key)
      reads this
    {
      key in disk.writes && key !in firstWrites && key !in sum.keys && !catalogRefreshRequired
    }

    /** Log a request. */
    ghost method Note(e: Event)
      requires Inv() && Request(e) && (e.SentWrite? ==> MaySend(e.key))
      modifies this`log, this`sum
      ensures Inv() && log == old(log) + [e] && sum == SummaryStep(old(sum), e)
    {
      Add(e);
    }

    /** What sending one request adds. */
    twostate predicate Sent(e: Event)
      requires Request(e)
      reads this
    {
      var was, now := old(sum), sum;
      && old(log) + [e] <= log && old(clock) <= clock && now.starts == was.starts && Wrote()
      && now.keys == was.keys + WriteOf(e) && now.reads' == was.reads' + ReadOf(e)
         && now.queries == was.queries + QueryOf(e)
      && (old(catalogRefreshRequired) ==> catalogRefreshRequired)
    }

    /** Send one request to the child and wait; it counts as sent even if the child dies on
        the first byte. */
    method Exchange(ghost e: Event, id: WireId) returns (r: Try<Response>)
      requires Inv() && Request(e) && e.id == id && (e.SentWrite? ==> MaySend(e.key))
      modifies this`clock, this`log, this`sum, this`catalogRefreshRequired
      ensures Sent(e) && InvOr(r, AskedBy(e))
      ensures r.Ok? ==> r.value.id == id && |log| > |old(log)| + 1 && log[|log| - 1] == Received(r.value)
      ensures r.Fail? ==> r.error != StateError && (r.error.Killed? ==> world(old(clock)).kill)
      ensures clock == old(clock) + 1
      ensures Replies(world(old(clock)), id) ==>
                && r == Ok(world(old(clock)).respond(id)) && log == old(log) + [e] + [Received(r.value)]
                && catalogRefreshRequired == old(catalogRefreshRequired)
    {
      Note(e);
      r := Await(id);
    }

    method SendRequest(ghost e: Event, id: WireId) returns (r: Try<Response>)
      requires Inv() && Request(e) && e.id == id && (e.SentWrite? ==> MaySend(e.key))
      modifies this`clock, this`log, this`sum, this`catalogRefreshRequired
      ensures InvOr(r, AskedBy(e))
      ensures if connected then Sent(e)
              else log == old(log) && sum == old(sum) && catalogRefreshRequired == old(catalogRefreshRequired)
      ensures r.Ok? ==>
                && connected && r.value.id == id && |log| > |old(log)| + 1 && log[|log| - 1] == Received(r.value)
                && log[|old(log)|] == e
      ensures r.Fail? ==> r.error != StateError && (r.error.Killed? ==> connected && world(old(clock)).kill)
      ensures clock == old(clock) + if connected then 1 else 0
      ensures connected && Replies(world(old(clock)), id) ==>
                && r == Ok(world(old(clock)).respond(id)) && log == old(log) + [e] + [Received(r.value)]
                && catalogRefreshRequired == old(catalogRefreshRequired)
    {
      if !connected {
        return Fail(Transport(NotConnected));
      }
      r := Exchange(e, id);
    }

    method RecordTransportFailure() returns (r: Try<()>)
      requires Inv()
      modifies this`clock, this`disk, this`log, this`sum, this`connected
      ensures Inv() && StaysShut() && Blames(r)
              && sum == old(sum).(failures := sum.failures, lastFailure := sum.lastFailure)
      ensures clock == old(clock) + 1 && log == old(log) + [StateWrite(old(clock), Works(world(old(clock))))]
      ensures r == (if Works(world(old(clock))) then Ok(())
                    else Fail(if world(old(clock)).kill then Killed else StateError))
      ensures r.Ok? ==> !connected
    {
      var _ :- Persist();
      connected := false;
      return Ok(());
    }

    method StartTransport() returns (r: Try<()>)
      requires Inv()
      modifies this`clock, this`connected
      ensures Inv() && StaysShut() && Blames(r)
      ensures clock == old(clock) + 1 && (connected <==> r.Ok?)
      ensures r == if Works(world(old(clock))) then Ok(())
                   else Fail(if world(old(clock)).kill then Killed else Transport(StartFailed))
    {
      connected := false;
      var h := world(clock);
      clock := clock + 1;
      if h.kill {
        return Fail(Killed);
      }
      if h.fail {
        return Fail(Transport(StartFailed));
      }
      connected := true;
      return Ok(());
    }

    method SendNotification() returns (r: Try<()>)
      requires Inv()
      modifies this`clock
      ensures Inv() && StaysShut() && Blames(r)
      ensures clock == old(clock) + if connected then 1 else 0
      ensures r == if !connected then Fail(Transport(NotConnected))
                   else if Works(world(old(clock))) then Ok(())
                   else Fail(if world(old(clock)).kill then Killed else Transport(WriteFailed))
    {
      if !connected {
        return Fail(Transport(NotConnected));
      }
      var h := world(clock);
      clock := clock + 1;
      return if h.kill then Fail(Killed) else if h.fail then Fail(Transport(WriteFailed)) else Ok(());
    }

    // ---- the catalog ----

    /** The catalog is remembered first, then the state file is written, and only then does
        the gate move: a failed write leaves the new catalog in memory and the gate as it was. */
    method ObserveCatalog(response: Response, asked: Asked) returns (r: Try<()>)
      requires !asked.Nobody? && InvOr(Try.Ok(response), asked)
      modifies this`clock, this`disk, this`data, this`readOnly, this`log, this`sum, this`catalogRefreshRequired
      ensures Inv() && Quiet() && Blames(r)
      ensures r.Fail? && r.error.Transport? <==> !response.body.Tools?
      ensures !response.body.Tools? ==>
              log == old(log) && clock == old(clock) && catalogRefreshRequired == old(catalogRefreshRequired)
      ensures response.body.Tools? ==>
                && log == old(log) + [StateWrite(old(clock), Works(world(old(clock))))] && clock == old(clock) + 1
                && readOnly == CatalogReadOnly(response.body.tools) && data.server == Some(response.body.tools)
                && r == (if Works(world(old(clock))) then Ok(())
                         else Fail(if world(old(clock)).kill then Killed else StateError))
      ensures r.Fail? ==> catalogRefreshRequired == old(catalogRefreshRequired)
      ensures r.Fail? && response.body.Tools? && asked.TheBridge? && Changed(old(data).server, response.body.tools) ==>
                sum.gate.promised
      ensures r.Ok? ==> catalogRefreshRequired ==
                        (asked.TheBridge?
                         && (Changed(old(data).server, response.body.tools) || old(catalogRefreshRequired)))
    {
      if !response.body.Tools? {
        return Fail(Transport(BadCatalog));
      }
      var tools := response.body.tools;
      var changed := Changed(data.server, tools);
      readOnly := CatalogReadOnly(tools);
      data := data.(server := Some(tools));
      r := PersistRaw();
      if r.Ok? {
        if asked.TheBridge? && changed {
          catalogRefreshRequired := true;
        }
        if asked.TheHost? {
          catalogRefreshRequired := false;
        }
      }
    }

    /** An `initialize` or `tools/list` of the bridge's own. */
    method SendOwn(list: bool) returns (r: Try<Response>)
      requires Inv()
      modifies this`clock, this`log, this`sum, this`catalogRefreshRequired, this`counter
      ensures InvOr(r, if list then TheBridge else Nobody) && StaysShut() && Blames(r)
      ensures r.Ok? ==> connected
      ensures r.Fail? ==> r.error != StateError
      ensures counter == old(counter) + 1 && clock == old(clock) + if connected then 1 else 0
      ensures connected && Replies(world(old(clock)), OwnId(old(counter))) ==>
                && r == Ok(world(old(clock)).respond(OwnId(old(counter))))
                && catalogRefreshRequired == old(catalogRefreshRequired)
    {
      counter := counter + 1;
      r := SendRequest(SentHandshake(OwnId(counter - 1), list), OwnId(counter - 1));
    }

    /** What the child answers at this time to a request of the bridge's own. */
    function Shown(at: nat, id: nat): Body {
      world(at).respond(OwnId(id)).body
    }

    /** What the world does to a look at the catalog from time `at` on: it shows another one
        than `server`, and then the state file cannot be written. */
    ghost predicate ListThenFail(at: nat, id: nat, server: Option<Catalog>) {
      && Works(world(at)) && Replies(world(at + 1), OwnId(id))
      && Shown(at + 1, id).Tools? && Changed(server, Shown(at + 1, id).tools) && Fails(world(at + 2))
    }

    /** A changed catalog was not recorded: the gate stays open against the promise. */
    twostate predicate LetsSlip(shown: Body)
      reads this
    {
      && connected && sum.gate.promised && catalogRefreshRequired == old(catalogRefreshRequired)
      && shown.Tools? && readOnly == CatalogReadOnly(shown.tools)
    }

    method CheckCatalog() returns (r: Try<()>)
      requires Inv()
      modifies this`clock, this`disk, this`data, this`readOnly, this`log, this`sum, this`catalogRefreshRequired,
               this`counter
      ensures Inv() && StaysShut() && Blames(r)
      ensures connected && ListThenFail(old(clock), old(counter), old(data).server) ==>
                r == Fail(StateError) && LetsSlip(Shown(old(clock) + 1, old(counter))) && clock == old(clock) + 3
    {
      r := SendNotification();
      if r.Ok? {
        r := SeeCatalog();
      }
    }

    /** The bridge's own tools/list. */
    method SeeCatalog() returns (r: Try<()>)
      requires Inv()
      modifies this`clock, this`disk, this`data, this`readOnly, this`log, this`sum, this`catalogRefreshRequired,
               this`counter
      ensures Inv() && StaysShut() && Blames(r)
      ensures connected && Replies(world(old(clock)), OwnId(old(counter))) && Shown(old(clock), old(counter)).Tools?
              && Changed(old(data).server, Shown(old(clock), old(counter)).tools) && Fails(world(old(clock) + 1)) ==>
                r == Fail(StateError) && LetsSlip(Shown(old(clock), old(counter))) && clock == old(clock) + 2
    {
      var catalog := SendOwn(true);
      if catalog.Fail? {
        return Fail(catalog.error);
      }
      r := ObserveCatalog(catalog.value, TheBridge);
    }

    /** A child starts and accepts the repeated initialize. */
    ghost predicate Reconnects(at: nat, id: nat) {
      Works(world(at)) && Replies(world(at + 1), OwnId(id)) && Shown(at + 1, id).Ready?
    }

    /** A whole recovery of that kind. */
    ghost predicate RecoverThenFail(at: nat, id: nat, server: Option<Catalog>) {
      Reconnects(at, id) && ListThenFail(at + 2, id + 1, server)
    }

    /** Start a child and repeat the host's initialize. */
    method Reconnect() returns (r: Try<()>)
      requires Inv()
      modifies this`clock, this`log, this`sum, this`catalogRefreshRequired, this`counter, this`connected
      ensures Inv() && StaysShut() && Blames(r)
      ensures r.Ok? ==> connected
      ensures Reconnects(old(clock), old(counter)) ==>
                && r.Ok? && clock == old(clock) + 2 && counter == old(counter) + 1
                && catalogRefreshRequired == old(catalogRefreshRequired)
    {
      var _ :- StartTransport();
      var response :- SendOwn(false);
      return if response.body.Error? || response.body.Malformed? then Fail(Transport(InitializeRejected)) else Ok(());
    }

    /** After the host initialized, look at the catalog of the new child too. */
    method Resume() returns (r: Try<()>)
      requires Inv()
      modifies this`clock, this`disk, this`data, this`readOnly, this`log, this`sum, this`catalogRefreshRequired,
               this`counter
      ensures Inv() && StaysShut() && Blames(r)
      ensures connected && hostInitialized && ListThenFail(old(clock), old(counter), old(data).server) ==>
                r == Fail(StateError) && LetsSlip(Shown(old(clock) + 1, old(counter))) && clock == old(clock) + 3
    {
      r := Ok(());
      if hostInitialized {
        r := CheckCatalog();
      }
      if r.Ok? {
        r := Persist();
      }
    }

    method AttemptRecovery() returns (r: Try<()>)
      requires Inv()
      modifies this`clock, this`disk, this`data, this`readOnly, this`log, this`sum, this`catalogRefreshRequired,
               this`counter, this`connected
      ensures Inv() && StaysShut() && Blames(r)
      ensures r.Ok? ==> connected
      ensures hostInitialized && RecoverThenFail(old(clock), old(counter), old(data).server) ==>
                r == Fail(StateError) && LetsSlip(Shown(old(clock) + 3, old(counter) + 1)) && clock == old(clock) + 5
    {
      r := Reconnect();
      if r.Ok? {
        r := Resume();
      }
    }

    /** One turn of the loop: whether there is a connection. */
    method RecoverOnce() returns (r: Try<bool>)
      requires Inv()
      modifies this`clock, this`disk, this`data, this`readOnly, this`log, this`sum, this`catalogRefreshRequired,
               this`counter, this`connected
      ensures Inv() && StaysShut() && Blames(r)
      ensures r.Ok? && r.value ==> connected
      ensures r.Fail? ==> !r.error.Transport?
      ensures hostInitialized && RecoverThenFail(old(clock), old(counter), old(data).server) ==>
                r == Fail(StateError) && LetsSlip(Shown(old(clock) + 3, old(counter) + 1)) && clock == old(clock) + 5
    {
      var tried := AttemptRecovery();
      if tried.Ok? {
        return Ok(true);
      }
      if !tried.error.Transport? {
        return Fail(tried.error);
      }
      var failed := RecordTransportFailure();
      return if failed.Ok? then Ok(false) else Fail(failed.error);
    }

    /** At most `maxAttempts` attempts; none of them sends a host message or opens the gate. */
    method RecoverConnection() returns (r: Try<bool>)
      requires Inv()
      modifies this`clock, this`disk, this`data, this`readOnly, this`log, this`sum, this`catalogRefreshRequired,
               this`counter, this`connected
      ensures Inv() && StaysShut() && Blames(r)
      ensures r.Ok? && r.value ==> connected
      ensures r.Fail? ==> !r.error.Transport?
      ensures initializeSeen && hostInitialized && maxAttempts > 0
              && RecoverThenFail(old(clock), old(counter), old(data).server) ==>
                r == Fail(StateError) && LetsSlip(Shown(old(clock) + 3, old(counter) + 1)) && clock == old(clock) + 5
    {
      if !initializeSeen {
        return Ok(false);
      }
      for attempt := 0 to maxAttempts
        invariant Inv() && StaysShut() && Wrote()
        invariant attempt == 0 ==> unchanged(this)
        invariant attempt > 0 ==>
                    !(hostInitialized && RecoverThenFail(old(clock), old(counter), old(data).server))
      {
        r := RecoverOnce();
        if r.Fail? || r.value {
          return;
        }
      }
      var kept := Persist();
      r := if kept.Ok? then Ok(false) else Fail(kept.error);
    }

    // ---- reads ----

    /** The child's own reply to this request, or an explicit error. */
    ghost predicate ReadAnswer(answer: Answer, id: WireId, toolCall: bool, from: nat)
      reads this
    {
      match answer
      case Child(response) => response.id == id && Heard(log, from, response)
      case ToolError(code) => toolCall && code == RESPONSE_TOO_LARGE
      case RpcError(code) => !toolCall && code == RESPONSE_TOO_LARGE
      case Settled(_) => false
    }

    /** The invariant, but for a catalog that this very answer brought. */
    ghost predicate InvOrListed(r: Try<Option<Answer>>, list: bool)
      reads this
    {
      if list && r.Ok? && r.value.Some? && r.value.value.Child? && r.value.value.response.body.Tools?
      then JustListed(r.value.value.response.body.tools, TheHost) else Inv()
    }

    /** Of what the host asked for, the child was sent at most this read, once or up to twice. */
    twostate predicate Reads(read: Read, twice: bool)
      reads this
    {
      && Grows() && data.writes == old(data).writes
      && sum.keys == old(sum).keys && sum.queries == old(sum).queries
      && (if twice then ReadUpToTwice(read)
          else sum.reads' == old(sum).reads' || sum.reads' == old(sum).reads' + multiset{read})
      && (old(catalogRefreshRequired) ==> catalogRefreshRequired)
    }

    method SendRead(id: WireId, list: bool) returns (r: Try<Response>)
      requires Inv()
      modifies this`clock, this`log, this`sum, this`catalogRefreshRequired
      ensures InvOr(r, if list then TheHost else Nobody) && Reads(Read(id, list), false) && Blames(r)
      ensures r.Ok? ==> ReadAnswer(Child(r.value), id, false, |old(log)|)
      ensures r.Fail? ==> r.error != StateError
      ensures connected && Replies(world(old(clock)), id) ==>
              r == Ok(world(old(clock)).respond(id)) && clock == old(clock) + 1
    {
      r := SendRequest(SentRead(id, list), id);
    }

    method TryRead(id: WireId, list: bool, toolCall: bool, ghost from: nat) returns (r: Try<Attempt>)
      requires Inv() && from <= |log|
      modifies this`clock, this`disk, this`log, this`sum, this`catalogRefreshRequired, this`connected
      ensures InvOrListed(if r.Ok? && r.value.Done? then Try.Ok(r.value.answer) else Try.Ok(None), list)
      ensures Reads(Read(id, list), false) && Blames(r)
      ensures r.Fail? ==> !r.error.Transport?
      ensures r.Ok? && r.value.Done? ==> r.value.answer.Some? && ReadAnswer(r.value.answer.value, id, toolCall, from)
      ensures r.Ok? && r.value.Lost? ==> !connected
      ensures old(connected) && Replies(world(old(clock)), id) ==>
                r == Ok(Done(Some(Child(world(old(clock)).respond(id))))) && clock == old(clock) + 1
    {
      ghost var start := |log|;
      var sent := SendRead(id, list);
      if sent.Ok? {
        HeardLater(log, log, start, from, sent.value);
        return Ok(Done(Some(Child(sent.value))));
      }
      if !sent.error.Transport? {
        return Fail(sent.error);
      }
      var failed := RecordTransportFailure();
      if failed.Fail? {
        return Fail(failed.error);
      }
      if sent.error.kind == TooLarge {
        return Ok(Done(Some(if toolCall then ToolError(RESPONSE_TOO_LARGE) else RpcError(RESPONSE_TOO_LARGE))));
      }
      return Ok(Lost);
    }

    /** One turn of the retry loop. */
    method ReadOnce(id: WireId, list: bool, toolCall: bool, ghost from: nat) returns (r: Try<Attempt>)
      requires Inv() && from <= |log|
      modifies this`clock, this`disk, this`data, this`readOnly, this`log, this`sum, this`catalogRefreshRequired,
               this`counter, this`connected
      ensures InvOrListed(if r.Ok? && r.value.Done? then Try.Ok(r.value.answer) else Try.Ok(None), list)
      ensures Reads(Read(id, list), false) && Blames(r)
      ensures r.Fail? ==> !r.error.Transport?
      ensures r.Ok? && r.value.Done? && r.value.answer.Some? ==> ReadAnswer(r.value.answer.value, id, toolCall, from)
      ensures r.Ok? && r.value.Lost? ==> !connected
      ensures old(connected) && old(Replies(world(clock), id)) ==>
                r == Ok(Done(Some(Child(old(world(clock)).respond(id))))) && clock == old(clock) + 1
    {
      if !connected {
        var up := RecoverConnection();
        if up.Fail? {
          return Fail(up.error);
        }
        if !up.value {
          return Ok(Done(None));
        }
      }
      r := TryRead(id, list, toolCall, from);
    }

    /** Send a host read, once more after a lost connection, never a third time. `None`
        means there is no connection. */
    method ForwardReadOnly(id: WireId, list: bool, toolCall: bool) returns (r: Try<Option<Answer>>)
      requires Inv()
      modifies this`clock, this`disk, this`data, this`readOnly, this`log, this`sum, this`catalogRefreshRequired,
               this`counter, this`connected
      ensures InvOrListed(r, list) && Reads(Read(id, list), true) && Blames(r)
      ensures r.Fail? ==> !r.error.Transport?
      ensures r.Ok? && r.value.Some? ==> ReadAnswer(r.value.value, id, toolCall, |old(log)|)
      ensures old(connected) && old(Replies(world(clock), id)) ==>
                r == Ok(Some(Child(old(world(clock)).respond(id)))) && clock == old(clock) + 1
    {
      for retry := 0 to 2
        invariant Inv() && Reads(Read(id, list), false) && Wrote()
        invariant retry == 0 ==> unchanged(this)
        invariant retry > 0 ==> !(old(connected) && old(Replies(world(clock), id)))
      {
        var attempt :- ReadOnce(id, list, toolCall, |old(log)|);
        if attempt.Done? {
          return Ok(attempt.answer);
        }
        var up := false;
        if retry == 0 {
          up :- RecoverConnection();
        }
        if !up {
          return Ok(None);
        }
      }
      return Ok(None);
    }

    // ---- writes ----

    /** Of what the host asked for, the child was sent at most status queries for this identity. */
    twostate predicate Asks(requestId: string)
      reads this
    {
      && Grows() && data.writes == old(data).writes
      && sum.keys == old(sum).keys && sum.reads' == old(sum).reads'
      && (sum.queries == old(sum).queries || sum.queries == old(sum).queries + {requestId})
      && (old(catalogRefreshRequired) ==> catalogRefreshRequired)
    }

    method SendQuery(requestId: string) returns (r: Try<Response>)
      requires Inv()
      modifies this`clock, this`log, this`sum, this`catalogRefreshRequired, this`counter
      ensures Inv() && Asks(requestId) && Blames(r)
      ensures r.Ok? ==>
                && |log| > |old(log)| + 1 && log[|old(log)|] == SentQuery(requestId, r.value.id)
                && log[|log| - 1] == Received(r.value)
      ensures r.Fail? ==> r.error != StateError
    {
      counter := counter + 1;
      r := SendRequest(SentQuery(requestId, OwnId(counter - 1)), OwnId(counter - 1));
    }

    /** One status query; `None` if the connection was lost. */
    method Query(requestId: string) returns (r: Try<Option<Response>>)
      requires Inv()
      modifies this`clock, this`disk, this`log, this`sum, this`catalogRefreshRequired, this`counter, this`connected
      ensures Inv() && Asks(requestId) && Blames(r)
      ensures r.Fail? ==> !r.error.Transport?
      ensures r.Ok? && r.value.Some? ==>
                && |log| > |old(log)| + 1 && log[|old(log)|] == SentQuery(requestId, r.value.value.id)
                && log[|log| - 1] == Received(r.value.value)
    {
      var sent := SendQuery(requestId);
      if sent.Ok? {
        return Ok(Some(sent.value));
      }
      if !sent.error.Transport? {
        return Fail(sent.error);
      }
      var failed := RecordTransportFailure();
      return if failed.Ok? then Ok(None) else Fail(failed.error);
    }

    /** The Authority's final record of this request, if this is what comes back. */
    method QueryOnce(requestId: string) returns (r: Try<Option<Report>>)
      requires Inv()
      modifies this`clock, this`disk, this`log, this`sum, this`catalogRefreshRequired, this`counter, this`connected
      ensures Inv() && Asks(requestId) && Blames(r)
      ensures r.Fail? ==> !r.error.Transport?
      ensures r.Ok? && r.value.Some? ==> Resolved(Settled(r.value.value), requestId, |old(log)|)
    {
      ghost var from := |log|;
      var sent := Query(requestId);
      if sent.Fail? {
        return Fail(sent.error);
      }
      return Ok(if sent.value.None? then None else FinalReport(requestId, from, sent.value.value));
    }

    /** `_resolved_write_response`. */
    function FinalReport(requestId: string, ghost from: nat, response: Response): (r: Option<Report>)
      requires from + 1 < |log| && log[from] == SentQuery(requestId, response.id)
               && log[|log| - 1] == Received(response)
      reads this
      ensures r.Some? ==> Resolved(Settled(r.value), requestId, from)
    {
      if response.body.Content? && response.body.report.Some?
         && response.body.report.value.requestId == requestId
         && (response.body.report.value.outcome.Completed? || response.body.report.value.outcome.Rejected?)
      then
        assert log[from].SentQuery? && log[|log| - 1].Received?;
        response.body.report
      else None
    }

    /** The answer is the Authority's own final record of this request, received after `from`. */
    ghost predicate Resolved(answer: Answer, requestId: string, from: nat)
      reads this
    {
      && answer.Settled? && answer.report.requestId == requestId
      && (answer.report.outcome.Completed? || answer.report.outcome.Rejected?)
      && Reported(log, from, answer.report)
    }

    lemma ResolvedLater(answer: Answer, requestId: string, start: nat, from: nat)
      requires from <= start && Resolved(answer, requestId, start)
      ensures Resolved(answer, requestId, from)
    {
      ReportedLater(log, log, start, from, answer.report);
    }

    /** One turn of the loop: whether it goes on. */
    method ResolveOnce(requestId: string) returns (r: Try<Option<Report>>, more: bool)
      requires Inv()
      modifies this`clock, this`disk, this`data, this`readOnly, this`log, this`sum, this`catalogRefreshRequired,
               this`counter, this`connected
      ensures Inv() && Asks(requestId) && Blames(r)
      ensures r.Fail? ==> !r.error.Transport?
      ensures r.Ok? && r.value.Some? ==> Resolved(Settled(r.value.value), requestId, |old(log)|)
    {
      more := true;
      if !connected {
        var up := RecoverConnection();
        if up.Fail? {
          return Fail(up.error), false;
        }
        if !up.value {
          return Ok(None), false;
        }
      }
      ghost var start := |log|;
      r := QueryOnce(requestId);
      if r.Ok? && r.value.Some? {
        ResolvedLater(Settled(r.value.value), requestId, start, |old(log)|);
      }
    }

    /** Ask the Authority what became of a fenced write. The write itself is never sent again:
        the only host-visible request is the status query for this very identity. */
    method ResolveWrite(requestId: string, ghost from: nat) returns (r: Try<Answer>)
      requires Inv() && from <= |log|
      modifies this`clock, this`disk, this`data, this`readOnly, this`log, this`sum, this`catalogRefreshRequired,
               this`counter, this`connected
      ensures Inv() && Asks(requestId) && Blames(r)
      ensures r.Fail? ==> !r.error.Transport?
      ensures r.Ok? ==> r.value == ToolError("write_indeterminate") || Resolved(r.value, requestId, from)
    {
      for attempt := 0 to maxAttempts
        invariant Inv() && Asks(requestId) && Wrote()
      {
        ghost var start := |log|;
        var report, more := ResolveOnce(requestId);
        if report.Fail? {
          return Fail(report.error);
        }
        if report.value.Some? {
          ResolvedLater(Settled(report.value.value), requestId, start, from);
          return Ok(Settled(report.value.value));
        }
        if !more {
          break;
        }
      }
      return Ok(ToolError("write_indeterminate"));
    }

    /** What one write call may do to the child: at most the write itself, once, and status
        queries for its identity. */
    twostate predicate Writes(identity: string)
      reads this
    {
      && Grows() && (data.writes == old(data).writes || data.writes == old(data).writes + {Key(identity)})
      && (sum.keys == old(sum).keys || sum.keys == old(sum).keys + {Key(identity)})
      && sum.reads' == old(sum).reads'
      && (sum.queries == old(sum).queries || sum.queries == old(sum).queries + {identity})
      && (old(catalogRefreshRequired) ==> catalogRefreshRequired)
    }

    /** Fence, then send: the key is durable before the first byte. */
    method FenceAndSend(identity: string, id: WireId, ghost from: nat) returns (r: Try<Response>)
      requires Inv() && Key(identity) !in data.writes && !catalogRefreshRequired && connected && from <= |log|
      modifies this`clock, this`disk, this`data, this`log, this`sum, this`catalogRefreshRequired
      ensures Inv() && Writes(identity) && Blames(r) && sum.queries == old(sum).queries
      ensures Works(world(old(clock))) ==>
                old(log) + [StateWrite(old(clock), true), SentWrite(Key(identity), id)] <= log
      ensures r.Ok? ==> r.value.id == id && Heard(log, from, r.value) && Key(identity) in sum.keys
      ensures Works(world(old(clock))) && Replies(world(old(clock) + 1), id) ==>
              r == Ok(world(old(clock) + 1).respond(id))
    {
      var fenced := Fence(identity);
      if fenced.Fail? {
        return Fail(fenced.error);
      }
      r := SendRequest(SentWrite(Key(identity), id), id);
    }

    /** `mark_write_sent`. */
    method Fence(identity: string) returns (r: Try<()>)
      requires Inv() && Key(identity) !in data.writes
      modifies this`clock, this`disk, this`data, this`log, this`sum
      ensures Inv() && Grows() && Blames(r) && data == old(data).(writes := old(data).writes + {Key(identity)})
      ensures sum == old(sum).(failures := sum.failures, lastFailure := sum.lastFailure)
      ensures clock == old(clock) + 1 && log == old(log) + [StateWrite(old(clock), Works(world(old(clock))))]
      ensures r == (if Works(world(old(clock))) then Ok(())
                    else Fail(if world(old(clock)).kill then Killed else StateError))
      ensures r.Ok? ==> disk == data && Key(identity) !in sum.keys + firstWrites
    {
      data := data.(writes := data.writes + {Key(identity)});
      r := Persist();
    }

    /** The child's own reply to the write, the Authority's final record of it, or an error. */
    ghost predicate WriteAnswer(answer: Answer, identity: string, id: WireId, from: nat)
      reads this
    {
      match answer
      case Child(response) => response.id == id && Heard(log, from, response) && Key(identity) in sum.keys
      case Settled(_) => Resolved(answer, identity, from)
      case ToolError(code) =>
        code in {"write_indeterminate", "connection_unavailable", "tools_list_refresh_required"}
      case RpcError(_) => false
    }

    predicate Indeterminate(response: Response, identity: string) {
      response.body.Content? && response.body.report == Some(Report(identity, Outcome.Indeterminate))
    }

    /** Ask what became of a write that went out, or was lost with the connection. */
    method ResolveSent(identity: string, lost: bool, ghost from: nat) returns (r: Try<Answer>)
      requires Inv() && from <= |log|
      modifies this`clock, this`disk, this`data, this`readOnly, this`log, this`sum, this`catalogRefreshRequired,
               this`counter, this`connected
      ensures Inv() && Asks(identity) && Blames(r)
      ensures r.Fail? ==> !r.error.Transport?
      ensures r.Ok? ==> r.value == ToolError("write_indeterminate") || Resolved(r.value, identity, from)
    {
      if lost {
        var failed := RecordTransportFailure();
        if failed.Fail? {
          return Fail(failed.error);
        }
      }
      r := ResolveWrite(identity, from);
    }

    /** A process that dies or loses the child after the fence only ever asks what became of
        the write. */
    method SendWrite(identity: string, id: WireId, ghost from: nat) returns (r: Try<Answer>)
      requires Inv() && Key(identity) !in data.writes && !catalogRefreshRequired && connected && from <= |log|
      modifies this`clock, this`disk, this`data, this`readOnly, this`log, this`sum, this`catalogRefreshRequired,
               this`counter, this`connected
      ensures Inv() && Writes(identity) && Blames(r)
      ensures r.Fail? ==> !r.error.Transport?
      ensures Works(world(old(clock))) ==>
                old(log) + [StateWrite(old(clock), true), SentWrite(Key(identity), id)] <= log
      ensures r.Ok? ==> WriteAnswer(r.value, identity, id, from)
      ensures Works(world(old(clock))) && Replies(world(old(clock) + 1), id)
              && !Indeterminate(world(old(clock) + 1).respond(id), identity) ==>
                r == Ok(Child(world(old(clock) + 1).respond(id)))
    {
      var sent := FenceAndSend(identity, id, from);
      if sent.Ok? && !Indeterminate(sent.value, identity) {
        return Ok(Child(sent.value));
      }
      if sent.Fail? && !sent.error.Transport? {
        return Fail(sent.error);
      }
      r := ResolveSent(identity, sent.Fail?, from);
    }

    /** A new write is on its way: its key is unused, the gate is open. */
    ghost predicate New(identity: string)
      reads this
    {
      Key(identity) !in data.writes && !catalogRefreshRequired
    }

    /** A recovery is due, and it goes wrong at the very end. */
    ghost predicate WillSlip()
      reads this
    {
      && !connected && initializeSeen && hostInitialized && maxAttempts > 0
      && RecoverThenFail(clock, counter, data.server)
    }

    method WriteCall(identity: string, id: WireId) returns (r: Try<Answer>)
      requires Inv()
      modifies this`clock, this`disk, this`data, this`readOnly, this`log, this`sum, this`catalogRefreshRequired,
               this`counter, this`connected
      ensures Inv() && Writes(identity) && Blames(r)
      ensures r.Fail? ==> !r.error.Transport?
      ensures !old(New(identity)) ==> sum.keys == old(sum).keys
      ensures r.Ok? ==> WriteAnswer(r.value, identity, id, |old(log)|)
      ensures old(New(identity)) && old(connected) && Works(world(old(clock))) ==>
                old(log) + [StateWrite(old(clock), true), SentWrite(Key(identity), id)] <= log
      ensures old(New(identity)) && old(connected) && Works(world(old(clock))) && Replies(world(old(clock) + 1), id)
              && !Indeterminate(world(old(clock) + 1).respond(id), identity) ==>
                r == Ok(Child(world(old(clock) + 1).respond(id)))
      ensures old(New(identity)) && old(WillSlip()) ==>
                && r == Fail(StateError) && LetsSlip(Shown(old(clock) + 3, old(counter) + 1))
                && clock == old(clock) + 5 && data.writes == old(data).writes
    {
      if Key(identity) in data.writes {
        r := ResolveWrite(identity, |log|);
        return;
      }
      if catalogRefreshRequired {
        return Ok(ToolError("tools_list_refresh_required"));
      }
      if !connected {
        var up := RecoverConnection();
        if up.Fail? {
          return Fail(up.error);
        }
        if !up.value {
          return Ok(ToolError("connection_unavailable"));
        }
        if catalogRefreshRequired {
          return Ok(ToolError("tools_list_refresh_required"));
        }
      }
      r := SendWrite(identity, id, |old(log)|);
    }

    /** A read, and for event reads the state file after it. */
    method ReadCall(id: WireId, name: Option<string>) returns (r: Try<Answer>)
      requires Inv()
      modifies this`clock, this`disk, this`data, this`readOnly, this`log, this`sum, this`catalogRefreshRequired,
               this`counter, this`connected
      ensures Inv() && Reads(Read(id, false), true) && Blames(r)
      ensures r.Fail? ==> !r.error.Transport?
      ensures r.Ok? ==> r.value == ToolError("connection_unavailable") || ReadAnswer(r.value, id, true, |old(log)|)
      ensures old(connected) && Replies(world(old(clock)), id) && name != Some(READ_EVENTS) ==>
                r == Ok(Child(world(old(clock)).respond(id)))
    {
      var answer := ForwardReadOnly(id, false, true);
      if answer.Fail? {
        return Fail(answer.error);
      }
      if answer.value.None? {
        return Ok(ToolError("connection_unavailable"));
      }
      if name == Some(READ_EVENTS) && answer.value.value.Child? && answer.value.value.response.body.Content?
         && answer.value.value.response.body.events {
        ghost var was := log;
        var kept := Persist();
        if kept.Fail? {
          return Fail(kept.error);
        }
        HeardLater(was, log, |old(log)|, |old(log)|, answer.value.value.response);
      }
      return Ok(answer.value.value);
    }

    /** A host-requested catalog opens the gate, once it is recorded. */
    method HandleRead(id: WireId, call: Call) returns (r: Try<Answer>)
      requires Inv() && (call.ToolsList? || call.Ping?)
      modifies this`clock, this`disk, this`data, this`readOnly, this`log, this`sum, this`catalogRefreshRequired,
               this`counter, this`connected
      ensures Inv() && Grows() && data.writes == old(data).writes && Blames(r)
      ensures sum.keys == old(sum).keys && sum.queries == old(sum).queries
      ensures ReadUpToTwice(Read(id, call.ToolsList?))
      ensures r.Fail? ==> !r.error.Transport?
      ensures r.Ok? ==>
              || ReadAnswer(r.value, id, false, |old(log)|)
              || r.value in {RpcError("connection_unavailable"), RpcError("invalid_tools_catalog")}
      ensures if r.Ok? && Lists(call, r.value) then !catalogRefreshRequired
              else old(catalogRefreshRequired) ==> catalogRefreshRequired
      ensures old(connected) && Replies(world(old(clock)), id)
              && (call.Ping? || (world(old(clock)).respond(id).body.Tools? && Works(world(old(clock) + 1)))) ==>
                r == Ok(Child(world(old(clock)).respond(id)))
    {
      var answer := ForwardReadOnly(id, call.ToolsList?, false);
      if answer.Fail? {
        return Fail(answer.error);
      }
      if answer.value.None? {
        return Ok(RpcError("connection_unavailable"));
      }
      if !answer.value.value.Child? || !call.ToolsList?
         || answer.value.value.response.body == Error(RESPONSE_TOO_LARGE) {
        return Ok(answer.value.value);
      }
      ghost var was := log;
      var response := answer.value.value.response;
      var seen := ObserveCatalog(response, TheHost);
      HeardLater(was, log, |old(log)|, |old(log)|, response);
      if seen.Fail? {
        return if seen.error.Transport? then Ok(RpcError("invalid_tools_catalog")) else Fail(seen.error);
      }
      return Ok(Child(response));
    }

    /** A tools/list was answered with a catalog. */
    predicate Lists(call: Call, answer: Answer) {
      call.ToolsList? && answer.Child? && answer.response.body.Tools?
    }

    twostate predicate ReadUpToTwice(read: Read)
      reads this
    {
      || sum.reads' == old(sum).reads'
      || sum.reads' == old(sum).reads' + multiset{read}
      || sum.reads' == old(sum).reads' + multiset{read} + multiset{read}
    }

    method HandleToolCall(id: WireId, name: Option<string>, args: Args) returns (r: Try<Answer>)
      requires Inv()
      modifies this`clock, this`disk, this`data, this`readOnly, this`log, this`sum, this`catalogRefreshRequired,
               this`counter, this`connected
      ensures Inv() && Grows() && Blames(r)
      ensures r.Fail? ==> !r.error.Transport?
      ensures old(catalogRefreshRequired) ==> catalogRefreshRequired
      ensures ReadPath(old(readOnly), name, args) ==>
                && Reads(Read(id, false), true)
                && (r.Ok? ==>
                    r.value == ToolError("connection_unavailable") || ReadAnswer(r.value, id, true, |old(log)|))
                && (old(connected) && Replies(world(old(clock)), id) && name != Some(READ_EVENTS) ==>
                    r == Ok(Child(world(old(clock)).respond(id))))
      ensures !ReadPath(old(readOnly), name, args) && WriteIdentity(name, args).None? ==>
                r == Ok(ToolError("stable_request_id_required")) && log == old(log) && sum == old(sum)
      ensures !ReadPath(old(readOnly), name, args) && WriteIdentity(name, args).Some? ==>
                WriteHandled(WriteIdentity(name, args).value, id, r)
    {
      if ReadPath(readOnly, name, args) {
        r := ReadCall(id, name);
        return;
      }
      var identity := WriteIdentity(name, args);
      if identity.None? {
        return Ok(ToolError("stable_request_id_required"));
      }
      r := WriteCall(identity.value, id);
    }

    /** What comes of a write call. */
    twostate predicate WriteHandled(identity: string, id: WireId, new r: Try<Answer>)
      reads this
    {
      && Writes(identity) && (!old(New(identity)) ==> sum.keys == old(sum).keys)
      && (r.Ok? ==> WriteAnswer(r.value, identity, id, |old(log)|))
      && (old(New(identity)) && old(connected) && Works(world(old(clock))) ==>
          && old(log) + [StateWrite(old(clock), true), SentWrite(Key(identity), id)] <= log
          && (Replies(world(old(clock) + 1), id) && !Indeterminate(world(old(clock) + 1).respond(id), identity) ==>
              r == Ok(Child(world(old(clock) + 1).respond(id)))))
      && (old(New(identity)) && old(WillSlip()) ==>
          && r == Fail(StateError) && LetsSlip(Shown(old(clock) + 3, old(counter) + 1))
          && clock == old(clock) + 5 && data.writes == old(data).writes)
    }

    // ---- initialization ----

    /** No child can be started, which the state file records. */
    ghost predicate FailsAt(at: nat) {
      Fails(world(at)) && Works(world(at + 1))
    }

    /** A child starts and accepts the host's initialize, which the state file records. */
    ghost predicate StartsAt(at: nat, id: WireId) {
      && Works(world(at)) && Replies(world(at + 1), id)
      && world(at + 1).respond(id).body.Ready? && Works(world(at + 2))
    }

    /** The state file can be written, but no child started. */
    ghost predicate CannotStart()
      reads this
    {
      Works(world(clock)) && FailsAt(clock + 1) && Works(world(clock + 3))
    }

    ghost predicate Starts(id: WireId)
      reads this
    {
      Works(world(clock)) && StartsAt(clock + 1, id)
    }

    /** The host's own `initialize` on a fresh child. */
    method Introduce(id: WireId) returns (r: Try<Response>)
      requires Inv()
      modifies this`clock, this`log, this`sum, this`catalogRefreshRequired, this`connected
      ensures Inv() && StaysShut() && Blames(r)
      ensures r.Fail? ==> r.error != StateError
      ensures r.Ok? ==> r.value.id == id && Heard(log, |old(log)|, r.value)
      ensures Fails(world(old(clock))) ==>
                && r == Fail(Transport(StartFailed)) && clock == old(clock) + 1 && log == old(log) && sum == old(sum)
                && catalogRefreshRequired == old(catalogRefreshRequired) && !connected
      ensures Works(world(old(clock))) && Replies(world(old(clock) + 1), id)
              && world(old(clock) + 1).respond(id).body.Ready? ==>
                && r == Ok(world(old(clock) + 1).respond(id)) && connected && clock == old(clock) + 2
                && catalogRefreshRequired == old(catalogRefreshRequired)
    {
      var started := StartTransport();
      if started.Fail? {
        return Fail(started.error);
      }
      r := SendRequest(SentHandshake(id, false), id);
      if r.Ok? {
        assert Request(log[|old(log)|]) && log[|log| - 1] == Received(r.value);
        if r.value.body.Malformed? {
          r := Fail(Transport(InitializeRejected));
        }
      }
    }

    method TryInitialize(id: WireId) returns (r: Try<Response>)
      requires Inv()
      modifies this`clock, this`disk, this`log, this`sum, this`catalogRefreshRequired, this`connected
      ensures Inv() && StaysShut() && Blames(r)
      ensures r.Ok? ==> r.value.id == id && Heard(log, |old(log)|, r.value)
      ensures Fails(world(old(clock))) ==>
                && r == Fail(Transport(StartFailed)) && clock == old(clock) + 1 && sum == old(sum)
                && catalogRefreshRequired == old(catalogRefreshRequired) && !connected
      ensures StartsAt(old(clock), id) ==>
                && r == Ok(world(old(clock) + 1).respond(id)) && connected && clock == old(clock) + 3
                && catalogRefreshRequired == old(catalogRefreshRequired)
    {
      r := Introduce(id);
      if r.Ok? {
        ghost var was := log;
        var kept := Persist();
        HeardLater(was, log, |old(log)|, |old(log)|, r.value);
        if kept.Fail? {
          r := Fail(kept.error);
        }
      }
    }

    /** One turn of the loop; `None` where it goes on. */
    method ConnectOnce(id: WireId) returns (r: Try<Option<Response>>)
      requires Inv()
      modifies this`clock, this`disk, this`log, this`sum, this`catalogRefreshRequired, this`connected
      ensures Inv() && StaysShut() && Blames(r)
      ensures r.Fail? ==> !r.error.Transport?
      ensures r.Ok? && r.value.Some? ==> r.value.value.id == id && Heard(log, |old(log)|, r.value.value)
      ensures FailsAt(old(clock)) ==>
                && r == Ok(None) && clock == old(clock) + 2 && sum == old(sum)
                && catalogRefreshRequired == old(catalogRefreshRequired) && !connected
      ensures StartsAt(old(clock), id) ==>
                && r == Ok(Some(world(old(clock) + 1).respond(id))) && connected && clock == old(clock) + 3
                && catalogRefreshRequired == old(catalogRefreshRequired)
    {
      var tried := TryInitialize(id);
      if tried.Ok? {
        return Ok(Some(tried.value));
      }
      if !tried.error.Transport? {
        return Fail(tried.error);
      }
      var failed := RecordTransportFailure();
      return if failed.Ok? then Ok(None) else Fail(failed.error);
    }

    /** Tries on fresh children. */
    method ConnectRepeatedly(id: WireId, ghost from: nat) returns (r: Try<Option<Response>>)
      requires Inv() && from <= |log|
      modifies this`clock, this`disk, this`log, this`sum, this`catalogRefreshRequired, this`connected
      ensures Inv() && StaysShut() && Blames(r)
      ensures r.Fail? ==> !r.error.Transport?
      ensures r.Ok? && r.value.Some? ==> r.value.value.id == id && Heard(log, from, r.value.value)
      ensures maxAttempts == 1 && FailsAt(old(clock)) ==>
                && r == Ok(None) && clock == old(clock) + 2 && sum == old(sum)
                && catalogRefreshRequired == old(catalogRefreshRequired) && !connected
      ensures maxAttempts > 0 && StartsAt(old(clock), id) ==>
                && r == Ok(Some(world(old(clock) + 1).respond(id))) && connected && clock == old(clock) + 3
                && catalogRefreshRequired == old(catalogRefreshRequired)
    {
      r := Ok(None);
      for attempt := 0 to maxAttempts
        invariant Inv() && StaysShut() && Wrote() && r == Ok(None)
        invariant attempt == 0 ==> unchanged(this)
        invariant attempt == 1 && FailsAt(old(clock)) ==>
                    && clock == old(clock) + 2 && sum == old(sum)
                    && catalogRefreshRequired == old(catalogRefreshRequired) && !connected
        invariant attempt > 0 ==>
                    !StartsAt(old(clock), id)
      {
        ghost var start := |log|;
        r := ConnectOnce(id);
        if r.Fail? {
          return;
        }
        if r.value.Some? {
          HeardLater(log, log, start, from, r.value.value);
          return;
        }
      }
    }

    /** Tries on fresh children; the state file records it when all fail. */
    method ConnectOrGiveUp(id: WireId, ghost from: nat) returns (r: Try<Option<Response>>)
      requires Inv() && from <= |log|
      modifies this`clock, this`disk, this`log, this`sum, this`catalogRefreshRequired, this`connected
      ensures Inv() && StaysShut() && Blames(r)
      ensures r.Fail? ==> !r.error.Transport?
      ensures r.Ok? && r.value.Some? ==> r.value.value.id == id && Heard(log, from, r.value.value)
      ensures maxAttempts == 1 && FailsAt(old(clock)) && Works(world(old(clock) + 2)) ==>
                && r == Ok(None) && clock == old(clock) + 3 && sum == old(sum)
                && catalogRefreshRequired == old(catalogRefreshRequired) && !connected
      ensures maxAttempts > 0 && StartsAt(old(clock), id) ==>
                && r == Ok(Some(world(old(clock) + 1).respond(id))) && connected && clock == old(clock) + 3
                && catalogRefreshRequired == old(catalogRefreshRequired)
    {
      r := ConnectRepeatedly(id, from);
      if r.Ok? && r.value.None? {
        var kept := Persist();
        if kept.Fail? {
          r := Fail(kept.error);
        }
      }
    }

    method ConnectForInitialize(id: WireId) returns (r: Try<Option<Response>>)
      requires Inv()
      modifies this`clock, this`disk, this`log, this`sum, this`catalogRefreshRequired, this`connected,
               this`initializeSeen
      ensures Inv() && StaysShut() && Blames(r)
      ensures r.Fail? ==> !r.error.Transport?
      ensures r.Ok? && r.value.Some? ==> r.value.value.id == id && Heard(log, |old(log)|, r.value.value)
      ensures initializeSeen
      ensures maxAttempts == 1 && old(CannotStart()) ==>
                && r == Ok(None) && !connected && clock == old(clock) + 4
                && sum == old(sum) && catalogRefreshRequired == old(catalogRefreshRequired)
      ensures maxAttempts > 0 && old(Starts(id)) ==>
                && r == Ok(Some(world(old(clock) + 2).respond(id))) && connected && clock == old(clock) + 4
                && catalogRefreshRequired == old(catalogRefreshRequired)
    {
      initializeSeen := true;
      var kept := Persist();
      if kept.Ok? {
        r := ConnectOrGiveUp(id, |old(log)|);
      } else {
        r := Fail(kept.error);
      }
    }

    method HandleNotification(call: Call) returns (r: Try<()>)
      requires Inv()
      modifies this`clock, this`disk, this`log, this`sum, this`connected, this`hostInitialized
      ensures Inv() && StaysShut() && Blames(r)
      ensures r.Fail? ==> !r.error.Transport?
      ensures !old(connected) || call.ToolsCall? ==>
                r.Ok? && unchanged(this`clock, this`disk, this`log, this`sum, this`connected)
      ensures hostInitialized == (old(hostInitialized) || call.Initialized?)
      ensures !call.ToolsCall? && old(connected) && Fails(world(old(clock))) && Fails(world(old(clock) + 1)) ==>
                r == Fail(StateError)
    {
      if call.ToolsCall? {
        return Ok(());
      }
      if call.Initialized? {
        hostInitialized := true;
      }
      if !connected {
        return Ok(());
      }
      r := SendNotification();
      if r.Fail? && r.error.Transport? {
        r := RecordTransportFailure();
      }
    }

    // ---- the host's messages ----

    /** What comes of a request: an answer that fits it, or the state file; the child is sent at
        most this request, a read at most twice, and only a catalog in answer to the host's
        tools/list opens the gate. */
    twostate predicate Handled(m: Message, new r: Try<Answer>)
      requires m.id.Some?
      reads this
    {
      && Grows() && Blames(r) && (r.Fail? ==> !r.error.Transport?)
      && (r.Ok? ==> Fits(log, |old(log)|, m, r.value))
      && ReadUpToTwice(Read(HostId(m.id.value), m.call.ToolsList?))
      && (sum.keys == old(sum).keys || sum.keys == old(sum).keys + CallKeys(m.call))
      && (if r.Ok? && Lists(m.call, r.value) then !catalogRefreshRequired
          else old(catalogRefreshRequired) ==> catalogRefreshRequired)
    }

    /** And what it does for certain. */
    twostate predicate Told(m: Message, new r: Try<Answer>)
      requires m.id.Some?
      reads this
    {
      r != Fail(Killed) ==> CertainRequest(old(Now()), m.call, HostId(m.id.value), LineFor(m, r), Now())
    }

    method HandleInitialize(m: Message) returns (r: Try<Answer>)
      requires Inv() && m.id.Some? && m.call.Initialize?
      modifies this`clock, this`disk, this`log, this`sum, this`catalogRefreshRequired, this`connected,
               this`initializeSeen
      ensures Inv() && Handled(m, r) && Told(m, r)
    {
      r := AnswerInitialize(HostId(m.id.value));
      InitializeTold(m, r);
    }

    twostate lemma InitializeTold(m: Message, new r: Try<Answer>)
      requires m.id.Some? && m.call.Initialize?
      requires InitializeCertain(HostId(m.id.value), r) && Blames(r)
      requires unchanged(this`hostInitialized, this`data, this`counter, this`readOnly)
      ensures Told(m, r)
    {
    }

    twostate predicate InitializeCertain(id: WireId, new r: Try<Answer>)
      reads this
    {
      && initializeSeen
      && (maxAttempts == 1 && old(CannotStart()) ==>
          && r == Ok(RpcError("connection_unavailable")) && !connected && clock == old(clock) + 4
          && sum == old(sum) && catalogRefreshRequired == old(catalogRefreshRequired))
      && (maxAttempts > 0 && old(Starts(id)) ==>
          && r == Ok(Child(world(old(clock) + 2).respond(id))) && connected && clock == old(clock) + 4
          && catalogRefreshRequired == old(catalogRefreshRequired))
    }

    method AnswerInitialize(id: WireId) returns (r: Try<Answer>)
      requires Inv()
      modifies this`clock, this`disk, this`log, this`sum, this`catalogRefreshRequired, this`connected,
               this`initializeSeen
      ensures Inv() && StaysShut() && Blames(r)
      ensures r.Fail? ==> !r.error.Transport?
      ensures r.Ok? ==>
                || r.value == RpcError("connection_unavailable")
                || (r.value.Child? && r.value.response.id == id && Heard(log, |old(log)|, r.value.response))
      ensures InitializeCertain(id, r)
    {
      var connection := ConnectForInitialize(id);
      if connection.Fail? {
        return Fail(connection.error);
      }
      return Ok(if connection.value.Some? then Child(connection.value.value) else RpcError("connection_unavailable"));
    }

    method HandleCall(m: Message) returns (r: Try<Answer>)
      requires Inv() && m.id.Some? && m.call.ToolsCall?
      modifies this`clock, this`disk, this`data, this`readOnly, this`log, this`sum, this`catalogRefreshRequired,
               this`counter, this`connected
      ensures Inv() && Handled(m, r) && Told(m, r)
    {
      ghost var writes :=
        if ReadPath(readOnly, m.call.name, m.call.args) then None else WriteIdentity(m.call.name, m.call.args);
      r := HandleToolCall(HostId(m.id.value), m.call.name, m.call.args);
      CertainWriteLater(m, writes, r);
    }

    method HandleList(m: Message) returns (r: Try<Answer>)
      requires Inv() && m.id.Some? && (m.call.ToolsList? || m.call.Ping?)
      modifies this`clock, this`disk, this`data, this`readOnly, this`log, this`sum, this`catalogRefreshRequired,
               this`counter, this`connected
      ensures Inv() && Handled(m, r) && Told(m, r)
    {
      r := HandleRead(HostId(m.id.value), m.call);
    }

    method HandleRequest(m: Message) returns (r: Try<Answer>)
      requires Inv() && m.id.Some?
      modifies this`clock, this`disk, this`data, this`readOnly, this`log, this`sum, this`catalogRefreshRequired,
               this`counter, this`connected, this`initializeSeen
      ensures Inv() && Handled(m, r) && Told(m, r)
    {
      if m.call.Initialize? {
        r := HandleInitialize(m);
      } else if m.call.ToolsCall? {
        r := HandleCall(m);
      } else if m.call.ToolsList? || m.call.Ping? {
        r := HandleList(m);
      } else {
        r := Ok(RpcError("method_not_supported_by_bridge"));
      }
    }

    // ---- a session ----

    ghost function Now(): Moment
      reads this
    {
      Moment(clock, counter, data, connected, initializeSeen, hostInitialized, readOnly, catalogRefreshRequired,
             log, sum)
    }

    /** The line for a message, from the moment `a` to the moment `b`: if meanwhile the state file
        could not be written, an error, even for a notification, and with a null id; otherwise
        nothing for a notification, and for a request an answer with its own id. */
    ghost predicate Answered(a: Moment, m: Message, line: Option<Reply>, b: Moment) {
      if b.sum.failures > a.sum.failures then
        && line == Some(Reply(if m.id.Some? then Some(HostId(m.id.value)) else None, Unavailable(m.call)))
        && a.clock <= b.sum.lastFailure < b.clock && Fails(world(b.sum.lastFailure))
      else if m.id.None? then line.None?
      else line.Some? && line.value.id == Some(HostId(m.id.value)) && Fits(b.log, |a.log|, m, line.value.answer)
    }

    /** What the child was sent: at most the write of this message, at most twice its read. */
    ghost predicate Limited(a: Moment, m: Message, b: Moment) {
      && b.sum.starts == a.sum.starts
      && (b.sum.keys == a.sum.keys || (m.id.Some? && b.sum.keys == a.sum.keys + CallKeys(m.call)))
      && (b.sum.reads' == a.sum.reads'
          || (m.id.Some? && b.sum.reads' == a.sum.reads' + multiset{Read(HostId(m.id.value), m.call.ToolsList?)})
          || (m.id.Some? && b.sum.reads' == a.sum.reads' + multiset{Read(HostId(m.id.value), m.call.ToolsList?)}
                                                        + multiset{Read(HostId(m.id.value), m.call.ToolsList?)}))
    }

    /** Only a catalog handed to the host opens the gate. */
    ghost predicate GateMoves(a: Moment, m: Message, line: Option<Reply>, b: Moment) {
      if m.id.Some? && line.Some? && Lists(m.call, line.value.answer) then !b.shut else a.shut ==> b.shut
    }

    predicate Passed(line: Option<Reply>, response: Response) {
      line == Some(Reply(Some(response.id), Child(response)))
    }

    /** What a write does for certain: a used key is never written again nor a new one while the
        gate is shut; otherwise a connected child gets it right after the fence. The last case is
        that of a recovery that shows another catalog while the state file cannot be written. */
    ghost predicate CertainWrite(a: Moment, identity: string, id: WireId, line: Option<Reply>, b: Moment) {
      var sent := Key(identity) !in a.data.writes && !a.shut;
      && (!sent ==> b.sum.keys == a.sum.keys)
      && (sent && a.connected && Works(world(a.clock)) ==>
          && a.log + [StateWrite(a.clock, true), SentWrite(Key(identity), id)] <= b.log
          && (Replies(world(a.clock + 1), id) && !Indeterminate(world(a.clock + 1).respond(id), identity) ==>
              Passed(line, world(a.clock + 1).respond(id))))
      && (sent && !a.connected && a.initializeSeen && a.hostInitialized && maxAttempts > 0
          && RecoverThenFail(a.clock, a.counter, a.data.server) ==>
          && b.sum.failures > a.sum.failures && b.sum.gate.promised && b.shut == a.shut
          && b.connected && b.data.writes == a.data.writes && b.clock == a.clock + 5
          && Shown(a.clock + 3, a.counter + 1).Tools?
          && b.readOnly == CatalogReadOnly(Shown(a.clock + 3, a.counter + 1).tools))
    }

    /** What a host's initialize does for certain. */
    ghost predicate CertainInitialize(a: Moment, id: WireId, line: Option<Reply>, b: Moment) {
      && b.initializeSeen
      && (maxAttempts == 1 && Works(world(a.clock)) && FailsAt(a.clock + 1) && Works(world(a.clock + 3)) ==>
          && b.clock == a.clock + 4 && !b.connected && b.sum == a.sum && b.data == a.data && b.counter == a.counter
          && b.readOnly == a.readOnly && b.shut == a.shut)
      && (maxAttempts > 0 && Works(world(a.clock)) && StartsAt(a.clock + 1, id) ==>
          Passed(line, world(a.clock + 2).respond(id)) && b.clock == a.clock + 4 && b.connected && b.shut == a.shut)
    }

    /** What a request does for certain. */
    ghost predicate CertainRequest(a: Moment, call: Call, id: WireId, line: Option<Reply>, b: Moment) {
      b.hostInitialized == a.hostInitialized &&
      match call
      case Initialize => CertainInitialize(a, id, line, b)
      case ToolsCall(name, args) =>
        if ReadPath(a.readOnly, name, args) then
          a.connected && Replies(world(a.clock), id) && name != Some(READ_EVENTS) ==>
            Passed(line, world(a.clock).respond(id))
        else WriteIdentity(name, args).Some? ==> CertainWrite(a, WriteIdentity(name, args).value, id, line, b)
      case ToolsList =>
        a.connected && Replies(world(a.clock), id)
        && world(a.clock).respond(id).body.Tools? && Works(world(a.clock + 1)) ==>
          Passed(line, world(a.clock).respond(id))
      case Ping => a.connected && Replies(world(a.clock), id) ==> Passed(line, world(a.clock).respond(id))
      case _ => true
    }

    /** What a message does for certain. A notification changes nothing while there is no child
        but what `initialized` says; sent to a lost child it is answered if the state file
        cannot record the loss. */
    ghost predicate Certain(a: Moment, m: Message, line: Option<Reply>, b: Moment) {
      if m.id.Some? then CertainRequest(a, m.call, HostId(m.id.value), line, b)
      else
        && b.hostInitialized == (a.hostInitialized || m.call.Initialized?)
        && (!a.connected || m.call.ToolsCall? ==> b == a.(hostInitialized := b.hostInitialized))
        && (a.connected && !m.call.ToolsCall? && Fails(world(a.clock)) && Fails(world(a.clock + 1)) ==>
            b.sum.failures > a.sum.failures)
    }

    /** How the bridge gets from one moment to the next by a message and its line. */
    ghost predicate Follows(a: Moment, m: Message, line: Option<Reply>, b: Moment) {
      && a.log <= b.log && a.clock <= b.clock && b.sum == summarize(b.log)
      && b.shut == b.sum.gate.shut && b.sum.gate.noted && !b.sum.gate.pending && !b.sum.gate.opening && b.sum.respected
      && Answered(a, m, line, b) && Limited(a, m, b) && GateMoves(a, m, line, b) && Certain(a, m, line, b)
    }

    method ServeNotification(m: Message) returns (line: Option<Reply>, killed: bool)
      requires Inv() && m.id.None?
      modifies this
      ensures Inv() && old(log) <= log && old(clock) <= clock && Limited(old(Now()), m, Now())
      ensures if killed then old(clock) < clock && world(clock - 1).kill else Follows(old(Now()), m, line, Now())
    {
      var r := HandleNotification(m.call);
      killed := r.Fail? && r.error.Killed?;
      line := if r.Fail? then Some(Reply(None, Unavailable(m.call))) else None;
    }

    method ServeRequest(m: Message) returns (line: Option<Reply>, killed: bool)
      requires Inv() && m.id.Some?
      modifies this
      ensures Inv() && old(log) <= log && old(clock) <= clock && Limited(old(Now()), m, Now())
      ensures if killed then old(clock) < clock && world(clock - 1).kill else Follows(old(Now()), m, line, Now())
    {
      var r := HandleRequest(m);
      killed := r.Fail? && r.error.Killed?;
      line := LineFor(m, r);
    }

    function LineFor(m: Message, r: Try<Answer>): Option<Reply>
      requires m.id.Some?
    {
      Some(if r.Ok? then LineOf(m.id.value, r.value) else Reply(Some(HostId(m.id.value)), Unavailable(m.call)))
    }

    twostate lemma CertainWriteLater(m: Message, new identity: Option<string>, new r: Try<Answer>)
      requires m.id.Some? && Blames(r)
      requires identity.Some? ==> WriteHandled(identity.value, HostId(m.id.value), r)
      ensures r != Fail(Killed) && identity.Some? ==>
                CertainWrite(old(Now()), identity.value, HostId(m.id.value), LineFor(m, r), Now())
    {
    }

    /** In particular the gate stands after each message as its log says, shut after every list
        change that nothing of the host followed. */
    lemma ShutMeansNow(a: Moment, m: Message, line: Option<Reply>, b: Moment)
      requires summarize == SummaryOf && Follows(a, m, line, b)
      ensures b.shut <==> BridgeLog.Shut(b.log, |b.log|)
      ensures Closed(b.log, |b.log|) && !b.shut <==> Slipped(b.log, |b.log|)
    {
      GateMeans(b.log);
    }

    /** Message by message, from moment to moment. */
    ghost predicate Chain(inputs: seq<Message>, lines: seq<Option<Reply>>, moments: seq<Moment>) {
      && |lines| <= |inputs| && |moments| == |lines| + 1
      && forall k | 0 <= k < |lines| :: Follows(moments[k], inputs[k], lines[k], moments[k + 1])
    }

    /** Serve a session until it ends or the process is killed: `lines` holds, for each message
        handled, the line written back, if any. */
    method Run(inputs: seq<Message>) returns (lines: seq<Option<Reply>>, killed: bool, ghost moments: seq<Moment>)
      requires Inv()
      modifies this
      ensures Inv() && Chain(inputs, lines, moments) && moments[0] == old(Now()) && sum.starts == old(sum).starts
      ensures !killed ==> |lines| == |inputs| && moments[|lines|] == Now()
      ensures killed ==>
                && |lines| < |inputs| && Limited(moments[|lines|], inputs[|lines|], Now())
                && moments[|lines|].clock < clock && world(clock - 1).kill
    {
      lines, moments := [], [Now()];
      for k := 0 to |inputs|
        invariant Inv() && |lines| == k && |moments| == k + 1 && moments[0] == old(Now()) && moments[k] == Now()
        invariant Chain(inputs, lines, moments) && sum.starts == old(sum).starts
      {
        var line;
        if inputs[k].id.Some? {
          line, killed := ServeRequest(inputs[k]);
        } else {
          line, killed := ServeNotification(inputs[k]);
        }
        if killed {
          return;
        }
        lines, moments := lines + [line], moments + [Now()];
      }
      killed := false;
    }
  }

  /** Any number of processes, each killed or ended at any point and followed by another on
      the same state file. Over all of them no key is written twice, every written key is on
      the disk, no write leaves while the gate is shut, and one leaves while the contract keeps
      it closed exactly where, with the gate open, another catalog could not be recorded. */
  method ServeSessions(world: nat -> Happening, maxAttempts: nat, file: PrivateState, sessions: seq<seq<Message>>)
    returns (b: Bridge)
    ensures fresh(b) && b.Inv() && SummaryOf(b.log).starts == |sessions| + 1
    ensures AtMostOnce(b.log)
    ensures forall e | e in b.log && e.SentWrite? :: e.key in b.disk.writes && e.key !in file.writes
    ensures forall i | 0 <= i < |b.log| && b.log[i].SentWrite? ::
              !Shut(b.log, i) && (Closed(b.log, i) <==> Slipped(b.log, i))
  {
    b := new Bridge(world, maxAttempts, file);
    for k := 0 to |sessions|
      invariant fresh(b) && b.Inv() && b.firstWrites == file.writes && b.summarize == SummaryOf && b.sum.starts == k + 1
    {
      var lines, killed;
      ghost var moments;
      lines, killed, moments := b.Run(sessions[k]);
      b.Restart();
    }
    OnceMeans(b.log);
    forall e | e in b.log && e.SentWrite?
      ensures e.key in SummaryOf(b.log).keys
    {
      KeysMean(b.log, e.key);
    }
    forall i | 0 <= i < |b.log| && b.log[i].SentWrite?
      ensures !Shut(b.log, i) && (Closed(b.log, i) <==> Slipped(b.log, i))
    {
      WriteMeans(b.log, i);
    }
  }

  lemma WriteMeans(log: seq<Event>, i: nat)
    requires SummaryOf(log).respected && i < |log| && log[i].SentWrite?
    ensures !Shut(log, i) && (Closed(log, i) <==> Slipped(log, i))
  {
    RespectedMeans(log, i);
    OpenBefore(log, i);
    PromisedSince(log, i);
    ShutSince(log, i);
  }

  // ---- what can go wrong ----

  /** No child starts at first; a later one shows a new catalog, and then the state file cannot
      be written. */
  function ForgetfulWorld(c: nat): Happening {
    Happening(false, c in {1, 8}, false, StartFailed, [], id => Response(id, if c == 7 then Tools([]) else Ready))
  }

  function WriteOnce(id: Id, requestId: string): Message {
    Message(Some(id), ToolsCall(Some("workbench_start_task"), Args(Some(requestId), None, None, false)))
  }

  const OLD_FILE := PrivateState({}, Some([Tool("old", true)]))

  /** A moment without a child, before the first write. */
  ghost predicate Waiting(a: Moment, clock: nat, host: bool, seen: bool) {
    && a.clock == clock && a.hostInitialized == host && a.initializeSeen == seen && !a.connected && !a.shut
    && a.data == OLD_FILE && a.readOnly == map[INTRINSIC_READ := true]
  }

  const FORGETFUL_INPUTS := [
    Message(None, Initialized), Message(Some("1"), Initialize), WriteOnce("2", "a"), WriteOnce("3", "b")
  ]

  ghost predicate ForgetfulRun(b: Bridge, lines: seq<Option<Reply>>, moments: seq<Moment>) {
    && b.world == ForgetfulWorld && b.maxAttempts == 1 && b.summarize == SummaryOf
    && |lines| == |FORGETFUL_INPUTS| && b.Chain(FORGETFUL_INPUTS, lines, moments)
  }

  lemma FirstInitialized(b: Bridge, lines: seq<Option<Reply>>, moments: seq<Moment>)
    requires ForgetfulRun(b, lines, moments) && Waiting(moments[0], 0, false, false)
    ensures Waiting(moments[1], 0, true, false)
  {
    assert b.Follows(moments[0], FORGETFUL_INPUTS[0], lines[0], moments[1]);
  }

  lemma ThenNoChild(b: Bridge, lines: seq<Option<Reply>>, moments: seq<Moment>)
    requires ForgetfulRun(b, lines, moments) && Waiting(moments[1], 0, true, false)
    ensures Waiting(moments[2], 4, true, true)
  {
    assert b.Follows(moments[1], FORGETFUL_INPUTS[1], lines[1], moments[2]);
    NoChildYet(b, moments[1], lines[1], moments[2]);
  }

  lemma NoChildYet(b: Bridge, a: Moment, line: Option<Reply>, next: Moment)
    requires b.world == ForgetfulWorld && b.maxAttempts == 1 && Waiting(a, 0, true, false)
    requires b.CertainInitialize(a, HostId("1"), line, next) && next.hostInitialized == a.hostInitialized
    ensures Waiting(next, 4, true, true)
  {
  }

  lemma NotRead(name: string, args: Args)
    requires name == "workbench_start_task"
    ensures !ReadPath(map[INTRINSIC_READ := true], Some(name), args)
  {
    assert |name| < |INTRINSIC_READ|;
  }

  lemma NewIdentity(name: string, requestId: string)
    requires name == "workbench_start_task" && requestId in {"a", "b"}
    ensures WriteIdentity(Some(name), Args(Some(requestId), None, None, false)) == Some(requestId)
  {
    assert |name| < |HANDOFF|;
    assert |requestId| == 1;
  }

  lemma RecoversBadly(b: Bridge, counter: nat)
    requires b.world == ForgetfulWorld
    ensures b.RecoverThenFail(4, counter, OLD_FILE.server) && b.Shown(7, counter + 1) == Tools([])
  {
  }

  /** Connected again, the gate open against the promise. */
  ghost predicate Slid(a: Moment) {
    && a.clock == 9 && a.connected && !a.shut && a.data.writes == {} && a.readOnly == map[INTRINSIC_READ := true]
    && a.sum == SummaryOf(a.log) && OpenAgainst(a.sum.gate) && !a.sum.gate.pending && !a.sum.gate.opening
  }

  lemma ThenSlip(b: Bridge, lines: seq<Option<Reply>>, moments: seq<Moment>)
    requires ForgetfulRun(b, lines, moments) && Waiting(moments[2], 4, true, true)
    ensures Slid(moments[3])
  {
    var a, line, next := moments[2], lines[2], moments[3];
    assert b.Follows(a, FORGETFUL_INPUTS[2], line, next);
    NotRead("workbench_start_task", WriteOnce("2", "a").call.args);
    NewIdentity("workbench_start_task", "a");
    assert b.CertainWrite(a, "a", HostId("2"), line, next);
    RecoversBadly(b, a.counter);
  }

  lemma ThenWrite(b: Bridge, a: Moment, line: Option<Reply>, next: Moment)
    requires b.world == ForgetfulWorld && Slid(a) && b.Follows(a, WriteOnce("3", "b"), line, next)
    ensures a.log + [StateWrite(9, true), SentWrite(Key("b"), HostId("3"))] <= next.log
  {
    NotRead("workbench_start_task", WriteOnce("3", "b").call.args);
    NewIdentity("workbench_start_task", "b");
    assert b.CertainWrite(a, "b", HostId("3"), line, next);
  }

  /** A write at `i`, though the gate should have been closed. */
  ghost predicate SlippedWrite(log: seq<Event>, i: nat) {
    i < |log| && log[i].SentWrite? && OpenAgainst(GateBefore(log, i))
  }

  lemma SlipStays(a: Moment, next: Moment, key: Key, id: WireId)
    requires Slid(a) && a.log + [StateWrite(9, true), SentWrite(key, id)] <= next.log
    ensures SlippedWrite(next.log, |a.log| + 1)
  {
    GateOfPrefix(a.log, next.log);
    assert next.log[|a.log|] == StateWrite(9, true) && next.log[|a.log| + 1] == SentWrite(key, id);
    SlippedGateStays(next.log, |a.log|, 9);
  }

  lemma GateOfPrefix(log: seq<Event>, longer: seq<Event>)
    requires log <= longer
    ensures GateBefore(longer, |log|) == SummaryOf(log).gate
  {
    assert longer[..|log|] == log;
  }

  lemma StillClosed(log: seq<Event>, n: nat)
    requires n <= |log| && OpenAgainst(GateBefore(log, n))
    ensures Closed(log, n) && !Shut(log, n)
  {
    PromisedSince(log, n);
    ShutSince(log, n);
  }

  lemma SlippedGateStays(log: seq<Event>, n: nat, at: nat)
    requires n < |log| && log[n] == StateWrite(at, true) && OpenAgainst(GateBefore(log, n))
    requires !GateBefore(log, n).pending && !GateBefore(log, n).opening
    ensures OpenAgainst(GateBefore(log, n + 1))
  {
    GateAfter(log, n);
  }

  lemma LastWriteSlips(b: Bridge, a: Moment, line: Option<Reply>, next: Moment)
    requires b.world == ForgetfulWorld && Slid(a) && b.Follows(a, WriteOnce("3", "b"), line, next)
    ensures SlippedWrite(next.log, |a.log| + 1)
  {
    ThenWrite(b, a, line, next);
    SlipStays(a, next, Key("b"), HostId("3"));
  }

  lemma ForgetfulEnds(b: Bridge, lines: seq<Option<Reply>>, moments: seq<Moment>)
    requires ForgetfulRun(b, lines, moments) && Waiting(moments[0], 0, false, false)
    ensures SlippedWrite(moments[4].log, |moments[3].log| + 1)
  {
    FirstInitialized(b, lines, moments);
    ThenNoChild(b, lines, moments);
    ThenSlip(b, lines, moments);
    assert b.Follows(moments[3], FORGETFUL_INPUTS[3], lines[3], moments[4]);
    LastWriteSlips(b, moments[3], lines[3], moments[4]);
  }

  /** The gate really slips: a reconnect shows another catalog, the state file cannot be
      written, and the next new write goes out although the host has seen no fresh list. */
  method GateSlips() returns (b: Bridge, ghost i: nat)
    ensures SlippedWrite(b.log, i) && Closed(b.log, i) && !Shut(b.log, i)
  {
    b := new Bridge(ForgetfulWorld, 1, OLD_FILE);
    var lines, killed;
    ghost var moments;
    lines, killed, moments := b.Run(FORGETFUL_INPUTS);
    assert !killed;
    ForgetfulEnds(b, lines, moments);
    i := |moments[3].log| + 1;
    StillClosed(b.log, i);
  }

  /** The child starts, then is lost while the state file cannot be written. */
  function LossyWorld(c: nat): Happening {
    Happening(false, c >= 4, false, WriteFailed, [], id => Response(id, Ready))
  }

  const LOSSY_INPUTS := [Message(Some("1"), Initialize), Message(None, Other)]

  ghost predicate LossyRun(b: Bridge, lines: seq<Option<Reply>>, moments: seq<Moment>) {
    && b.world == LossyWorld && b.maxAttempts == 1 && |lines| == |LOSSY_INPUTS| && b.Chain(LOSSY_INPUTS, lines, moments)
  }

  lemma FirstConnected(b: Bridge, lines: seq<Option<Reply>>, moments: seq<Moment>)
    requires LossyRun(b, lines, moments) && moments[0].clock == 0
    ensures lines[0] == Some(Reply(Some(HostId("1")), Child(Response(HostId("1"), Ready))))
    ensures moments[1].clock == 4 && moments[1].connected
  {
    assert b.Follows(moments[0], LOSSY_INPUTS[0], lines[0], moments[1]);
    assert b.CertainRequest(moments[0], Initialize, HostId("1"), lines[0], moments[1]);
    assert b.StartsAt(1, HostId("1"));
  }

  lemma ThenLost(b: Bridge, lines: seq<Option<Reply>>, moments: seq<Moment>)
    requires LossyRun(b, lines, moments) && moments[1].clock == 4 && moments[1].connected
    ensures lines[1] == Some(Reply(None, RpcError(STATE_UNAVAILABLE)))
  {
    assert b.Follows(moments[1], LOSSY_INPUTS[1], lines[1], moments[2]);
  }

  /** A notification is answered: the host gets an error line with a null id. */
  method NotificationAnswered() returns (lines: seq<Option<Reply>>)
    ensures lines == [Some(Reply(Some(HostId("1")), Child(Response(HostId("1"), Ready)))),
                      Some(Reply(None, RpcError(STATE_UNAVAILABLE)))]
  {
    var b := new Bridge(LossyWorld, 1, OLD_FILE);
    var killed;
    ghost var moments;
    lines, killed, moments := b.Run(LOSSY_INPUTS);
    assert !killed;
    FirstConnected(b, lines, moments);
    ThenLost(b, lines, moments);
  }
}
