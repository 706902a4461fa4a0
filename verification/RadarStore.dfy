/** src/codex_radar_provider/provider.py, `RadarRegistry`: the last-known-good snapshot, kept in a
    database and projected to files. Any write may fail or be the last thing the process
    does; a read of the database may fail. */
module RadarStore {
  import opened Options

  datatype Id = Id(text: string)
  datatype Digest = Digest(text: string)
  datatype Raw = Raw(payloads: string)

  /** `valid`: what `validate_radar_snapshot` accepts. `updatedAt`: the source's timestamp. */
  datatype Snapshot = Snapshot(id: Id, digest: Digest, valid: bool, updatedAt: Option<int>, document: string)

  datatype Database = Database(snapshots: map<Id, Snapshot>, raws: map<Id, Raw>, active: Option<Id>)
  datatype Projection = Projection(raws: map<Id, Raw>, generations: map<Id, Snapshot>, active: Option<Id>)

  /** The active pointer names a stored valid snapshot; its raw payloads are stored with it. */
  predicate Sound(db: Database) {
    && (forall id | id in db.snapshots :: db.snapshots[id].id == id && db.snapshots[id].valid && id in db.raws)
    && (db.active.Some? ==> db.active.value in db.snapshots)
  }

  function ActiveIn(db: Database): Option<Snapshot> {
    if db.active.Some? && db.active.value in db.snapshots && db.snapshots[db.active.value].valid
    then Some(db.snapshots[db.active.value]) else None
  }

  /** A transaction that stores a snapshot and makes it active; `None` is an error. */
  function Adopted(db: Database, s: Snapshot, raw: Raw): Option<Database> {
    if !s.valid || (s.id in db.snapshots && db.snapshots[s.id].digest != s.digest) then None
    else Some(Database(db.snapshots[s.id := s], db.raws[s.id := raw], Some(s.id)))
  }

  /** The snapshot that the files project, with its raw payloads. */
  function ActiveOnFile(p: Projection): Option<(Snapshot, Raw)> {
    if p.active.None? || p.active.value !in p.generations || !p.generations[p.active.value].valid then None
    else if p.active.value !in p.raws then None
    else Some((p.generations[p.active.value], p.raws[p.active.value]))
  }

  /** The database as `active` leaves it, if no access fails. */
  function Migrated(db: Database, p: Projection): Database {
    if ActiveIn(db).Some? || ActiveOnFile(p).None? then db
    else
      var (s, raw) := ActiveOnFile(p).value;
      if Adopted(db, s, raw).Some? then Adopted(db, s, raw).value else db
  }

  /** What `active` returns, if no access fails. */
  function Observed(db: Database, p: Projection): Option<Snapshot> {
    ActiveIn(Migrated(db, p))
  }

  /** What the files project is complete. */
  predicate Complete(p: Projection) {
    p.active.Some? ==> ActiveOnFile(p).Some?
  }

  /** The files after `done` of the three projection writes. */
  function Projected(p: Projection, s: Snapshot, raw: Raw, done: nat): Projection {
    Projection(if done > 0 then p.raws[s.id := raw] else p.raws,
               if done > 1 then p.generations[s.id := s] else p.generations,
               if done > 2 then Some(s.id) else p.active)
  }

  /** Cut anywhere, the three writes leave complete files, with the old or the new snapshot;
      all three leave the new one. */
  lemma ProjectedInOrder(p: Projection, s: Snapshot, raw: Raw, done: nat)
    requires Complete(p) && s.valid
    ensures Complete(Projected(p, s, raw, done))
    ensures var q := ActiveOnFile(Projected(p, s, raw, done));
            if done > 2 then q == Some((s, raw)) else q.Some? <==> ActiveOnFile(p).Some?
    ensures done <= 2 && ActiveOnFile(p).Some? && p.active != Some(s.id) ==>
              ActiveOnFile(Projected(p, s, raw, done)) == ActiveOnFile(p)
  {
  }

  datatype Fault = Fine | Error | Kill
  datatype Outcome = Done | Failed | Killed

  predicate Regressed(previous: Option<Snapshot>, s: Snapshot) {
    previous.Some? && previous.value.updatedAt.Some? && s.updatedAt.Some? &&
    s.updatedAt.value < previous.value.updatedAt.value
  }

  /** No snapshot is older than the one activated right before it, if both bear timestamps. */
  predicate NoneRegresses(history: seq<Snapshot>) {
    forall k | 0 < k < |history| :: !Regressed(Some(history[k - 1]), history[k])
  }

  lemma NoneRegressesMore(history: seq<Snapshot>, s: Snapshot)
    requires NoneRegresses(history) && (history != [] ==> !Regressed(Some(history[|history| - 1]), s))
    ensures NoneRegresses(history + [s])
  {
  }

  lemma AdoptedIsActive(db: Database, s: Snapshot, raw: Raw)
    requires Adopted(db, s, raw).Some?
    ensures ActiveIn(Adopted(db, s, raw).value) == Some(s)
    ensures Sound(db) ==> Sound(Adopted(db, s, raw).value)
  {
  }

  predicate NextReadFails(reads': seq<bool>) {
    reads' != [] && reads'[0]
  }

  function NextWrite(writes: seq<Fault>): Fault {
    if writes == [] then Fine else writes[0]
  }

  function AfterOne<T>(s: seq<T>): seq<T> {
    if s == [] then [] else s[1..]
  }

  /** What a call of `active` comes to, what it returns, the database after it, and what the
      reads and writes still to come meet. */
  datatype LookedUp = LookedUp(outcome: Outcome, found: Option<Snapshot>, db: Database,
                               reads': seq<bool>, writes: seq<Fault>)

  /** `active` under any faults: only a database without an active snapshot, or one that could
      not be read, is given the projected one. */
  function LookUp(db: Database, p: Projection, reads': seq<bool>, writes: seq<Fault>): LookedUp {
    var rest := AfterOne(reads');
    if !NextReadFails(reads') && ActiveIn(db).Some? then LookedUp(Done, ActiveIn(db), db, rest, writes)
    else if ActiveOnFile(p).None? then LookedUp(Done, None, db, rest, writes)
    else
      var (s, raw) := ActiveOnFile(p).value;
      if NextWrite(writes) == Kill then LookedUp(Killed, None, db, rest, AfterOne(writes))
      else if NextWrite(writes) == Error || Adopted(db, s, raw).None?
      then LookedUp(Done, None, db, rest, AfterOne(writes))
      else LookedUp(Done, if NextReadFails(rest) then None else Some(s), Adopted(db, s, raw).value,
                    AfterOne(rest), AfterOne(writes))
  }

  predicate AllRead(reads': seq<bool>) {
    forall k | 0 <= k < |reads'| :: !reads'[k]
  }

  /** If every read succeeds, nothing but the migration of an empty database happens. */
  lemma LookUpKeeps(db: Database, p: Projection, reads': seq<bool>, writes: seq<Fault>)
    requires Sound(db) && AllRead(reads')
    ensures var l := LookUp(db, p, reads', writes);
            && Sound(l.db) && AllRead(l.reads') && l.db in {db, Migrated(db, p)}
            && (l.outcome == Done && ActiveIn(db).Some? ==> l.found == ActiveIn(db) && l.db == db)
            && (l.outcome == Done && l.found.None? ==> l.db == db) && Observed(l.db, p) == Observed(db, p)
  {
    MigratedOnce(db, p);
    if ActiveOnFile(p).Some? && Adopted(db, ActiveOnFile(p).value.0, ActiveOnFile(p).value.1).Some? {
      AdoptedIsActive(db, ActiveOnFile(p).value.0, ActiveOnFile(p).value.1);
    }
  }

  /** One call makes an older snapshot active exactly if the database could not be read, could be
      written, and the files project an older snapshot that the database accepts. */
  lemma RegressesExactly(db: Database, p: Projection, reads': seq<bool>, writes: seq<Fault>)
    ensures var after := ActiveIn(LookUp(db, p, reads', writes).db);
            after.Some? && Regressed(ActiveIn(db), after.value) <==>
            && NextReadFails(reads') && NextWrite(writes) == Fine && ActiveOnFile(p).Some?
            && Adopted(db, ActiveOnFile(p).value.0, ActiveOnFile(p).value.1).Some?
            && Regressed(ActiveIn(db), ActiveOnFile(p).value.0)
  {
    if ActiveOnFile(p).Some? {
      var (s, raw) := ActiveOnFile(p).value;
      if Adopted(db, s, raw).Some? {
        AdoptedIsActive(db, s, raw);
      }
    }
  }

  /** What an ingestion comes to, up to the projection. */
  datatype Ingested = Ingested(outcome: Outcome, committed: bool, db: Database, reads': seq<bool>, writes: seq<Fault>)

  /** `_failure` looks up the active snapshot once more. */
  function Retained(l: LookedUp): Ingested {
    Ingested(if l.outcome == Done then Failed else l.outcome, false, l.db, l.reads', l.writes)
  }

  /** `_ingest` under any faults. */
  function IngestInto(db: Database, p: Projection, reads': seq<bool>, writes: seq<Fault>,
                      incoming: Option<(Snapshot, Raw)>): Ingested
  {
    if incoming.None? then Retained(LookUp(db, p, reads', writes))
    else IngestSeen(LookUp(db, p, reads', writes), p, incoming.value.0, incoming.value.1)
  }

  /** The same, once the active snapshot has been looked up. */
  function IngestSeen(seen: LookedUp, p: Projection, s: Snapshot, raw: Raw): Ingested {
    if seen.outcome == Killed then Ingested(Killed, false, seen.db, seen.reads', seen.writes)
    else if Regressed(seen.found, s) || !s.valid then Retained(LookUp(seen.db, p, seen.reads', seen.writes))
    else if NextWrite(seen.writes) == Kill then Ingested(Killed, false, seen.db, seen.reads', AfterOne(seen.writes))
    else if NextWrite(seen.writes) == Error || Adopted(seen.db, s, raw).None?
    then Retained(LookUp(seen.db, p, seen.reads', AfterOne(seen.writes)))
    else Ingested(Done, true, Adopted(seen.db, s, raw).value, seen.reads', AfterOne(seen.writes))
  }

  /** What the comparison of timestamps meets when the database could not be read: the projected
      snapshot if it could be adopted and read back, else nothing. */
  function SeenUnread(db: Database, p: Projection, reads': seq<bool>, writes: seq<Fault>): Option<Snapshot> {
    if ActiveOnFile(p).Some? && NextWrite(writes) == Fine
       && Adopted(db, ActiveOnFile(p).value.0, ActiveOnFile(p).value.1).Some? && !NextReadFails(AfterOne(reads'))
    then Some(ActiveOnFile(p).value.0) else None
  }

  /** Its turn at the database: the projected snapshot is written first where there is one. */
  predicate Stored(db: Database, p: Projection, writes: seq<Fault>, s: Snapshot, raw: Raw) {
    if ActiveOnFile(p).None? then NextWrite(writes) == Fine && Adopted(db, s, raw).Some?
    else
      var (f, rawOnFile) := ActiveOnFile(p).value;
      && NextWrite(writes) != Kill && NextWrite(AfterOne(writes)) == Fine
      && if NextWrite(writes) == Fine && Adopted(db, f, rawOnFile).Some?
         then Adopted(Adopted(db, f, rawOnFile).value, s, raw).Some? else Adopted(db, s, raw).Some?
  }

  /** An ingestion commits a snapshot older than the active one exactly if the database could not
      be read at first, the comparison then met nothing newer, and the snapshot could be stored. */
  lemma IngestRegressesExactly(db: Database, p: Projection, reads': seq<bool>, writes: seq<Fault>, s: Snapshot,
                               raw: Raw)
    ensures IngestInto(db, p, reads', writes, Some((s, raw))).committed && Regressed(ActiveIn(db), s) <==>
            && NextReadFails(reads') && Regressed(ActiveIn(db), s)
            && !Regressed(SeenUnread(db, p, reads', writes), s) && Stored(db, p, writes, s, raw)
  {
  }

  /** If every read succeeds: the observed snapshot changes exactly by the commit, and never to
      an older one. */
  lemma IngestKeeps(db: Database, p: Projection, reads': seq<bool>, writes: seq<Fault>,
                    incoming: Option<(Snapshot, Raw)>)
    requires Sound(db) && AllRead(reads')
    ensures var r := IngestInto(db, p, reads', writes, incoming);
            && AllRead(r.reads')
            && (if r.committed then !Regressed(ActiveIn(db), incoming.value.0)
                else Observed(r.db, p) == Observed(db, p))
  {
    LookUpKeeps(db, p, reads', writes);
    if incoming.Some? {
      LookUpSound(db, p, reads', writes);
      SeenKeeps(LookUp(db, p, reads', writes), p, incoming.value.0, incoming.value.1);
    }
  }

  lemma SeenKeeps(seen: LookedUp, p: Projection, s: Snapshot, raw: Raw)
    requires Sound(seen.db) && AllRead(seen.reads')
    ensures var r := IngestSeen(seen, p, s, raw);
            && AllRead(r.reads')
            && (if r.committed then seen.outcome != Killed && !Regressed(seen.found, s)
                else Observed(r.db, p) == Observed(seen.db, p))
  {
    LookUpKeeps(seen.db, p, seen.reads', seen.writes);
    LookUpKeeps(seen.db, p, seen.reads', AfterOne(seen.writes));
  }

  /** Under any faults the database stays sound, and what is committed is active. */
  lemma IngestSound(db: Database, p: Projection, reads': seq<bool>, writes: seq<Fault>,
                    incoming: Option<(Snapshot, Raw)>)
    requires Sound(db)
    ensures var r := IngestInto(db, p, reads', writes, incoming);
            Sound(r.db) && (r.committed ==> incoming.Some? && ActiveIn(r.db) == Some(incoming.value.0))
  {
    LookUpSound(db, p, reads', writes);
    if incoming.Some? {
      SeenSound(LookUp(db, p, reads', writes), p, incoming.value.0, incoming.value.1);
    }
  }

  lemma SeenSound(seen: LookedUp, p: Projection, s: Snapshot, raw: Raw)
    requires Sound(seen.db)
    ensures var r := IngestSeen(seen, p, s, raw);
            Sound(r.db) && (r.committed ==> ActiveIn(r.db) == Some(s))
  {
    LookUpSound(seen.db, p, seen.reads', seen.writes);
    LookUpSound(seen.db, p, seen.reads', AfterOne(seen.writes));
    if Adopted(seen.db, s, raw).Some? {
      AdoptedIsActive(seen.db, s, raw);
    }
  }

  lemma LookUpSound(db: Database, p: Projection, reads': seq<bool>, writes: seq<Fault>)
    requires Sound(db)
    ensures Sound(LookUp(db, p, reads', writes).db)
  {
    if ActiveOnFile(p).Some? && Adopted(db, ActiveOnFile(p).value.0, ActiveOnFile(p).value.1).Some? {
      AdoptedIsActive(db, ActiveOnFile(p).value.0, ActiveOnFile(p).value.1);
    }
  }

  /** Once the database has an active snapshot, the files do not matter. */
  lemma FilesDoNotMatter(db: Database, p: Projection, q: Projection)
    ensures ActiveIn(db).Some? ==> Migrated(db, p) == db && Observed(db, p) == Observed(db, q) == ActiveIn(db)
  {
  }

  /** Looking twice is looking once. */
  lemma MigratedOnce(db: Database, p: Projection)
    ensures Migrated(Migrated(db, p), p) == Migrated(db, p)
    ensures Observed(Migrated(db, p), p) == Observed(db, p)
    ensures Sound(db) ==> Sound(Migrated(db, p))
  {
    if ActiveIn(db).None? && ActiveOnFile(p).Some? {
      var (s, raw) := ActiveOnFile(p).value;
      if Adopted(db, s, raw).Some? {
        AdoptedIsActive(db, s, raw);
      }
    }
  }

  class Registry {
    var db: Database
    var projection: Projection
    /** Whether the next reads of the database fail, and what happens to the next writes. */
    var readFaults: seq<bool>
    var writeFaults: seq<Fault>
    /** The snapshots that ingestion made active. */
    ghost var history: seq<Snapshot>

    /** What holds as long as the database can be read. */
    ghost predicate Valid()
      reads this
    {
      && Sound(db) && NoneRegresses(history) && AllRead(readFaults)
      && (history != [] ==> ActiveIn(db) == Some(history[|history| - 1]))
    }

    constructor (db: Database, projection: Projection, readFaults: seq<bool>, writeFaults: seq<Fault>)
      requires Sound(db)
      ensures Sound(this.db) && history == []
      ensures this.db == db && this.projection == projection && this.readFaults == readFaults
              && this.writeFaults == writeFaults
    {
      this.db, this.projection, this.readFaults, this.writeFaults := db, projection, readFaults, writeFaults;
      this.history := [];
    }

    method Write() returns (f: Fault)
      modifies this`writeFaults
      ensures f == NextWrite(old(writeFaults)) && writeFaults == AfterOne(old(writeFaults))
    {
      if writeFaults == [] {
        return Fine;
      }
      f := writeFaults[0];
      writeFaults := writeFaults[1..];
    }

    /** `_database_active`. */
    method DatabaseActive() returns (r: Option<Snapshot>)
      modifies this`readFaults
      ensures r == if NextReadFails(old(readFaults)) then None else ActiveIn(db)
      ensures readFaults == AfterOne(old(readFaults))
    {
      var fails := readFaults != [] && readFaults[0];
      if readFaults != [] {
        readFaults := readFaults[1..];
      }
      r := if fails then None else ActiveIn(db);
    }

    /** `_persist_database`. */
    method PersistDatabase(s: Snapshot, raw: Raw) returns (o: Outcome)
      modifies this`db, this`writeFaults
      ensures o == Done ==> Adopted(old(db), s, raw) == Some(db)
      ensures o != Done ==> db == old(db)
      ensures o == Done <==> Adopted(old(db), s, raw).Some? && NextWrite(old(writeFaults)) == Fine
      ensures o == Killed <==> s.valid && NextWrite(old(writeFaults)) == Kill
      ensures writeFaults == if s.valid then AfterOne(old(writeFaults)) else old(writeFaults)
    {
      if !s.valid {
        return Failed;
      }
      var f := Write();
      if f == Kill {
        return Killed;
      }
      if f == Error || (s.id in db.snapshots && db.snapshots[s.id].digest != s.digest) {
        return Failed;
      }
      db := Database(db.snapshots[s.id := s], db.raws[s.id := raw], Some(s.id));
      o := Done;
    }

    /** `active`, with `_migrate_projection_active`: a killed process returns nothing. */
    method Active() returns (o: Outcome, r: Option<Snapshot>)
      requires Sound(db)
      modifies this`db, this`readFaults, this`writeFaults
      ensures LookedUp(o, r, db, readFaults, writeFaults) ==
              LookUp(old(db), projection, old(readFaults), old(writeFaults))
      ensures Sound(db)
    {
      r := DatabaseActive();
      if r.Some? {
        return Done, r;
      }
      var onFile := ActiveOnFile(projection);
      if onFile.None? {
        return Done, None;
      }
      if Adopted(db, onFile.value.0, onFile.value.1).Some? {
        AdoptedIsActive(db, onFile.value.0, onFile.value.1);
      }
      o := PersistDatabase(onFile.value.0, onFile.value.1);
      if o == Done {
        r := DatabaseActive();
      } else if o == Failed {
        o := Done;
      }
    }

    /** The three projection writes of `_persist`, each of which may fail or be the last. */
    method Project(s: Snapshot, raw: Raw) returns (o: Outcome, ghost done: nat)
      modifies this`projection, this`writeFaults
      ensures projection == Projected(old(projection), s, raw, done)
      ensures o == Done <==> done == 3
      ensures old(writeFaults) == [] ==> o == Done
    {
      done := 0;
      var f := Write();
      if f != Fine {
        return if f == Kill then Killed else Failed, done;
      }
      projection, done := projection.(raws := projection.raws[s.id := raw]), 1;
      f := Write();
      if f != Fine {
        return if f == Kill then Killed else Failed, done;
      }
      projection, done := projection.(generations := projection.generations[s.id := s]), 2;
      f := Write();
      if f != Fine {
        return if f == Kill then Killed else Failed, done;
      }
      projection, done := projection.(active := Some(s.id)), 3;
      o := Done;
    }

    /** `_failure`. */
    method Failure() returns (o: Outcome)
      requires Sound(db)
      modifies this`db, this`readFaults, this`writeFaults
      ensures Sound(db)
      ensures Ingested(o, false, db, readFaults, writeFaults) ==
              Retained(LookUp(old(db), projection, old(readFaults), old(writeFaults)))
    {
      var r;
      o, r := Active();
      if o == Done {
        o := Failed;
      }
    }

    /** The rest of `_ingest`, once the active snapshot has been looked up. */
    method Keep(previous: Option<Snapshot>, s: Snapshot, raw: Raw) returns (o: Outcome, ghost committed: bool)
      requires Sound(db)
      modifies this
      ensures var seen := LookedUp(Done, previous, old(db), old(readFaults), old(writeFaults));
              var r := IngestSeen(seen, old(projection), s, raw);
              && committed == r.committed && db == r.db && readFaults == r.reads'
              && (!committed ==> o == r.outcome && writeFaults == r.writes)
      ensures if committed then
                && o != Failed && history == old(history) + [s]
                && exists done :: projection == Projected(old(projection), s, raw, done)
              else history == old(history) && projection == old(projection) && o != Done
    {
      committed := false;
      if Regressed(previous, s) || !s.valid {
        o := Failure();
        return;
      }
      o := PersistDatabase(s, raw);
      if o == Failed {
        o := Failure();
      } else if o == Done {
        history := history + [s];
        committed := true;
        ghost var done;
        o, done := Project(s, raw);
        o := if o == Killed then Killed else Done;
      }
    }

    /** `_ingest`: `incoming` is `None` where the payloads do not make a snapshot. Whatever the
        projection writes come to, the outcome is Done as soon as the database has committed,
        unless the process is killed. */
    method Ingest(incoming: Option<(Snapshot, Raw)>) returns (o: Outcome, ghost committed: bool)
      requires Sound(db)
      modifies this
      ensures Sound(db)
      ensures var r := IngestInto(old(db), old(projection), old(readFaults), old(writeFaults), incoming);
              && committed == r.committed && db == r.db && readFaults == r.reads'
              && (!committed ==> o == r.outcome && writeFaults == r.writes)
      ensures if committed then
                && incoming.Some? && ActiveIn(db) == Some(incoming.value.0) && o != Failed
                && history == old(history) + [incoming.value.0]
                && exists done :: projection == Projected(old(projection), incoming.value.0, incoming.value.1, done)
              else history == old(history) && projection == old(projection) && o != Done
      ensures old(Valid()) ==> Valid()
      ensures old(Valid()) ==>
                Observed(db, projection) ==
                if committed then Some(incoming.value.0) else old(Observed(db, projection))
    {
      ghost var valid, was := Valid(), history;
      IngestSound(db, projection, readFaults, writeFaults, incoming);
      if valid {
        IngestKeeps(db, projection, readFaults, writeFaults, incoming);
      }
      committed := false;
      if incoming.None? {
        o := Failure();
      } else {
        var previous;
        o, previous := Active();
        if o == Done {
          o, committed := Keep(previous, incoming.value.0, incoming.value.1);
        }
      }
      FilesDoNotMatter(db, projection, projection);
      if valid && committed {
        NoneRegressesMore(was, incoming.value.0);
      }
    }
  }

  /** Any number of ingestions, by any number of processes, over any faults. If every read
      succeeds, never does one activate a snapshot older than the one before, and the active one
      is always the last. */
  method IngestAll(registry: Registry, incoming: seq<Option<(Snapshot, Raw)>>) returns (ghost committed: seq<bool>)
    requires Sound(registry.db) && registry.history == []
    modifies registry
    ensures Sound(registry.db)
    ensures |committed| == |incoming| && Committed(incoming, committed) == registry.history
    ensures old(AllRead(registry.readFaults)) ==>
              && NoneRegresses(registry.history)
              && Observed(registry.db, registry.projection) ==
                 if registry.history != [] then Some(registry.history[|registry.history| - 1])
                 else old(Observed(registry.db, registry.projection))
  {
    committed := [];
    for i := 0 to |incoming|
      invariant Sound(registry.db) && |committed| == i && Committed(incoming[..i], committed) == registry.history
      invariant old(AllRead(registry.readFaults)) ==>
                  && registry.Valid()
                  && Observed(registry.db, registry.projection) ==
                     if registry.history != [] then Some(registry.history[|registry.history| - 1])
                     else old(Observed(registry.db, registry.projection))
    {
      var o;
      ghost var c;
      o, c := registry.Ingest(incoming[i]);
      committed := committed + [c];
      assert incoming[..i + 1][..i] == incoming[..i] && committed[..i] == committed[..i + 1][..i];
    }
    assert incoming[..|incoming|] == incoming;
  }

  /** The snapshots of the ingestions that committed. */
  ghost function Committed(incoming: seq<Option<(Snapshot, Raw)>>, committed: seq<bool>): seq<Snapshot>
    requires |incoming| == |committed|
  {
    if incoming == [] then []
    else
      var n := |incoming| - 1;
      Committed(incoming[..n], committed[..n])
      + if committed[n] && incoming[n].Some? then [incoming[n].value.0] else []
  }

  /** One failed read, and an older snapshot that the files still project takes the place of the
      newer one in the database. */
  method FailedReadRegresses() returns (before: Option<Snapshot>, after: Option<Snapshot>)
    ensures after.Some? && Regressed(before, after.value)
  {
    var older := Snapshot(Id("a"), Digest("a"), true, Some(1), "");
    var newer := Snapshot(Id("b"), Digest("b"), true, Some(2), "");
    assert older.id != newer.id by {
      assert older.id.text[0] != newer.id.text[0];
    }
    var raw := Raw("");
    var db := Database(map[newer.id := newer], map[newer.id := raw], Some(newer.id));
    var projection := Projection(map[older.id := raw], map[older.id := older], Some(older.id));
    var registry := new Registry(db, projection, [true], []);
    before := ActiveIn(registry.db);
    var o, r := registry.Active();
    AdoptedIsActive(db, older, raw);
    after := ActiveIn(registry.db);
  }
  /** One failed read, no projection, and an ingestion commits an older snapshot. */
  method OlderIsIngested() returns (before: Option<Snapshot>, after: Option<Snapshot>)
    ensures after.Some? && Regressed(before, after.value)
  {
    var older := Snapshot(Id("a"), Digest("a"), true, Some(1), "");
    var newer := Snapshot(Id("b"), Digest("b"), true, Some(2), "");
    assert older.id != newer.id by {
      assert older.id.text[0] != newer.id.text[0];
    }
    var db := Database(map[newer.id := newer], map[newer.id := Raw("")], Some(newer.id));
    var registry := new Registry(db, Projection(map[], map[], None), [true], []);
    before := ActiveIn(registry.db);
    IngestRegressesExactly(db, registry.projection, [true], [], older, Raw(""));
    var o;
    ghost var committed;
    o, committed := registry.Ingest(Some((older, Raw(""))));
    after := ActiveIn(registry.db);
  }
}
