/** scripts/install-macbook-client.py and scripts/install-macos.py, `InstallTransaction`:
    snapshots of file trees taken before an installation, and the rollback that puts them
    back. A file system maps each path to what is there; directory modes, times and the
    transaction's own backup directory are not part of it. */
module SnapshotRollback {
  import opened Options

  datatype Name = Name(text: string)
  type Path = seq<Name>
  datatype Bytes = Bytes(values: seq<bv8>)
  datatype Node = Dir | File(content: Bytes) | Link(target: Bytes)
  type Files = map<Path, Node>

  /** `q` is `p` or something under it. */
  predicate Covers(p: Path, q: Path) { p <= q }

  /** `a` is a directory on the way to `p`. */
  predicate Above(a: Path, p: Path) { a < p }

  function At(files: Files, p: Path): Option<Node> {
    if p in files then Some(files[p]) else None
  }

  /** Whatever exists lies in directories. */
  ghost predicate WellFormed(files: Files) {
    forall a, q | Above(a, q) && q in files :: a in files && files[a] == Dir
  }

  function Subtree(files: Files, p: Path): Files {
    map q | q in files && Covers(p, q) :: files[q]
  }

  /** `remove_path`. */
  function Without(files: Files, p: Path): Files {
    map q | q in files && !Covers(p, q) :: files[q]
  }

  /** `mkdir(parents=True)` for what is above `p`. */
  function WithParents(files: Files, p: Path): Files {
    files + (map a | a in (set k | 0 <= k < |p| :: p[..k]) && a !in files :: Dir)
  }

  /** What the symlink check before an entry is touched finds; `allowLink` spares the path itself. */
  predicate LinkOn(files: Files, p: Path, allowLink: bool) {
    exists k | 0 <= k <= |p| && (allowLink ==> k < |p|) :: At(files, p[..k]).Some? && files[p[..k]].Link?
  }

  predicate FileAbove(files: Files, p: Path) {
    exists k | 0 <= k < |p| :: At(files, p[..k]).Some? && files[p[..k]].File?
  }

  /** The backup holds the subtree of the path when the snapshot was taken; it is empty when
      nothing existed there. */
  datatype Entry = Entry(path: Path, backup: Files, allowLink: bool)

  /** One round of the rollback loop: whether it succeeds, and the files after it. */
  function RestoreEntry(files: Files, e: Entry): (bool, Files) {
    var cleared := Without(files, e.path);
    if e.path !in e.backup then (true, cleared)
    else if FileAbove(cleared, e.path) then (false, cleared)
    else (true, WithParents(cleared, e.path) + e.backup)
  }

  /** `left`: how many entries were not reached because the symlink check ended the rollback.
      `failed`: the entries that could not be put back. */
  datatype Unwinding = Unwinding(files: Files, failed: set<nat>, left: nat)

  /** The rollback of the first `n` entries, last one first. */
  function Unwind(files: Files, entries: seq<Entry>, n: nat): Unwinding
    requires n <= |entries|
    decreases n
  {
    if n == 0 then Unwinding(files, {}, 0)
    else
      var e := entries[n - 1];
      if LinkOn(files, e.path, e.allowLink) then Unwinding(files, {}, n)
      else
        var (ok, next) := RestoreEntry(files, e);
        var rest := Unwind(next, entries, n - 1);
        if ok then rest else rest.(failed := rest.failed + {n - 1})
  }

  /** Snapshots of one file system. The check made when each was taken found no link. */
  ghost predicate Snapshots(old': Files, entries: seq<Entry>) {
    forall k | 0 <= k < |entries| ::
      && entries[k].backup == Subtree(old', entries[k].path)
      && !LinkOn(old', entries[k].path, entries[k].allowLink)
  }

  /** Covered by an entry from the `n`th on. */
  ghost predicate Done(entries: seq<Entry>, n: nat, q: Path) {
    exists k | n <= k < |entries| :: Covers(entries[k].path, q)
  }

  ghost predicate Pending(entries: seq<Entry>, n: nat, q: Path)
    requires n <= |entries|
  {
    exists k | 0 <= k < n :: Covers(entries[k].path, q)
  }

  /** Untouched, or a directory of the old file system made again. */
  ghost predicate Kept(before: Files, after: Files, now: Files, q: Path) {
    At(now, q) == At(after, q) || (At(after, q) == None && At(now, q) == At(before, q) == Some(Dir))
  }

  /** Entries `n` and up are rolled back: what they cover is as `before`, or missing. */
  ghost predicate Unwound(before: Files, after: Files, entries: seq<Entry>, n: nat, now: Files) {
    && WellFormed(now)
    && (forall q | Done(entries, n, q) :: At(now, q) == None || At(now, q) == At(before, q))
    && (forall q | !Done(entries, n, q) :: Kept(before, after, now, q))
  }

  lemma ParentsMade(files: Files, p: Path, q: Path)
    ensures At(WithParents(files, p), q) == if Above(q, p) && q !in files then Some(Dir) else At(files, q)
  {
    if Above(q, p) {
      assert q == p[..|q|];
    }
  }

  lemma LinkAt(files: Files, p: Path, allowLink: bool, a: Path)
    requires Covers(a, p) && (allowLink ==> a != p) && a in files && files[a].Link?
    ensures LinkOn(files, p, allowLink)
  {
    assert p[..|a|] == a;
  }

  lemma FileAt(files: Files, p: Path, a: Path)
    requires Above(a, p) && a in files && files[a].File?
    ensures FileAbove(files, p)
  {
    assert p[..|a|] == a;
  }

  /** What restoring an entry does to each path. */
  lemma RestoredAt(before: Files, files: Files, e: Entry, q: Path)
    requires e.backup == Subtree(before, e.path)
    ensures var (ok, now) := RestoreEntry(files, e);
            At(now, q) == if Covers(e.path, q) then (if ok then At(before, q) else None)
                          else if ok && e.path in before && Above(q, e.path) && q !in files then Some(Dir)
                          else At(files, q)
    requires WellFormed(before)
  {
    var cleared := Without(files, e.path);
    ParentsMade(cleared, e.path, q);
    assert Covers(e.path, q) ==> q == e.path || Above(e.path, q);
  }

  lemma RestoreKeepsForm(before: Files, files: Files, e: Entry)
    requires WellFormed(before) && WellFormed(files) && e.backup == Subtree(before, e.path)
    requires !LinkOn(files, e.path, e.allowLink)
    ensures WellFormed(RestoreEntry(files, e).1)
  {
    var now := RestoreEntry(files, e).1;
    forall a, q | Above(a, q) && q in now
      ensures a in now && now[a] == Dir
    {
      RestoredLiesInDirectory(before, files, e, a, q);
    }
  }

  lemma RestoredLiesInDirectory(before: Files, files: Files, e: Entry, a: Path, q: Path)
    requires WellFormed(before) && WellFormed(files) && e.backup == Subtree(before, e.path)
    requires !LinkOn(files, e.path, e.allowLink)
    requires Above(a, q) && q in RestoreEntry(files, e).1
    ensures At(RestoreEntry(files, e).1, a) == Some(Dir)
  {
    RestoredAt(before, files, e, a);
    RestoredAt(before, files, e, q);
    AboveMeets(a, e.path, q);
    if Above(a, e.path) && e.path in e.backup && RestoreEntry(files, e).0 {
      RestoredAbove(files, e, a);
    }
  }

  lemma AboveMeets(a: Path, p: Path, q: Path)
    requires Above(a, q)
    ensures Covers(p, q) && !Covers(p, a) ==> Above(a, p)
    ensures Covers(p, a) ==> Covers(p, q)
    ensures Above(q, p) ==> Above(a, p)
  {
  }

  lemma RestoredAbove(files: Files, e: Entry, a: Path)
    requires Above(a, e.path) && RestoreEntry(files, e).0 && e.path in e.backup
    requires !LinkOn(files, e.path, e.allowLink)
    ensures a in files ==> files[a] == Dir
  {
    var cleared := Without(files, e.path);
    if a in files {
      assert a in cleared;
      if files[a].File? {
        FileAt(cleared, e.path, a);
      } else if files[a].Link? {
        LinkAt(files, e.path, e.allowLink, a);
      }
    }
  }

  lemma StepKept(before: Files, after: Files, entries: seq<Entry>, n: nat, now: Files)
    requires n < |entries| && Snapshots(before, entries) && WellFormed(before)
    requires Unwound(before, after, entries, n + 1, now)
    requires !LinkOn(now, entries[n].path, entries[n].allowLink)
    ensures Unwound(before, after, entries, n, RestoreEntry(now, entries[n]).1)
  {
    var e := entries[n];
    RestoreKeepsForm(before, now, e);
    forall q
      ensures Done(entries, n, q) <==> Covers(e.path, q) || Done(entries, n + 1, q)
      ensures var next := RestoreEntry(now, e).1;
              if Done(entries, n, q) then At(next, q) == None || At(next, q) == At(before, q)
              else Kept(before, after, next, q)
    {
      RestoredAt(before, now, e, q);
    }
  }

  /** The symlink check ends the rollback at entry `k`: a link on its way which no later entry covers. */
  ghost predicate Stops(after: Files, entries: seq<Entry>, k: nat)
    requires k < |entries|
  {
    var e := entries[k];
    exists a :: && Covers(a, e.path) && (e.allowLink ==> a != e.path)
                && a in after && after[a].Link? && !Done(entries, k + 1, a)
  }

  /** Entry `k` cannot be put back: a file on its way which no later entry covers. */
  ghost predicate Fails(after: Files, entries: seq<Entry>, k: nat)
    requires k < |entries|
  {
    var e := entries[k];
    && e.path in e.backup
    && exists a :: Above(a, e.path) && a in after && after[a].File? && !Done(entries, k + 1, a)
  }

  /** A file which no entry covers is on the way to something that existed. */
  ghost predicate Blocked(after: Files, entries: seq<Entry>) {
    exists k, a :: && 0 <= k < |entries| && entries[k].path in entries[k].backup
                   && Above(a, entries[k].path) && a in after && after[a].File? && !Done(entries, 0, a)
  }

  lemma LinkMeans(files: Files, p: Path, allowLink: bool)
    ensures LinkOn(files, p, allowLink) <==>
            exists a :: Covers(a, p) && (allowLink ==> a != p) && a in files && files[a].Link?
  {
    if LinkOn(files, p, allowLink) {
      var k :| 0 <= k <= |p| && (allowLink ==> k < |p|) && At(files, p[..k]).Some? && files[p[..k]].Link?;
      assert Covers(p[..k], p);
    }
    forall a | Covers(a, p) && (allowLink ==> a != p) && a in files && files[a].Link?
      ensures LinkOn(files, p, allowLink)
    {
      LinkAt(files, p, allowLink, a);
    }
  }

  lemma FileMeans(files: Files, p: Path)
    ensures FileAbove(files, p) <==> exists a :: Above(a, p) && a in files && files[a].File?
  {
    if FileAbove(files, p) {
      var k :| 0 <= k < |p| && At(files, p[..k]).Some? && files[p[..k]].File?;
      assert Above(p[..k], p);
    }
    forall a | Above(a, p) && a in files && files[a].File?
      ensures FileAbove(files, p)
    {
      FileAt(files, p, a);
    }
  }

  lemma StopsMeans(before: Files, after: Files, entries: seq<Entry>, k: nat, now: Files)
    requires k < |entries| && Snapshots(before, entries)
    requires Unwound(before, after, entries, k + 1, now)
    ensures LinkOn(now, entries[k].path, entries[k].allowLink) <==> Stops(after, entries, k)
  {
    var e := entries[k];
    LinkMeans(now, e.path, e.allowLink);
    LinkMeans(before, e.path, e.allowLink);
    forall a | Covers(a, e.path) && (e.allowLink ==> a != e.path)
      ensures (a in now && now[a].Link?) <==> (a in after && after[a].Link? && !Done(entries, k + 1, a))
    {
      assert At(before, a).Some? ==> !before[a].Link?;
      if Done(entries, k + 1, a) {
        assert At(now, a) == None || At(now, a) == At(before, a);
      } else {
        assert Kept(before, after, now, a);
      }
    }
  }

  lemma FailsMeans(before: Files, after: Files, entries: seq<Entry>, k: nat, now: Files)
    requires k < |entries| && Snapshots(before, entries) && WellFormed(before)
    requires Unwound(before, after, entries, k + 1, now)
    ensures !RestoreEntry(now, entries[k]).0 <==> Fails(after, entries, k)
  {
    var e := entries[k];
    var cleared := Without(now, e.path);
    FileMeans(cleared, e.path);
    if e.path in e.backup {
      forall a | Above(a, e.path)
        ensures (a in cleared && cleared[a].File?) <==> (a in after && after[a].File? && !Done(entries, k + 1, a))
      {
        assert At(before, a) == Some(Dir);
        assert At(cleared, a) == At(now, a);
        if Done(entries, k + 1, a) {
          assert At(now, a) == None || At(now, a) == At(before, a);
        } else {
          assert Kept(before, after, now, a);
        }
      }
    }
  }

  /** What is covered by rolled back entries alone is as before. */
  ghost predicate Settled(before: Files, entries: seq<Entry>, n: nat, now: Files)
    requires n <= |entries|
  {
    forall q | Done(entries, n, q) && !Pending(entries, n, q) :: At(now, q) == At(before, q)
  }

  lemma StepSettles(before: Files, after: Files, entries: seq<Entry>, n: nat, now: Files)
    requires n < |entries| && Snapshots(before, entries) && WellFormed(before)
    requires Unwound(before, after, entries, n + 1, now) && Settled(before, entries, n + 1, now)
    requires !Blocked(after, entries)
    ensures Settled(before, entries, n, RestoreEntry(now, entries[n]).1)
  {
    var e := entries[n];
    var (ok, next) := RestoreEntry(now, e);
    FailsMeans(before, after, entries, n, now);
    forall q | Done(entries, n, q) && !Pending(entries, n, q)
      ensures At(next, q) == At(before, q)
    {
      RestoredAt(before, now, e, q);
      if Covers(e.path, q) && !ok {
        var a :| Above(a, e.path) && a in after && after[a].File? && !Done(entries, n + 1, a);
        assert Done(entries, 0, a);
        NotCovered(entries, n, a, q);
        assert false;
      } else if !Covers(e.path, q) {
        assert Done(entries, n + 1, q) && !Pending(entries, n + 1, q);
      }
    }
  }

  /** Something above an entry that is covered by none of the earlier ones. */
  lemma NotCovered(entries: seq<Entry>, n: nat, a: Path, q: Path)
    requires n < |entries| && Above(a, entries[n].path) && Covers(entries[n].path, q)
    requires !Done(entries, n + 1, a) && !Pending(entries, n, q)
    ensures !Done(entries, 0, a)
  {
    forall k | 0 <= k < n
      ensures !Covers(entries[k].path, a)
    {
      assert !Covers(entries[k].path, q);
    }
  }

  /** A rollback in progress, with all that each round comes to, to its end. */
  ghost predicate Runs(before: Files, after: Files, entries: seq<Entry>, n: nat, now: Files)
    requires n <= |entries|
    decreases n
  {
    && Unwound(before, after, entries, n, now)
    && (n > 0 ==>
        var e := entries[n - 1];
        && (LinkOn(now, e.path, e.allowLink) <==> Stops(after, entries, n - 1))
        && (!LinkOn(now, e.path, e.allowLink) ==>
            && (RestoreEntry(now, e).0 <==> !Fails(after, entries, n - 1))
            && Runs(before, after, entries, n - 1, RestoreEntry(now, e).1)))
  }

  lemma {:induction false} RunsOn(before: Files, after: Files, entries: seq<Entry>, n: nat, now: Files)
    requires n <= |entries| && Snapshots(before, entries) && WellFormed(before)
    requires Unwound(before, after, entries, n, now)
    ensures Runs(before, after, entries, n, now)
    decreases n
  {
    if n > 0 {
      var e := entries[n - 1];
      StopsMeans(before, after, entries, n - 1, now);
      FailsMeans(before, after, entries, n - 1, now);
      if !LinkOn(now, e.path, e.allowLink) {
        StepKept(before, after, entries, n - 1, now);
        RunsOn(before, after, entries, n - 1, RestoreEntry(now, e).1);
      }
    }
  }

  /** A rollback in progress stays one. */
  lemma {:induction false} UnwindKeeps(before: Files, after: Files, entries: seq<Entry>, n: nat, now: Files)
    requires n <= |entries| && Runs(before, after, entries, n, now)
    ensures var r := Unwind(now, entries, n); r.left <= n && Unwound(before, after, entries, r.left, r.files)
    decreases n
  {
    if n > 0 && !LinkOn(now, entries[n - 1].path, entries[n - 1].allowLink) {
      UnwindKeeps(before, after, entries, n - 1, RestoreEntry(now, entries[n - 1]).1);
    }
  }

  /** What of this the symlink check decides. */
  ghost predicate Checks(after: Files, entries: seq<Entry>, n: nat, now: Files)
    requires n <= |entries|
    decreases n
  {
    n > 0 ==>
      var e := entries[n - 1];
      && (LinkOn(now, e.path, e.allowLink) <==> Stops(after, entries, n - 1))
      && (!LinkOn(now, e.path, e.allowLink) ==> Checks(after, entries, n - 1, RestoreEntry(now, e).1))
  }

  lemma {:induction false} ChecksOn(before: Files, after: Files, entries: seq<Entry>, n: nat, now: Files)
    requires n <= |entries| && Runs(before, after, entries, n, now)
    ensures Checks(after, entries, n, now)
    decreases n
  {
    if n > 0 && !LinkOn(now, entries[n - 1].path, entries[n - 1].allowLink) {
      ChecksOn(before, after, entries, n - 1, RestoreEntry(now, entries[n - 1]).1);
    }
  }

  /** It ends early exactly at the first entry, from the last one down, that the symlink check stops. */
  lemma {:induction false} UnwindStops(after: Files, entries: seq<Entry>, n: nat, now: Files)
    requires n <= |entries| && Checks(after, entries, n, now)
    ensures var left := Unwind(now, entries, n).left;
            && left <= n
            && (left > 0 ==> Stops(after, entries, left - 1))
            && (forall k | left <= k < n :: !Stops(after, entries, k))
    decreases n
  {
    if n > 0 && !LinkOn(now, entries[n - 1].path, entries[n - 1].allowLink) {
      UnwindStops(after, entries, n - 1, RestoreEntry(now, entries[n - 1]).1);
    }
  }

  ghost function Failing(after: Files, entries: seq<Entry>, left: nat, n: nat): set<nat>
    requires n <= |entries|
  {
    set k | left <= k < n && Fails(after, entries, k)
  }

  lemma FailingMore(after: Files, entries: seq<Entry>, left: nat, n: nat)
    requires left <= n < |entries|
    ensures Failing(after, entries, left, n + 1) ==
            Failing(after, entries, left, n) + if Fails(after, entries, n) then {n} else {}
  {
  }

  /** It fails exactly at the reached entries behind a file that no later entry covers. */
  lemma {:induction false} UnwindFails(before: Files, after: Files, entries: seq<Entry>, n: nat, now: Files)
    requires n <= |entries| && Runs(before, after, entries, n, now)
    ensures var r := Unwind(now, entries, n); r.left <= n && r.failed == Failing(after, entries, r.left, n)
    decreases n
  {
    if n > 0 && !LinkOn(now, entries[n - 1].path, entries[n - 1].allowLink) {
      UnwindFails(before, after, entries, n - 1, RestoreEntry(now, entries[n - 1]).1);
      OneMoreFails(after, entries, n, now, Fails(after, entries, n - 1));
    }
  }

  lemma OneMoreFails(after: Files, entries: seq<Entry>, n: nat, now: Files, fails: bool)
    requires 0 < n <= |entries| && !LinkOn(now, entries[n - 1].path, entries[n - 1].allowLink)
    requires fails == !RestoreEntry(now, entries[n - 1]).0 == Fails(after, entries, n - 1)
    requires var rest := Unwind(RestoreEntry(now, entries[n - 1]).1, entries, n - 1);
             rest.left < n && rest.failed == Failing(after, entries, rest.left, n - 1)
    ensures var r := Unwind(now, entries, n); r.left < n && r.failed == Failing(after, entries, r.left, n)
  {
    UnwindOnce(now, entries, n);
    FailingMore(after, entries, Unwind(now, entries, n).left, n - 1);
  }

  lemma UnwindOnce(now: Files, entries: seq<Entry>, n: nat)
    requires 0 < n <= |entries| && !LinkOn(now, entries[n - 1].path, entries[n - 1].allowLink)
    ensures var (ok, next) := RestoreEntry(now, entries[n - 1]);
            var rest := Unwind(next, entries, n - 1);
            Unwind(now, entries, n) == rest.(failed := rest.failed + if ok then {} else {n - 1})
  {
  }

  /** Unless a file is in the way for good, it settles all it reaches. */
  lemma {:induction false} UnwindSettles(before: Files, after: Files, entries: seq<Entry>, n: nat, now: Files)
    requires n <= |entries| && Snapshots(before, entries) && WellFormed(before)
    requires Unwound(before, after, entries, n, now)
    requires !Blocked(after, entries) && Settled(before, entries, n, now)
    ensures var r := Unwind(now, entries, n); r.left <= n && Settled(before, entries, r.left, r.files)
  {
    if n > 0 && !LinkOn(now, entries[n - 1].path, entries[n - 1].allowLink) {
      StepBoth(before, after, entries, n - 1, now);
      UnwindSettles(before, after, entries, n - 1, RestoreEntry(now, entries[n - 1]).1);
    }
  }

  lemma StepBoth(before: Files, after: Files, entries: seq<Entry>, n: nat, now: Files)
    requires n < |entries| && Snapshots(before, entries) && WellFormed(before)
    requires Unwound(before, after, entries, n + 1, now) && Settled(before, entries, n + 1, now)
    requires !Blocked(after, entries) && !LinkOn(now, entries[n].path, entries[n].allowLink)
    ensures Unwound(before, after, entries, n, RestoreEntry(now, entries[n]).1)
    ensures Settled(before, entries, n, RestoreEntry(now, entries[n]).1)
  {
    StepKept(before, after, entries, n, now);
    StepSettles(before, after, entries, n, now);
  }

  /** The application directory of an installation: none of its own, one that was not there
      before, or one that was there and was renamed away. */
  datatype App = NoApp | NewApp(root: Path) | Preserved(root: Path, backup: Path)

  /** `rename` of a tree. */
  function Moved(files: Files, from: Path, to: Path): Files {
    var keys := (set q | q in files && !Covers(from, q) && !Covers(to, q)) +
                (set q | q in files && Covers(from, q) :: to + q[|from|..]);
    map q | q in keys :: if Covers(to, q) then MovedFrom(files, from, to, q); files[from + q[|to|..]] else files[q]
  }

  lemma MovedFrom(files: Files, from: Path, to: Path, q: Path)
    requires Covers(to, q) && exists f :: f in files && Covers(from, f) && q == to + f[|from|..]
    ensures from + q[|to|..] in files
  {
    var f :| f in files && Covers(from, f) && q == to + f[|from|..];
    assert from + q[|to|..] == f;
  }

  predicate InDirectory(files: Files, p: Path) {
    p != [] && At(files, p[..|p| - 1]) == Some(Dir)
  }

  /** Puts the application directory back: whether it succeeds, and the files after it. */
  function RestoreApp(files: Files, app: App): (bool, Files) {
    if app.NoApp? then (true, files)
    else
      var cleared := Without(files, app.root);
      if app.NewApp? || app.backup !in files then (true, cleared)
      else if app.backup in cleared && InDirectory(cleared, app.root) then (true, Moved(cleared, app.backup, app.root))
      else (false, cleared)
  }

  /** Only directories, all the way down. */
  predicate Hollow(files: Files, p: Path) {
    forall q | q in files :: Covers(p, q) ==> files[q] == Dir
  }

  predicate CoveredBy(paths: seq<Path>, q: Path) {
    exists k | 0 <= k < |paths| :: Covers(paths[k], q)
  }

  /** Without the directories in `created` that hold nothing but directories. */
  function Cleaned(files: Files, created: seq<Path>): Files {
    map q | q in files && !(CoveredBy(created, q) && Hollow(files, q)) :: files[q]
  }

  /** The whole rollback, when the symlink check does not end it. */
  function RolledBack(files: Files, entries: seq<Entry>, app: App, created: seq<Path>): Files {
    Cleaned(RestoreApp(Unwind(files, entries, |entries|).files, app).1, created)
  }

  /** The application directories are apart from all entries and from one another. */
  ghost predicate Apart(entries: seq<Entry>, app: App) {
    && (forall k | 0 <= k < |entries| && !app.NoApp? ::
          !Covers(entries[k].path, app.root) && !Covers(app.root, entries[k].path))
    && (app.Preserved? ==>
        && !Covers(app.root, app.backup) && !Covers(app.backup, app.root)
        && forall k | 0 <= k < |entries| ::
          !Covers(entries[k].path, app.backup) && !Covers(app.backup, entries[k].path))
  }

  /** Neither in the application directory nor in its backup. */
  ghost predicate Elsewhere(app: App, q: Path) {
    && (!app.NoApp? ==> !Covers(app.root, q))
    && (app.Preserved? ==> !Covers(app.backup, q))
  }

  lemma MovedAt(files: Files, from: Path, to: Path, q: Path)
    ensures At(Moved(files, from, to), q) ==
            if Covers(to, q) then At(files, from + q[|to|..])
            else if Covers(from, q) then None else At(files, q)
  {
    if Covers(to, q) {
      var f := from + q[|to|..];
      assert to + f[|from|..] == q && Covers(from, f);
      assert forall g | Covers(from, g) && to + g[|from|..] == q :: g == from + g[|from|..] == f;
    }
  }

  lemma RestoreAppElsewhere(files: Files, app: App, q: Path)
    requires Elsewhere(app, q)
    ensures At(RestoreApp(files, app).1, q) == At(files, q)
  {
    if app.Preserved? {
      MovedAt(Without(files, app.root), app.backup, app.root, q);
    }
  }

  lemma CoveredElsewhere(entries: seq<Entry>, app: App, k: nat, q: Path)
    requires k < |entries| && Apart(entries, app) && Covers(entries[k].path, q)
    ensures Elsewhere(app, q)
  {
    if !app.NoApp? && Covers(app.root, q) {
      Comparable(app.root, entries[k].path, q);
    }
    if app.Preserved? && Covers(app.backup, q) {
      Comparable(app.backup, entries[k].path, q);
    }
  }

  lemma Comparable(a: Path, b: Path, q: Path)
    requires Covers(a, q) && Covers(b, q)
    ensures Covers(a, b) || Covers(b, a)
  {
  }

  /** Created directories were not there before. */
  ghost predicate Fresh(before: Files, created: seq<Path>) {
    forall k | 0 <= k < |created| :: created[k] !in before
  }

  lemma FreshCoverNothing(before: Files, created: seq<Path>, q: Path)
    requires WellFormed(before) && Fresh(before, created) && q in before
    ensures !CoveredBy(created, q)
  {
    forall k | 0 <= k < |created|
      ensures !Covers(created[k], q)
    {
      assert Covers(created[k], q) ==> created[k] == q || Above(created[k], q);
    }
  }

  /** The clean-up removes nothing that was there before. */
  lemma CleanedAt(before: Files, files: Files, created: seq<Path>, q: Path)
    requires WellFormed(before) && Fresh(before, created)
    ensures q in before ==> At(Cleaned(files, created), q) == At(files, q)
    ensures At(files, q) == None ==> At(Cleaned(files, created), q) == None
    ensures At(Cleaned(files, created), q) in {At(files, q), None}
  {
    if q in before {
      FreshCoverNothing(before, created, q);
    }
  }

  /** The symlink check ends a rollback exactly when some entry is stopped. */
  lemma RollbackEnds(before: Files, after: Files, entries: seq<Entry>)
    requires Snapshots(before, entries) && WellFormed(before) && WellFormed(after)
    ensures var r := Unwind(after, entries, |entries|);
            (r.left > 0 <==> exists k: nat | k < |entries| :: Stops(after, entries, k))
  {
    RunsOn(before, after, entries, |entries|, after);
    ChecksOn(before, after, entries, |entries|, after);
    UnwindStops(after, entries, |entries|, after);
  }

  /** An entry fails exactly if it is reached and a file that no later entry covers is on its way. */
  lemma RollbackFails(before: Files, after: Files, entries: seq<Entry>)
    requires Snapshots(before, entries) && WellFormed(before) && WellFormed(after)
    ensures var r := Unwind(after, entries, |entries|);
            r.left <= |entries| && r.failed == Failing(after, entries, r.left, |entries|)
  {
    RunsOn(before, after, entries, |entries|, after);
    UnwindFails(before, after, entries, |entries|, after);
  }

  /** Unless it is stopped, a rollback puts every snapshot back, nested and overlapping ones
      included, exactly when no file outside all of them is in the way. */
  lemma RollbackRestores(before: Files, after: Files, entries: seq<Entry>, app: App, created: seq<Path>)
    requires Snapshots(before, entries) && WellFormed(before) && WellFormed(after)
    requires Fresh(before, created) && Apart(entries, app)
    requires Unwind(after, entries, |entries|).left == 0
    ensures (forall k | 0 <= k < |entries| ::
               Subtree(RolledBack(after, entries, app, created), entries[k].path) == entries[k].backup)
            <==> !Blocked(after, entries)
  {
    if Blocked(after, entries) {
      BlockedStays(before, after, entries, app, created);
    } else {
      UnwindSettles(before, after, entries, |entries|, after);
      forall k | 0 <= k < |entries|
        ensures Subtree(RolledBack(after, entries, app, created), entries[k].path) == entries[k].backup
      {
        SettledRestores(before, after, entries, app, created, k);
      }
    }
  }

  lemma SettledRestores(before: Files, after: Files, entries: seq<Entry>, app: App, created: seq<Path>, k: nat)
    requires Snapshots(before, entries) && WellFormed(before) && k < |entries|
    requires Fresh(before, created) && Apart(entries, app)
    requires Settled(before, entries, 0, Unwind(after, entries, |entries|).files)
    ensures Subtree(RolledBack(after, entries, app, created), entries[k].path) == entries[k].backup
  {
    var unwound := Unwind(after, entries, |entries|).files;
    var put := RestoreApp(unwound, app).1;
    var final := Cleaned(put, created);
    forall q | Covers(entries[k].path, q)
      ensures At(final, q) == At(before, q)
    {
      assert Done(entries, 0, q) && !Pending(entries, 0, q);
      CoveredElsewhere(entries, app, k, q);
      RestoreAppElsewhere(unwound, app, q);
      CleanedAt(before, put, created, q);
    }
    var s := Subtree(final, entries[k].path);
    assert forall q :: At(s, q) == At(entries[k].backup, q);
    SameMap(s, entries[k].backup);
  }

  lemma SameMap(a: Files, b: Files)
    requires forall q :: At(a, q) == At(b, q)
    ensures a == b
  {
    forall q
      ensures q in a <==> q in b
      ensures q in a ==> a[q] == b[q]
    {
      assert At(a, q) == At(b, q);
    }
  }

  lemma BlockedStays(before: Files, after: Files, entries: seq<Entry>, app: App, created: seq<Path>)
    requires Snapshots(before, entries) && WellFormed(before) && WellFormed(after)
    requires Fresh(before, created) && Apart(entries, app) && Blocked(after, entries)
    requires Unwind(after, entries, |entries|).left == 0
    ensures exists k :: 0 <= k < |entries| &&
                        Subtree(RolledBack(after, entries, app, created), entries[k].path) != entries[k].backup
  {
    var k, a :| && 0 <= k < |entries| && entries[k].path in entries[k].backup
                && Above(a, entries[k].path) && a in after && after[a].File? && !Done(entries, 0, a);
    RunsOn(before, after, entries, |entries|, after);
    UnwindKeeps(before, after, entries, |entries|, after);
    var unwound := Unwind(after, entries, |entries|).files;
    assert Kept(before, after, unwound, a);
    var q := entries[k].path;
    assert q !in unwound;
    var put := RestoreApp(unwound, app).1;
    CoveredElsewhere(entries, app, k, q);
    RestoreAppElsewhere(unwound, app, q);
    CleanedAt(before, put, created, q);
    assert q !in Subtree(RolledBack(after, entries, app, created), q);
  }

  /** Away from the entries and the application, a rollback at most makes directories again
      that were there before, and removes what is hollow in created directories. */
  lemma RollbackSpares(before: Files, after: Files, entries: seq<Entry>, app: App, created: seq<Path>, q: Path)
    requires Snapshots(before, entries) && WellFormed(before) && WellFormed(after) && Fresh(before, created)
    requires Unwind(after, entries, |entries|).left == 0
    requires !Done(entries, 0, q) && Elsewhere(app, q)
    ensures var final := RolledBack(after, entries, app, created);
            || Kept(before, after, final, q)
            || (At(after, q) == Some(Dir) && q !in before && CoveredBy(created, q) && At(final, q) == None)
  {
    RunsOn(before, after, entries, |entries|, after);
    UnwindKeeps(before, after, entries, |entries|, after);
    var unwound := Unwind(after, entries, |entries|).files;
    var put := RestoreApp(unwound, app).1;
    RestoreAppElsewhere(unwound, app, q);
    assert Kept(before, after, unwound, q);
    CleanedAt(before, put, created, q);
    assert q in put && Hollow(put, q) ==> Covers(q, q) && put[q] == Dir;
  }

  /** `before` as it is after `preserve_existing_app` and whatever the installation did next:
      the application stands in its backup, which is new, as it stood in its place. */
  ghost predicate SetAside(before: Files, after: Files, app: App) {
    && app.Preserved? && app.root in before && app.backup !in before && InDirectory(after, app.root)
    && forall p :: At(after, app.backup + p) == At(before, app.root + p)
  }

  lemma BackupKept(before: Files, after: Files, entries: seq<Entry>, app: App, now: Files, p: Path)
    requires WellFormed(before) && Apart(entries, app) && SetAside(before, after, app)
    requires Unwound(before, after, entries, 0, now)
    ensures At(now, app.backup + p) == At(before, app.root + p)
    ensures app.backup + p !in before
  {
    var q := app.backup + p;
    assert Covers(app.backup, q) && (q == app.backup || Above(app.backup, q));
    if Done(entries, 0, q) {
      var k :| 0 <= k < |entries| && Covers(entries[k].path, q);
      Comparable(entries[k].path, app.backup, q);
      assert false;
    }
    assert Kept(before, after, now, q);
  }

  lemma PlaceKept(before: Files, after: Files, entries: seq<Entry>, app: App, now: Files)
    requires Apart(entries, app) && SetAside(before, after, app)
    requires Unwound(before, after, entries, 0, now)
    ensures InDirectory(Without(now, app.root), app.root)
  {
    var q := app.root[..|app.root| - 1];
    assert Covers(q, app.root);
    if Done(entries, 0, q) {
      var k :| 0 <= k < |entries| && Covers(entries[k].path, q);
      assert Covers(entries[k].path, app.root);
      assert false;
    }
    assert Kept(before, after, now, q);
  }

  /** What `preserve_existing_app` set aside comes back in its place, untouched. */
  lemma PreservedAppReturns(before: Files, after: Files, entries: seq<Entry>, app: App, created: seq<Path>, p: Path)
    requires Snapshots(before, entries) && WellFormed(before) && WellFormed(after) && Fresh(before, created)
    requires Apart(entries, app) && Unwind(after, entries, |entries|).left == 0
    requires SetAside(before, after, app)
    ensures var final := RolledBack(after, entries, app, created);
            && At(final, app.root + p) == At(before, app.root + p)
            && At(final, app.backup + p) == None
  {
    RunsOn(before, after, entries, |entries|, after);
    UnwindKeeps(before, after, entries, |entries|, after);
    var unwound := Unwind(after, entries, |entries|).files;
    var cleared := Without(unwound, app.root);
    PlaceKept(before, after, entries, app, unwound);
    BackupKept(before, after, entries, app, unwound, []);
    BackupKept(before, after, entries, app, unwound, p);
    assert app.backup + [] == app.backup && app.root + [] == app.root;
    AppMovedBack(unwound, app, p);
    CleanedAt(before, RestoreApp(unwound, app).1, created, app.root + p);
    CleanedAt(before, RestoreApp(unwound, app).1, created, app.backup + p);
  }

  lemma AppMovedBack(files: Files, app: App, p: Path)
    requires app.Preserved? && !Covers(app.root, app.backup) && !Covers(app.backup, app.root)
    requires app.backup in files && InDirectory(Without(files, app.root), app.root)
    ensures RestoreApp(files, app).0
    ensures At(RestoreApp(files, app).1, app.root + p) == At(files, app.backup + p)
    ensures At(RestoreApp(files, app).1, app.backup + p) == None
  {
    var cleared := Without(files, app.root);
    assert Covers(app.backup, app.backup + p) && Covers(app.root, app.root + p);
    if Covers(app.root, app.backup + p) {
      Comparable(app.root, app.backup, app.backup + p);
      assert false;
    }
    MovedAt(cleared, app.backup, app.root, app.root + p);
    MovedAt(cleared, app.backup, app.root, app.backup + p);
    assert (app.root + p)[|app.root|..] == p;
  }

  /** Nothing lies in the directory `p`. */
  predicate Empty(files: Files, p: Path) {
    forall q | q in files :: !Above(p, q)
  }

  /** `files` without the hollow directories among those visited. */
  ghost function Swept(files: Files, visited: set<Path>): Files {
    map q | q in files && !(q in visited && Hollow(files, q)) :: files[q]
  }

  /** Visited after all it holds, a directory is empty exactly if it was hollow. */
  lemma HollowIsEmptied(files: Files, visited: set<Path>, p: Path)
    requires p in files && p !in visited && forall q | q in files && Above(p, q) :: q in visited
    ensures files[p] == Dir && Empty(Swept(files, visited), p) <==> Hollow(files, p)
  {
    var swept := Swept(files, visited);
    if Hollow(files, p) {
      forall q | q in files && Above(p, q)
        ensures Hollow(files, q)
      {
        assert forall r :: Covers(q, r) ==> Covers(p, r);
      }
      assert Covers(p, p);
    } else if files[p] == Dir {
      var q :| q in files && Covers(p, q) && files[q] != Dir;
      assert |p| == |q| ==> p == q;
      assert Above(p, q) && Covers(q, q);
      assert !Hollow(files, q);
      assert q in swept;
    }
  }

  lemma SweptNext(files: Files, visited: set<Path>, p: Path)
    requires p in files && p !in visited && forall q | q in files && Above(p, q) :: q in visited
    ensures var swept := Swept(files, visited);
            Swept(files, visited + {p}) == if At(swept, p) == Some(Dir) && Empty(swept, p) then swept - {p} else swept
  {
    HollowIsEmptied(files, visited, p);
  }

  lemma SweptChild(files: Files, top: Path, children: seq<Path>, i: nat, visited: set<Path>)
    requires i < |children| && DeepestFirst(children)
             && forall j, k | 0 <= j < k < |children| :: children[j] != children[k]
    requires forall q :: q in children <==> q in files && Above(top, q)
    requires forall q :: q in visited <==> q in children[..i]
    ensures var swept, p := Swept(files, visited), children[i];
            Swept(files, visited + {p}) == if At(swept, p) == Some(Dir) && Empty(swept, p) then swept - {p} else swept
  {
    assert children[i] in children;
    forall q | q in files && Above(children[i], q)
      ensures q in visited
    {
      assert Above(top, q);
      var j :| 0 <= j < |children| && children[j] == q;
      assert j < i && children[..i][j] == q;
    }
    SweptNext(files, visited, children[i]);
  }

  lemma SweptAll(files: Files, top: Path, visited: set<Path>)
    requires forall q :: q in visited <==> q in files && Above(top, q)
    ensures Swept(files, visited + {top}) == Cleaned(files, [top])
  {
    assert forall q :: Covers(top, q) <==> q == top || Above(top, q);
    assert [top][0] == top;
    assert forall q :: CoveredBy([top], q) <==> Covers(top, q);
  }

  /** Removing hollow directories makes no other directory hollow that was not. */
  lemma HollowStays(files: Files, created: seq<Path>, p: Path)
    ensures Hollow(Cleaned(files, created), p) <==> Hollow(files, p)
  {
    if !Hollow(files, p) {
      var q :| q in files && Covers(p, q) && files[q] != Dir;
      assert Covers(q, q);
      assert q in Cleaned(files, created);
    }
  }

  lemma CleanedTwice(files: Files, first: seq<Path>, t: Path)
    ensures Cleaned(Cleaned(files, first), [t]) == Cleaned(files, first + [t])
  {
    forall q
      ensures CoveredBy(first + [t], q) <==> CoveredBy(first, q) || CoveredBy([t], q)
    {
      assert (first + [t])[|first|] == t;
      assert forall k | 0 <= k < |first| :: (first + [t])[k] == first[k];
      assert [t][0] == t;
      if Covers(t, q) {
        assert CoveredBy([t], q);
        assert Covers((first + [t])[|first|], q);
      }
      if CoveredBy(first, q) {
        var k :| 0 <= k < |first| && Covers(first[k], q);
        assert Covers((first + [t])[k], q);
      }
    }
    forall q
      ensures Hollow(Cleaned(files, first), q) <==> Hollow(files, q)
    {
      HollowStays(files, first, q);
    }
  }

  lemma CleanedSameSet(files: Files, a: seq<Path>, b: seq<Path>)
    requires forall p :: p in a <==> p in b
    ensures Cleaned(files, a) == Cleaned(files, b)
  {
    forall q
      ensures CoveredBy(a, q) <==> CoveredBy(b, q)
    {
      CoveredBySet(a, q);
      CoveredBySet(b, q);
    }
  }

  lemma CoveredBySet(a: seq<Path>, q: Path)
    ensures CoveredBy(a, q) <==> exists p :: p in a && Covers(p, q)
  {
    if CoveredBy(a, q) {
      var k :| 0 <= k < |a| && Covers(a[k], q);
      assert a[k] in a;
    }
  }

  /** Sorted by the number of parts, most first. */
  ghost predicate DeepestFirst(s: seq<Path>) {
    forall i, j | 0 <= i < j < |s| :: |s[i]| >= |s[j]|
  }

  method SortDeepestFirst(paths: set<Path>) returns (r: seq<Path>)
    ensures forall p :: p in r <==> p in paths
    ensures DeepestFirst(r) && forall i, j | 0 <= i < j < |r| :: r[i] != r[j]
  {
    r := [];
    var rest := paths;
    while rest != {}
      invariant rest <= paths && forall p :: p in r <==> p in paths && p !in rest
      invariant DeepestFirst(r) && forall i, j | 0 <= i < j < |r| :: r[i] != r[j]
      invariant forall p, q | p in r && q in rest :: |p| >= |q|
      decreases |rest|
    {
      var deepest := Deepest(rest);
      r := r + [deepest];
      rest := rest - {deepest};
    }
  }

  method Deepest(paths: set<Path>) returns (deepest: Path)
    requires paths != {}
    ensures deepest in paths && forall p | p in paths :: |p| <= |deepest|
  {
    deepest :| deepest in paths;
    var rest := paths - {deepest};
    while rest != {}
      invariant rest <= paths && deepest in paths
      invariant forall p | p in paths && p !in rest :: |p| <= |deepest|
      decreases |rest|
    {
      var p :| p in rest;
      if |p| > |deepest| {
        deepest := p;
      }
      rest := rest - {p};
    }
  }

  class Transaction {
    var files: Files
    var entries: seq<Entry>
    var created: seq<Path>
    var app: App

    constructor (files: Files)
      ensures this.files == files && entries == [] && created == [] && app == NoApp
    {
      this.files, entries, created, app := files, [], [], NoApp;
    }

    /** Fails at a link on the way; else the backup is a copy of what is there. */
    method Snapshot(path: Path, allowLink: bool) returns (ok: bool)
      modifies this`entries
      ensures ok <==> !LinkOn(files, path, allowLink)
      ensures entries == old(entries) + if ok then [Entry(path, Subtree(files, path), allowLink)] else []
      ensures ok && Snapshots(files, old(entries)) ==> Snapshots(files, entries)
    {
      ok := !LinkOn(files, path, allowLink);
      if ok {
        entries := entries + [Entry(path, Subtree(files, path), allowLink)];
      }
    }

    method TrackCreatedDirectory(path: Path)
      modifies this`created
      ensures created == old(created) + [path]
      ensures path !in files && Fresh(files, old(created)) ==> Fresh(files, created)
    {
      created := created + [path];
    }

    /** Renames the application directory, if there is one, to a name that must be free.
        `refused`: the rename itself raises an error. */
    method PreserveExistingApp(root: Path, backup: Path, refused: bool) returns (ok: bool)
      requires !Covers(root, backup) && !Covers(backup, root) && WellFormed(files)
      modifies this`files, this`app
      ensures ok <==> root in old(files) ==> MayMove(old(files), backup, refused)
      ensures !ok || root !in old(files) ==> files == old(files) && app == NewApp(root)
      ensures ok && root in old(files) ==> app == Preserved(root, backup) && SetAside(old(files), files, app)
      ensures WellFormed(files)
    {
      app := NewApp(root);
      ok := true;
      if root in files {
        if backup in files || !InDirectory(files, backup) || refused {
          return false;
        }
        RootSetAside(files, root, backup);
        files := Moved(files, root, backup);
        app := Preserved(root, backup);
      }
    }

    /** The entries from the last one down, to the first that is stopped. */
    method PutEntriesBack() returns (left: nat, failed: set<nat>)
      modifies this`files
      ensures Unwinding(files, failed, left) == Unwind(old(files), entries, |entries|)
    {
      ghost var unwinding := Unwind(files, entries, |entries|);
      failed := {};
      var i: nat := |entries|;
      while i > 0
        invariant 0 <= i <= |entries|
        invariant var r := Unwind(files, entries, i); unwinding == r.(failed := r.failed + failed)
      {
        var e := entries[i - 1];
        if LinkOn(files, e.path, e.allowLink) {
          return i, failed;
        }
        var ok := PutBack(e);
        if !ok {
          failed := failed + {i - 1};
        }
        i := i - 1;
      }
      left := 0;
    }

    /** `clean` is false where the rollback ends with an error. */
    method Rollback(ghost before: Files) returns (clean: bool)
      requires WellFormed(before) && Snapshots(before, entries) && WellFormed(files) && Apart(entries, app)
      modifies this`files
      ensures var r := Unwind(old(files), entries, |entries|);
              if r.left > 0 then files == r.files && !clean
              else && files == RolledBack(old(files), entries, app, created)
                   && (clean <==> r.failed == {} && RestoreApp(r.files, app).0)
    {
      RunsOn(before, files, entries, |entries|, files);
      UnwindKeeps(before, files, entries, |entries|, files);
      var left, failed := PutEntriesBack();
      if left > 0 {
        return false;
      }
      RestoreAppKeepsForm(files, entries, app);
      var ok := PutAppBack();
      CleanCreated();
      clean := failed == {} && ok;
    }

    method PutBack(e: Entry) returns (ok: bool)
      modifies this`files
      ensures (ok, files) == RestoreEntry(old(files), e)
    {
      files := Without(files, e.path);
      if e.path !in e.backup {
        return true;
      }
      if FileAbove(files, e.path) {
        return false;
      }
      files := WithParents(files, e.path);
      files := files + e.backup;
      ok := true;
    }

    method PutAppBack() returns (ok: bool)
      modifies this`files
      ensures (ok, files) == RestoreApp(old(files), app)
    {
      ok := true;
      if app.Preserved? && app.backup in files {
        files := Without(files, app.root);
        ok := app.backup in files && InDirectory(files, app.root);
        if ok {
          files := Moved(files, app.backup, app.root);
        }
      } else if !app.NoApp? {
        files := Without(files, app.root);
      }
    }

    method CleanCreated()
      requires WellFormed(files)
      modifies this`files
      ensures files == Cleaned(old(files), created)
    {
      var order := SortDeepestFirst(set p | p in created);
      CleanedSameSet(files, order, created);
      var i := 0;
      while i < |order|
        invariant i <= |order|
        invariant files == Cleaned(old(files), order[..i])
      {
        CleanedKeepsForm(old(files), order[..i]);
        CleanedTwice(old(files), order[..i], order[i]);
        assert order[..i] + [order[i]] == order[..i + 1];
        Sweep(order[i]);
        i := i + 1;
      }
      assert order[..i] == order;
    }

    /** Removes the directories under `top` that are empty when it comes to them, deepest
        first, and at last `top`. */
    method Sweep(top: Path)
      modifies this`files
      requires WellFormed(files)
      ensures files == Cleaned(old(files), [top])
    {
      ghost var was := files;
      if top !in files || files[top] != Dir {
        NothingHollow(files, top);
        return;
      }
      var children := SortDeepestFirst(set q | q in files && Above(top, q));
      ghost var visited: set<Path> := {};
      assert files == Swept(was, visited);
      var i := 0;
      while i < |children|
        invariant 0 <= i <= |children|
        invariant files == Swept(was, visited)
        invariant forall q :: q in visited <==> q in children[..i]
      {
        SweptChild(was, top, children, i, visited);
        RemoveIfEmpty(children[i]);
        visited := visited + {children[i]};
        i := i + 1;
      }
      assert forall q :: q in visited <==> q in children;
      SweptNext(was, visited, top);
      RemoveIfEmpty(top);
      SweptAll(was, top, visited);
    }

    method RemoveIfEmpty(p: Path)
      modifies this`files
      ensures files == if At(old(files), p) == Some(Dir) && Empty(old(files), p) then old(files) - {p} else old(files)
    {
      if At(files, p) == Some(Dir) && Empty(files, p) {
        files := files - {p};
      }
    }
  }

  /** `rename` has somewhere to move a tree to. */
  predicate MayMove(files: Files, to: Path, refused: bool) {
    to !in files && InDirectory(files, to) && !refused
  }

  lemma RootSetAside(files: Files, root: Path, backup: Path)
    requires !Covers(root, backup) && !Covers(backup, root) && root in files && backup !in files
    requires WellFormed(files) && InDirectory(files, backup)
    ensures SetAside(files, Moved(files, root, backup), Preserved(root, backup))
    ensures WellFormed(Moved(files, root, backup))
  {
    assert root != [] by {
      assert root == [] ==> Covers(root, backup);
    }
    var parent := root[..|root| - 1];
    MovedAt(files, root, backup, parent);
    assert Above(parent, root);
    forall p
      ensures At(Moved(files, root, backup), backup + p) == At(files, root + p)
    {
      MovedAt(files, root, backup, backup + p);
      assert (backup + p)[|backup|..] == p;
      assert Covers(backup, backup + p);
    }
    forall a, q | Above(a, q) && q in Moved(files, root, backup)
      ensures At(Moved(files, root, backup), a) == Some(Dir)
    {
      MovedLiesInDirectory(files, root, backup, a, q);
    }
  }

  /** Rolling back an application that was not set aside removes what stands in its place. */
  lemma NewAppRemoved(files: Files, root: Path, created: seq<Path>, p: Path)
    ensures At(Cleaned(RestoreApp(files, NewApp(root)).1, created), root + p) == None
  {
    assert Covers(root, root + p);
  }

  /** What no entry covers stays, if it is as it was or was not there, however far a rollback gets. */
  lemma UncoveredStays(before: Files, after: Files, entries: seq<Entry>, q: Path)
    requires Snapshots(before, entries) && WellFormed(before) && WellFormed(after)
    requires !Done(entries, 0, q) && (At(after, q) == At(before, q) || q !in before)
    ensures At(Unwind(after, entries, |entries|).files, q) == At(after, q)
  {
    RunsOn(before, after, entries, |entries|, after);
    UnwindKeeps(before, after, entries, |entries|, after);
    var r := Unwind(after, entries, |entries|);
    assert !Done(entries, r.left, q);
    assert Kept(before, after, r.files, q);
  }

  lemma UncoveredApp(entries: seq<Entry>, app: App, p: Path)
    requires Apart(entries, app) && app.Preserved?
    ensures !Done(entries, 0, app.root + p) && !Done(entries, 0, app.backup + p)
  {
    forall k | 0 <= k < |entries|
      ensures !Covers(entries[k].path, app.root + p) && !Covers(entries[k].path, app.backup + p)
    {
      if Covers(entries[k].path, app.root + p) {
        Comparable(entries[k].path, app.root, app.root + p);
      }
      if Covers(entries[k].path, app.backup + p) {
        Comparable(entries[k].path, app.backup, app.backup + p);
      }
    }
  }

  lemma NothingBelow(files: Files, p: Path, q: Path)
    requires WellFormed(files) && p !in files
    ensures p + q !in files
  {
    assert q != [] ==> Above(p, p + q);
    assert p + [] == p;
  }

  /** Whatever was snapshotted and created: an installation that fails right at
      `preserve_existing_app`, or later, with the files as `later`, is rolled back. Unless the
      symlink check stops that, the application is there again exactly if it could be set aside;
      else the rollback takes it for a new one and deletes it. If the check stops the rollback,
      the application stays where it is: in its backup, or in its place. */
  method PreserveThenRollBack(t: Transaction, ghost before: Files, root: Path, backup: Path, refused: bool,
                              later: Files)
    requires WellFormed(before) && Snapshots(before, t.entries) && Fresh(before, t.created) && WellFormed(t.files)
    requires root in before && Apart(t.entries, Preserved(root, backup))
    requires forall p :: At(t.files, root + p) == At(before, root + p)
    requires backup in before ==> backup in t.files
    requires MayMove(t.files, backup, refused) ==>
               && WellFormed(later) && InDirectory(later, root)
               && forall p :: At(later, backup + p) == At(before, root + p)
    modifies t
    ensures var moved := old(MayMove(t.files, backup, refused));
            var r := Unwind(if moved then later else old(t.files), old(t.entries), |old(t.entries)|);
            forall p ::
              if r.left > 0 then At(t.files, (if moved then backup else root) + p) == At(before, root + p)
              else At(t.files, root + p) == if moved then At(before, root + p) else None
  {
    assert root + [] == root;
    ghost var entries, created := t.entries, t.created;
    var moved := t.PreserveExistingApp(root, backup, refused);
    if moved {
      t.files := later;
    }
    ghost var after, app := t.files, t.app;
    var clean := t.Rollback(before);
    forall p
      ensures var r := Unwind(after, entries, |entries|);
              if r.left > 0 then At(t.files, (if moved then backup else root) + p) == At(before, root + p)
              else At(t.files, root + p) == if moved then At(before, root + p) else None
    {
      UncoveredApp(entries, Preserved(root, backup), p);
      if moved {
        NothingBelow(before, backup, p);
        UncoveredStays(before, after, entries, backup + p);
        if Unwind(after, entries, |entries|).left == 0 {
          PreservedAppReturns(before, after, entries, app, created, p);
        }
      } else {
        UncoveredStays(before, after, entries, root + p);
        NewAppRemoved(Unwind(after, entries, |entries|).files, root, created, p);
      }
    }
  }

  /** The symlink check ends a rollback: with a link where there was nothing, an entry below it
      in the list is not put back. */
  lemma LinkStopsRollback(x: Name, a: Name, content: Bytes, target: Bytes)
    requires x != a
    ensures var before: Files := map[[] := Dir, [x] := File(content)];
            var after: Files := map[[] := Dir, [a] := Link(target)];
            var entries := [Entry([x], Subtree(before, [x]), false), Entry([a], Subtree(before, [a]), false)];
            && WellFormed(before) && WellFormed(after) && Snapshots(before, entries)
            && Unwind(after, entries, 2) == Unwinding(after, {}, 2)
            && [x] in before && [x] !in after
  {
    var before: Files := map[[] := Dir, [x] := File(content)];
    var after: Files := map[[] := Dir, [a] := Link(target)];
    var entries := [Entry([x], Subtree(before, [x]), false), Entry([a], Subtree(before, [a]), false)];
    assert [x][0] != [a][0];
    NoLinks(before, [x]);
    NoLinks(before, [a]);
    LinkAt(after, [a], false, [a]);
    assert entries[1].path == [a];
  }

  lemma NoLinks(files: Files, p: Path)
    requires forall q | q in files :: !files[q].Link?
    ensures !LinkOn(files, p, false)
  {
  }

  /** An entry fails and is restored all the same: a file replaced the directory it was in,
      and the directory is an entry too. */
  lemma FailedYetRestored(d: Name, f: Name, content: Bytes, other: Bytes)
    ensures var before: Files := map[[] := Dir, [d] := Dir, [d, f] := File(content)];
            var after: Files := map[[] := Dir, [d] := File(other)];
            var entries := [Entry([d], Subtree(before, [d]), false), Entry([d, f], Subtree(before, [d, f]), false)];
            var r := Unwind(after, entries, 2);
            && WellFormed(before) && WellFormed(after) && Snapshots(before, entries)
            && r.left == 0 && 1 in r.failed
            && forall k | 0 <= k < 2 ::
                 Subtree(RolledBack(after, entries, NoApp, []), entries[k].path) == entries[k].backup
  {
    var before: Files := map[[] := Dir, [d] := Dir, [d, f] := File(content)];
    var after: Files := map[[] := Dir, [d] := File(other)];
    var entries := [Entry([d], Subtree(before, [d]), false), Entry([d, f], Subtree(before, [d, f]), false)];
    NoLinks(before, [d]);
    NoLinks(before, [d, f]);
    SmallForms(d, f, before, after);
    RollbackEnds(before, after, entries);
    RollbackFails(before, after, entries);
    assert Above([d], entries[1].path) && Fails(after, entries, 1);
    assert Covers(entries[0].path, [d]);
    assert !Blocked(after, entries);
    RollbackRestores(before, after, entries, NoApp, []);
  }

  lemma SmallForms(d: Name, f: Name, before: Files, after: Files)
    requires before.Keys == {[], [d], [d, f]} && before[[]] == Dir && before[[d]] == Dir
    requires after.Keys == {[], [d]} && after[[]] == Dir
    ensures WellFormed(before) && WellFormed(after)
  {
    forall a, q | Above(a, q) && q in before
      ensures a in before && before[a] == Dir
    {
      assert a == [] || (q == [d, f] && a == q[..1] == [d]);
    }
    forall a, q | Above(a, q) && q in after
      ensures a in after && after[a] == Dir
    {
      assert a == [];
    }
  }

  lemma RestoreAppKeepsForm(files: Files, entries: seq<Entry>, app: App)
    requires WellFormed(files) && Apart(entries, app)
    ensures WellFormed(RestoreApp(files, app).1)
  {
    if app.Preserved? {
      var cleared := Without(files, app.root);
      assert WellFormed(cleared);
      forall a, q | Above(a, q) && q in Moved(cleared, app.backup, app.root) && InDirectory(cleared, app.root)
        ensures At(Moved(cleared, app.backup, app.root), a) == Some(Dir)
      {
        MovedLiesInDirectory(cleared, app.backup, app.root, a, q);
      }
    }
  }

  lemma MovedLiesInDirectory(files: Files, from: Path, to: Path, a: Path, q: Path)
    requires WellFormed(files) && InDirectory(files, to) && !Covers(from, to) && !Covers(to, from)
    requires Above(a, q) && q in Moved(files, from, to)
    ensures At(Moved(files, from, to), a) == Some(Dir)
  {
    MovedAt(files, from, to, q);
    MovedAt(files, from, to, a);
    AboveMeets(a, to, q);
    if Covers(to, a) {
      assert Above(from + a[|to|..], from + q[|to|..]);
    } else if Covers(to, q) {
      var parent := to[..|to| - 1];
      assert a == parent || Above(a, parent);
    }
  }

  lemma CleanedKeepsForm(files: Files, created: seq<Path>)
    requires WellFormed(files)
    ensures WellFormed(Cleaned(files, created))
  {
    var cleaned := Cleaned(files, created);
    forall a, q | Above(a, q) && q in cleaned
      ensures a in cleaned
    {
      assert forall r :: Covers(r, a) ==> Covers(r, q);
      assert forall r :: Covers(q, r) ==> Covers(a, r);
      if CoveredBy(created, a) {
        var k :| 0 <= k < |created| && Covers(created[k], a);
        assert Covers(created[k], q);
      }
      assert Hollow(files, a) ==> Hollow(files, q);
    }
  }

  lemma NothingHollow(files: Files, top: Path)
    requires WellFormed(files) && At(files, top) != Some(Dir)
    ensures Cleaned(files, [top]) == files
  {
    forall q | q in files && Covers(top, q)
      ensures !Hollow(files, q)
    {
      assert q == top || Above(top, q);
      assert Covers(q, q);
    }
  }
}
