/** src/codex_workbench/archify.py, `_vendor_content_tree`: the byte stream a vendor tree is
    hashed as. */
module VendorFraming {
  import opened Options

  type Byte = b: int | 0 <= b < 256
  type Path = seq<Byte>

  datatype File = File(path: Path, data: seq<Byte>)

  const NUL: Byte := 0
  const ZERO: Byte := 48

  function Decimal(n: nat): (digits: seq<Byte>) {
    if n < 10 then [ZERO + n] else Decimal(n / 10) + [ZERO + n % 10]
  }

  function Frame(f: File): seq<Byte> {
    f.path + [NUL] + Decimal(|f.data|) + [NUL] + f.data + [NUL]
  }

  function Stream(files: seq<File>): seq<Byte> {
    if files == [] then [] else Frame(files[0]) + Stream(files[1..])
  }

  // ---- the digest loop ----

  /** What `rglob` yields, in path order. */
  datatype Entry = Regular(file: File) | Directory(path: Path) | Symlink(path: Path)

  /** The regular files that are not excluded, in order. */
  function Core(entries: seq<Entry>, excluded: set<Path>): seq<File> {
    if entries == [] then []
    else
      var e := entries[|entries| - 1];
      Core(entries[..|entries| - 1], excluded)
      + if e.Regular? && e.file.path !in excluded then [e.file] else []
  }

  /** `digest` is what was fed to the hash; `None` stands for the refusal of a symlink. */
  method VendorContentTree(entries: seq<Entry>, excluded: set<Path>) returns (r: Option<(seq<Byte>, nat)>)
    ensures r.None? <==> exists e :: e in entries && e.Symlink?
    ensures r.Some? ==> r.value == (Stream(Core(entries, excluded)), |Core(entries, excluded)|)
  {
    var digest, fileCount := [], 0;
    for k := 0 to |entries|
      invariant digest == Stream(Core(entries[..k], excluded)) && fileCount == |Core(entries[..k], excluded)|
      invariant forall e | e in entries[..k] :: !e.Symlink?
    {
      var e := entries[k];
      assert entries[..k + 1][..k] == entries[..k];
      if e.Symlink? {
        return None;
      }
      if e.Regular? && e.file.path !in excluded {
        StreamAppend(Core(entries[..k], excluded), e.file);
        ghost var before := digest;
        digest := digest + e.file.path;
        digest := digest + [NUL];
        digest := digest + Decimal(|e.file.data|);
        digest := digest + [NUL];
        digest := digest + e.file.data;
        digest := digest + [NUL];
        assert digest == before + Frame(e.file);
        fileCount := fileCount + 1;
      } else {
        assert Core(entries[..k], excluded) + [] == Core(entries[..k], excluded);
      }
    }
    assert entries[..|entries|] == entries;
    return Some((digest, fileCount));
  }

  lemma {:induction false} StreamAppend(files: seq<File>, f: File)
    ensures Stream(files + [f]) == Stream(files) + Frame(f)
  {
    if files != [] {
      StreamAppend(files[1..], f);
      assert (files + [f])[1..] == files[1..] + [f];
    }
  }

  // ---- a decoder ----

  function Find(s: seq<Byte>, from: nat): (i: nat)
    requires from <= |s|
    ensures from <= i <= |s|
    ensures i < |s| ==> s[i] == NUL
    ensures forall k | from <= k < i :: s[k] != NUL
    decreases |s| - from
  {
    if from == |s| || s[from] == NUL then from else Find(s, from + 1)
  }

  function Value(digits: seq<Byte>): nat {
    if digits == [] then 0
    else Value(digits[..|digits| - 1]) * 10 + if digits[|digits| - 1] >= ZERO then digits[|digits| - 1] - ZERO else 0
  }

  /** The frame whose path ends at `i`, its length field at `j`, with `n` bytes of data. */
  function FrameAt(s: seq<Byte>, i: nat, j: nat, n: nat): (r: Option<(File, seq<Byte>)>)
    requires i < j < |s|
    ensures r.Some? ==> |r.value.1| < |s|
  {
    if j + 1 + n >= |s| then None else Some((File(s[..i], s[j + 1..j + 1 + n]), s[j + n + 2..]))
  }

  /** One frame off the front of the stream. */
  function ReadFrame(s: seq<Byte>): (r: Option<(File, seq<Byte>)>)
    ensures r.Some? ==> |r.value.1| < |s|
  {
    var i := Find(s, 0);
    if i == |s| then None
    else
      var j := Find(s, i + 1);
      if j == |s| then None
      else
        FrameAt(s, i, j, Value(s[i + 1..j]))
  }

  function Decode(s: seq<Byte>): Option<seq<File>>
    decreases |s|
  {
    if s == [] then Some([])
    else
      var first := ReadFrame(s);
      if first.None? then None
      else
        var rest := Decode(first.value.1);
        if rest.None? then None else Some([first.value.0] + rest.value)
  }

  ghost predicate NulFree(p: seq<Byte>) {
    forall k | 0 <= k < |p| :: p[k] != NUL
  }

  lemma {:induction false} DecimalReads(n: nat)
    ensures Value(Decimal(n)) == n && NulFree(Decimal(n))
  {
    if n >= 10 {
      DecimalReads(n / 10);
      assert Decimal(n)[..|Decimal(n)| - 1] == Decimal(n / 10);
    } else {
      assert Decimal(n)[..0] == [];
    }
  }

  lemma FindFirst(s: seq<Byte>, from: nat, p: seq<Byte>)
    requires NulFree(p) && from + |p| < |s| && s[from..from + |p|] == p && s[from + |p|] == NUL
    ensures Find(s, from) == from + |p|
  {
    forall k | from <= k < from + |p|
      ensures s[k] != NUL
    {
      assert s[k] == p[k - from];
    }
  }

  lemma Slices(p: seq<Byte>, d: seq<Byte>, x: seq<Byte>, tail: seq<Byte>, s: seq<Byte>)
    requires s == p + [NUL] + d + [NUL] + x + [NUL] + tail
    ensures |s| == |p| + |d| + |x| + |tail| + 3 && s[|p|] == s[|p| + 1 + |d|] == NUL
    ensures s[0..|p|] == p == s[..|p|] && s[|p| + 1..|p| + 1 + |d|] == d
    ensures s[|p| + |d| + 2..|p| + |d| + 2 + |x|] == x
    ensures s[|p| + |d| + |x| + 3..] == tail
  {
  }

  lemma ReadsFrame(f: File, tail: seq<Byte>)
    requires NulFree(f.path)
    ensures ReadFrame(Frame(f) + tail) == Some((f, tail))
  {
    DecimalReads(|f.data|);
    ReadsParts(f.path, Decimal(|f.data|), f.data, tail, Frame(f) + tail);
  }

  lemma ReadsParts(path: Path, digits: seq<Byte>, data: seq<Byte>, tail: seq<Byte>, s: seq<Byte>)
    requires s == path + [NUL] + digits + [NUL] + data + [NUL] + tail
    requires NulFree(path) && NulFree(digits) && Value(digits) == |data|
    ensures ReadFrame(s) == Some((File(path, data), tail))
  {
    Slices(path, digits, data, tail, s);
    FindBoth(path, digits, s);
    ReadsFrom(path, data, tail, s, |path|, |path| + 1 + |digits|);
  }

  lemma FindBoth(path: Path, digits: seq<Byte>, s: seq<Byte>)
    requires |path| + 1 + |digits| < |s| && s[|path|] == s[|path| + 1 + |digits|] == NUL
    requires s[0..|path|] == path && s[|path| + 1..|path| + 1 + |digits|] == digits
    requires NulFree(path) && NulFree(digits)
    ensures Find(s, 0) == |path| && Find(s, |path| + 1) == |path| + 1 + |digits|
  {
    FindFirst(s, 0, path);
    FindFirst(s, |path| + 1, digits);
  }

  lemma ReadsFrom(path: Path, data: seq<Byte>, tail: seq<Byte>, s: seq<Byte>, i: nat, j: nat)
    requires i < j < |s| && Find(s, 0) == i && Find(s, i + 1) == j && Value(s[i + 1..j]) == |data|
    requires s[..i] == path && |s| == j + |data| + |tail| + 2
    requires s[j + 1..j + 1 + |data|] == data && s[j + |data| + 2..] == tail
    ensures ReadFrame(s) == Some((File(path, data), tail))
  {
    PartsAt(path, data, tail, s, i, j);
  }

  lemma PartsAt(path: Path, data: seq<Byte>, tail: seq<Byte>, s: seq<Byte>, i: nat, j: nat)
    requires i < j < |s| && s[..i] == path && |s| == j + |data| + |tail| + 2
    requires s[j + 1..j + 1 + |data|] == data && s[j + |data| + 2..] == tail
    ensures FrameAt(s, i, j, |data|) == Some((File(path, data), tail))
  {
  }

  lemma DecodeFront(f: File, tail: seq<Byte>)
    requires NulFree(f.path) && Decode(tail).Some?
    ensures Decode(Frame(f) + tail) == Some([f] + Decode(tail).value)
  {
    ReadsFrame(f, tail);
  }

  /** The decoder recovers the exact list of files, whatever their contents. */
  lemma {:induction false} RoundTrip(files: seq<File>)
    requires forall f | f in files :: NulFree(f.path)
    ensures Decode(Stream(files)) == Some(files)
  {
    if files != [] {
      RoundTrip(files[1..]);
      DecodeFront(files[0], Stream(files[1..]));
      assert files == [files[0]] + files[1..];
    }
  }

  // ---- trees ----

  type Tree = map<Path, seq<Byte>>

  /** Byte order, which is also the order of the decoded strings. */
  predicate Less(p: Path, q: Path) {
    if q == [] then false
    else if p == [] then true
    else if p[0] != q[0] then p[0] < q[0]
    else Less(p[1..], q[1..])
  }

  lemma {:induction false} LessAsymmetric(p: Path, q: Path)
    ensures !(Less(p, q) && Less(q, p))
  {
    if p != [] && q != [] && p[0] == q[0] {
      LessAsymmetric(p[1..], q[1..]);
    }
  }

  ghost predicate FilesInOrder(files: seq<File>) {
    forall i, j | 0 <= i < j < |files| :: Less(files[i].path, files[j].path)
  }

  /** The files of a tree, each once, in path order. */
  ghost predicate Lists(files: seq<File>, tree: Tree) {
    && FilesInOrder(files)
    && (forall f | f in files :: f.path in tree && f.data == tree[f.path])
    && forall p | p in tree :: File(p, tree[p]) in files
  }

  lemma ListsEmpty(a: seq<File>, tree: Tree)
    requires Lists(a, tree)
    ensures a == [] <==> tree == map[]
  {
    if a != [] {
      assert a[0] in a;
    }
  }

  /** A tree has one listing only. */
  lemma {:induction false} ListingUnique(a: seq<File>, b: seq<File>, tree: Tree)
    requires Lists(a, tree) && Lists(b, tree)
    ensures a == b
  {
    ListsEmpty(a, tree);
    ListsEmpty(b, tree);
    if a != [] {
      var p, q := a[0].path, b[0].path;
      assert a[0] in a && b[0] in b && a[0] in b && b[0] in a;
      LessAsymmetric(p, q);
      LessAsymmetric(p, p);
      TailLists(a, tree);
      TailLists(b, tree);
      ListingUnique(a[1..], b[1..], tree - {p});
    }
  }

  lemma TailLists(a: seq<File>, tree: Tree)
    requires a != [] && Lists(a, tree)
    ensures Lists(a[1..], tree - {a[0].path})
  {
    var p := a[0].path;
    forall f | f in a[1..]
      ensures f.path in tree - {p}
    {
      var i :| 0 <= i < |a[1..]| && a[1..][i] == f;
      assert a[i + 1] == f;
      LessAsymmetric(p, f.path);
    }
    forall q | q in tree - {p}
      ensures File(q, tree[q]) in a[1..]
    {
      var i :| 0 <= i < |a| && a[i] == File(q, tree[q]);
      assert a[1..][i - 1] == a[i];
    }
  }

  /** Two trees are hashed as the same bytes exactly when they are the same tree. */
  lemma StreamIdentifiesTree(a: seq<File>, s: Tree, b: seq<File>, t: Tree)
    requires Lists(a, s) && Lists(b, t)
    requires forall p | p in s.Keys + t.Keys :: NulFree(p)
    ensures Stream(a) == Stream(b) <==> s == t
  {
    if s == t {
      ListingUnique(a, b, s);
    }
    if Stream(a) == Stream(b) {
      PathsNulFree(a, s);
      PathsNulFree(b, t);
      RoundTrip(a);
      RoundTrip(b);
      ListsOneTree(a, s, t);
    }
  }

  lemma PathsNulFree(a: seq<File>, tree: Tree)
    requires Lists(a, tree) && forall p | p in tree :: NulFree(p)
    ensures forall f | f in a :: NulFree(f.path)
  {
  }

  lemma ListsOneTree(a: seq<File>, s: Tree, t: Tree)
    requires Lists(a, s) && Lists(a, t)
    ensures s == t
  {
    forall p
      ensures p in s <==> p in t
      ensures p in s ==> s[p] == t[p]
    {
      if p in s {
        assert File(p, s[p]) in a;
      }
      if p in t {
        assert File(p, t[p]) in a;
      }
    }
  }

  function PathOf(e: Entry): Path {
    match e
    case Regular(file) => file.path
    case Directory(path) => path
    case Symlink(path) => path
  }

  /** As the source sorts them. */
  ghost predicate InPathOrder(entries: seq<Entry>) {
    forall i, j | 0 <= i < j < |entries| :: Less(PathOf(entries[i]), PathOf(entries[j]))
  }

  /** `tree` is made of the regular files among the entries that are not excluded. */
  ghost predicate Holds(entries: seq<Entry>, excluded: set<Path>, tree: Tree) {
    forall f: File :: (f.path in tree && tree[f.path] == f.data) <==> (Regular(f) in entries && f.path !in excluded)
  }

  lemma {:induction false} CoreIn(entries: seq<Entry>, excluded: set<Path>, f: File)
    ensures f in Core(entries, excluded) <==> Regular(f) in entries && f.path !in excluded
  {
    if entries != [] {
      var rest, last := entries[..|entries| - 1], entries[|entries| - 1];
      CoreIn(rest, excluded, f);
      assert entries == rest + [last];
    }
  }

  lemma CoreBefore(entries: seq<Entry>, excluded: set<Path>, f: File)
    requires entries != [] && InPathOrder(entries) && f in Core(entries[..|entries| - 1], excluded)
    ensures Less(f.path, PathOf(entries[|entries| - 1]))
  {
    var rest := entries[..|entries| - 1];
    CoreIn(rest, excluded, f);
    var k :| 0 <= k < |rest| && rest[k] == Regular(f);
    assert entries[k] == rest[k];
  }

  lemma {:induction false} CoreOrdered(entries: seq<Entry>, excluded: set<Path>)
    requires InPathOrder(entries)
    ensures FilesInOrder(Core(entries, excluded))
  {
    if entries != [] {
      var rest, last := entries[..|entries| - 1], entries[|entries| - 1];
      CoreOrdered(rest, excluded);
      forall f | f in Core(rest, excluded)
        ensures Less(f.path, PathOf(last))
      {
        CoreBefore(entries, excluded, f);
      }
      if last.Regular? {
        AppendOrdered(Core(rest, excluded), last.file);
      }
    }
  }

  lemma AppendOrdered(files: seq<File>, f: File)
    requires FilesInOrder(files) && forall g | g in files :: Less(g.path, f.path)
    ensures FilesInOrder(files + [f])
  {
  }

  /** What the loop frames is the tree's one listing in path order. */
  lemma CoreLists(entries: seq<Entry>, excluded: set<Path>, tree: Tree)
    requires InPathOrder(entries) && Holds(entries, excluded, tree)
    ensures Lists(Core(entries, excluded), tree)
  {
    CoreOrdered(entries, excluded);
    forall f | f in Core(entries, excluded)
      ensures f.path in tree && f.data == tree[f.path]
    {
      CoreIn(entries, excluded, f);
    }
    forall p | p in tree
      ensures File(p, tree[p]) in Core(entries, excluded)
    {
      CoreIn(entries, excluded, File(p, tree[p]));
    }
  }

  /** Two vendor trees feed the digest the same bytes exactly when their files are the same. */
  lemma DigestIdentifiesTree(a: seq<Entry>, s: Tree, b: seq<Entry>, t: Tree, excluded: set<Path>)
    requires InPathOrder(a) && InPathOrder(b) && Holds(a, excluded, s) && Holds(b, excluded, t)
    requires forall p | p in s.Keys + t.Keys :: NulFree(p)
    ensures Stream(Core(a, excluded)) == Stream(Core(b, excluded)) <==> s == t
  {
    CoreLists(a, excluded, s);
    CoreLists(b, excluded, t);
    StreamIdentifiesTree(Core(a, excluded), s, Core(b, excluded), t);
  }
}
