/** What the checkout leaves in the output directory. */
module CheckoutTheorems {
  import opened Wrappers
  import opened Bytes
  import opened Objects
  import opened TreeEntries
  import opened Checkout
  import opened Confinement
  import F = Files

  // ----- a successful walk writes the snapshot -----

  /** The paths of the leaves, in the order they are written. */
  function LeafPaths(t: Snapshot, dir: F.Path): seq<F.Path> {
    match t
    case End => []
    case Entry(name, Folder(sub), rest) => LeafPaths(sub, dir + [name]) + LeafPaths(rest, dir)
    case Entry(_, Skipped, rest) => LeafPaths(rest, dir)
    case Entry(name, _, rest) => [dir + [name]] + LeafPaths(rest, dir)
  }

  function SetOf(ps: seq<F.Path>): set<F.Path> {
    set p | p in ps
  }

  lemma {:induction false} LeafPathsCount(t: Snapshot, dir: F.Path)
    ensures |LeafPaths(t, dir)| == CountLeaves(t)
  {
    match t
    case End =>
    case Entry(name, content, rest) =>
      LeafPathsCount(rest, dir);
      if content.Folder? {
        LeafPathsCount(content.tree, dir + [name]);
      }
  }

  /** after is before with the snapshot laid over it, having written n more leaves. */
  ghost predicate Written(before: F.Tree, after: F.Tree, t: Snapshot, dir: F.Path) {
    && after == before + Flatten(t, dir)
    && F.Leaves(after) == F.Leaves(before) + SetOf(LeafPaths(t, dir))
  }

  lemma {:induction false} WalkSound(s: Index, raw: nat, rank: OID -> nat, owner: OID, l: Listing, dir: F.Path,
                                     fs: F.Tree, n: nat)
    requires Acyclic(s, raw, rank) && Descends(s, rank, owner, l.entries)
    requires Walk(s, raw, rank, owner, l, dir, fs, n).written.Ok?
    ensures var u := Unfold(s, raw, rank, owner, l);
            var w := Walk(s, raw, rank, owner, l, dir, fs, n);
            u.Ok? && w.written.value == n + CountLeaves(u.value) && Written(fs, w.fs, u.value, dir)
    decreases rank(owner), 2, |l.entries|
  {
    hide Acyclic, WalkOne, ContentOf, Written, Flatten, LeafPaths;
    if l.entries == [] {
      WrittenEnd(fs, dir);
    } else {
      var e, more := l.entries[0], l.(entries := l.entries[1..]);
      var here := WalkOne(s, raw, rank, owner, e, dir, fs, n);
      WalkOneSound(s, raw, rank, owner, e, dir, fs, n);
      WalkSound(s, raw, rank, owner, more, dir, here.fs, here.written.value);
      var c, rest := ContentOf(s, raw, rank, owner, e).value, Unfold(s, raw, rank, owner, more).value;
      var after := Walk(s, raw, rank, owner, more, dir, here.fs, here.written.value).fs;
      WrittenCons(fs, here.fs, after, e.name, c, rest, dir);
    }
  }

  function Only(name: bytes, c: Content): Snapshot {
    Entry(name, c, End)
  }

  lemma WrittenEnd(fs: F.Tree, dir: F.Path)
    ensures Written(fs, fs, End, dir)
  {}

  lemma WrittenCons(a: F.Tree, b: F.Tree, c: F.Tree, name: bytes, content: Content, rest: Snapshot, dir: F.Path)
    requires Written(a, b, Only(name, content), dir) && Written(b, c, rest, dir)
    ensures Written(a, c, Entry(name, content, rest), dir)
  {
    assert FlattenOne(content, dir + [name]) + Flatten(End, dir) == FlattenOne(content, dir + [name]);
    assert LeafPaths(Only(name, content), dir) + LeafPaths(rest, dir) == LeafPaths(Entry(name, content, rest), dir) by {
      if content.Folder? {
        assert LeafPaths(content.tree, dir + [name]) + [] == LeafPaths(content.tree, dir + [name]);
      }
    }
  }

  lemma {:induction false} WalkOneSound(s: Index, raw: nat, rank: OID -> nat, owner: OID, e: TreeEntry, dir: F.Path,
                                        fs: F.Tree, n: nat)
    requires Acyclic(s, raw, rank) && Descends(s, rank, owner, [e])
    requires WalkOne(s, raw, rank, owner, e, dir, fs, n).written.Ok?
    ensures var c := ContentOf(s, raw, rank, owner, e);
            var w := WalkOne(s, raw, rank, owner, e, dir, fs, n);
            && c.Ok? && w.written.value == n + CountLeaves(Only(e.name, c.value))
            && Written(fs, w.fs, Only(e.name, c.value), dir)
    decreases rank(owner), 1, 0
  {
    hide Written, Walk, Unfold, Acyclic;
    var path := dir + [e.name];
    assert [e][0] == e;
    if e.mode == DIRECTORY {
      var made := F.MkDir(fs, path).value;
      var l := List(TreeAt(s, e.oid).value, 0, raw);
      SubtreesDescend(s, raw, rank, e.oid);
      WalkSound(s, raw, rank, e.oid, l, path, made, n);
      var after := Walk(s, raw, rank, e.oid, l, path, made, n).fs;
      WrittenFolder(fs, made, after, e.name, Unfold(s, raw, rank, e.oid, l).value, dir);
    } else if e.mode == REGULAR || e.mode == EXECUTABLE {
      WrittenLeaf(fs, e.name, Blob(BlobAt(s, e.oid).value, e.mode == EXECUTABLE), dir);
    } else if e.mode == SYMLINK {
      WrittenLeaf(fs, e.name, Symlink(BlobAt(s, e.oid).value), dir);
    } else {
      WrittenSkipped(fs, e.name, dir);
    }
  }

  lemma WrittenSkipped(fs: F.Tree, name: bytes, dir: F.Path)
    ensures Written(fs, fs, Only(name, Skipped), dir)
  {}

  function NodeOf(c: Content): F.Node
    requires c.Blob? || c.Symlink?
  {
    if c.Blob? then F.File(c.data, c.executable) else F.Link(c.target)
  }

  lemma WrittenLeaf(fs: F.Tree, name: bytes, c: Content, dir: F.Path)
    requires c.Blob? || c.Symlink?
    ensures Written(fs, fs[dir + [name] := NodeOf(c)], Only(name, c), dir)
  {
    assert LeafPaths(Only(name, c), dir) == [dir + [name]];
  }

  lemma WrittenFolder(fs: F.Tree, made: F.Tree, after: F.Tree, name: bytes, sub: Snapshot, dir: F.Path)
    requires F.MkDir(fs, dir + [name]) == Some(made) && Written(made, after, sub, dir + [name])
    ensures Written(fs, after, Only(name, Folder(sub)), dir)
  {
    var path := dir + [name];
    assert made == fs[path := F.Dir] && F.Leaves(made) == F.Leaves(fs);
    assert Flatten(Only(name, Folder(sub)), dir) == map[path := F.Dir] + Flatten(sub, path);
    assert LeafPaths(Only(name, Folder(sub)), dir) == LeafPaths(sub, path);
  }

  lemma NoEntry(s: Index, raw: nat, rank: OID -> nat, owner: OID, l: Listing)
    requires Acyclic(s, raw, rank) && Descends(s, rank, owner, l.entries)
    requires l.entries == [] && Unfold(s, raw, rank, owner, l).Ok?
    ensures l.complete && Unfold(s, raw, rank, owner, l).value == End
  {
    hide Acyclic;
  }

  /** The first entry of an unfolded listing. */
  lemma FirstEntry(s: Index, raw: nat, rank: OID -> nat, owner: OID, l: Listing)
    requires Acyclic(s, raw, rank) && Descends(s, rank, owner, l.entries)
    requires l.entries != [] && Unfold(s, raw, rank, owner, l).Ok?
    ensures var e, t := l.entries[0], Unfold(s, raw, rank, owner, l).value;
            && t.Entry?
            && Descends(s, rank, owner, l.entries[1..])
            && Unfold(s, raw, rank, owner, l.(entries := l.entries[1..])) == Ok(t.rest)
            && (if e.mode == DIRECTORY then
                  && t.content.Folder? && TreeAt(s, e.oid).Some? && rank(e.oid) < rank(owner)
                  && Descends(s, rank, e.oid, List(TreeAt(s, e.oid).value, 0, raw).entries)
                  && Unfold(s, raw, rank, e.oid, List(TreeAt(s, e.oid).value, 0, raw)) == Ok(t.content.tree)
                else if e.mode == REGULAR || e.mode == EXECUTABLE || e.mode == SYMLINK then
                  t.content.Blob? || t.content.Symlink?
                else t.content.Skipped?)
  {
    hide Acyclic;
    if l.entries[0].mode == DIRECTORY && TreeAt(s, l.entries[0].oid).Some? {
      SubtreesDescend(s, raw, rank, l.entries[0].oid);
    }
  }

  /** Counting gives the number of leaves of the snapshot. */
  lemma {:induction false} CountsLeaves(s: Index, raw: nat, rank: OID -> nat, owner: OID, l: Listing)
    requires Acyclic(s, raw, rank) && Descends(s, rank, owner, l.entries)
    requires Unfold(s, raw, rank, owner, l).Ok?
    ensures Count(s, raw, rank, owner, l) == Ok(CountLeaves(Unfold(s, raw, rank, owner, l).value))
    decreases rank(owner), |l.entries|
  {
    hide Acyclic, Unfold, ContentOf, Descends, TreeAt, List;
    if l.entries == [] {
      NoEntry(s, raw, rank, owner, l);
    } else {
      var e := l.entries[0];
      FirstEntry(s, raw, rank, owner, l);
      if e.mode == DIRECTORY {
        CountsLeaves(s, raw, rank, e.oid, List(TreeAt(s, e.oid).value, 0, raw));
      }
      CountsLeaves(s, raw, rank, owner, l.(entries := l.entries[1..]));
    }
  }

  // ----- distinct names -----

  function Names(t: Snapshot): set<bytes> {
    match t
    case End => {}
    case Entry(name, _, rest) => {name} + Names(rest)
  }

  /** No directory of the snapshot lists a name twice. */
  predicate DistinctNames(t: Snapshot) {
    match t
    case End => true
    case Entry(name, content, rest) =>
      name !in Names(rest) && DistinctNames(rest) && (content.Folder? ==> DistinctNames(content.tree))
  }

  ghost predicate Clear(fs: F.Tree, dir: F.Path, names: set<bytes>) {
    forall p :: p in fs && Below(dir, p) ==> p[|dir|] !in names
  }

  /** With distinct names and nothing in the way, the walk fails only if some object is unusable. */
  lemma {:induction false} WalkComplete(s: Index, raw: nat, rank: OID -> nat, owner: OID, l: Listing, dir: F.Path,
                                        fs: F.Tree, n: nat)
    requires Acyclic(s, raw, rank) && Descends(s, rank, owner, l.entries)
    requires Unfold(s, raw, rank, owner, l).Ok?
    requires DistinctNames(Unfold(s, raw, rank, owner, l).value)
    requires Clear(fs, dir, Names(Unfold(s, raw, rank, owner, l).value))
    ensures Walk(s, raw, rank, owner, l, dir, fs, n).written.Ok?
    decreases rank(owner), 2, |l.entries|
  {
    hide Acyclic, WalkOne, ContentOf, Clear;
    if l.entries != [] {
      var e, more := l.entries[0], l.(entries := l.entries[1..]);
      var c, rest := ContentOf(s, raw, rank, owner, e).value, Unfold(s, raw, rank, owner, more).value;
      ClearFewer(fs, dir, {e.name}, Names(rest));
      WalkOneComplete(s, raw, rank, owner, e, dir, fs, n);
      var here := WalkOne(s, raw, rank, owner, e, dir, fs, n);
      ClearAfter(fs, here.fs, dir, e.name, Names(rest));
      WalkComplete(s, raw, rank, owner, more, dir, here.fs, here.written.value);
    }
  }

  lemma ClearFewer(fs: F.Tree, dir: F.Path, a: set<bytes>, b: set<bytes>)
    requires Clear(fs, dir, a + b)
    ensures Clear(fs, dir, a) && Clear(fs, dir, b)
  {}

  /** Whatever is new is path or below it. */
  ghost predicate Under(before: F.Tree, after: F.Tree, path: F.Path) {
    forall p :: p in after ==> p in before || p == path || Below(path, p)
  }

  lemma ClearAfter(before: F.Tree, after: F.Tree, dir: F.Path, name: bytes, names: set<bytes>)
    requires Clear(before, dir, names) && Under(before, after, dir + [name]) && name !in names
    ensures Clear(after, dir, names)
  {
    forall p | p in after && Below(dir, p)
      ensures p[|dir|] !in names
    {
      BelowStep(dir, name, p);
    }
  }

  lemma {:induction false} WalkOneComplete(s: Index, raw: nat, rank: OID -> nat, owner: OID, e: TreeEntry,
                                           dir: F.Path, fs: F.Tree, n: nat)
    requires Acyclic(s, raw, rank) && Descends(s, rank, owner, [e])
    requires ContentOf(s, raw, rank, owner, e).Ok?
    requires DistinctNames(Only(e.name, ContentOf(s, raw, rank, owner, e).value))
    requires Clear(fs, dir, {e.name})
    ensures WalkOne(s, raw, rank, owner, e, dir, fs, n).written.Ok?
    ensures Under(fs, WalkOne(s, raw, rank, owner, e, dir, fs, n).fs, dir + [e.name])
    decreases rank(owner), 1, 0
  {
    hide Walk, Unfold, Acyclic, Names;
    var path := dir + [e.name];
    assert [e][0] == e;
    BelowStep(dir, e.name, []);
    assert path !in fs;
    if e.mode == DIRECTORY {
      var made := fs[path := F.Dir];
      var l := List(TreeAt(s, e.oid).value, 0, raw);
      SubtreesDescend(s, raw, rank, e.oid);
      var sub := Unfold(s, raw, rank, e.oid, l).value;
      forall p | p in made
        ensures !Below(path, p)
      {
        BelowStep(dir, e.name, p);
      }
      assert Clear(made, path, Names(sub));
      WalkComplete(s, raw, rank, e.oid, l, path, made, n);
      WalkConfined(s, raw, rank, e.oid, l, path, made, n);
    }
  }

  // ----- materialize -----

  ghost predicate NoRepeats(ps: seq<F.Path>) {
    forall i, j :: 0 <= i < j < |ps| ==> ps[i] != ps[j]
  }

  lemma {:induction false} SetSize(ps: seq<F.Path>)
    ensures |SetOf(ps)| <= |ps|
    ensures |SetOf(ps)| == |ps| <==> NoRepeats(ps)
  {
    if ps != [] {
      var k := |ps| - 1;
      var front := ps[..k];
      assert ps == front + [ps[k]];
      SetSize(front);
      assert SetOf(ps) == SetOf(front) + {ps[k]};
      if ps[k] in front {
        assert !NoRepeats(ps);
      } else {
        assert NoRepeats(ps) <==> NoRepeats(front);
      }
    }
  }

  lemma {:induction false} DistinctPaths(t: Snapshot, dir: F.Path)
    requires DistinctNames(t)
    ensures NoRepeats(LeafPaths(t, dir))
    ensures forall i :: 0 <= i < |LeafPaths(t, dir)| ==>
              Below(dir, LeafPaths(t, dir)[i]) && LeafPaths(t, dir)[i][|dir|] in Names(t)
  {
    match t
    case End =>
    case Entry(name, content, rest) =>
      DistinctPaths(rest, dir);
      BelowStep(dir, name, []);
      if content.Folder? {
        DistinctPaths(content.tree, dir + [name]);
        var sub := LeafPaths(content.tree, dir + [name]);
        forall i | 0 <= i < |sub|
          ensures Below(dir, sub[i]) && sub[i][|dir|] == name
        {
          BelowStep(dir, name, sub[i]);
        }
      }
  }

  /** Nothing changes at all; or outDir becomes a directory and the rest is reached from it. */
  ghost predicate Contained(before: F.Tree, after: F.Tree, outDir: F.Path) {
    after == before || (F.MkDir(before, outDir).Some? && Confined(before[outDir := F.Dir], after, outDir))
  }

  /** The text of whatever path was created or changed leads there from outDir, through directories only. */
  lemma ContainedStays(before: F.Tree, after: F.Tree, outDir: F.Path, p: F.Path)
    requires Contained(before, after, outDir)
    requires p in after && !(p in before && after[p] == before[p]) && p != outDir
    ensures Below(outDir, p) && Follow(after, outDir, Text(p[|outDir|..])) == Some(p)
  {
    ReachedIsFollowed(after, outDir, p);
  }

  /** materialize: the number it reports, which is also what its walk has written. */
  method Materialize(store: ObjectStore, raw: nat, ghost rank: OID -> nat, treeOID: OID, outDir: F.Path,
                     fs: F.FileSystem)
    returns (r: Result<nat, CheckoutError>)
    requires Acyclic(store.View(), raw, rank)
    modifies fs
    ensures Contained(old(fs.nodes), fs.nodes, outDir)
    ensures r.Ok? ==> CheckedOut(store.View(), raw, rank, treeOID, outDir, old(fs.nodes), fs.nodes, r.value)
    ensures ReadyFor(store.View(), raw, rank, treeOID, outDir, old(fs.nodes)) ==> r.Ok?
  {
    hide Confined, Written, Walk, Count, Unfold, Acyclic, Clear;
    ghost var s, before := store.View(), fs.nodes;
    var total := CountMaterializedEntries(store, raw, rank, treeOID);
    if TreeAt(s, treeOID).Some? {
      SubtreesDescend(s, raw, rank, treeOID);
      if SnapshotAt(s, raw, rank, treeOID).Ok? {
        CountsLeaves(s, raw, rank, treeOID, List(TreeAt(s, treeOID).value, 0, raw));
      }
    }
    if total.Err? {
      return total;
    }
    var made := fs.EnsureDir(outDir);
    if !made {
      return Err(CannotCreate);
    }
    ghost var ready := fs.nodes;
    var written := MaterializeTree(store, raw, rank, treeOID, outDir, fs, 0);
    ghost var l := List(TreeAt(s, treeOID).value, 0, raw);
    assert ready == before[outDir := F.Dir];
    WalkConfined(s, raw, rank, treeOID, l, outDir, ready, 0);
    if ReadyFor(s, raw, rank, treeOID, outDir, before) {
      ClearMade(before, outDir, Names(SnapshotAt(s, raw, rank, treeOID).value));
      WalkComplete(s, raw, rank, treeOID, l, outDir, ready, 0);
    }
    if written.Err? {
      return written;
    }
    WalkSound(s, raw, rank, treeOID, l, outDir, ready, 0);
    return total;
  }

  lemma ClearMade(fs: F.Tree, dir: F.Path, names: set<bytes>)
    requires Clear(fs, dir, names)
    ensures Clear(fs[dir := F.Dir], dir, names)
  {}

  /** The output directory is absent or a directory, nothing in it clashes, and the tree is usable, names distinct. */
  ghost predicate ReadyFor(s: Index, raw: nat, rank: OID -> nat, oid: OID, outDir: F.Path, before: F.Tree)
    requires Acyclic(s, raw, rank)
  {
    var t := SnapshotAt(s, raw, rank, oid);
    && t.Ok?
    && DistinctNames(t.value)
    && F.MkDir(before, outDir).Some?
    && Clear(before, outDir, Names(t.value))
  }

  /** after is before with the output directory and the snapshot of the tree in it; n leaves were written. */
  ghost predicate CheckedOut(s: Index, raw: nat, rank: OID -> nat, oid: OID, outDir: F.Path, before: F.Tree,
                             after: F.Tree, n: nat)
    requires Acyclic(s, raw, rank)
  {
    var t := SnapshotAt(s, raw, rank, oid);
    && t.Ok?
    && n == CountLeaves(t.value)
    && F.MkDir(before, outDir).Some?
    && Written(before[outDir := F.Dir], after, t.value, outDir)
  }

  function LeavesBelow(fs: F.Tree, dir: F.Path): set<F.Path> {
    set p | p in F.Leaves(fs) && Below(dir, p)
  }

  lemma {:induction false} LeafPathsBelow(t: Snapshot, dir: F.Path)
    ensures forall p :: p in LeafPaths(t, dir) ==> Below(dir, p)
  {
    match t
    case End =>
    case Entry(name, content, rest) =>
      LeafPathsBelow(rest, dir);
      BelowStep(dir, name, []);
      if content.Folder? {
        LeafPathsBelow(content.tree, dir + [name]);
        forall p | p in LeafPaths(content.tree, dir + [name])
          ensures Below(dir, p)
        {
          BelowStep(dir, name, p);
        }
      }
  }

  /**
   * Into an output directory without files, the reported number is the number of files there exactly
   * when the tree gives no two leaves the same path; distinct names in every directory are enough.
   */
  lemma ReportedIsPresent(s: Index, raw: nat, rank: OID -> nat, oid: OID, outDir: F.Path,
                          before: F.Tree, after: F.Tree, n: nat)
    requires Acyclic(s, raw, rank) && CheckedOut(s, raw, rank, oid, outDir, before, after, n)
    requires LeavesBelow(before, outDir) == {}
    ensures |LeavesBelow(after, outDir)| <= n
    ensures |LeavesBelow(after, outDir)| == n <==> NoRepeats(LeafPaths(SnapshotAt(s, raw, rank, oid).value, outDir))
    ensures DistinctNames(SnapshotAt(s, raw, rank, oid).value) ==> |LeavesBelow(after, outDir)| == n
  {
    hide Acyclic, SnapshotAt, LeafPaths, Flatten, DistinctNames, NoRepeats, CountLeaves;
    var t := SnapshotAt(s, raw, rank, oid).value;
    LeafPathsBelow(t, outDir);
    OnlyTheLeaves(before, after, outDir, LeafPaths(t, outDir));
    SetSize(LeafPaths(t, outDir));
    LeafPathsCount(t, outDir);
    if DistinctNames(t) {
      DistinctPaths(t, outDir);
    }
  }

  lemma OnlyTheLeaves(before: F.Tree, after: F.Tree, outDir: F.Path, leaves: seq<F.Path>)
    requires LeavesBelow(before, outDir) == {} && forall p :: p in leaves ==> Below(outDir, p)
    requires F.Leaves(after) == F.Leaves(before[outDir := F.Dir]) + SetOf(leaves)
    ensures LeavesBelow(after, outDir) == SetOf(leaves)
  {
    forall p | p in F.Leaves(before[outDir := F.Dir])
      ensures !Below(outDir, p)
    {
      assert p in F.Leaves(before);
      assert p !in LeavesBelow(before, outDir);
    }
    forall p
      ensures p in LeavesBelow(after, outDir) <==> p in SetOf(leaves)
    {
      assert p in F.Leaves(after) <==> p in F.Leaves(before[outDir := F.Dir]) || p in SetOf(leaves);
      assert p in SetOf(leaves) <==> p in leaves;
    }
  }

  /** Two entries of one name: the checkout succeeds, reports two files, and leaves one. */
  lemma DuplicateNames(s: Index, raw: nat, rank: OID -> nat, oid: OID, name: bytes, x: OID, y: OID,
                       outDir: F.Path, before: F.Tree)
    requires Acyclic(s, raw, rank) && ValidName(name) && NUL !in name && |x| == raw && |y| == raw
    requires TreeAt(s, oid) == Some(WriteTree([TreeEntry(name, REGULAR, x), TreeEntry(name, REGULAR, y)]))
    requires BlobAt(s, x).Some? && BlobAt(s, y).Some?
    requires IsDir(before, outDir) && LeavesBelow(before, outDir) == {} && outDir + [name] !in before
    ensures Descends(s, rank, oid, List(TreeAt(s, oid).value, 0, raw).entries)
    ensures var path := outDir + [name];
            var after := before[path := F.File(BlobAt(s, y).value, false)];
            && Walk(s, raw, rank, oid, List(TreeAt(s, oid).value, 0, raw), outDir, before, 0) == Progress(after, Ok(2))
            && CheckedOut(s, raw, rank, oid, outDir, before, after, 2)
            && LeavesBelow(after, outDir) == {path}
  {
    var es := [TreeEntry(name, REGULAR, x), TreeEntry(name, REGULAR, y)];
    RegularFits();
    TwoEntries(s, raw, oid, es);
    hide Acyclic, Walk, Unfold, CheckedOut, List, WriteTree, Octal, ValidName, BlobAt;
    SubtreesDescend(s, raw, rank, oid);
    WalkTwice(s, raw, rank, oid, es, outDir, before);
    WalkChecksOut(s, raw, rank, oid, outDir, before, 2);
    OneLeafMore(before, outDir, name, F.File(BlobAt(s, y).value, false));
  }

  lemma WalkChecksOut(s: Index, raw: nat, rank: OID -> nat, oid: OID, outDir: F.Path, before: F.Tree, n: nat)
    requires Acyclic(s, raw, rank) && TreeAt(s, oid).Some? && IsDir(before, outDir)
    requires Descends(s, rank, oid, List(TreeAt(s, oid).value, 0, raw).entries)
    requires Walk(s, raw, rank, oid, List(TreeAt(s, oid).value, 0, raw), outDir, before, 0).written == Ok(n)
    ensures CheckedOut(s, raw, rank, oid, outDir, before,
                       Walk(s, raw, rank, oid, List(TreeAt(s, oid).value, 0, raw), outDir, before, 0).fs, n)
  {
    hide Acyclic, Walk, Unfold, Written, List;
    assert before[outDir := F.Dir] == before;
    WalkSound(s, raw, rank, oid, List(TreeAt(s, oid).value, 0, raw), outDir, before, 0);
  }

  lemma OneLeafMore(before: F.Tree, dir: F.Path, name: bytes, node: F.Node)
    requires LeavesBelow(before, dir) == {} && !node.Dir?
    ensures LeavesBelow(before[dir + [name] := node], dir) == {dir + [name]}
  {
    BelowStep(dir, name, []);
    var path := dir + [name];
    var after := before[path := node];
    forall p
      ensures p in LeavesBelow(after, dir) <==> p in {path}
    {
      assert p in F.Leaves(after) <==> p == path || p in F.Leaves(before);
      assert p !in LeavesBelow(before, dir);
    }
  }

  lemma RegularFits()
    ensures |Octal(REGULAR)| < 7
  {
    assert Octal(REGULAR / 8 / 8 / 8) == Octal(0x40) && |Octal(0x40)| == 3;
  }

  lemma TwoEntries(s: Index, raw: nat, oid: OID, es: seq<TreeEntry>)
    requires AllStorable(es, raw) && TreeAt(s, oid) == Some(WriteTree(es))
    ensures List(TreeAt(s, oid).value, 0, raw) == Listing(es, true)
  {
    ListWriteTree([], es, raw);
    assert [] + WriteTree(es) == WriteTree(es);
  }

  lemma WalkTwice(s: Index, raw: nat, rank: OID -> nat, oid: OID, es: seq<TreeEntry>, dir: F.Path, fs: F.Tree)
    requires Acyclic(s, raw, rank) && Descends(s, rank, oid, es) && |es| == 2
    requires forall i :: 0 <= i < 2 ==>
               es[i].mode == REGULAR && ValidName(es[i].name) && BlobAt(s, es[i].oid).Some?
    requires es[0].name == es[1].name && dir + [es[0].name] !in fs
    ensures Walk(s, raw, rank, oid, Listing(es, true), dir, fs, 0) ==
              Progress(fs[dir + [es[0].name] := F.File(BlobAt(s, es[1].oid).value, false)], Ok(2))
  {
    hide Acyclic;
    var path := dir + [es[0].name];
    var once := fs[path := F.File(BlobAt(s, es[0].oid).value, false)];
    assert WalkOne(s, raw, rank, oid, es[0], dir, fs, 0) == Progress(once, Ok(1));
    assert WalkOne(s, raw, rank, oid, es[1], dir, once, 1)
        == Progress(once[path := F.File(BlobAt(s, es[1].oid).value, false)], Ok(2));
    var twice := once[path := F.File(BlobAt(s, es[1].oid).value, false)];
    hide WalkOne;
    assert es[1..] == [es[1]] && es[1..][1..] == [];
    assert Walk(s, raw, rank, oid, Listing([], true), dir, twice, 2) == Progress(twice, Ok(2));
    assert Walk(s, raw, rank, oid, Listing([es[1]], true), dir, once, 1) == Progress(twice, Ok(2)) by {
      assert [es[1]][1..] == [];
    }
    assert once[path := F.File(BlobAt(s, es[1].oid).value, false)]
        == fs[path := F.File(BlobAt(s, es[1].oid).value, false)];
  }
}
