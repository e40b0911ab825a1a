/** Writing out the tree of a commit (writer.go): counting first, then a recursive walk. */
module Checkout {
  import opened Wrappers
  import opened Bytes
  import opened Objects
  import opened TreeEntries
  import F = Files

  // 0o040000, 0o100644, 0o100755, 0o120000
  const DIRECTORY := 0x4000
  const REGULAR := 0x81a4
  const EXECUTABLE := 0x81ed
  const SYMLINK := 0xa000

  datatype CheckoutError =
    | TreeNotFound | MalformedTree | InvalidName | CannotCreate | InvalidBlob | InvalidTarget

  predicate ValidName(name: bytes) {
    name != [] && name != [0x2e] && name != [0x2e, 0x2e] && 0x2f !in name
  }

  function TreeAt(s: Index, oid: OID): Option<bytes> {
    if oid in s.byOID && s.byOID[oid].typ == TREE then Some(s.byOID[oid].data) else None
  }

  function BlobAt(s: Index, oid: OID): Option<bytes> {
    if oid in s.byOID && s.byOID[oid].typ == BLOB then Some(s.byOID[oid].data) else None
  }

  predicate ValidTarget(data: bytes) {
    data != [] && NUL !in data
  }

  // ----- acyclic stores -----

  /** The subtrees among the entries rank below the tree they are in. */
  ghost predicate Descends(s: Index, rank: OID -> nat, oid: OID, es: seq<TreeEntry>) {
    forall i :: 0 <= i < |es| && es[i].mode == DIRECTORY && TreeAt(s, es[i].oid).Some? ==>
      rank(es[i].oid) < rank(oid)
  }

  /** No tree contains itself: the walk, which does not check, ends only on such stores. */
  ghost predicate Acyclic(s: Index, raw: nat, rank: OID -> nat) {
    forall oid :: TreeAt(s, oid).Some? ==> Descends(s, rank, oid, List(TreeAt(s, oid).value, 0, raw).entries)
  }

  // ----- what a tree in the store stands for -----

  /** A tree with everything looked up: names and contents, in order. */
  datatype Snapshot = End | Entry(name: bytes, content: Content, rest: Snapshot)

  datatype Content = Folder(tree: Snapshot) | Blob(data: bytes, executable: bool) | Symlink(target: bytes) | Skipped

  function CountLeaves(t: Snapshot): nat {
    match t
    case End => 0
    case Entry(_, Folder(sub), rest) => CountLeaves(sub) + CountLeaves(rest)
    case Entry(_, Skipped, rest) => CountLeaves(rest)
    case Entry(_, _, rest) => 1 + CountLeaves(rest)
  }

  /** The files of a snapshot below dir; of two with one path, the later. */
  function Flatten(t: Snapshot, dir: F.Path): F.Tree {
    match t
    case End => map[]
    case Entry(name, content, rest) => FlattenOne(content, dir + [name]) + Flatten(rest, dir)
  }

  function FlattenOne(c: Content, path: F.Path): F.Tree {
    match c
    case Folder(sub) => map[path := F.Dir] + Flatten(sub, path)
    case Blob(data, executable) => map[path := F.File(data, executable)]
    case Symlink(target) => map[path := F.Link(target)]
    case Skipped => map[]
  }

  /** The entry's content, when the walk accepts it. */
  ghost function ContentOf(s: Index, raw: nat, rank: OID -> nat, owner: OID,
                           e: TreeEntry): Result<Content, CheckoutError>
    requires Acyclic(s, raw, rank) && Descends(s, rank, owner, [e])
    decreases rank(owner), 1, 0
  {
    if !ValidName(e.name) then Err(InvalidName)
    else if e.mode == DIRECTORY then
      assert [e][0] == e;
      (match TreeAt(s, e.oid)
       case None => Err(TreeNotFound)
       case Some(data) =>
         match Unfold(s, raw, rank, e.oid, List(data, 0, raw))
         case Err(x) => Err(x)
         case Ok(t) => Ok(Folder(t)))
    else if e.mode == REGULAR || e.mode == EXECUTABLE then
      (match BlobAt(s, e.oid)
       case None => Err(InvalidBlob)
       case Some(data) => Ok(Blob(data, e.mode == EXECUTABLE)))
    else if e.mode == SYMLINK then
      (match BlobAt(s, e.oid)
       case None => Err(InvalidBlob)
       case Some(data) => if ValidTarget(data) then Ok(Symlink(data)) else Err(InvalidTarget))
    else Ok(Skipped)
  }

  ghost function Unfold(s: Index, raw: nat, rank: OID -> nat, owner: OID, l: Listing): Result<Snapshot, CheckoutError>
    requires Acyclic(s, raw, rank) && Descends(s, rank, owner, l.entries)
    decreases rank(owner), 2, |l.entries|
  {
    if l.entries == [] then if l.complete then Ok(End) else Err(MalformedTree)
    else
      match ContentOf(s, raw, rank, owner, l.entries[0])
      case Err(x) => Err(x)
      case Ok(c) =>
        match Unfold(s, raw, rank, owner, l.(entries := l.entries[1..]))
        case Err(x) => Err(x)
        case Ok(rest) => Ok(Entry(l.entries[0].name, c, rest))
  }

  ghost function SnapshotAt(s: Index, raw: nat, rank: OID -> nat, oid: OID): Result<Snapshot, CheckoutError>
    requires Acyclic(s, raw, rank)
  {
    match TreeAt(s, oid)
    case None => Err(TreeNotFound)
    case Some(data) => Unfold(s, raw, rank, oid, List(data, 0, raw))
  }

  // ----- the two passes over the tree -----

  /** countMaterializedEntries, from some entry of the owner on. */
  ghost function Count(s: Index, raw: nat, rank: OID -> nat, owner: OID, l: Listing): Result<nat, CheckoutError>
    requires Acyclic(s, raw, rank) && Descends(s, rank, owner, l.entries)
    decreases rank(owner), |l.entries|
  {
    if l.entries == [] then if l.complete then Ok(0) else Err(MalformedTree)
    else
      var e := l.entries[0];
      var here :=
        if e.mode == DIRECTORY then
          if TreeAt(s, e.oid).None? then Err(TreeNotFound)
          else Count(s, raw, rank, e.oid, List(TreeAt(s, e.oid).value, 0, raw))
        else if e.mode == REGULAR || e.mode == EXECUTABLE || e.mode == SYMLINK then Ok(1)
        else Ok(0);
      if here.Err? then here
      else match Count(s, raw, rank, owner, l.(entries := l.entries[1..]))
        case Err(x) => Err(x)
        case Ok(n) => Ok(here.value + n)
  }

  /** The files written so far, and how many leaves or why the walk stopped. */
  datatype Progress = Progress(fs: F.Tree, written: Result<nat, CheckoutError>)

  /** What the walk does with one entry. */
  ghost function WalkOne(s: Index, raw: nat, rank: OID -> nat, owner: OID, e: TreeEntry, dir: F.Path, fs: F.Tree,
                         n: nat): Progress
    requires Acyclic(s, raw, rank) && Descends(s, rank, owner, [e])
    decreases rank(owner), 1, 0
  {
    var path := dir + [e.name];
    if !ValidName(e.name) then Progress(fs, Err(InvalidName))
    else if e.mode == DIRECTORY then
      assert [e][0] == e;
      match F.MkDir(fs, path)
      case None => Progress(fs, Err(CannotCreate))
      case Some(made) =>
        if TreeAt(s, e.oid).None? then Progress(made, Err(TreeNotFound))
        else Walk(s, raw, rank, e.oid, List(TreeAt(s, e.oid).value, 0, raw), path, made, n)
    else if e.mode == REGULAR || e.mode == EXECUTABLE then
      if BlobAt(s, e.oid).None? then Progress(fs, Err(InvalidBlob))
      else match F.PutFile(fs, path, BlobAt(s, e.oid).value, e.mode == EXECUTABLE)
        case None => Progress(fs, Err(CannotCreate))
        case Some(put) => Progress(put, Ok(n + 1))
    else if e.mode == SYMLINK then
      if BlobAt(s, e.oid).None? then Progress(fs, Err(InvalidBlob))
      else if !ValidTarget(BlobAt(s, e.oid).value) then Progress(fs, Err(InvalidTarget))
      else match F.PutLink(fs, path, BlobAt(s, e.oid).value)
        case None => Progress(fs, Err(CannotCreate))
        case Some(put) => Progress(put, Ok(n + 1))
    else Progress(fs, Ok(n))
  }

  /** materializeTree, from some entry of the owner on, with n leaves written before. */
  ghost function Walk(s: Index, raw: nat, rank: OID -> nat, owner: OID, l: Listing, dir: F.Path, fs: F.Tree,
                      n: nat): Progress
    requires Acyclic(s, raw, rank) && Descends(s, rank, owner, l.entries)
    decreases rank(owner), 2, |l.entries|
  {
    if l.entries == [] then Progress(fs, if l.complete then Ok(n) else Err(MalformedTree))
    else
      var here := WalkOne(s, raw, rank, owner, l.entries[0], dir, fs, n);
      if here.written.Err? then here
      else Walk(s, raw, rank, owner, l.(entries := l.entries[1..]), dir, here.fs, here.written.value)
  }

  /** How deep the recursion from oid can go: not at all when there is no tree. */
  ghost function Depth(s: Index, rank: OID -> nat, oid: OID): nat {
    if TreeAt(s, oid).Some? then 1 + rank(oid) else 0
  }

  method CountMaterializedEntries(store: ObjectStore, raw: nat, ghost rank: OID -> nat, treeOID: OID)
    returns (r: Result<nat, CheckoutError>)
    requires Acyclic(store.View(), raw, rank)
    ensures r == match TreeAt(store.View(), treeOID)
                 case None => Err(TreeNotFound)
                 case Some(data) => Count(store.View(), raw, rank, treeOID, List(data, 0, raw))
    decreases Depth(store.View(), rank, treeOID)
  {
    hide Next, Acyclic, ObjectStore.View;
    ghost var s := store.View();
    var tree := store.Get(treeOID);
    ViewGet(store, treeOID);
    if tree.None? || tree.value.typ != TREE {
      return Err(TreeNotFound);
    }
    var data, pos, count := tree.value.data, 0, 0;
    ghost var all := List(data, 0, raw);
    SubtreesDescend(s, raw, rank, treeOID);
    while true
      invariant Descends(s, rank, treeOID, List(data, pos, raw).entries)
      invariant Count(s, raw, rank, treeOID, all) ==
                  match Count(s, raw, rank, treeOID, List(data, pos, raw))
                  case Err(e) => Err(e)
                  case Ok(n) => Ok(count + n)
      decreases |data| - pos
    {
      var next := NextTreeEntry(data, pos, raw);
      if next.Err? {
        return Err(MalformedTree);
      }
      if next.value.None? {
        return Ok(count);
      }
      var (entry, nextPos) := next.value.value;
      ConsListing(s, rank, treeOID, data, pos, raw);
      pos := nextPos;
      if entry.mode == DIRECTORY {
        var nested := CountMaterializedEntries(store, raw, rank, entry.oid);
        if nested.Err? {
          return nested;
        }
        count := count + nested.value;
      } else if entry.mode == REGULAR || entry.mode == EXECUTABLE || entry.mode == SYMLINK {
        count := count + 1;
      }
    }
  }

  lemma ViewGet(store: ObjectStore, oid: OID)
    ensures store.Get(oid) == if oid in store.View().byOID then Some(store.View().byOID[oid]) else None
  {}

  lemma SubtreesDescend(s: Index, raw: nat, rank: OID -> nat, oid: OID)
    requires Acyclic(s, raw, rank) && TreeAt(s, oid).Some?
    ensures Descends(s, rank, oid, List(TreeAt(s, oid).value, 0, raw).entries)
  {}

  lemma ConsListing(s: Index, rank: OID -> nat, owner: OID, data: bytes, pos: nat, raw: nat)
    requires Next(data, pos, raw).Ok? && Next(data, pos, raw).value.Some?
    requires Descends(s, rank, owner, List(data, pos, raw).entries)
    ensures var (e, next) := Next(data, pos, raw).value.value;
            var l := List(data, pos, raw);
            && l.entries != [] && l.entries[0] == e && l.(entries := l.entries[1..]) == List(data, next, raw)
            && Descends(s, rank, owner, List(data, next, raw).entries)
            && Descends(s, rank, owner, [e])
            && (e.mode == DIRECTORY && TreeAt(s, e.oid).Some? ==> rank(e.oid) < rank(owner))
  {
    hide Next;
    var (e, next) := Next(data, pos, raw).value.value;
    var l := List(data, pos, raw);
    assert l.entries[1..] == List(data, next, raw).entries;
    var more := List(data, next, raw).entries;
    assert forall i :: 0 <= i < |more| ==> more[i] == l.entries[i + 1];
  }

  /** materializeTree; written counts the leaves before and after. */
  method MaterializeTree(store: ObjectStore, raw: nat, ghost rank: OID -> nat, treeOID: OID, dir: F.Path,
                         fs: F.FileSystem, written: nat)
    returns (r: Result<nat, CheckoutError>)
    requires Acyclic(store.View(), raw, rank)
    modifies fs
    ensures TreeAt(store.View(), treeOID).None? ==> r == Err(TreeNotFound) && fs.nodes == old(fs.nodes)
    ensures TreeAt(store.View(), treeOID).Some? ==>
              Progress(fs.nodes, r) ==
              Walk(store.View(), raw, rank, treeOID, List(TreeAt(store.View(), treeOID).value, 0, raw), dir,
                   old(fs.nodes), written)
    decreases Depth(store.View(), rank, treeOID)
  {
    hide Next, Acyclic, ObjectStore.View, WalkOne;
    ghost var s := store.View();
    var tree := store.Get(treeOID);
    ViewGet(store, treeOID);
    if tree.None? || tree.value.typ != TREE {
      return Err(TreeNotFound);
    }
    var data, pos, count := tree.value.data, 0, written;
    SubtreesDescend(s, raw, rank, treeOID);
    ghost var all := Walk(s, raw, rank, treeOID, List(data, 0, raw), dir, fs.nodes, written);
    while true
      invariant store.View() == s
      invariant Descends(s, rank, treeOID, List(data, pos, raw).entries)
      invariant all == Walk(s, raw, rank, treeOID, List(data, pos, raw), dir, fs.nodes, count)
      decreases |data| - pos
    {
      var next := NextTreeEntry(data, pos, raw);
      if next.Err? {
        return Err(MalformedTree);
      }
      if next.value.None? {
        return Ok(count);
      }
      var (entry, nextPos) := next.value.value;
      ConsListing(s, rank, treeOID, data, pos, raw);
      pos := nextPos;
      var one := MaterializeEntry(store, raw, rank, treeOID, entry, dir, fs, count);
      if one.Err? {
        return one;
      }
      count := one.value;
    }
  }

  /** The body of the loop: one entry of the tree. */
  method MaterializeEntry(store: ObjectStore, raw: nat, ghost rank: OID -> nat, ghost owner: OID, entry: TreeEntry,
                          dir: F.Path, fs: F.FileSystem, written: nat)
    returns (r: Result<nat, CheckoutError>)
    requires Acyclic(store.View(), raw, rank) && TreeAt(store.View(), owner).Some?
    requires Descends(store.View(), rank, owner, [entry])
    modifies fs
    ensures Progress(fs.nodes, r) == WalkOne(store.View(), raw, rank, owner, entry, dir, old(fs.nodes), written)
    decreases Depth(store.View(), rank, owner), 0
  {
    hide Acyclic, Walk;
    if !ValidName(entry.name) {
      return Err(InvalidName);
    }
    var path := dir + [entry.name];
    assert [entry][0] == entry;
    if entry.mode == DIRECTORY {
      var made := fs.EnsureDir(path);
      if !made {
        return Err(CannotCreate);
      }
      r := MaterializeTree(store, raw, rank, entry.oid, path, fs, written);
    } else if entry.mode == REGULAR || entry.mode == EXECUTABLE {
      var blob := store.Get(entry.oid);
      if blob.None? || blob.value.typ != BLOB {
        return Err(InvalidBlob);
      }
      var put := fs.WriteFile(path, blob.value.data, entry.mode == EXECUTABLE);
      return if put then Ok(written + 1) else Err(CannotCreate);
    } else if entry.mode == SYMLINK {
      var blob := store.Get(entry.oid);
      if blob.None? || blob.value.typ != BLOB {
        return Err(InvalidBlob);
      }
      if !ValidTarget(blob.value.data) {
        return Err(InvalidTarget);
      }
      var put := fs.CreateSymlink(path, blob.value.data);
      return if put then Ok(written + 1) else Err(CannotCreate);
    } else {
      return Ok(written);
    }
  }
}
