/** Where the checkout can write (writer.go): at valid names, in real directories, below its own. */
module Confinement {
  import opened Wrappers
  import opened Bytes
  import opened Objects
  import opened TreeEntries
  import opened Checkout
  import F = Files

  predicate Below(dir: F.Path, p: F.Path) {
    |dir| < |p| && p[..|dir|] == dir
  }

  lemma BelowStep(dir: F.Path, name: bytes, p: F.Path)
    ensures Below(dir, dir + [name])
    ensures Below(dir + [name], p) ==> Below(dir, p) && p[|dir|] == name
  {
    if Below(dir + [name], p) {
      assert p[..|dir|] == p[..|dir| + 1][..|dir|] == dir;
      assert p[|dir|] == p[..|dir| + 1][|dir|];
    }
  }

  predicate IsDir(fs: F.Tree, p: F.Path) {
    p in fs && fs[p].Dir?
  }

  /** p is below dir, through directories that are no links and by names that are valid. */
  ghost predicate Reached(fs: F.Tree, dir: F.Path, p: F.Path) {
    && Below(dir, p)
    && forall i :: |dir| <= i < |p| ==> ValidName(p[i]) && IsDir(fs, p[..i])
  }

  /** Nothing is removed, directories stay, and what is created or changed is reached from dir. */
  ghost predicate Confined(before: F.Tree, after: F.Tree, dir: F.Path) {
    && (forall p :: p in before ==> p in after)
    && (forall p :: IsDir(before, p) ==> IsDir(after, p))
    && (forall p :: p in after && !(p in before && after[p] == before[p]) ==> Reached(after, dir, p))
  }

  lemma ConfinedRefl(fs: F.Tree, dir: F.Path)
    ensures Confined(fs, fs, dir)
  {}

  lemma ConfinedPut(fs: F.Tree, dir: F.Path, name: bytes, node: F.Node)
    requires IsDir(fs, dir) && ValidName(name) && (IsDir(fs, dir + [name]) ==> node.Dir?)
    ensures Confined(fs, fs[dir + [name] := node], dir)
  {
    var path := dir + [name];
    var after := fs[path := node];
    BelowStep(dir, name, []);
    forall i | |dir| <= i < |path|
      ensures ValidName(path[i]) && IsDir(after, path[..i])
    {
      assert path[..i] == dir != path;
    }
    assert Reached(after, dir, path);
  }

  lemma ReachedLater(b: F.Tree, c: F.Tree, dir: F.Path, p: F.Path)
    requires Reached(b, dir, p) && forall q :: IsDir(b, q) ==> IsDir(c, q)
    ensures Reached(c, dir, p)
  {}

  lemma ConfinedTrans(a: F.Tree, b: F.Tree, c: F.Tree, dir: F.Path)
    requires Confined(a, b, dir) && Confined(b, c, dir)
    ensures Confined(a, c, dir)
  {
    hide Reached;
    forall p | p in c && !(p in a && c[p] == a[p])
      ensures Reached(c, dir, p)
    {
      if p in b && c[p] == b[p] {
        ReachedLater(b, c, dir, p);
      }
    }
  }

  lemma ReachedUp(fs: F.Tree, dir: F.Path, name: bytes, p: F.Path)
    requires Reached(fs, dir + [name], p) && ValidName(name) && IsDir(fs, dir)
    ensures Reached(fs, dir, p)
  {
    BelowStep(dir, name, p);
    forall i | |dir| <= i < |p|
      ensures ValidName(p[i]) && IsDir(fs, p[..i])
    {
      if i == |dir| {
        assert p[..i] == dir;
      }
    }
  }

  lemma ConfinedUp(a: F.Tree, b: F.Tree, dir: F.Path, name: bytes)
    requires Confined(a, b, dir + [name]) && ValidName(name) && IsDir(a, dir)
    ensures Confined(a, b, dir)
  {
    hide Reached;
    forall p | p in b && !(p in a && b[p] == a[p])
      ensures Reached(b, dir, p)
    {
      ReachedUp(b, dir, name, p);
    }
  }

  /** Whether it succeeds or stops half-way, the walk stays below dir, at valid names in real directories. */
  lemma {:induction false} WalkConfined(s: Index, raw: nat, rank: OID -> nat, owner: OID, l: Listing,
                                        dir: F.Path, fs: F.Tree, n: nat)
    requires Acyclic(s, raw, rank) && Descends(s, rank, owner, l.entries)
    requires IsDir(fs, dir)
    ensures Confined(fs, Walk(s, raw, rank, owner, l, dir, fs, n).fs, dir)
    decreases rank(owner), 2, |l.entries|
  {
    hide Acyclic, WalkOne, Reached;
    ConfinedRefl(fs, dir);
    if l.entries != [] {
      var here := WalkOne(s, raw, rank, owner, l.entries[0], dir, fs, n);
      WalkOneConfined(s, raw, rank, owner, l.entries[0], dir, fs, n);
      if here.written.Ok? {
        WalkConfined(s, raw, rank, owner, l.(entries := l.entries[1..]), dir, here.fs, here.written.value);
        ConfinedTrans(fs, here.fs, Walk(s, raw, rank, owner, l, dir, fs, n).fs, dir);
      }
    }
  }

  lemma {:induction false} WalkOneConfined(s: Index, raw: nat, rank: OID -> nat, owner: OID, e: TreeEntry,
                                           dir: F.Path, fs: F.Tree, n: nat)
    requires Acyclic(s, raw, rank) && Descends(s, rank, owner, [e])
    requires IsDir(fs, dir)
    ensures Confined(fs, WalkOne(s, raw, rank, owner, e, dir, fs, n).fs, dir)
    decreases rank(owner), 1, 0
  {
    hide Confined, Walk, Acyclic;
    var path := dir + [e.name];
    assert [e][0] == e;
    ConfinedRefl(fs, dir);
    if ValidName(e.name) {
      if e.mode == DIRECTORY {
        if F.MkDir(fs, path).Some? {
          FolderConfined(s, raw, rank, owner, e, dir, fs, n);
        }
      } else if BlobAt(s, e.oid).Some? && !IsDir(fs, path) {
        ConfinedPut(fs, dir, e.name, F.File(BlobAt(s, e.oid).value, e.mode == EXECUTABLE));
        ConfinedPut(fs, dir, e.name, F.Link(BlobAt(s, e.oid).value));
      }
    }
  }

  lemma {:induction false} FolderConfined(s: Index, raw: nat, rank: OID -> nat, owner: OID, e: TreeEntry,
                                          dir: F.Path, fs: F.Tree, n: nat)
    requires Acyclic(s, raw, rank) && Descends(s, rank, owner, [e])
    requires IsDir(fs, dir) && ValidName(e.name) && e.mode == DIRECTORY && F.MkDir(fs, dir + [e.name]).Some?
    ensures Confined(fs, WalkOne(s, raw, rank, owner, e, dir, fs, n).fs, dir)
    decreases rank(owner), 0, 0
  {
    hide Confined, Walk, Acyclic;
    var path := dir + [e.name];
    assert [e][0] == e;
    var made := F.MkDir(fs, path).value;
    assert made == fs[path := F.Dir];
    ConfinedPut(fs, dir, e.name, F.Dir);
    if TreeAt(s, e.oid).Some? {
      var l := List(TreeAt(s, e.oid).value, 0, raw);
      SubtreesDescend(s, raw, rank, e.oid);
      var after := Walk(s, raw, rank, e.oid, l, path, made, n).fs;
      WalkConfined(s, raw, rank, e.oid, l, path, made, n);
      assert IsDir(made, dir);
      ConfinedUp(made, after, dir, e.name);
      ConfinedTrans(fs, made, after, dir);
    }
  }

  // ----- what being reached means to the operating system -----

  const SLASH: byte := 0x2f
  const DOT: bytes := [0x2e]
  const DOTDOT: bytes := [0x2e, 0x2e]

  /** The text of a relative path. */
  function Text(names: seq<bytes>): bytes {
    if names == [] then [] else names[0] + [SLASH] + Text(names[1..])
  }

  /** Following a text from a directory, name by name; None if it leads through anything but a directory. */
  function Follow(fs: F.Tree, at: F.Path, text: bytes): Option<F.Path>
    decreases |text|
  {
    if text == [] then Some(at)
    else
      match IndexOf(text, SLASH)
      case None => Enter(fs, at, text)
      case Some(i) =>
        match Enter(fs, at, text[..i])
        case None => None
        case Some(next) => Follow(fs, next, text[i + 1..])
  }

  /** One name: empty and "." stay, ".." goes up, anything else goes down, and only a directory can be left. */
  function Enter(fs: F.Tree, at: F.Path, name: bytes): Option<F.Path> {
    if !IsDir(fs, at) then None
    else if name == [] || name == DOT then Some(at)
    else if name == DOTDOT then Some(if at == [] then [] else at[..|at| - 1])
    else Some(at + [name])
  }

  /** A path that is reached is where its text leads, without a detour through a link or out of dir. */
  lemma {:induction false} ReachedIsFollowed(fs: F.Tree, dir: F.Path, p: F.Path)
    requires Reached(fs, dir, p)
    ensures Follow(fs, dir, Text(p[|dir|..])) == Some(p)
    decreases |p| - |dir|
  {
    var name, rest := p[|dir|], p[|dir| + 1..];
    var next := dir + [name];
    assert p[..|dir|] == dir && IsDir(fs, p[..|dir|]);
    assert p[|dir|..][0] == name && p[|dir|..][1..] == rest;
    OneName(fs, dir, name, Text(rest));
    if |p| == |dir| + 1 {
      assert p == next && rest == [];
    } else {
      assert p[..|next|] == next;
      assert Reached(fs, next, p);
      ReachedIsFollowed(fs, next, p);
    }
  }

  lemma OneName(fs: F.Tree, dir: F.Path, name: bytes, rest: bytes)
    requires ValidName(name) && IsDir(fs, dir)
    ensures Follow(fs, dir, name + [SLASH] + rest) == Follow(fs, dir + [name], rest)
  {
    hide IndexOf;
    IndexOfFirst(name, SLASH, rest);
    Slices(name, [SLASH], rest);
    assert (name + [SLASH] + rest)[..|name|] == name;
  }
}
