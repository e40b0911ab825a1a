/**
 * A repository reaches the disk as it is, however the server encodes it: any order of objects, any
 * choice of plain, OFS and REF entries and of delta programs, and any framing of the response.
 */
module EndToEnd {
  import opened Wrappers
  import opened Bytes
  import opened Objects
  import opened Chains
  import opened TreeEntries
  import opened Fetch
  import SB = SideBand
  import PL = PktLine
  import PF = PackFile
  import PC = PackContents
  import CO = Checkout
  import CT = CheckoutTheorems
  import Delta
  import F = Files
  import Refs

  // ----- the objects that a list of entries encodes -----

  /** One object per entry; basis[i] is the entry that delta i is against, and levels fall along the way. */
  datatype Plan = Plan(objects: seq<Object>, basis: seq<nat>, level: seq<nat>)

  ghost predicate GoodObjects(hash: Hash, os: seq<Object>) {
    && (forall i :: 0 <= i < |os| ==> RightlyNamed(hash, os[i]))
    && DistinctIds(os)
  }

  function DeltaOf(e: PF.Entry): bytes
    requires !e.Plain?
  {
    e.delta
  }

  /** Entry i, at offset offs[i], encodes object i of the plan. */
  ghost predicate Encodes(offs: seq<nat>, es: seq<PF.Entry>, plan: Plan, i: nat)
    requires i < |es| == |offs| == |plan.objects| == |plan.basis| == |plan.level|
  {
    var o := plan.objects[i];
    if es[i].Plain? then es[i].typ == o.typ && es[i].data == o.data
    else
      var j := plan.basis[i];
      && j < |es|
      && plan.level[j] < plan.level[i]
      && plan.objects[j].typ == o.typ
      && Delta.Apply(plan.objects[j].data, DeltaOf(es[i])) == Ok(o.data)
      && (es[i].Ref? ==> es[i].base == plan.objects[j].oid)
      && (es[i].Ofs? ==> offs[j] <= offs[i] < TWO_63 && es[i].distance == offs[i] - offs[j])
  }

  ghost predicate Encoded(hash: Hash, offs: seq<nat>, es: seq<PF.Entry>, plan: Plan) {
    && |es| == |offs| == |plan.objects| == |plan.basis| == |plan.level|
    && GoodObjects(hash, plan.objects)
    && Ascending(offs)
    && (forall i :: 0 <= i < |es| ==> Encodes(offs, es, plan, i))
  }

  function PendingOf(e: PF.Entry, off: int): Pending
    requires !e.Plain?
  {
    match e
    case Ofs(distance, delta) => Pending(OFS_DELTA, distance, [], Some(delta), off)
    case Ref(base, delta) => Pending(REF_DELTA, 0, base, Some(delta), off)
  }

  /** What filing the entries leaves: each plain object at its offset, each delta pending, nothing else. */
  ghost predicate Holds(hash: Hash, s: PF.Loaded, offs: seq<int>, es: seq<PF.Entry>, t: PF.Loaded)
    requires |offs| == |es|
  {
    && (forall off :: off in s.index.byOffset ==>
          off in t.index.byOffset && t.index.byOffset[off] == s.index.byOffset[off])
    && (forall i :: 0 <= i < |es| && es[i].Plain? ==> PlainAt(hash, t, offs[i], es[i]))
    && (forall off :: off in t.index.byOffset ==> off in s.index.byOffset || PlainFrom(offs, es, off))
    && (forall i :: 0 <= i < |es| && !es[i].Plain? ==> PendingOf(es[i], offs[i]) in t.deltas)
    && (forall d :: d in s.deltas ==> d in t.deltas)
    && (forall d :: d in t.deltas ==> d in s.deltas || DeltaFrom(offs, es, d))
  }

  ghost predicate PlainAt(hash: Hash, t: PF.Loaded, off: int, e: PF.Entry)
    requires e.Plain?
  {
    off in t.index.byOffset && Some(t.index.byOffset[off].oid) == PF.IdOf(hash, e.typ, e.data)
    && t.index.byOffset[off].typ == e.typ && t.index.byOffset[off].data == e.data
  }

  ghost predicate PlainFrom(offs: seq<int>, es: seq<PF.Entry>, off: int)
    requires |offs| == |es|
  {
    exists i :: 0 <= i < |es| && es[i].Plain? && offs[i] == off
  }

  ghost predicate DeltaFrom(offs: seq<int>, es: seq<PF.Entry>, d: Pending)
    requires |offs| == |es|
  {
    exists i :: 0 <= i < |es| && !es[i].Plain? && PendingOf(es[i], offs[i]) == d
  }

  lemma {:induction false} LoadSeqHolds(hash: Hash, s: PF.Loaded, n: nat, offs: seq<int>, es: seq<PF.Entry>, bound: int)
    requires |offs| == |es| && PC.Increasing(offs) && (offs != [] ==> bound <= offs[0]) && PC.Tidy(s, bound, n)
    requires PF.LoadSeq(hash, s, offs, es).Some?
    ensures Holds(hash, s, offs, es, PF.LoadSeq(hash, s, offs, es).value)
    decreases |es|
  {
    hide PC.Tidy, Holds, PF.Load;
    if es == [] {
      HoldsNil(hash, s);
      assert offs == [];
    } else {
      var u := PF.Load(hash, s, offs[0], es[0]).value;
      PC.TidyMore(s, bound, offs[0], n);
      PC.LoadTidy(hash, s, n, offs[0], es[0], u);
      LoadSeqHolds(hash, u, n + 1, offs[1..], es[1..], offs[0] + 1);
      LoadHolds(hash, s, n, offs[0], es[0], u);
      HoldsCons(hash, s, u, PF.LoadSeq(hash, s, offs, es).value, offs[0], es[0], offs[1..], es[1..]);
      assert offs == [offs[0]] + offs[1..] && es == [es[0]] + es[1..];
    }
  }

  lemma HoldsNil(hash: Hash, s: PF.Loaded)
    ensures Holds(hash, s, [], [], s)
  {}

  lemma LoadHolds(hash: Hash, s: PF.Loaded, n: nat, off: int, e: PF.Entry, u: PF.Loaded)
    requires PC.Tidy(s, off, n) && PF.Load(hash, s, off, e) == Some(u)
    ensures Holds(hash, s, [off], [e], u)
  {
    hide Index.Located, DistinctSources;
    assert e.Plain? ==> PlainFrom([off], [e], off) by {
      assert e.Plain? ==> [e][0].Plain? && [off][0] == off;
    }
    assert !e.Plain? ==> DeltaFrom([off], [e], PendingOf(e, off)) by {
      assert !e.Plain? ==> PendingOf([e][0], [off][0]) == PendingOf(e, off);
    }
  }

  lemma HoldsCons(hash: Hash, s: PF.Loaded, u: PF.Loaded, t: PF.Loaded, off: int, e: PF.Entry, offs: seq<int>,
                  es: seq<PF.Entry>)
    requires |offs| == |es|
    requires Holds(hash, s, [off], [e], u) && Holds(hash, u, offs, es, t)
    ensures Holds(hash, s, [off] + offs, [e] + es, t)
  {
    hide PendingOf, PF.IdOf;
    var offs', es' := [off] + offs, [e] + es;
    forall i | 0 <= i < |es'| && es'[i].Plain?
      ensures PlainAt(hash, t, offs'[i], es'[i])
    {
      if i == 0 {
        assert PlainAt(hash, u, [off][0], [e][0]);
      } else {
        assert PlainAt(hash, t, offs[i - 1], es[i - 1]);
      }
    }
    forall o | o in t.index.byOffset && o !in s.index.byOffset
      ensures PlainFrom(offs', es', o)
    {
      if o in u.index.byOffset {
        assert PlainFrom([off], [e], o);
        assert es'[0].Plain? && offs'[0] == o;
      } else {
        var i :| 0 <= i < |es| && es[i].Plain? && offs[i] == o;
        assert es'[i + 1].Plain? && offs'[i + 1] == o;
      }
    }
    forall i | 0 <= i < |es'| && !es'[i].Plain?
      ensures PendingOf(es'[i], offs'[i]) in t.deltas
    {
      if i == 0 {
        assert PendingOf([e][0], [off][0]) in u.deltas;
      } else {
        assert PendingOf(es[i - 1], offs[i - 1]) in t.deltas;
      }
    }
    forall d | d in t.deltas && d !in s.deltas
      ensures DeltaFrom(offs', es', d)
    {
      if d in u.deltas {
        assert DeltaFrom([off], [e], d);
        assert !es'[0].Plain? && PendingOf(es'[0], offs'[0]) == d;
      } else {
        var i :| 0 <= i < |es| && !es[i].Plain? && PendingOf(es[i], offs[i]) == d;
        assert PendingOf(es'[i + 1], offs'[i + 1]) == d;
      }
    }
  }

  // ----- filing succeeds, and the problem's solution is the set of encoded objects -----

  /** No entry's own id is already there. */
  ghost predicate NewIds(hash: Hash, s: Index, es: seq<PF.Entry>) {
    && (forall i :: 0 <= i < |es| && es[i].Plain? ==>
          PF.IdOf(hash, es[i].typ, es[i].data).Some? && PF.IdOf(hash, es[i].typ, es[i].data).value !in s.byOID)
    && (forall i, j :: 0 <= i < j < |es| && es[i].Plain? && es[j].Plain? ==>
          PF.IdOf(hash, es[i].typ, es[i].data) != PF.IdOf(hash, es[j].typ, es[j].data))
  }

  lemma {:induction false} LoadSeqSucceeds(hash: Hash, s: PF.Loaded, offs: seq<int>, es: seq<PF.Entry>)
    requires |offs| == |es| && NewIds(hash, s.index, es)
    ensures PF.LoadSeq(hash, s, offs, es).Some?
    decreases |es|
  {
    hide PF.IdOf;
    if es != [] {
      var u := PF.Load(hash, s, offs[0], es[0]);
      forall i | 0 <= i < |es[1..]| && es[1..][i].Plain?
        ensures PF.IdOf(hash, es[1..][i].typ, es[1..][i].data).value !in u.value.index.byOID
      {
        assert es[1..][i] == es[i + 1];
      }
      LoadSeqSucceeds(hash, u.value, offs[1..], es[1..]);
    }
  }

  ghost predicate Ascending(offs: seq<nat>) {
    forall i, j :: 0 <= i < j < |offs| ==> offs[i] < offs[j]
  }

  ghost predicate DistinctIds(os: seq<Object>) {
    forall i, j :: 0 <= i < j < |os| ==> os[i].oid != os[j].oid
  }

  lemma SameEntry(os: seq<Object>, i: nat, j: nat)
    requires DistinctIds(os) && i < |os| && j < |os| && os[i].oid == os[j].oid
    ensures i == j
  {}

  /** All encoded objects, under their ids and at their entries' offsets. */
  ghost function RepoIndex(offs: seq<nat>, os: seq<Object>): Index
    requires |offs| == |os| && Ascending(offs) && DistinctIds(os)
  {
    Index(ById(os), ByOffset(offs, os))
  }

  ghost function ById(os: seq<Object>): (m: map<OID, Object>)
    requires DistinctIds(os)
    ensures forall i :: 0 <= i < |os| ==> os[i].oid in m && m[os[i].oid] == os[i]
    ensures forall oid :: oid in m ==> exists i :: 0 <= i < |os| && os[i].oid == oid
  {
    map i | 0 <= i < |os| :: os[i].oid := os[i]
  }

  ghost function ByOffset(offs: seq<nat>, os: seq<Object>): (m: map<int, Object>)
    requires |offs| == |os| && Ascending(offs)
    ensures forall i :: 0 <= i < |os| ==> offs[i] in m && m[offs[i]] == os[i]
    ensures forall off :: off in m ==> AtEntry(offs, os, off, m[off])
  {
    var m := map i | 0 <= i < |os| :: offs[i] as int := os[i];
    assert forall off :: off in m ==> AtEntry(offs, os, off, m[off]) by {
      forall off | off in m
        ensures AtEntry(offs, os, off, m[off])
      {
        var i :| 0 <= i < |os| && offs[i] == off;
      }
    }
    m
  }

  lemma RepoIndexAt(offs: seq<nat>, os: seq<Object>)
    requires |offs| == |os| && Ascending(offs) && DistinctIds(os)
    ensures var s := RepoIndex(offs, os);
            && s.Located()
            && (forall i :: 0 <= i < |os| ==> offs[i] in s.byOffset && s.byOffset[offs[i]] == os[i])
            && (forall i :: 0 <= i < |os| ==> s.Filed(os[i]))
            && (forall off :: off in s.byOffset ==> AtEntry(offs, os, off, s.byOffset[off]))
  {
    hide ById, ByOffset;
    var s := RepoIndex(offs, os);
    forall a, b | a in s.byOffset && b in s.byOffset && s.byOffset[a].oid == s.byOffset[b].oid
      ensures a == b
    {
      var i :| 0 <= i < |os| && offs[i] == a && os[i] == s.byOffset[a];
      var j :| 0 <= j < |os| && offs[j] == b && os[j] == s.byOffset[b];
      SameEntry(os, i, j);
    }
    forall oid | oid in s.byOID
      ensures exists off :: off in s.byOffset && s.byOffset[off].oid == oid
    {
      var i :| 0 <= i < |os| && os[i].oid == oid;
      assert s.byOffset[offs[i]] == os[i];
    }
  }

  ghost predicate AtEntry(offs: seq<nat>, os: seq<Object>, off: int, o: Object)
    requires |offs| == |os|
  {
    exists i :: 0 <= i < |os| && offs[i] == off && os[i] == o
  }

  /** The setting of the lemmas below: a plan, its entries, and what filing them has left. */
  ghost predicate Filed(hash: Hash, offs: seq<nat>, es: seq<PF.Entry>, plan: Plan, t: PF.Loaded) {
    && Encoded(hash, offs, es, plan)
    && Fresh(Posed(hash, t.index, t.deltas))
    && Holds(hash, PC.EMPTY, offs, es, t)
  }

  lemma PlainObject(hash: Hash, offs: seq<nat>, es: seq<PF.Entry>, plan: Plan, t: PF.Loaded, i: nat)
    requires Filed(hash, offs, es, plan, t) && i < |es| && es[i].Plain?
    ensures offs[i] in t.index.byOffset && t.index.byOffset[offs[i]] == plan.objects[i]
  {
    hide Fresh, Delta.Apply;
    assert PlainAt(hash, t, offs[i], es[i]);
    assert Encodes(offs, es, plan, i);
  }

  /** What delta i makes of its intended base, and that it names that base and no other object. */
  lemma DeltaObject(hash: Hash, offs: seq<nat>, es: seq<PF.Entry>, plan: Plan, i: nat, j: nat)
    requires Encoded(hash, offs, es, plan) && i < |es| && !es[i].Plain? && j < |es|
    ensures var d := PendingOf(es[i], offs[i]);
            && d.data.Some? && plan.basis[i] < |es|
            && (Names(d, plan.objects[j], offs[j]) <==> j == plan.basis[i])
            && Resolve(hash, d, plan.objects[plan.basis[i]]) == Some(plan.objects[i])
  {
    hide Delta.Apply;
    assert Encodes(offs, es, plan, i);
    var k := plan.basis[i];
    if es[i].Ofs? {
      assert offs[k] <= offs[i];
      assert j < k ==> offs[j] < offs[k];
      assert k < j ==> offs[k] < offs[j];
    } else {
      assert j < k ==> plan.objects[j].oid != plan.objects[k].oid;
      assert k < j ==> plan.objects[k].oid != plan.objects[j].oid;
    }
  }

  lemma {:induction false} ChainFor(hash: Hash, offs: seq<nat>, es: seq<PF.Entry>, plan: Plan, t: PF.Loaded, i: nat)
    returns (c: Chain)
    requires Filed(hash, offs, es, plan, t) && i < |es|
    ensures Ends(Posed(hash, t.index, t.deltas), c, offs[i], plan.objects[i])
    decreases plan.level[i]
  {
    hide Fresh, Resolve, Names, Encodes;
    if es[i].Plain? {
      PlainObject(hash, offs, es, plan, t, i);
      c := Root(offs[i]);
    } else {
      var j := plan.basis[i];
      assert j < |es| && plan.level[j] < plan.level[i] by { BasisBelow(hash, offs, es, plan, i); }
      var b := ChainFor(hash, offs, es, plan, t, j);
      DeltaObject(hash, offs, es, plan, i, j);
      c := Link(PendingOf(es[i], offs[i]), b);
    }
  }

  lemma BasisBelow(hash: Hash, offs: seq<nat>, es: seq<PF.Entry>, plan: Plan, i: nat)
    requires Encoded(hash, offs, es, plan) && i < |es| && !es[i].Plain?
    ensures plan.basis[i] < |es| && plan.level[plan.basis[i]] < plan.level[i]
  {
    assert Encodes(offs, es, plan, i);
  }

  lemma {:induction false} ChainEndsAtEntry(hash: Hash, offs: seq<nat>, es: seq<PF.Entry>, plan: Plan, t: PF.Loaded,
                                            c: Chain)
    returns (i: nat)
    requires Filed(hash, offs, es, plan, t)
    requires ObjectOf(Posed(hash, t.index, t.deltas), c).Some?
    ensures i < |es| && Ends(Posed(hash, t.index, t.deltas), c, offs[i], plan.objects[i])
  {
    hide Fresh, Resolve, Names, Encodes;
    match c
    case Root(off) =>
      assert PlainFrom(offs, es, off);
      i :| 0 <= i < |es| && es[i].Plain? && offs[i] == off;
      PlainObject(hash, offs, es, plan, t, i);
    case Link(d, b) =>
      var j := ChainEndsAtEntry(hash, offs, es, plan, t, b);
      assert DeltaFrom(offs, es, d);
      i :| 0 <= i < |es| && !es[i].Plain? && PendingOf(es[i], offs[i]) == d;
      DeltaObject(hash, offs, es, plan, i, j);
  }

  /** The deltas of an encoded repository resolve, to the objects of the repository. */
  lemma EncodedSolution(hash: Hash, offs: seq<nat>, es: seq<PF.Entry>, plan: Plan, t: PF.Loaded)
    requires Filed(hash, offs, es, plan, t)
    ensures var p := Posed(hash, t.index, t.deltas); Solvable(p) && Solution(p, RepoIndex(offs, plan.objects))
  {
    hide Fresh, ObjectOf, Encodes, Holds, RepoIndex;
    var p := Posed(hash, t.index, t.deltas);
    var s := RepoIndex(offs, plan.objects);
    RepoIndexAt(offs, plan.objects);
    forall off | off in s.byOffset
      ensures exists c :: Ends(p, c, off, s.byOffset[off])
    {
      var i :| 0 <= i < |es| && offs[i] == off && plan.objects[i] == s.byOffset[off];
      var c := ChainFor(hash, offs, es, plan, t, i);
    }
    forall c, off, o | Ends(p, c, off, o)
      ensures off in s.byOffset && s.byOffset[off] == o
    {
      var i := ChainEndsAtEntry(hash, offs, es, plan, t, c);
    }
    forall c, e | SameId(p, c, e)
      ensures Where(c) == Where(e)
    {
      var i := ChainEndsAtEntry(hash, offs, es, plan, t, c);
      var j := ChainEndsAtEntry(hash, offs, es, plan, t, e);
      SameEntry(plan.objects, i, j);
    }
    forall d | d in p.deltas
      ensures Grounded(p, d)
    {
      EncodedGrounded(hash, offs, es, plan, t, d);
    }
  }

  lemma EncodedGrounded(hash: Hash, offs: seq<nat>, es: seq<PF.Entry>, plan: Plan, t: PF.Loaded, d: Pending)
    requires Filed(hash, offs, es, plan, t) && d in t.deltas
    ensures Grounded(Posed(hash, t.index, t.deltas), d)
  {
    hide Fresh, Encodes, Resolve, Names;
    assert DeltaFrom(offs, es, d);
    var i :| 0 <= i < |es| && !es[i].Plain? && PendingOf(es[i], offs[i]) == d;
    var c := ChainFor(hash, offs, es, plan, t, i);
    BasisBelow(hash, offs, es, plan, i);
    var b := ChainFor(hash, offs, es, plan, t, plan.basis[i]);
    DeltaObject(hash, offs, es, plan, i, plan.basis[i]);
    assert ObjectOf(Posed(hash, t.index, t.deltas), Link(d, b)).Some?;
  }

  // ----- trees written into the repository -----

  /** es, in the store s, are the entries of the snapshot t. */
  ghost predicate Represents(s: Index, raw: nat, es: seq<TreeEntry>, t: CO.Snapshot)
    decreases t, 0
  {
    match t
    case End => es == []
    case Entry(name, content, rest) =>
      && es != []
      && es[0].name == name && CO.ValidName(name)
      && ContentAt(s, raw, es[0], content)
      && Represents(s, raw, es[1..], rest)
  }

  ghost predicate ContentAt(s: Index, raw: nat, e: TreeEntry, c: CO.Content)
    decreases c, 2
  {
    match c
    case Folder(sub) => e.mode == CO.DIRECTORY && TreeHere(s, raw, e.oid, sub)
    case Blob(data, executable) =>
      e.mode == (if executable then CO.EXECUTABLE else CO.REGULAR) && CO.BlobAt(s, e.oid) == Some(data)
    case Symlink(target) => e.mode == CO.SYMLINK && CO.BlobAt(s, e.oid) == Some(target) && CO.ValidTarget(target)
    case Skipped => e.mode !in {CO.DIRECTORY, CO.REGULAR, CO.EXECUTABLE, CO.SYMLINK}
  }

  /** The object at oid is a tree, written out, with the entries of t. */
  ghost predicate TreeHere(s: Index, raw: nat, oid: OID, t: CO.Snapshot)
    decreases t, 1
  {
    exists es :: CO.TreeAt(s, oid) == Some(WriteTree(es)) && AllStorable(es, raw) && Represents(s, raw, es, t)
  }

  lemma {:induction false} UnfoldsTo(s: Index, raw: nat, rank: OID -> nat, owner: OID, es: seq<TreeEntry>,
                                     t: CO.Snapshot)
    requires CO.Acyclic(s, raw, rank) && CO.Descends(s, rank, owner, es) && Represents(s, raw, es, t)
    ensures CO.Unfold(s, raw, rank, owner, Listing(es, true)) == Ok(t)
    decreases t, 0
  {
    hide CO.Acyclic;
    match t
    case End =>
    case Entry(name, content, rest) =>
      UnfoldsTo(s, raw, rank, owner, es[1..], rest);
      match content
      case Folder(sub) => SnapshotHere(s, raw, rank, es[0].oid, sub);
      case _ =>
  }

  lemma {:induction false} SnapshotHere(s: Index, raw: nat, rank: OID -> nat, oid: OID, t: CO.Snapshot)
    requires CO.Acyclic(s, raw, rank) && TreeHere(s, raw, oid, t)
    ensures CO.TreeAt(s, oid).Some? && CO.SnapshotAt(s, raw, rank, oid) == Ok(t)
    decreases t, 1
  {
    hide Represents, AllStorable, CO.Unfold;
    var es :| CO.TreeAt(s, oid) == Some(WriteTree(es)) && AllStorable(es, raw) && Represents(s, raw, es, t);
    ListWriteTree([], es, raw);
    assert [] + WriteTree(es) == WriteTree(es);
    CO.SubtreesDescend(s, raw, rank, oid);
    UnfoldsTo(s, raw, rank, oid, es, t);
  }

  /** The object's first line is the key and the id. */
  predicate Says(o: Object, key: bytes, oid: OID) {
    key + Hex(oid) + [NEWLINE] <= o.data
  }

  lemma SaysHeader(o: Object, key: bytes, oid: OID)
    requires Says(o, key, oid) && NEWLINE !in key && key != []
    ensures HeaderOID(o.data, key, |oid|) == Ok(oid)
  {
    hide HeaderOID, Hex;
    var first := key + Hex(oid) + [NEWLINE];
    assert o.data == first + o.data[|first|..];
    HeaderFirst(key, oid, o.data[|first|..]);
  }

  /** At most seven tags, each naming the next object, and a commit that names the tree. */
  ghost predicate LeadsTo(s: Index, raw: nat, chain: seq<Object>, tree: OID) {
    && 1 <= |chain| <= 8
    && (forall i :: 0 <= i < |chain| ==>
          |chain[i].oid| == raw && chain[i].oid in s.byOID && s.byOID[chain[i].oid] == chain[i])
    && (forall i :: 0 <= i < |chain| - 1 ==> chain[i].typ == TAG && Says(chain[i], OBJECT_KEY, chain[i + 1].oid))
    && chain[|chain| - 1].typ == COMMIT && Says(chain[|chain| - 1], TREE_KEY, tree)
    && |tree| == raw && !IsZero(tree)
  }

  /** Such a chain is what the tree of a ref is found by. */
  lemma ChainLeads(s: Index, raw: nat, chain: seq<Object>, tree: OID)
    requires LeadsTo(s, raw, chain, tree)
    ensures WantedTree(s, raw, chain[0].oid) == Some(tree)
  {
    hide HeaderOID, Says, Peel, IsZero;
    var commit := chain[|chain| - 1];
    SaysHeader(commit, TREE_KEY, tree);
    forall i | 0 <= i < |chain| - 1
      ensures HeaderOID(chain[i].data, OBJECT_KEY, raw).Ok?
      ensures Lookup(s, HeaderOID(chain[i].data, OBJECT_KEY, raw).value) == Some(chain[i + 1])
    {
      assert chain[i + 1].oid in s.byOID;
      SaysHeader(chain[i], OBJECT_KEY, chain[i + 1].oid);
    }
    assert TagChain(s, raw, chain);
    PeelExact(s, raw, chain[0], 8, commit);
  }

  // ----- end to end -----

  /** The response carries the pack, in band 1 or bare, among other lines. */
  ghost predicate Carries(response: bytes, pack: bytes) {
    exists fs :: CarriedBy(fs, response, pack)
  }

  ghost predicate CarriedBy(fs: seq<PL.Frame>, response: bytes, pack: bytes) {
    && PL.AllSendable(fs) && SB.AllQuiet(fs)
    && (|| (response == PL.WriteAll(fs) && SB.Band1(fs) == pack)
        || (response == PL.WriteAll(fs) + pack && SB.Band1(fs) == []))
  }

  lemma CarriedExtract(response: bytes, pack: bytes)
    requires Carries(response, pack) && SB.HasPrefix(pack, PACK)
    ensures SB.Extract(response) == Ok(pack)
  {
    hide PL.AllSendable, SB.AllQuiet, SB.HasPrefix, SB.Extract, SB.Band1, PL.WriteAll;
    var fs :| CarriedBy(fs, response, pack);
    if response == PL.WriteAll(fs) && SB.Band1(fs) == pack {
      SB.FramedExtract(fs);
    } else {
      SB.BareExtract(fs, pack);
    }
  }

  /** A writer's choices: compressor, pack version, entries, and the plan they follow. */
  ghost predicate GoodWriter(k: PF.Codec, deflate: bytes -> bytes, version: nat, es: seq<PF.Entry>, plan: Plan) {
    && PF.Undoes(k, deflate)
    && (forall b :: |k.sum(b)| == k.raw)
    && (version == 2 || version == 3)
    && |es| < Pow256(4)
    && PC.AllWritable(k, es)
    && Encoded(k.hash, PC.Cuts(k, deflate, es, 12)[..|es|], es, plan)
  }

  ghost function Stored(k: PF.Codec, deflate: bytes -> bytes, version: nat, es: seq<PF.Entry>, plan: Plan): Index
    requires GoodWriter(k, deflate, version, es, plan)
  {
    RepoIndex(PC.Cuts(k, deflate, es, 12)[..|es|], plan.objects)
  }

  /** Parsing and resolving a written pack gives back exactly the repository's objects. */
  lemma WrittenIsDescribed(k: PF.Codec, deflate: bytes -> bytes, version: nat, es: seq<PF.Entry>, plan: Plan,
                           response: bytes)
    requires GoodWriter(k, deflate, version, es, plan)
    requires Carries(response, PC.WritePack(k, deflate, version, es))
    ensures Describes(k, response, Stored(k, deflate, version, es, plan))
  {
    var pack, offs := PC.WritePack(k, deflate, version, es), PC.Cuts(k, deflate, es, 12)[..|es|];
    hide PF.Parse, Encodes, PF.Undoes, Carries, SB.Extract, PC.Cuts, PF.LoadSeq, RepoIndex, Fresh, Solvable, Solution;
    assert SB.HasPrefix(pack, PACK);
    CarriedExtract(response, pack);
    PC.ParseUndoesWrite(k, deflate, version, es);
    NewInEmpty(k.hash, offs, es, plan);
    LoadSeqSucceeds(k.hash, PC.EMPTY, offs, es);
    var t := PF.LoadSeq(k.hash, PC.EMPTY, offs, es).value;
    var cuts, es' := PC.ParsedIsTidy(k, pack, t);
    PC.TidyIsFresh(k.hash, t, |pack| - k.raw, |es'|);
    FirstCut(k, deflate, es);
    LoadSeqHolds(k.hash, PC.EMPTY, 0, offs, es, 12);
    EncodedSolution(k.hash, offs, es, plan, t);
  }

  lemma FirstCut(k: PF.Codec, deflate: bytes -> bytes, es: seq<PF.Entry>)
    requires PC.AllWritable(k, es)
    ensures PC.Tidy(PC.EMPTY, 12, 0)
    ensures es != [] ==> PC.Cuts(k, deflate, es, 12)[..|es|][0] == 12
  {}

  lemma NewInEmpty(hash: Hash, offs: seq<nat>, es: seq<PF.Entry>, plan: Plan)
    requires Encoded(hash, offs, es, plan)
    ensures NewIds(hash, PC.EMPTY.index, es)
  {
    hide Delta.Apply;
    forall i | 0 <= i < |es| && es[i].Plain?
      ensures PF.IdOf(hash, es[i].typ, es[i].data) == Some(plan.objects[i].oid)
    {
      assert Encodes(offs, es, plan, i);
    }
  }

  /** The response carries a written pack whose objects lead over tags and a commit to a tree, the snapshot t. */
  ghost predicate Serves(k: PF.Codec, deflate: bytes -> bytes, version: nat, es: seq<PF.Entry>, plan: Plan,
                         response: bytes, chain: seq<Object>, tree: OID, t: CO.Snapshot, rank: OID -> nat) {
    && GoodWriter(k, deflate, version, es, plan)
    && Carries(response, PC.WritePack(k, deflate, version, es))
    && LeadsTo(Stored(k, deflate, version, es, plan), k.raw, chain, tree)
    && TreeHere(Stored(k, deflate, version, es, plan), k.raw, tree, t)
    && forall s :: Describes(k, response, s) ==> CO.Acyclic(s, k.raw, rank)
  }

  /** There is room for the snapshot: its directory can be made, nothing there clashes, and no name is listed twice. */
  ghost predicate Room(t: CO.Snapshot, outDir: F.Path, before: F.Tree) {
    CT.DistinctNames(t) && F.MkDir(before, outDir).Some? && CT.Clear(before, outDir, CT.Names(t))
  }

  /**
   * Whatever the encoding, a run of Clone on the response succeeds, reports the number of leaves of
   * the wanted tree, and changes the output by exactly the files of that tree.
   */
  lemma EndToEnd(k: PF.Codec, deflate: bytes -> bytes, version: nat, es: seq<PF.Entry>, plan: Plan,
                 response: bytes, chain: seq<Object>, tree: OID, t: CO.Snapshot, rank: OID -> nat,
                 outDir: F.Path, before: F.Tree, after: F.Tree, r: Result<nat, CloneError>)
    requires Serves(k, deflate, version, es, plan, response, chain, tree, t, rank) && Room(t, outDir, before)
    requires Cloned(k, response, chain[0].oid, rank, outDir, before, after, r)
    ensures r == Ok(CO.CountLeaves(t))
    ensures after == before[outDir := F.Dir] + CO.Flatten(t, outDir)
  {
    var s, wanted := Stored(k, deflate, version, es, plan), chain[0].oid;
    assert |chain| > 0;
    hide Describes, GoodWriter, Carries, CO.Acyclic, WantedTree, LeadsTo, TreeHere, CO.Flatten;
    hide CT.DistinctNames, CT.Clear, Stored;
    WrittenIsDescribed(k, deflate, version, es, plan, response);
    ChainLeads(s, k.raw, chain, tree);
    SnapshotHere(s, k.raw, rank, tree, t);
    Arrives(k, response, s, wanted, tree, t, rank, outDir, before, after, r);
  }

  lemma Arrives(k: PF.Codec, response: bytes, s: Index, wanted: OID, tree: OID, t: CO.Snapshot, rank: OID -> nat,
                outDir: F.Path, before: F.Tree, after: F.Tree, r: Result<nat, CloneError>)
    requires forall s :: Describes(k, response, s) ==> CO.Acyclic(s, k.raw, rank)
    requires Describes(k, response, s) && WantedTree(s, k.raw, wanted) == Some(tree)
    requires CO.SnapshotAt(s, k.raw, rank, tree) == Ok(t) && Room(t, outDir, before)
    requires Cloned(k, response, wanted, rank, outDir, before, after, r)
    ensures r == Ok(CO.CountLeaves(t))
    ensures after == before[outDir := F.Dir] + CO.Flatten(t, outDir)
  {
    hide Describes, CO.Acyclic, WantedTree, CO.Flatten, CT.DistinctNames, CT.Clear;
    assert Expected(k, s, wanted, rank, outDir, before);
    var s' :| Describes(k, response, s') && Landed(k, s', wanted, rank, outDir, before, after, r.value);
    DescribedOnce(k, response, s, s');
  }

  /** What a server lists: lines that may come first, refs with ids of one length, capabilities that agree, a flush. */
  ghost predicate Lists(pre: seq<PL.Frame>, refs: seq<Refs.Ref>, caps: bytes, post: seq<PL.Frame>, raw: nat,
                        split: bytes -> seq<bytes>) {
    && (forall i :: 0 <= i < |pre| ==> Refs.Preamble(pre[i]))
    && refs != [] && raw > 0 && Refs.AllWritable(refs, raw) && Refs.NUL !in refs[0].name
    && Refs.ObjectFormat(split(caps), 2 * raw) == Ok(raw)
    && PL.AllSendable(Refs.Advertisement(pre, refs, caps, post))
  }

  /**
   * From name to files: if the best ref that a server lists for the name is the head of a chain that it
   * serves, a run writes exactly the files at the end of that chain.
   */
  lemma EndToEndByName(pre: seq<PL.Frame>, refs: seq<Refs.Ref>, caps: bytes, post: seq<PL.Frame>,
                       split: bytes -> seq<bytes>, name: bytes, i: nat, codecs: nat -> PF.Codec,
                       deflate: bytes -> bytes, version: nat, es: seq<PF.Entry>, plan: Plan,
                       response: bytes, chain: seq<Object>, tree: OID, t: CO.Snapshot, rank: OID -> nat,
                       outDir: F.Path, before: F.Tree, after: F.Tree, r: Result<nat, Refs.RunError>, raw: nat)
    requires Lists(pre, refs, caps, post, raw, split) && Refs.Chosen(refs, name, i)
    requires codecs(raw).raw == raw && Room(t, outDir, before)
    requires Serves(codecs(raw), deflate, version, es, plan, response, chain, tree, t, rank)
    requires refs[i].oid == chain[0].oid
    requires forall raw, s :: Describes(codecs(raw), response, s) ==> CO.Acyclic(s, codecs(raw).raw, rank)
    requires Refs.ClonedByName(codecs, PL.WriteAll(Refs.Advertisement(pre, refs, caps, post)), name, split, response,
                               rank, outDir, before, after, r)
    ensures r == Ok(CO.CountLeaves(t))
    ensures after == before[outDir := F.Dir] + CO.Flatten(t, outDir)
  {
    hide Describes, CO.Acyclic, Cloned, GoodWriter, Carries, LeadsTo, TreeHere, Stored, Room, CO.Flatten;
    hide Refs.Select, Refs.Advertisement, Refs.ObjectFormat, PL.WriteAll, PL.AllSendable, Refs.Grade;
    Refs.SelectsBest(pre, refs, caps, post, raw, name, split);
    var selected := Refs.Select(PL.WriteAll(Refs.Advertisement(pre, refs, caps, post)), name, split);
    var j: nat :| Refs.Chosen(refs, name, j) && selected == Ok(refs[j].oid);
    assert i == j;
    assert Refs.Writable(refs[i], raw);
    EndToEnd(codecs(raw), deflate, version, es, plan, response, chain, tree, t, rank, outDir, before, after,
             if r.Ok? then Ok(r.value) else Err(r.error.cause));
  }
}
