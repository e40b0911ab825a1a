/**
 * What a set of deltas means, with no order in it. A chain is a plain object of the pack followed
 * by deltas, each naming the object before it as its base; resolving the deltas of a pack is
 * finding the objects that its chains produce.
 */
module Chains {
  import opened Wrappers
  import opened Bytes
  import opened Objects
  import Delta

  datatype Chain = Root(off: int) | Link(delta: Pending, base: Chain)

  /** A resolution problem: the plain objects of a pack and its deltas. */
  datatype Problem = Problem(hash: Hash, plain: Index, deltas: set<Pending>)

  /** Offsets say which entry is meant: no two deltas and no delta and plain object share one. */
  ghost predicate Fresh(p: Problem) {
    && p.plain.Located()
    && (forall d :: d in p.deltas ==> d.data.Some? && d.src !in p.plain.byOffset)
    && (forall d, e :: d in p.deltas && e in p.deltas && d.src == e.src ==> d == e)
  }

  /** The problem a store poses. */
  ghost function Posed(hash: Hash, s: Index, ds: seq<Pending>): Problem {
    Problem(hash, s, set d | d in ds)
  }

  ghost predicate DistinctSources(ds: seq<Pending>) {
    forall i, j :: 0 <= i < j < |ds| ==> ds[i].src != ds[j].src
  }

  function Where(c: Chain): int {
    match c
    case Root(off) => off
    case Link(d, _) => d.src
  }

  predicate Names(d: Pending, base: Object, off: int) {
    if d.kind == REF_DELTA then d.base == base.oid
    else d.src >= d.offset && Wrap64(d.src - d.offset) == off
  }

  /** The object that delta d makes of its base. */
  function Resolve(hash: Hash, d: Pending, base: Object): Option<Object>
    requires d.data.Some?
  {
    match TypeName(base.typ)
    case None => None
    case Some(name) =>
      match Delta.Apply(base.data, d.data.value)
      case Err(_) => None
      case Ok(data) => Some(Object(base.typ, hash(name, data), data))
  }

  /** The object at the end of a chain; None when some link does not fit. */
  ghost function ObjectOf(p: Problem, c: Chain): Option<Object>
    requires Fresh(p)
  {
    match c
    case Root(off) => if off in p.plain.byOffset then Some(p.plain.byOffset[off]) else None
    case Link(d, b) =>
      match ObjectOf(p, b)
      case None => None
      case Some(o) => if d in p.deltas && Names(d, o, Where(b)) then Resolve(p.hash, d, o) else None
  }

  /**
   * When resolution succeeds: every delta ends some chain, and chains that end at different
   * entries of the pack produce different ids.
   */
  ghost predicate Solvable(p: Problem)
    requires Fresh(p)
  {
    && (forall d :: d in p.deltas ==> Grounded(p, d))
    && (forall c, e :: SameId(p, c, e) ==> Where(c) == Where(e))
  }

  ghost predicate Grounded(p: Problem, d: Pending)
    requires Fresh(p)
  {
    exists b :: ObjectOf(p, Link(d, b)).Some?
  }

  ghost predicate SameId(p: Problem, c: Chain, e: Chain)
    requires Fresh(p)
  {
    ObjectOf(p, c).Some? && ObjectOf(p, e).Some? && ObjectOf(p, c).value.oid == ObjectOf(p, e).value.oid
  }

  /** A chain ends in o, and d names that end as its base. */
  ghost predicate NamedBy(p: Problem, d: Pending, o: Object)
    requires Fresh(p)
  {
    exists c :: ObjectOf(p, c) == Some(o) && Names(d, o, Where(c))
  }

  predicate BadOffset(d: Pending) {
    d.kind != REF_DELTA && d.src < d.offset
  }

  /** Two entries end chains with one id. */
  ghost predicate Clash(p: Problem)
    requires Fresh(p)
  {
    exists c, e :: SameId(p, c, e) && Where(c) != Where(e)
  }

  /** Something is wrong with a delta by itself, or with a pair of entries: not merely that a base is missing. */
  ghost predicate Faulty(p: Problem)
    requires Fresh(p)
  {
    || (exists d :: d in p.deltas && BadOffset(d))
    || (exists d, o :: d in p.deltas && NamedBy(p, d, o) && Resolve(p.hash, d, o).None?)
    || Clash(p)
  }

  ghost predicate Ends(p: Problem, c: Chain, off: int, o: Object)
    requires Fresh(p)
  {
    Where(c) == off && ObjectOf(p, c) == Some(o)
  }

  /** Every object of the index ends a chain. */
  ghost predicate Explained(p: Problem, s: Index)
    requires Fresh(p)
  {
    forall off :: off in s.byOffset ==> exists c :: Ends(p, c, off, s.byOffset[off])
  }

  /** The index holds the objects of all chains, at their offsets and under their ids, and nothing else. */
  ghost predicate Solution(p: Problem, s: Index)
    requires Fresh(p)
  {
    && s.Located()
    && Explained(p, s)
    && (forall c, off, o :: Ends(p, c, off, o) ==> off in s.byOffset && s.byOffset[off] == o)
  }

  // ----- solutions are unique, least, and independent of any order -----

  lemma SolutionUnique(p: Problem, s: Index, t: Index)
    requires Fresh(p) && Solution(p, s) && Solution(p, t)
    ensures s == t
  {
    SolutionIncluded(p, s, t);
    SolutionIncluded(p, t, s);
    assert forall off :: off in s.byOffset ==> off in t.byOffset && t.byOffset[off] == s.byOffset[off];
    assert forall off :: off in t.byOffset ==> off in s.byOffset;
    SameMap(s.byOffset, t.byOffset);
    SameMap(s.byOID, t.byOID);
  }

  lemma SameMap<K, V>(m: map<K, V>, n: map<K, V>)
    requires forall k :: k in m ==> k in n && n[k] == m[k]
    requires forall k :: k in n ==> k in m
    ensures m == n
  {}

  lemma SamePosed(hash: Hash, plain: Index, ds: seq<Pending>, ds': seq<Pending>)
    requires multiset(ds) == multiset(ds')
    ensures Posed(hash, plain, ds) == Posed(hash, plain, ds')
  {
    forall d
      ensures d in ds <==> d in ds'
    {
      assert d in multiset(ds) <==> d in multiset(ds');
    }
  }

  lemma SolutionIncluded(p: Problem, s: Index, t: Index)
    requires Fresh(p) && Solution(p, s) && Solution(p, t)
    ensures forall off :: off in s.byOffset ==> off in t.byOffset && t.byOffset[off] == s.byOffset[off]
    ensures forall oid :: oid in s.byOID ==> oid in t.byOID && t.byOID[oid] == s.byOID[oid]
  {
    forall off | off in s.byOffset
      ensures off in t.byOffset && t.byOffset[off] == s.byOffset[off]
    {
      var c :| Ends(p, c, off, s.byOffset[off]);
    }
    forall oid | oid in s.byOID
      ensures oid in t.byOID && t.byOID[oid] == s.byOID[oid]
    {
      var off :| off in s.byOffset && s.byOffset[off].oid == oid;
      assert t.byOffset[off] == s.byOffset[off];
    }
  }

  /** BaseOf is the lookup the resolver does: by id for a REF delta, by offset for an OFS delta. */
  function BaseOf(s: Index, d: Pending): Option<Object> {
    if d.kind == REF_DELTA then
      if d.base in s.byOID then Some(s.byOID[d.base]) else None
    else
      var off := Wrap64(d.src - d.offset);
      if off in s.byOffset then Some(s.byOffset[off]) else None
  }

  /** Nothing is left to do: a delta whose base is there has its object there too. */
  ghost predicate Closed(p: Problem, s: Index)
    requires Fresh(p)
  {
    forall d :: d in p.deltas && !BadOffset(d) && BaseOf(s, d).Some? ==>
      var x := Resolve(p.hash, d, BaseOf(s, d).value);
      x.Some? ==> s.Filed(x.value) && d.src in s.byOffset && s.byOffset[d.src] == x.value
  }

  ghost predicate Extends(s: Index, t: Index) {
    && (forall oid :: oid in s.byOID ==> oid in t.byOID && t.byOID[oid] == s.byOID[oid])
    && (forall off :: off in s.byOffset ==> off in t.byOffset && t.byOffset[off] == s.byOffset[off])
  }

  /** Whatever holds the plain objects and is closed under the deltas holds every chain's object. */
  lemma {:induction false} ClosedHolds(p: Problem, t: Index, c: Chain)
    requires Fresh(p) && Extends(p.plain, t) && Closed(p, t)
    requires ObjectOf(p, c).Some?
    ensures Where(c) in t.byOffset && t.byOffset[Where(c)] == ObjectOf(p, c).value
    ensures t.Filed(ObjectOf(p, c).value)
  {
    match c
    case Root(off) =>
    case Link(d, b) =>
      ClosedHolds(p, t, b);
      assert BaseOf(t, d) == ObjectOf(p, b);
  }

  /** The solution is closed, and it is contained in every closed index over the same plain objects. */
  lemma SolutionLeast(p: Problem, s: Index, t: Index)
    requires Fresh(p) && Solution(p, s) && Extends(p.plain, t) && Closed(p, t)
    ensures Closed(p, s) && Extends(s, t)
  {
    SolutionClosed(p, s);
    forall off | off in s.byOffset
      ensures off in t.byOffset && t.byOffset[off] == s.byOffset[off] && t.Filed(s.byOffset[off])
    {
      var c :| Ends(p, c, off, s.byOffset[off]);
      ClosedHolds(p, t, c);
    }
  }

  lemma SolutionClosed(p: Problem, s: Index)
    requires Fresh(p) && Solution(p, s)
    ensures Closed(p, s)
  {
    forall d | d in p.deltas && !BadOffset(d) && BaseOf(s, d).Some? && Resolve(p.hash, d, BaseOf(s, d).value).Some?
      ensures var x := Resolve(p.hash, d, BaseOf(s, d).value).value;
              s.Filed(x) && d.src in s.byOffset && s.byOffset[d.src] == x
    {
      var c := ChainOfBase(p, s, d);
      assert Ends(p, Link(d, c), d.src, Resolve(p.hash, d, BaseOf(s, d).value).value);
    }
  }

  /** In an index whose objects all end chains, the base of a delta ends a chain the delta can follow. */
  lemma ChainOfBase(p: Problem, s: Index, d: Pending) returns (c: Chain)
    requires Fresh(p) && s.Located() && Explained(p, s)
    requires !BadOffset(d) && BaseOf(s, d).Some?
    ensures ObjectOf(p, c) == BaseOf(s, d) && Names(d, BaseOf(s, d).value, Where(c))
  {
    var off: int;
    if d.kind == REF_DELTA {
      off :| off in s.byOffset && s.byOffset[off].oid == d.base;
    } else {
      off := Wrap64(d.src - d.offset);
    }
    c :| Ends(p, c, off, s.byOffset[off]);
  }

  /** Resolved objects keep their root's type, and their data is the deltas applied along the chain. */
  lemma {:induction false} ChainMeaning(p: Problem, c: Chain)
    requires Fresh(p) && ObjectOf(p, c).Some?
    ensures RootOf(c) in p.plain.byOffset
    ensures ObjectOf(p, c).value.typ == p.plain.byOffset[RootOf(c)].typ
    ensures DataOf(p, c) == Ok(ObjectOf(p, c).value.data)
  {
    match c
    case Root(_) =>
    case Link(_, b) => ChainMeaning(p, b);
  }

  function RootOf(c: Chain): int {
    match c
    case Root(off) => off
    case Link(_, b) => RootOf(b)
  }

  /** The data of the root with the chain's deltas applied to it, first to last. */
  ghost function DataOf(p: Problem, c: Chain): Result<bytes, Delta.DeltaError>
    requires Fresh(p)
    requires RootOf(c) in p.plain.byOffset
  {
    match c
    case Root(off) => Ok(p.plain.byOffset[off].data)
    case Link(d, b) =>
      match DataOf(p, b)
      case Err(e) => Err(e)
      case Ok(data) => if d.data.Some? then Delta.Apply(data, d.data.value) else Ok(data)
  }

  /** When ids tell entries apart, an entry ends at most one kind of object. */
  lemma {:induction false} EntryUnique(p: Problem, c: Chain, e: Chain)
    requires Fresh(p)
    requires forall c, e :: SameId(p, c, e) ==> Where(c) == Where(e)
    requires ObjectOf(p, c).Some? && ObjectOf(p, e).Some? && Where(c) == Where(e)
    ensures ObjectOf(p, c) == ObjectOf(p, e)
  {
    if c.Link? && e.Link? {
      assert c.delta == e.delta;
      if c.delta.kind == REF_DELTA {
        assert SameId(p, c.base, e.base);
      }
      EntryUnique(p, c.base, e.base);
    }
  }
}
