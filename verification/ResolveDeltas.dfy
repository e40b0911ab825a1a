/** Resolving the pending deltas of a pack (pack.go, resolveDeltas). */
module ResolveDeltas {
  import opened Wrappers
  import opened Bytes
  import opened Objects
  import opened Chains
  import Delta

  datatype ResolveError =
    | OffsetOutOfRange
    | BadDelta(error: Delta.DeltaError)
    | UnknownType
    | Rejected(reason: StoreError)
    | Unresolvable

  /** What holds of the index after the deltas in done have been resolved, in whatever order. */
  ghost predicate Progress(p: Problem, s: Index, done: set<Pending>)
    requires Fresh(p)
  {
    && done <= p.deltas
    && s.Located()
    && Extends(p.plain, s)
    && Explained(p, s)
    && Waiting(p, s, done)
    && AllSettled(p, s, done)
    && Counted(p.plain, s, done)
  }

  ghost predicate Waiting(p: Problem, s: Index, done: set<Pending>) {
    forall d :: d in p.deltas - done ==> d.src !in s.byOffset
  }

  ghost predicate AllSettled(p: Problem, s: Index, done: set<Pending>)
    requires Fresh(p) && done <= p.deltas
  {
    forall d :: d in done ==> Settled(p, s, d)
  }

  ghost predicate Counted(plain: Index, s: Index, done: set<Pending>) {
    |s.byOID| == |plain.byOID| + |done| && |s.byOffset| == |plain.byOffset| + |done|
  }

  /** d has been resolved against the base the index gives it. */
  ghost predicate Settled(p: Problem, s: Index, d: Pending)
    requires Fresh(p) && d in p.deltas
  {
    && !BadOffset(d)
    && BaseOf(s, d).Some?
    && d.src in s.byOffset
    && Resolve(p.hash, d, BaseOf(s, d).value) == Some(s.byOffset[d.src])
  }

  /** What an error says about the problem. */
  ghost predicate Blames(p: Problem, e: ResolveError)
    requires Fresh(p)
  {
    match e
    case OffsetOutOfRange => exists d :: d in p.deltas && BadOffset(d)
    case BadDelta(x) => exists d, o :: d in p.deltas && NamedBy(p, d, o) && Delta.Apply(o.data, d.data.value) == Err(x)
    case UnknownType => exists d, o :: d in p.deltas && NamedBy(p, d, o) && TypeName(o.typ).None?
    case Rejected(_) => Clash(p)
    case Unresolvable => !Faulty(p) && exists d :: d in p.deltas && !Grounded(p, d)
  }

  /** "Unresolvable" is what is said exactly when no delta and no pair of entries is at fault. */
  lemma BlameIsFault(p: Problem, e: ResolveError)
    requires Fresh(p) && Blames(p, e)
    ensures e != Unresolvable <==> Faulty(p)
  {
    hide Delta.Apply, NamedBy;
    match e
    case BadDelta(x) =>
      var d, o :| d in p.deltas && NamedBy(p, d, o) && Delta.Apply(o.data, d.data.value) == Err(x);
      assert Resolve(p.hash, d, o).None?;
    case UnknownType =>
      var d, o :| d in p.deltas && NamedBy(p, d, o) && TypeName(o.typ).None?;
      assert Resolve(p.hash, d, o).None?;
    case _ =>
  }

  /** Every delta not yet done is in order as far as its offset goes, and waits for a base. */
  ghost predicate Stuck(p: Problem, s: Index, done: set<Pending>) {
    forall d :: d in p.deltas - done ==> !BadOffset(d) && BaseOf(s, d).None?
  }

  lemma Advance(p: Problem, s: Index, t: Index, done: set<Pending>, d: Pending, x: Object)
    requires Fresh(p) && Progress(p, s, done)
    requires d in p.deltas - done && !BadOffset(d) && BaseOf(s, d).Some?
    requires Resolve(p.hash, d, BaseOf(s, d).value) == Some(x) && x.oid !in s.byOID
    requires t == s.With(d.src, x)
    ensures Progress(p, t, done + {d})
  {
    hide Resolve, ObjectOf, BaseOf, Explained, AllSettled, Counted, Fresh, Index.Located, Extends;
    WithLocated(s, d.src, x);
    ExtendsTrans(p.plain, s, t);
    WithCounted(p.plain, s, done, d, x);
    WithSettled(p, s, t, done, d, x);
    WithChains(p, s, t, d, x);
    WithPending(p, s, t, done, d, x);
  }

  lemma WithSettled(p: Problem, s: Index, t: Index, done: set<Pending>, d: Pending, x: Object)
    requires Fresh(p) && done <= p.deltas && AllSettled(p, s, done) && Extends(s, t)
    requires d in p.deltas && !BadOffset(d) && BaseOf(s, d).Some? && t == s.With(d.src, x)
    requires Resolve(p.hash, d, BaseOf(s, d).value) == Some(x)
    ensures AllSettled(p, t, done + {d})
  {
    hide Resolve, BaseOf;
    LookupKept(s, t, d);
    forall e | e in done
      ensures Settled(p, t, e)
    {
      SettledKept(p, s, t, e);
    }
  }

  lemma WithChains(p: Problem, s: Index, t: Index, d: Pending, x: Object)
    requires Fresh(p) && s.Located() && Explained(p, s)
    requires d in p.deltas && !BadOffset(d) && BaseOf(s, d).Some?
    requires Resolve(p.hash, d, BaseOf(s, d).value) == Some(x)
    requires t == s.With(d.src, x)
    ensures Explained(p, t)
  {
    var c := ChainOfBase(p, s, d);
    assert Ends(p, Link(d, c), d.src, x);
    forall off | off in t.byOffset && off != d.src
      ensures exists c :: Ends(p, c, off, t.byOffset[off])
    {
      assert t.byOffset[off] == s.byOffset[off];
    }
  }

  lemma WithCounted(plain: Index, s: Index, done: set<Pending>, d: Pending, x: Object)
    requires Counted(plain, s, done) && d !in done && d.src !in s.byOffset && x.oid !in s.byOID
    ensures Counted(plain, s.With(d.src, x), done + {d})
  {}

  lemma WithPending(p: Problem, s: Index, t: Index, done: set<Pending>, d: Pending, x: Object)
    requires Fresh(p) && d in p.deltas && Waiting(p, s, done)
    requires t == s.With(d.src, x)
    ensures Waiting(p, t, done + {d})
  {
    forall e | e in p.deltas - (done + {d})
      ensures e.src !in t.byOffset
    {
      assert e.src != d.src;
    }
  }

  lemma WithLocated(s: Index, off: int, o: Object)
    requires s.Located() && off !in s.byOffset && o.oid !in s.byOID
    ensures s.With(off, o).Located() && Extends(s, s.With(off, o))
  {
    var t := s.With(off, o);
    forall oid | oid in t.byOID
      ensures exists a :: a in t.byOffset && t.byOffset[a].oid == oid
    {
      if oid == o.oid {
        assert t.byOffset[off].oid == oid;
      } else {
        var a :| a in s.byOffset && s.byOffset[a].oid == oid;
        assert t.byOffset[a].oid == oid;
      }
    }
  }

  lemma ExtendsTrans(s: Index, t: Index, u: Index)
    requires Extends(s, t) && Extends(t, u)
    ensures Extends(s, u)
  {}

  lemma LookupKept(s: Index, t: Index, d: Pending)
    requires Extends(s, t) && BaseOf(s, d).Some?
    ensures BaseOf(t, d) == BaseOf(s, d)
  {}

  lemma SettledKept(p: Problem, s: Index, t: Index, d: Pending)
    requires Fresh(p) && d in p.deltas && Settled(p, s, d) && Extends(s, t)
    ensures Settled(p, t, d)
  {
    hide Resolve;
    LookupKept(s, t, d);
  }

  /** At a fixpoint the index holds the object of every chain. */
  lemma {:induction false} FixpointHolds(p: Problem, s: Index, done: set<Pending>, c: Chain)
    requires Fresh(p) && Progress(p, s, done)
    requires Stuck(p, s, done)
    requires ObjectOf(p, c).Some?
    ensures Where(c) in s.byOffset && s.byOffset[Where(c)] == ObjectOf(p, c).value
  {
    match c
    case Root(off) =>
    case Link(d, b) =>
      FixpointHolds(p, s, done, b);
      assert BaseOf(s, d) == ObjectOf(p, b);
      assert d in done && Settled(p, s, d);
  }

  /** All deltas resolved: the problem is solvable and the index is its solution. */
  lemma ResolvedIsSolved(p: Problem, s: Index)
    requires Fresh(p) && Progress(p, s, p.deltas)
    ensures Solvable(p) && Solution(p, s)
  {
    forall c, off, o | Ends(p, c, off, o)
      ensures off in s.byOffset && s.byOffset[off] == o
    {
      FixpointHolds(p, s, p.deltas, c);
    }
    NoClash(p, s, p.deltas);
    forall d | d in p.deltas
      ensures Grounded(p, d)
    {
      assert Settled(p, s, d);
      var c := ChainOfBase(p, s, d);
      assert ObjectOf(p, Link(d, c)).Some?;
    }
  }

  lemma NoClash(p: Problem, s: Index, done: set<Pending>)
    requires Fresh(p) && Progress(p, s, done) && Stuck(p, s, done)
    ensures forall c, e :: SameId(p, c, e) ==> Where(c) == Where(e)
    ensures !Clash(p)
  {
    forall c, e | SameId(p, c, e)
      ensures Where(c) == Where(e)
    {
      FixpointHolds(p, s, done, c);
      FixpointHolds(p, s, done, e);
    }
  }

  /** At a fixpoint nothing is wrong but missing bases. */
  lemma StuckIsNotFaulty(p: Problem, s: Index, done: set<Pending>)
    requires Fresh(p) && Progress(p, s, done) && Stuck(p, s, done)
    ensures !Faulty(p)
  {
    hide Resolve;
    NoClash(p, s, done);
    forall d | d in p.deltas
      ensures !BadOffset(d)
    {
      assert d in done ==> Settled(p, s, d);
    }
    forall d, o | d in p.deltas && NamedBy(p, d, o)
      ensures Resolve(p.hash, d, o).Some?
    {
      var c :| ObjectOf(p, c) == Some(o) && Names(d, o, Where(c));
      FixpointHolds(p, s, done, c);
      assert BaseOf(s, d) == Some(o);
      assert d in done && Settled(p, s, d);
    }
  }

  /** What the resolver finds as a base is the end of a chain that the delta names. */
  lemma BaseIsNamed(p: Problem, s: Index, done: set<Pending>, d: Pending)
    requires Fresh(p) && Progress(p, s, done)
    requires d in p.deltas && !BadOffset(d) && BaseOf(s, d).Some?
    ensures NamedBy(p, d, BaseOf(s, d).value)
  {
    var c := ChainOfBase(p, s, d);
  }

  /** An id that is taken when a delta is resolved belongs to another entry. */
  lemma TakenIsClash(p: Problem, s: Index, done: set<Pending>, d: Pending)
    requires Fresh(p) && Progress(p, s, done) && d in p.deltas - done && !BadOffset(d) && BaseOf(s, d).Some?
    requires var x := Resolve(p.hash, d, BaseOf(s, d).value); x.Some? && x.value.oid in s.byOID
    ensures Clash(p)
  {
    hide Resolve;
    var x := Resolve(p.hash, d, BaseOf(s, d).value).value;
    var b := ChainOfBase(p, s, d);
    assert ObjectOf(p, Link(d, b)) == Some(x);
    var off :| off in s.byOffset && s.byOffset[off].oid == x.oid;
    var e :| Ends(p, e, off, s.byOffset[off]);
    assert SameId(p, Link(d, b), e) && Where(e) != d.src;
  }

  /** At a fixpoint a delta that is still pending ends no chain at all. */
  lemma StuckIsUngrounded(p: Problem, s: Index, done: set<Pending>, d: Pending)
    requires Fresh(p) && Progress(p, s, done)
    requires Stuck(p, s, done)
    requires d in p.deltas - done
    ensures !Grounded(p, d) && !Solvable(p)
  {
    forall b
      ensures ObjectOf(p, Link(d, b)).None?
    {
      if ObjectOf(p, Link(d, b)).Some? {
        FixpointHolds(p, s, done, Link(d, b));
      }
    }
  }

  /** In a solvable problem no step can fail: every check of the loop passes. */
  lemma StepSucceeds(p: Problem, s: Index, done: set<Pending>, d: Pending)
    requires Fresh(p) && Progress(p, s, done) && Solvable(p)
    requires d in p.deltas - done
    ensures !BadOffset(d)
    ensures BaseOf(s, d).Some? ==>
              var x := Resolve(p.hash, d, BaseOf(s, d).value);
              x.Some? && x.value.oid !in s.byOID
  {
    hide Resolve;
    assert Grounded(p, d);
    var b :| ObjectOf(p, Link(d, b)).Some?;
    if BaseOf(s, d).Some? {
      var c := ChainOfBase(p, s, d);
      SameBase(p, d, b, c);
      NewIdIsFresh(p, s, done, d, b);
    }
  }

  lemma SameBase(p: Problem, d: Pending, b: Chain, c: Chain)
    requires Fresh(p) && Solvable(p)
    requires ObjectOf(p, Link(d, b)).Some?
    requires ObjectOf(p, c).Some? && Names(d, ObjectOf(p, c).value, Where(c))
    ensures ObjectOf(p, b) == ObjectOf(p, c)
  {
    hide Resolve;
    if d.kind == REF_DELTA {
      assert SameId(p, b, c);
    }
    EntryUnique(p, b, c);
  }

  lemma NewIdIsFresh(p: Problem, s: Index, done: set<Pending>, d: Pending, b: Chain)
    requires Fresh(p) && Progress(p, s, done) && Solvable(p)
    requires d in p.deltas - done && ObjectOf(p, Link(d, b)).Some?
    ensures ObjectOf(p, Link(d, b)).value.oid !in s.byOID
  {
    hide ObjectOf;
    var x := ObjectOf(p, Link(d, b)).value;
    forall off | off in s.byOffset
      ensures s.byOffset[off].oid != x.oid
    {
      var e :| Ends(p, e, off, s.byOffset[off]);
      assert SameId(p, Link(d, b), e) <==> s.byOffset[off].oid == x.oid;
    }
  }

  lemma ProgressCounts(p: Problem, s: Index, done: set<Pending>)
    requires Fresh(p) && Progress(p, s, done)
    ensures done <= p.deltas
    ensures |s.byOID| == |p.plain.byOID| + |done| && |s.byOffset| == |p.plain.byOffset| + |done|
  {}

  function Mark(ds: seq<Pending>, done: set<Pending>): (r: seq<Pending>)
    ensures |r| == |ds|
  {
    seq(|ds|, i requires 0 <= i < |ds| => if ds[i] in done then ds[i].(data := None) else ds[i])
  }

  lemma MarkStep(ds: seq<Pending>, done: set<Pending>, i: nat)
    requires DistinctSources(ds) && i < |ds| && ds[i] !in done
    ensures Mark(ds, done)[i := ds[i].(data := None)] == Mark(ds, done + {ds[i]})
  {
    assert forall j :: 0 <= j < |ds| && ds[j] == ds[i] ==> j == i;
  }

  lemma {:induction false} DistinctCount(ds: seq<Pending>)
    requires DistinctSources(ds)
    ensures |set d | d in ds| == |ds|
  {
    if ds != [] {
      var k := |ds| - 1;
      DistinctCount(ds[..k]);
      assert ds == ds[..k] + [ds[k]];
      assert (set d | d in ds) == (set d | d in ds[..k]) + {ds[k]};
      assert ds[k] !in ds[..k];
    }
  }

  lemma StartsWell(p: Problem)
    requires Fresh(p)
    ensures Progress(p, p.plain, {})
  {
    forall off | off in p.plain.byOffset
      ensures exists c :: Ends(p, c, off, p.plain.byOffset[off])
    {
      assert Ends(p, Root(off), off, p.plain.byOffset[off]);
    }
  }

  /** What a run promises: r is its result and after the index it leaves. */
  ghost predicate Resolved(p: Problem, r: Result<(), ResolveError>, after: Index) {
    && Fresh(p)
    && (r.Ok? <==> Solvable(p))
    && (r.Ok? ==> Solution(p, after))
    && (r.Err? ==> Blames(p, r.error))
  }

  /** No run succeeds on a faulty problem, so the three outcomes are told apart by the problem alone. */
  lemma Outcomes(p: Problem, r: Result<(), ResolveError>, after: Index)
    requires Resolved(p, r, after)
    ensures Faulty(p) <==> r.Err? && r.error != Unresolvable
    ensures !Faulty(p) && !(forall d :: d in p.deltas ==> Grounded(p, d)) <==> r == Err(Unresolvable)
  {
    hide Solution, Delta.Apply;
    if r.Ok? {
      SolvableIsNotFaulty(p);
    } else {
      hide Faulty;
      BlameIsFault(p, r.error);
    }
  }

  lemma SolvableIsNotFaulty(p: Problem)
    requires Fresh(p) && Solvable(p)
    ensures !Faulty(p)
  {
    hide Resolve;
    forall d | d in p.deltas
      ensures !BadOffset(d)
    {
      assert Grounded(p, d);
    }
    forall d, o | d in p.deltas && NamedBy(p, d, o)
      ensures Resolve(p.hash, d, o).Some?
    {
      assert Grounded(p, d);
      var b :| ObjectOf(p, Link(d, b)).Some?;
      var c :| ObjectOf(p, c) == Some(o) && Names(d, o, Where(c));
      SameBase(p, d, b, c);
    }
  }

  /**
   * Confluence: two runs on the same deltas in different orders both succeed or both fail; where they
   * succeed they leave the same index, and both call the deltas unresolvable or neither does.
   */
  lemma Confluence(hash: Hash, plain: Index, ds: seq<Pending>, ds': seq<Pending>,
                   r: Result<(), ResolveError>, r': Result<(), ResolveError>, s: Index, s': Index)
    requires multiset(ds) == multiset(ds')
    requires Resolved(Posed(hash, plain, ds), r, s) && Resolved(Posed(hash, plain, ds'), r', s')
    ensures r.Ok? <==> r'.Ok?
    ensures r.Ok? ==> s == s'
    ensures r == Err(Unresolvable) <==> r' == Err(Unresolvable)
  {
    hide Solvable, Solution, Fresh, Blames, Faulty;
    SamePosed(hash, plain, ds, ds');
    var p := Posed(hash, plain, ds);
    if r.Ok? {
      SolutionUnique(p, s, s');
    } else {
      BlameIsFault(p, r.error);
      BlameIsFault(p, r'.error);
    }
  }

  /**
   * Resolves every delta or reports why not. Success, and the index it leaves, are those of the
   * problem, whatever the order of the deltas. "Unresolvable" means that some delta ends no chain
   * and that nothing else is wrong; any other error names something that is.
   */
  method ResolveDeltas(store: ObjectStore) returns (r: Result<(), ResolveError>)
    requires Fresh(Posed(store.hash, store.View(), store.deltas))
    requires DistinctSources(store.deltas)
    modifies store
    ensures Resolved(Posed(store.hash, old(store.View()), old(store.deltas)), r, store.View())
    ensures r.Ok? ==> |store.byOID| == |old(store.byOID)| + |old(store.deltas)|
    ensures r.Ok? ==> |store.byOffset| == |old(store.byOffset)| + |old(store.deltas)|
  {
    hide Progress, Solvable, Solution, Grounded, Settled, BaseOf, Stuck, Faulty;
    ghost var p := Posed(store.hash, store.View(), store.deltas);
    ghost var ds := store.deltas;
    ghost var done: set<Pending> := {};
    DistinctCount(ds);
    StartsWell(p);
    assert store.deltas == Mark(ds, done);
    while true
      invariant store.deltas == Mark(ds, done)
      invariant Progress(p, store.View(), done)
      decreases p.deltas - done
    {
      var more;
      r, more, done := OnePass(store, p, ds, done);
      if r.Err? {
        return;
      }
      if !more {
        break;
      }
    }
    r := Unresolved(store, p, ds, done);
    if r.Ok? {
      ProgressCounts(p, store.View(), done);
      assert done == p.deltas;
      ResolvedIsSolved(p, store.View());
    }
  }

  /** The loop that looks for a delta left over when no pass makes progress. */
  method Unresolved(store: ObjectStore, ghost p: Problem, ghost ds: seq<Pending>, ghost done: set<Pending>)
    returns (r: Result<(), ResolveError>)
    requires Fresh(p) && p.deltas == (set d | d in ds) && store.deltas == Mark(ds, done)
    requires Progress(p, store.View(), done) && Stuck(p, store.View(), done)
    ensures r.Ok? ==> p.deltas <= done
    ensures r.Err? ==> r.error == Unresolvable && !Solvable(p) && Blames(p, r.error)
  {
    hide Progress, Solvable, Grounded, Stuck, Faulty;
    var i := 0;
    while i < |store.deltas|
      invariant 0 <= i <= |ds|
      invariant forall j :: 0 <= j < i ==> ds[j] in done
    {
      if store.deltas[i].data.Some? {
        StuckIsUngrounded(p, store.View(), done, ds[i]);
        StuckIsNotFaulty(p, store.View(), done);
        return Err(Unresolvable);
      }
      assert ds[i] in p.deltas;
      i := i + 1;
    }
    return Ok(());
  }

  /** One walk over the deltas. */
  method OnePass(store: ObjectStore, ghost p: Problem, ghost ds: seq<Pending>, ghost start: set<Pending>)
    returns (r: Result<(), ResolveError>, madeProgress: bool, ghost done: set<Pending>)
    requires Fresh(p) && DistinctSources(ds) && p.deltas == (set d | d in ds) && store.hash == p.hash
    requires store.deltas == Mark(ds, start) && Progress(p, store.View(), start)
    modifies store
    ensures r.Err? ==> !Solvable(p) && r.error != Unresolvable && Blames(p, r.error)
    ensures r.Ok? ==>
              && store.deltas == Mark(ds, done)
              && Progress(p, store.View(), done)
              && (madeProgress ==> p.deltas - done < p.deltas - start)
              && (!madeProgress ==> Stuck(p, store.View(), done))
  {
    hide Progress, Solvable, BaseOf, BadOffset, Blames;
    madeProgress, done := false, start;
    var i := 0;
    while i < |store.deltas|
      invariant 0 <= i <= |ds|
      invariant store.deltas == Mark(ds, done) && Progress(p, store.View(), done)
      invariant if madeProgress then p.deltas - done < p.deltas - start else done == start
      invariant !madeProgress ==>
                  forall j :: 0 <= j < i && ds[j] !in done ==> !BadOffset(ds[j]) && BaseOf(store.View(), ds[j]).None?
    {
      if store.deltas[i].data.Some? {
        assert ds[i] in p.deltas - done && store.deltas[i] == ds[i];
        var step := ResolveOne(store, i, p, done);
        if step.Err? {
          return Err(step.error), madeProgress, done;
        }
        if step.value {
          MarkStep(ds, done, i);
          done := done + {ds[i]};
          madeProgress := true;
        }
      }
      i := i + 1;
    }
    return Ok(()), madeProgress, done;
  }

  /** One delta: true if it was resolved, false if its base is not there yet. */
  method ResolveOne(store: ObjectStore, i: nat, ghost p: Problem, ghost done: set<Pending>)
    returns (r: Result<bool, ResolveError>)
    requires Fresh(p) && store.hash == p.hash && Progress(p, store.View(), done)
    requires i < |store.deltas| && store.deltas[i] in p.deltas - done && store.deltas[i].data.Some?
    modifies store
    ensures r.Err? ==> !Solvable(p) && r.error != Unresolvable && Blames(p, r.error)
    ensures r == Ok(false) ==>
              && store.View() == old(store.View()) && store.deltas == old(store.deltas)
              && !BadOffset(store.deltas[i]) && BaseOf(store.View(), store.deltas[i]).None?
    ensures r == Ok(true) ==>
              && store.deltas == old(store.deltas)[i := old(store.deltas[i]).(data := None)]
              && Progress(p, store.View(), done + {old(store.deltas[i])})
  {
    hide Progress, Solvable, Fresh, Delta.Apply, NamedBy, Clash;
    var delta := store.deltas[i];
    ghost var s := store.View();
    if Solvable(p) {
      StepSucceeds(p, s, done, delta);
    }
    var base: Option<Object>;
    if delta.kind == REF_DELTA {
      base := store.Get(delta.base);
    } else {
      if delta.src < delta.offset {
        return Err(OffsetOutOfRange);
      }
      base := store.GetByOffset(Wrap64(delta.src - delta.offset));
    }
    assert base == BaseOf(s, delta);
    if base.None? {
      return Ok(false);
    }
    BaseIsNamed(p, s, done, delta);
    var resolved := Delta.ApplyDelta(base.value.data, delta.data.value);
    if resolved.Err? {
      return Err(BadDelta(resolved.error));
    }
    var name := TypeName(base.value.typ);
    if name.None? {
      return Err(UnknownType);
    }
    var oid := store.hash(name.value, resolved.value);
    ghost var x := Object(base.value.typ, oid, resolved.value);
    assert Resolve(p.hash, delta, base.value) == Some(x);
    var added := store.Add(base.value.typ, oid, resolved.value);
    if added.Err? {
      TakenIsClash(p, s, done, delta);
      return Err(Rejected(added.error));
    }
    var placed := store.SetOffset(oid, delta.src);
    assert placed.Ok?;  // the object has just been added
    store.deltas := store.deltas[i := delta.(data := None)];
    Advance(p, s, store.View(), done, delta, x);
    return Ok(true);
  }
}
