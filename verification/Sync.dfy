/** Reconciling an index with a source (sync.rs, run and remove_stale). */
module Sync {
  import opened Wrappers
  import B = Batching
  import S = Source

  type Index = map<S.Id, B.Document>

  /** What has been asked of the server, in order. */
  datatype Request =
    | Upload(docs: seq<B.Document>, ok: bool)
    | Page(offset: nat, seen: seq<S.Id>, total: nat)
    | NoPage
    | Delete(ids: seq<S.Id>, ok: bool)
    | Stats(ok: bool)

  /** The request failed, or a page came back empty although there were documents left to list. */
  predicate Bad(r: Request) {
    match r
    case Upload(_, ok) => !ok
    case Page(offset, seen, total) => seen == [] && offset < total
    case NoPage => true
    case Delete(_, ok) => !ok
    case Stats(ok) => !ok
  }

  ghost predicate Trouble(log: seq<Request>) {
    exists i :: 0 <= i < |log| && Bad(log[i])
  }

  lemma TroubleSnoc(log: seq<Request>, r: Request)
    ensures Trouble(log + [r]) <==> Trouble(log) || Bad(r)
  {
    var more := log + [r];
    assert more[|log|] == r && forall i :: 0 <= i < |log| ==> more[i] == log[i];
    if Trouble(log) {
      var i :| 0 <= i < |log| && Bad(log[i]);
      assert Bad(more[i]);
    }
  }

  // ----- adding documents to an index -----

  function AddAll(key: S.IdOf, m: Index, docs: seq<B.Document>): Index {
    if docs == [] then m
    else
      var d := docs[|docs| - 1];
      var before := AddAll(key, m, docs[..|docs| - 1]);
      if key(d).None? then before else before[key(d).value := d]
  }

  lemma {:induction false} AddAllConcat(key: S.IdOf, m: Index, a: seq<B.Document>, b: seq<B.Document>)
    ensures AddAll(key, m, a + b) == AddAll(key, AddAll(key, m, a), b)
    decreases |b|
  {
    if b == [] {
      assert a + b == a;
    } else {
      assert (a + b)[..|a + b| - 1] == a + b[..|b| - 1];
      AddAllConcat(key, m, a, b[..|b| - 1]);
    }
  }

  lemma {:induction false} AddAllKeys(key: S.IdOf, m: Index, docs: seq<B.Document>)
    ensures AddAll(key, m, docs).Keys == m.Keys + S.Ids(key, docs)
  {
    if docs != [] {
      var front, d := docs[..|docs| - 1], docs[|docs| - 1];
      assert docs == front + [d];
      AddAllKeys(key, m, front);
      if key(d).Some? {
        S.IdsSnoc(key, front, d);
      } else {
        assert forall e :: e in docs && key(e).Some? <==> e in front && key(e).Some?;
      }
    }
  }

  /** On documents with distinct ids, what is stored under their ids does not depend on what was there. */
  lemma {:induction false} AddAllValues(key: S.IdOf, m: Index, n: Index, docs: seq<B.Document>)
    requires S.Keyed(key, docs)
    ensures forall id :: id in S.Ids(key, docs) ==>
              && id in AddAll(key, m, docs) && id in AddAll(key, n, docs)
              && AddAll(key, m, docs)[id] == AddAll(key, n, docs)[id]
  {
    if docs != [] {
      var front, d := docs[..|docs| - 1], docs[|docs| - 1];
      assert docs == front + [d];
      AddAllValues(key, m, n, front);
      S.IdsSnoc(key, front, d);
    }
  }

  /** The documents under their ids, and nothing else. */
  function ById(key: S.IdOf, docs: seq<B.Document>): Index {
    AddAll(key, map[], docs)
  }

  // ----- the server -----

  predicate Enumerates(order: seq<S.Id>, ids: set<S.Id>) {
    && (forall i :: 0 <= i < |order| ==> order[i] in ids)
    && (forall id :: id in ids ==> id in order)
    && (forall i, j :: 0 <= i < j < |order| ==> order[i] != order[j])
  }

  /** A page may hold n documents from offset on. */
  predicate Between(n: nat, offset: nat, limit: nat, total: nat) {
    n <= limit && (n == 0 || offset + n <= total)
  }

  /**
   * An index nobody else writes to. It lists documents in an order that only depends on which are
   * there, answers pages of any length up to the limit, and may fail any request; after a failed
   * write it may or may not have applied it.
   */
  class Server {
    const key: S.IdOf
    const order: set<S.Id> -> seq<S.Id>
    var index: Index
    var log: seq<Request>

    ghost predicate Valid()
      reads `index
    {
      && (forall ids: set<S.Id> :: Enumerates(order(ids), ids))
      && (forall id :: id in index ==> key(index[id]) == Some(id))
    }

    constructor (key: S.IdOf, order: set<S.Id> -> seq<S.Id>, index: Index)
      requires forall ids: set<S.Id> :: Enumerates(order(ids), ids)
      requires forall id :: id in index ==> key(index[id]) == Some(id)
      ensures Valid() && log == [] && this.index == index && this.key == key && this.order == order
    {
      this.key, this.order, this.index, log := key, order, index, [];
    }

    method AddOrReplace(docs: seq<B.Document>) returns (ok: bool)
      requires Valid()
      modifies this
      ensures Valid() && log == old(log) + [Upload(docs, ok)]
      ensures ok ==> index == AddAll(key, old(index), docs)
    {
      ok := *;
      var applied: bool := *;
      if ok || applied {
        KeepsIds(key, index, docs);
        index := AddAll(key, index, docs);
      }
      log := log + [Upload(docs, ok)];
    }

    /** Documents from offset on, and the total; None when the request fails. */
    method GetDocuments(offset: nat, limit: nat) returns (page: Option<(seq<B.Document>, nat)>, ghost seen: seq<S.Id>)
      requires Valid()
      modifies this`log
      ensures page.None? ==> log == old(log) + [NoPage]
      ensures page.Some? ==>
                var ids, n := order(index.Keys), |page.value.0|;
                && page.value.1 == |ids|
                && |seen| == n
                && (n == 0 || (offset + n <= |ids| && seen == ids[offset..offset + n]))
                && (forall i :: 0 <= i < n ==> seen[i] in index && page.value.0[i] == index[seen[i]])
                && log == old(log) + [Page(offset, seen, |ids|)]
    {
      var fails: bool := *;
      if fails {
        log := log + [NoPage];
        return None, [];
      }
      var ids := order(index.Keys);
      assert Enumerates(ids, index.Keys);
      assert Between(0, offset, limit, |ids|);
      var n: nat :| Between(n, offset, limit, |ids|);
      assert Between(n, offset, limit, |ids|) ==> n == 0 || offset + n <= |ids|;
      var stored := index;
      var window := if n == 0 then [] else ids[offset..offset + n];
      seen := window;
      log := log + [Page(offset, window, |ids|)];
      return Some((seq(n, i requires 0 <= i < n => stored[window[i]]), |ids|)), seen;
    }

    method DeleteDocuments(ids: seq<S.Id>) returns (ok: bool)
      requires Valid()
      modifies this
      ensures Valid() && log == old(log) + [Delete(ids, ok)]
      ensures ok ==> index == old(index) - (set id | id in ids)
    {
      ok := *;
      var applied: bool := *;
      if ok || applied {
        index := index - (set id | id in ids);
      }
      log := log + [Delete(ids, ok)];
    }

    /** The number of documents; None when the request fails. */
    method GetStats() returns (n: Option<nat>)
      requires Valid()
      modifies this`log
      ensures log == old(log) + [Stats(n.Some?)]
      ensures n.Some? ==> n.value == |index|
    {
      var ok: bool := *;
      log := log + [Stats(ok)];
      return if ok then Some(|index|) else None;
    }
  }

  ghost function InSomeOrder(ids: set<S.Id>): (order: seq<S.Id>)
    ensures Enumerates(order, ids)
    decreases |ids|
  {
    if ids == {} then []
    else
      var id :| id in ids;
      InSomeOrder(ids - {id}) + [id]
  }

  /** There are servers: some listing order exists for all sets of ids. */
  lemma SomeOrder() returns (order: set<S.Id> -> seq<S.Id>)
    ensures forall ids: set<S.Id> :: Enumerates(order(ids), ids)
  {
    order := ids => InSomeOrder(ids);
  }

  lemma {:induction false} KeepsIds(key: S.IdOf, m: Index, docs: seq<B.Document>)
    requires forall id :: id in m ==> key(m[id]) == Some(id)
    ensures forall id :: id in AddAll(key, m, docs) ==> key(AddAll(key, m, docs)[id]) == Some(id)
  {
    if docs != [] {
      KeepsIds(key, m, docs[..|docs| - 1]);
    }
  }

  function SetOf(order: seq<S.Id>): set<S.Id> {
    set id | id in order
  }

  // ----- what the log says -----

  /** All uploads of the log, if every one of them succeeded. */
  function Uploads(log: seq<Request>): Option<seq<seq<B.Document>>> {
    if log == [] then Some([])
    else
      var r := log[|log| - 1];
      match Uploads(log[..|log| - 1])
      case None => None
      case Some(bs) =>
        if !r.Upload? then Some(bs) else if r.ok then Some(bs + [r.docs]) else None
  }

  function Seen(log: seq<Request>): set<S.Id> {
    set i, id | 0 <= i < |log| && log[i].Page? && id in log[i].seen :: id
  }

  /**
   * A deletion after log is safe: every row was converted, every batch was uploaded, every
   * generated document was then seen in the index, and none of them is being deleted.
   */
  ghost predicate SafeDelete(key: S.IdOf, rows: seq<S.Row>, log: seq<Request>, ids: seq<S.Id>) {
    var docs := S.Generate(key, rows);
    && docs.Some?
    && Uploads(log) == Some(B.Greedy([], docs.value))
    && S.Ids(key, docs.value) <= Seen(log)
    && (forall id :: id in ids ==> id !in S.Ids(key, docs.value))
  }

  ghost predicate SafeLog(key: S.IdOf, rows: seq<S.Row>, log: seq<Request>) {
    forall i :: 0 <= i < |log| && log[i].Delete? ==> SafeDelete(key, rows, log[..i], log[i].ids)
  }

  lemma SafeSnoc(key: S.IdOf, rows: seq<S.Row>, log: seq<Request>, r: Request)
    requires SafeLog(key, rows, log)
    requires r.Delete? ==> SafeDelete(key, rows, log, r.ids)
    ensures SafeLog(key, rows, log + [r])
  {
    hide SafeDelete;
    var more := log + [r];
    forall i | 0 <= i < |more| && more[i].Delete?
      ensures SafeDelete(key, rows, more[..i], more[i].ids)
    {
      if i < |log| {
        assert more[..i] == log[..i];
      } else {
        assert more[..i] == log;
      }
    }
  }

  lemma UploadsSnoc(log: seq<Request>, r: Request)
    ensures Uploads(log + [r]) ==
              match Uploads(log)
              case None => None
              case Some(bs) => if !r.Upload? then Some(bs) else if r.ok then Some(bs + [r.docs]) else None
  {
    assert (log + [r])[..|log|] == log;
  }

  lemma SeenSnoc(log: seq<Request>, r: Request)
    ensures Seen(log + [r]) == Seen(log) + if r.Page? then SetOf(r.seen) else {}
  {
    var more := log + [r];
    forall id
      ensures id in Seen(more) <==> id in Seen(log) || (r.Page? && id in r.seen)
    {
      if id in Seen(log) {
        var i :| 0 <= i < |log| && log[i].Page? && id in log[i].seen;
        assert more[i] == log[i];
      }
      if r.Page? && id in r.seen {
        assert more[|log|] == r;
      }
    }
  }

  // ----- removing stale documents -----

  datatype SyncError =
    | BadSource(error: S.SourceError) | NothingGenerated | UploadFailed | EnumerationFailed
    | BadKey | MissingDocuments | DeleteFailed | StatsFailed | CountMismatch

  function Stale(order: seq<S.Id>, ids: set<S.Id>): seq<S.Id> {
    if order == [] then []
    else Stale(order[..|order| - 1], ids) + if order[|order| - 1] in ids then [] else [order[|order| - 1]]
  }

  predicate Distinct(order: seq<S.Id>) {
    forall i, j :: 0 <= i < j < |order| ==> order[i] != order[j]
  }

  lemma SetSnoc(front: seq<S.Id>, x: S.Id)
    ensures SetOf(front + [x]) == SetOf(front) + {x}
  {}

  lemma {:induction false} StaleMembers(order: seq<S.Id>, ids: set<S.Id>)
    ensures SetOf(Stale(order, ids)) == SetOf(order) - ids
  {
    if order != [] {
      var front, x := order[..|order| - 1], order[|order| - 1];
      assert order == front + [x];
      StaleMembers(front, ids);
      SetSnoc(front, x);
      SetSnoc(Stale(front, ids), x);
      assert Stale(front, ids) + [] == Stale(front, ids);
    }
  }

  lemma {:induction false} DistinctSize(order: seq<S.Id>)
    requires Distinct(order)
    ensures |SetOf(order)| == |order|
  {
    if order != [] {
      var front, x := order[..|order| - 1], order[|order| - 1];
      assert order == front + [x] && x !in front;
      DistinctSize(front);
      SetSnoc(front, x);
    }
  }

  lemma {:induction false} StaleDistinct(order: seq<S.Id>, ids: set<S.Id>)
    requires Distinct(order)
    ensures Distinct(Stale(order, ids))
  {
    if order != [] {
      var front, x := order[..|order| - 1], order[|order| - 1];
      assert order == front + [x] && x !in front;
      StaleDistinct(front, ids);
      StaleMembers(front, ids);
      var kept := Stale(front, ids);
      forall i | 0 <= i < |kept|
        ensures kept[i] != x
      {
        assert kept[i] in SetOf(kept);
      }
    }
  }

  /** Of a list of distinct ids, those that are not stale are the ones in ids. */
  lemma StaleCount(order: seq<S.Id>, ids: set<S.Id>)
    requires Distinct(order)
    ensures |order| - |Stale(order, ids)| == |SetOf(order) * ids|
  {
    StaleDistinct(order, ids);
    DistinctSize(order);
    DistinctSize(Stale(order, ids));
    StaleMembers(order, ids);
    hide SetOf, Stale;
    assert SetOf(order) == (SetOf(order) - ids) + (SetOf(order) * ids);
  }

  /** Concludes that all generated ids were seen, from their number. */
  lemma AllSeen(seen: set<S.Id>, ids: set<S.Id>)
    requires |seen * ids| == |ids|
    ensures ids <= seen
  {
    assert ids == (seen * ids) + (ids - seen);
    assert |ids| == |seen * ids| + |ids - seen|;
  }

  predicate IsPaging(r: Request) {
    r.Page? || r.NoPage?
  }

  /** The loop over pages: what it has seen, in order, and how the ids it saw split. */
  method EnumerateTarget(server: Server, ids: set<S.Id>)
    returns (r: Result<(seq<S.Id>, nat), SyncError>, ghost seen: seq<S.Id>)
    requires server.Valid()
    modifies server`log
    ensures r.Ok? ==>
              && Distinct(seen) && Enclosed(seen, server.index)
              && r.value == (Stale(seen, ids), |seen| - |Stale(seen, ids)|)
              && Seen(server.log) == Seen(old(server.log)) + SetOf(seen)
              && (Trouble(server.log) <==> Trouble(old(server.log)) || |seen| < |server.index|)
    ensures r.Err? ==> Trouble(server.log)
    ensures Paged(old(server.log), server.log)
  {
    hide Stale, Seen, SetOf, Trouble, Paged, Sorted, Enumerates, Distinct, Enclosed, Server.Valid;
    ghost var all := server.order(server.index.Keys);
    var stale: seq<S.Id> := [];
    var offset: nat, retained: nat := 0, 0;
    seen := [];
    ghost var log := server.log;
    NothingSorted(all, log, ids);
    var more := true;
    while more
      invariant Paged(log, server.log)
      invariant offset <= |all| && Sorted(all, ids, offset, seen, stale, retained)
      invariant Seen(server.log) == Seen(log) + SetOf(seen)
      invariant Trouble(server.log) <==> Trouble(log) || (!more && offset < |all|)
      decreases |all| - offset, more
    {
      ghost var before := server.log;
      var page;
      page, offset, seen, stale, retained := TakePage(server, ids, all, log, offset, seen, stale, retained);
      PagedOn(log, before, server.log);
      if page.Err? {
        return Err(page.error), seen;
      }
      more := page.value;
    }
    AllSorted(server, all, ids, offset, seen, stale, retained);
    return Ok((stale, retained)), seen;
  }

  /** One page: false if it was the last to ask for. */
  method TakePage(server: Server, ids: set<S.Id>, ghost all: seq<S.Id>, ghost log: seq<Request>,
                  offset: nat, ghost seen: seq<S.Id>, stale: seq<S.Id>, retained: nat)
    returns (r: Result<bool, SyncError>, offset': nat, ghost seen': seq<S.Id>, stale': seq<S.Id>, retained': nat)
    requires server.Valid() && all == server.order(server.index.Keys) && offset <= |all|
    requires Sorted(all, ids, offset, seen, stale, retained) && Seen(server.log) == Seen(log) + SetOf(seen)
    modifies server`log
    ensures Paged(old(server.log), server.log)
    ensures offset <= offset' <= |all| && Sorted(all, ids, offset', seen', stale', retained')
    ensures r.Ok? ==> Seen(server.log) == Seen(log) + SetOf(seen')
    ensures r.Err? ==> Trouble(server.log)
    ensures r.Ok? ==> (Trouble(server.log) <==> Trouble(old(server.log)) || (!r.value && offset' < |all|))
    ensures r == Ok(true) ==> offset < offset'
  {
    hide Stale, Seen, SetOf, Trouble, Paged, Sorted;
    offset', seen', stale', retained' := offset, seen, stale, retained;
    ghost var before := server.log;
    var page, window := server.GetDocuments(offset, B.MAX_BATCH_DOCUMENTS);
    TroubleSnoc(before, server.log[|before|]);
    OnePage(before, server.log[|before|]);
    SeenSnoc(before, server.log[|before|]);
    if page.None? {
      r := Err(EnumerationFailed);
      return;
    }
    var (results, total) := page.value;
    if |results| == 0 {
      EmptyPage(window);
      r := Ok(false);
      return;
    }
    var ok, more := SplitPage(server.key, results, window, ids);
    if !ok {
      r := Err(BadKey);
      return;
    }
    MoreSorted(all, ids, offset, |results|, seen, stale, retained, more);
    offset', seen' := offset + |results|, seen + window;
    stale', retained' := stale + more, retained + (|results| - |more|);
    r := Ok(offset' < total);
  }

  lemma EmptyPage(window: seq<S.Id>)
    requires window == []
    ensures SetOf(window) == {}
  {}

  /** seen is the first part of all, and stale and retained say how its ids split. */
  ghost predicate Sorted(all: seq<S.Id>, ids: set<S.Id>, offset: nat, seen: seq<S.Id>, stale: seq<S.Id>, retained: nat)
    requires offset <= |all|
  {
    seen == all[..offset] && stale == Stale(seen, ids) && retained == |seen| - |stale|
  }

  lemma NothingSorted(all: seq<S.Id>, log: seq<Request>, ids: set<S.Id>)
    ensures Sorted(all, ids, 0, [], [], 0) && Paged(log, log)
    ensures Seen(log) == Seen(log) + SetOf([])
  {}

  lemma MoreSorted(all: seq<S.Id>, ids: set<S.Id>, offset: nat, count: nat, seen: seq<S.Id>, stale: seq<S.Id>,
                   retained: nat, more: seq<S.Id>)
    requires offset + count <= |all| && Sorted(all, ids, offset, seen, stale, retained)
    requires more == Stale(all[offset..offset + count], ids) && |more| <= count
    ensures var window := all[offset..offset + count];
            && Sorted(all, ids, offset + count, seen + window, stale + more, retained + (count - |more|))
            && SetOf(seen + window) == SetOf(seen) + SetOf(window)
  {
    var window := all[offset..offset + count];
    StaleConcat(seen, window, ids);
    SetConcat(seen, window);
    assert seen + window == all[..offset + count];
  }

  lemma AllSorted(server: Server, all: seq<S.Id>, ids: set<S.Id>, offset: nat, seen: seq<S.Id>, stale: seq<S.Id>,
                  retained: nat)
    requires server.Valid() && all == server.order(server.index.Keys)
    requires offset <= |all| && Sorted(all, ids, offset, seen, stale, retained)
    ensures Distinct(seen) && Enclosed(seen, server.index)
    ensures stale == Stale(seen, ids) && retained == |seen| - |stale|
    ensures |seen| == offset && |all| == |server.index|
  {
    assert Enumerates(all, server.index.Keys);
    DistinctSize(all);
    assert SetOf(all) == server.index.Keys;
  }

  /** The log has grown by requests for pages only. */
  ghost predicate Paged(log: seq<Request>, now: seq<Request>) {
    && |log| <= |now| && now[..|log|] == log
    && forall i :: |log| <= i < |now| ==> IsPaging(now[i])
  }

  lemma PagedOn(log: seq<Request>, mid: seq<Request>, now: seq<Request>)
    requires Paged(log, mid) && Paged(mid, now)
    ensures Paged(log, now)
  {
    assert now[..|log|] == now[..|mid|][..|log|];
    assert forall i :: 0 <= i < |mid| ==> now[i] == now[..|mid|][i];
  }

  lemma OnePage(log: seq<Request>, r: Request)
    requires IsPaging(r)
    ensures Paged(log, log + [r])
  {}

  ghost predicate Enclosed(ids: seq<S.Id>, index: Index) {
    forall i :: 0 <= i < |ids| ==> ids[i] in index
  }

  lemma SetConcat(a: seq<S.Id>, b: seq<S.Id>)
    ensures SetOf(a + b) == SetOf(a) + SetOf(b)
  {}

  lemma {:induction false} StaleConcat(a: seq<S.Id>, b: seq<S.Id>, ids: set<S.Id>)
    ensures Stale(a + b, ids) == Stale(a, ids) + Stale(b, ids)
    decreases |b|
  {
    if b == [] {
      assert a + b == a;
    } else {
      var front := b[..|b| - 1];
      assert (a + b)[..|a + b| - 1] == a + front;
      StaleConcat(a, front, ids);
    }
  }

  /** The documents of one page: their ids that are not wanted. */
  method SplitPage(key: S.IdOf, results: seq<B.Document>, ghost window: seq<S.Id>, ids: set<S.Id>)
    returns (ok: bool, stale: seq<S.Id>)
    requires |window| == |results|
    ensures (forall i :: 0 <= i < |results| ==> key(results[i]) == Some(window[i])) ==>
              ok && stale == Stale(window, ids)
    ensures ok ==> |stale| <= |results|
  {
    stale := [];
    var i := 0;
    while i < |results|
      invariant 0 <= i <= |results| && |stale| <= i
      invariant (forall j :: 0 <= j < i ==> key(results[j]) == Some(window[j])) ==> stale == Stale(window[..i], ids)
    {
      var id := key(results[i]);
      if id.None? {
        return false, stale;
      }
      assert window[..i + 1][..i] == window[..i];
      if id.value !in ids {
        stale := stale + [id.value];
      }
      i := i + 1;
    }
    assert window[..i] == window;
    return true, stale;
  }

  lemma {:induction false} PagesChangeNothing(key: S.IdOf, rows: seq<S.Row>, log: seq<Request>, more: seq<Request>)
    requires Paged(log, more)
    ensures Uploads(more) == Uploads(log)
    ensures SafeLog(key, rows, log) ==> SafeLog(key, rows, more)
    decreases |more|
  {
    hide SafeDelete, SafeLog;
    if |more| == |log| {
      assert more == log;
    } else {
      var front, r := more[..|more| - 1], more[|more| - 1];
      assert more == front + [r] && front[..|log|] == log;
      PagesChangeNothing(key, rows, log, front);
      UploadsSnoc(front, r);
      if SafeLog(key, rows, log) {
        SafeSnoc(key, rows, front, r);
      }
    }
  }

  /** Everything is uploaded: the state in which remove_stale is entered. */
  ghost predicate AllUploaded(key: S.IdOf, rows: seq<S.Row>, log: seq<Request>) {
    && S.Generate(key, rows).Some?
    && Uploads(log) == Some(B.Greedy([], S.Generate(key, rows).value))
  }

  /** remove_stale: deletes what is not in ids, once all of ids has been seen. */
  method RemoveStale(server: Server, ids: set<S.Id>, ghost rows: seq<S.Row>) returns (r: Result<nat, SyncError>)
    requires server.Valid()
    requires AllUploaded(server.key, rows, server.log) && SafeLog(server.key, rows, server.log)
    requires ids == S.Ids(server.key, S.Generate(server.key, rows).value)
    modifies server
    ensures server.Valid() && SafeLog(server.key, rows, server.log)
    ensures Uploads(server.log) == Uploads(old(server.log))
    ensures r.Ok? ==> Removed(old(server.index), server.index, ids, r.value)
    ensures r.Ok? ==> (Trouble(server.log) <==> Trouble(old(server.log)) || |server.index| != |ids|)
    ensures r.Err? && ids <= old(server.index).Keys ==> Trouble(server.log)
  {
    hide SafeDelete, SafeLog, Uploads, S.Generate, B.Greedy, Seen, Stale, Trouble;
    ghost var log, before := server.log, server.index;
    var found, seen := EnumerateTarget(server, ids);
    PagesChangeNothing(server.key, rows, log, server.log);
    if found.Err? {
      return Err(found.error);
    }
    var (stale, retained) := found.value;
    StaleCount(seen, ids);
    StaleMembers(seen, ids);
    StaleDistinct(seen, ids);
    DistinctSize(stale);
    DistinctSize(seen);
    EnclosedSet(seen, before);
    if retained != |ids| {
      if ids <= before.Keys && |seen| == |before| {
        SameSize(SetOf(seen), before.Keys);
        AllWanted(SetOf(seen), ids);
      }
      return Err(MissingDocuments);
    }
    AllSeen(SetOf(seen), ids);
    assert SetOf(seen) <= before.Keys;
    var ok := DeleteAll(server, stale, ids, rows);
    if !ok {
      return Err(DeleteFailed);
    }
    LeftOver(before, SetOf(stale));
    return Ok(|stale|);
  }

  lemma EnclosedSet(seen: seq<S.Id>, index: Index)
    requires Enclosed(seen, index) && |SetOf(seen)| == |seen|
    ensures SetOf(seen) <= index.Keys && |seen| <= |index|
  {
    assert |index| == |index.Keys|;
    assert |index.Keys| == |index.Keys - SetOf(seen)| + |SetOf(seen)|;
  }

  lemma AllWanted(seen: set<S.Id>, ids: set<S.Id>)
    requires ids <= seen
    ensures seen * ids == ids
  {}

  lemma LeftOver(index: Index, gone: set<S.Id>)
    requires gone <= index.Keys
    ensures |index - gone| == |index| - |gone|
  {
    assert (index - gone).Keys == index.Keys - gone;
    assert |index - gone| == |(index - gone).Keys| && |index| == |index.Keys|;
  }

  /** The deletions, a thousand and twenty-four at a time. */
  method DeleteAll(server: Server, stale: seq<S.Id>, ghost ids: set<S.Id>, ghost rows: seq<S.Row>) returns (ok: bool)
    requires server.Valid() && SetOf(stale) !! ids && ids <= Seen(server.log)
    requires AllUploaded(server.key, rows, server.log) && SafeLog(server.key, rows, server.log)
    requires ids == S.Ids(server.key, S.Generate(server.key, rows).value)
    modifies server
    ensures server.Valid() && SafeLog(server.key, rows, server.log)
    ensures Uploads(server.log) == Uploads(old(server.log))
    ensures ok ==> server.index == old(server.index) - SetOf(stale)
    ensures ok ==> (Trouble(server.log) <==> Trouble(old(server.log)))
    ensures !ok ==> Trouble(server.log)
  {
    hide SafeDelete, SafeLog, Uploads, S.Generate, S.Ids, B.Greedy, Seen, Trouble;
    var done := 0;
    while done < |stale|
      invariant 0 <= done <= |stale| && server.Valid()
      invariant server.index == old(server.index) - SetOf(stale[..done])
      invariant SafeLog(server.key, rows, server.log) && ids <= Seen(server.log)
      invariant Uploads(server.log) == Uploads(old(server.log))
      invariant Trouble(server.log) <==> Trouble(old(server.log))
    {
      var next := if done + B.MAX_BATCH_DOCUMENTS < |stale| then done + B.MAX_BATCH_DOCUMENTS else |stale|;
      var batch := stale[done..next];
      ghost var log := server.log;
      NotWanted(stale, ids, done, next);
      DeleteIsSafe(server.key, rows, log, batch, ids);
      ok := server.DeleteDocuments(batch);
      SafeSnoc(server.key, rows, log, Delete(batch, ok));
      UploadsSnoc(log, Delete(batch, ok));
      SeenSnoc(log, Delete(batch, ok));
      TroubleSnoc(log, Delete(batch, ok));
      if !ok {
        return;
      }
      TakeMore(stale, done, next);
      done := next;
    }
    assert stale[..done] == stale;
    return true;
  }

  lemma TakeMore(stale: seq<S.Id>, a: nat, b: nat)
    requires a <= b <= |stale|
    ensures SetOf(stale[..b]) == SetOf(stale[..a]) + (set id | id in stale[a..b])
  {
    assert stale[..b] == stale[..a] + stale[a..b];
    SetConcat(stale[..a], stale[a..b]);
  }

  lemma NotWanted(stale: seq<S.Id>, ids: set<S.Id>, a: nat, b: nat)
    requires a <= b <= |stale| && SetOf(stale) !! ids
    ensures forall id :: id in stale[a..b] ==> id !in ids
  {
    forall id | id in stale[a..b]
      ensures id !in ids
    {
      assert id in SetOf(stale);
    }
  }

  lemma DeleteIsSafe(key: S.IdOf, rows: seq<S.Row>, log: seq<Request>, batch: seq<S.Id>, ids: set<S.Id>)
    requires AllUploaded(key, rows, log) && ids == S.Ids(key, S.Generate(key, rows).value)
    requires ids <= Seen(log) && forall id :: id in batch ==> id !in ids
    ensures SafeDelete(key, rows, log, batch)
  {}

  /** What remove_stale leaves: n documents fewer, none of them wanted, and all wanted ones were there. */
  ghost predicate Removed(before: Index, after: Index, ids: set<S.Id>, n: nat) {
    && ids <= before.Keys
    && exists gone: set<S.Id> :: gone <= before.Keys - ids && |gone| == n && after == before - gone
  }

  // ----- the whole run -----

  function Opt(next: Option<B.Document>): seq<B.Document> {
    if next.Some? then [next.value] else []
  }

  ghost predicate NoDeletes(log: seq<Request>) {
    forall i :: 0 <= i < |log| ==> !log[i].Delete?
  }

  /** The batches sent so far have all arrived: in the index, and in the log. */
  ghost predicate Arrived(server: Server, start: Index, sent: seq<seq<B.Document>>)
    reads server
  {
    && server.Valid() && NoDeletes(server.log)
    && Uploads(server.log) == Some(sent)
    && server.index == AddAll(server.key, start, B.Concat(sent))
    && !Trouble(server.log)
  }

  method Send(server: Server, values: seq<B.Document>, ghost start: Index, ghost sent: seq<seq<B.Document>>)
    returns (ok: bool)
    requires Arrived(server, start, sent)
    modifies server
    ensures server.Valid() && NoDeletes(server.log)
    ensures ok ==> Arrived(server, start, sent + [values])
    ensures !ok ==> Trouble(server.log)
  {
    hide Uploads, AddAll, B.Concat, Trouble;
    ghost var log := server.log;
    ok := server.AddOrReplace(values);
    UploadsSnoc(log, Upload(values, ok));
    TroubleSnoc(log, Upload(values, ok));
    B.ConcatSnoc(sent, values);
    AddAllConcat(server.key, start, B.Concat(sent), values);
  }

  /** One document: if it does not fit, the open batch is sent and a new one opened for it. */
  method PushOrSend(server: Server, batch: B.Batch, document: B.Document, ghost start: Index,
                    ghost sent: seq<seq<B.Document>>, ghost pushed: seq<B.Document>)
    returns (ok: bool, open: B.Batch, ghost more: seq<seq<B.Document>>)
    requires Arrived(server, start, sent) && batch.Valid() && (sent, batch.values) == B.Pushed(pushed)
    modifies server, batch
    ensures server.Valid() && NoDeletes(server.log)
    ensures ok ==> Arrived(server, start, more)
    ensures !ok ==> Trouble(server.log)
    ensures ok ==> open.Valid() && (more, open.values) == B.Pushed(pushed + [document])
    ensures open == batch || fresh(open)
  {
    hide B.Overflows, B.Pushed, Uploads, AddAll, B.Concat, Trouble;
    B.PushedSnoc(pushed, document);
    ok, open, more := true, batch, sent;
    var full := batch.WouldOverflow(document);
    if full {
      ok := Send(server, batch.values, start, sent);
      if !ok {
        return;
      }
      more := sent + [batch.values];
      open := new B.Batch();
      assert open.values + [document] == [document];
    }
    open.Push(document);
  }

  /** The upload loop: reads documents and sends a batch whenever the next one would not fit. */
  method UploadAll(server: Server, documents: S.Documents, first: Option<B.Document>)
    returns (r: Result<(), SyncError>)
    requires server.Valid() && documents.Valid() && server.key == documents.key
    requires server.log == []
    requires documents.produced == Opt(first)
    requires first.None? ==> documents.position == |documents.rows|
    modifies server, documents
    ensures server.Valid() && NoDeletes(server.log)
    ensures r.Ok? ==>
              && documents.Valid() && documents.position == |documents.rows|
              && AllUploaded(server.key, documents.rows, server.log)
              && server.index == AddAll(server.key, old(server.index), documents.produced)
              && |documents.produced| >= |Opt(first)|
              && !Trouble(server.log)
    ensures r.Err? ==> Trouble(server.log) || S.Generate(server.key, documents.rows).None?
  {
    hide B.Greedy, B.Pushed, S.Generate, Uploads, AddAll, B.Concat, Trouble;
    ghost var start := server.index;
    var batch := new B.Batch();
    var next := first;
    ghost var sent: seq<seq<B.Document>>, pushed: seq<B.Document> := [], [];
    NothingYet(server.key, start);
    while next.Some?
      invariant documents.Valid() && batch.Valid() && fresh(batch)
      invariant documents.produced == pushed + Opt(next) && |documents.produced| >= |Opt(first)|
      invariant next.None? ==> documents.position == |documents.rows|
      invariant (sent, batch.values) == B.Pushed(pushed)
      invariant Arrived(server, start, sent)
      decreases |documents.rows| - documents.position + if next.Some? then 1 else 0
    {
      var ok;
      ok, batch, sent := PushOrSend(server, batch, next.value, start, sent, pushed);
      if !ok {
        return Err(UploadFailed);
      }
      pushed := pushed + [next.value];
      var pulled := documents.Next();
      if pulled.Err? {
        return Err(BadSource(pulled.error));
      }
      next := pulled.value;
    }
    assert pushed == documents.produced;
    FinalBatch(pushed, sent, batch.values);
    if batch.values != [] {
      var ok := Send(server, batch.values, start, sent);
      if !ok {
        return Err(UploadFailed);
      }
    }
    assert documents.rows[..documents.position] == documents.rows;
    return Ok(());
  }

  lemma FinalBatch(pushed: seq<B.Document>, sent: seq<seq<B.Document>>, values: seq<B.Document>)
    requires (sent, values) == B.Pushed(pushed)
    ensures var all := if values == [] then sent else sent + [values];
            all == B.Greedy([], pushed) && B.Concat(all) == pushed
  {
    hide B.Pushed;
    B.PushedAll(pushed);
    B.PushedConcat(pushed);
    B.ConcatSnoc(sent, values);
    assert sent + [] == sent && B.Concat(sent) + [] == B.Concat(sent);
  }

  lemma NothingYet(key: S.IdOf, m: Index)
    ensures Uploads([]) == Some([]) && AddAll(key, m, B.Concat([])) == m && B.Pushed([]) == ([], [])
    ensures !Trouble([])
  {}

  /**
   * A run against an index nobody else writes to. On success the index is exactly the generated
   * documents under their ids, the batches sent were the greedy ones, and the reported number is the
   * number of old documents that are gone. It succeeds unless some row spoils the run, nothing is
   * generated though that was not allowed, or the server fails a request or hides documents behind an
   * empty page. On failure too, nothing was deleted before everything was converted, uploaded and seen
   * in the index, and no generated document was deleted.
   */
  method Run(server: Server, rows: seq<S.Row>, allowEmpty: bool) returns (r: Result<nat, SyncError>)
    requires server.Valid() && server.log == []
    modifies server
    ensures SafeLog(server.key, rows, server.log)
    ensures r.Ok? <==>
              && S.Acceptable(server.key, rows)
              && (S.Values(rows) != [] || allowEmpty)
              && !Trouble(server.log)
    ensures r.Ok? ==>
              var docs := S.Values(rows);
              && Holds(server.key, server.index, docs)
              && r.value == |old(server.index).Keys - server.index.Keys|
              && Uploads(server.log) == Some(B.Greedy([], docs))
  {
    hide S.Generate, S.Acceptable, S.Values, Holds;
    hide AddAll, Uploads, B.Greedy, SafeDelete, S.Ids, S.Keyed, Removed, ById, Trouble;
    S.GenerateExact(server.key, rows);
    ghost var start, key := server.index, server.key;
    var documents := new S.Documents(server.key, rows);
    var next := documents.Next();
    if next.Err? {
      return Err(BadSource(next.error));
    }
    if next.value.None? && !allowEmpty {
      assert rows[..documents.position] == rows;
      return Err(NothingGenerated);
    }
    var uploaded := UploadAll(server, documents, next.value);
    if uploaded.Err? {
      return Err(uploaded.error);
    }
    ghost var docs := documents.produced;
    assert rows[..documents.position] == rows;
    NoDeletesIsSafe(key, rows, server.log);
    r := CleanUp(server, documents.ids, documents.documents, rows, start, docs);
  }

  /** The index consists of these documents, each under its id. */
  ghost predicate Holds(key: S.IdOf, index: Index, docs: seq<B.Document>) {
    && (forall i :: 0 <= i < |docs| ==>
          key(docs[i]).Some? && key(docs[i]).value in index && index[key(docs[i]).value] == docs[i])
    && (forall id :: id in index ==> exists i :: 0 <= i < |docs| && key(docs[i]) == Some(id))
  }

  lemma {:induction false} ByIdHolds(key: S.IdOf, docs: seq<B.Document>)
    requires S.Keyed(key, docs)
    ensures Holds(key, ById(key, docs), docs)
  {
    if docs != [] {
      var front, d := docs[..|docs| - 1], docs[|docs| - 1];
      ByIdHolds(key, front);
      var before, index := ById(key, front), ById(key, docs);
      assert index == before[key(d).value := d];
      forall i | 0 <= i < |docs|
        ensures key(docs[i]).value in index && index[key(docs[i]).value] == docs[i]
      {
        assert i < |front| ==> docs[i] == front[i] && key(docs[i]) != key(d);
      }
      forall id | id in index
        ensures exists i :: 0 <= i < |docs| && key(docs[i]) == Some(id)
      {
        if id == key(d).value {
          assert key(docs[|front|]) == Some(id);
        } else {
          var i :| 0 <= i < |front| && key(front[i]) == Some(id);
          assert docs[i] == front[i];
        }
      }
    }
  }

  lemma NoDeletesIsSafe(key: S.IdOf, rows: seq<S.Row>, log: seq<Request>)
    requires NoDeletes(log)
    ensures SafeLog(key, rows, log)
  {}

  /** The end of a run: stale documents are removed, and the number of documents is checked. */
  method CleanUp(server: Server, ids: set<S.Id>, documents: nat, ghost rows: seq<S.Row>,
                 ghost start: Index, ghost docs: seq<B.Document>)
    returns (r: Result<nat, SyncError>)
    requires server.Valid() && AllUploaded(server.key, rows, server.log) && SafeLog(server.key, rows, server.log)
    requires S.Generate(server.key, rows) == Some(docs) && ids == S.Ids(server.key, docs) && documents == |docs|
    requires server.index == AddAll(server.key, start, docs) && !Trouble(server.log)
    modifies server
    ensures SafeLog(server.key, rows, server.log) && Uploads(server.log) == Uploads(old(server.log))
    ensures r.Ok? <==> !Trouble(server.log)
    ensures r.Ok? ==> Holds(server.key, server.index, docs) && r.value == |start.Keys - server.index.Keys|
  {
    ghost var key := server.key;
    hide S.Generate, S.Acceptable, S.Values, Holds;
    hide AddAll, Uploads, B.Greedy, SafeDelete, SafeLog, S.Ids, S.Keyed, Removed, ById, Trouble;
    AllThere(key, rows, start, docs);
    var deleted := RemoveStale(server, ids, rows);
    if deleted.Err? {
      return Err(deleted.error);
    }
    ghost var log := server.log;
    var indexed := server.GetStats();
    AskedForStats(key, rows, log, indexed.Some?);
    if indexed.None? {
      return Err(StatsFailed);
    }
    if indexed.value != documents {
      return Err(CountMismatch);
    }
    Finished(key, start, server.index, docs, deleted.value);
    return Ok(deleted.value);
  }

  lemma AllThere(key: S.IdOf, rows: seq<S.Row>, start: Index, docs: seq<B.Document>)
    requires S.Generate(key, rows) == Some(docs)
    ensures S.Keyed(key, docs) && |S.Ids(key, docs)| == |docs|
    ensures S.Ids(key, docs) <= AddAll(key, start, docs).Keys
  {
    hide S.Generate, S.Acceptable, S.Values, S.Ids, S.Keyed, AddAll;
    AddAllKeys(key, start, docs);
    S.GenerateKeyed(key, rows);
    S.IdsCount(key, docs);
  }

  lemma Finished(key: S.IdOf, start: Index, after: Index, docs: seq<B.Document>, n: nat)
    requires S.Keyed(key, docs)
    requires Removed(AddAll(key, start, docs), after, S.Ids(key, docs), n) && |after| == |docs|
    ensures Holds(key, after, docs) && n == |start.Keys - after.Keys|
  {
    hide S.Ids, S.Keyed, AddAll, Removed, Holds;
    OnlyGenerated(key, start, after, docs, n);
    AddAllKeys(key, map[], docs);
    ByIdHolds(key, docs);
  }

  lemma AskedForStats(key: S.IdOf, rows: seq<S.Row>, log: seq<Request>, ok: bool)
    ensures Trouble(log + [Stats(ok)]) <==> Trouble(log) || !ok
    ensures Uploads(log + [Stats(ok)]) == Uploads(log)
    ensures SafeLog(key, rows, log) ==> SafeLog(key, rows, log + [Stats(ok)])
  {
    hide SafeDelete, SafeLog, Trouble;
    TroubleSnoc(log, Stats(ok));
    UploadsSnoc(log, Stats(ok));
    if SafeLog(key, rows, log) {
      SafeSnoc(key, rows, log, Stats(ok));
    }
  }

  lemma OnlyGenerated(key: S.IdOf, start: Index, after: Index, docs: seq<B.Document>, n: nat)
    requires S.Keyed(key, docs)
    requires Removed(AddAll(key, start, docs), after, S.Ids(key, docs), n) && |after| == |docs|
    ensures after == ById(key, docs) && n == |start.Keys - S.Ids(key, docs)|
  {
    hide S.Ids, S.Keyed, AddAll, Removed;
    S.IdsCount(key, docs);
    AddAllKeys(key, start, docs);
    AddAllKeys(key, map[], docs);
    AddAllValues(key, start, map[], docs);
    ExactlyGenerated(start, AddAll(key, start, docs), after, ById(key, docs), S.Ids(key, docs), n);
  }

  /** Removing some unwanted documents until only the wanted number is left leaves exactly the wanted ones. */
  lemma ExactlyGenerated(start: Index, full: Index, after: Index, wanted: Index, ids: set<S.Id>, n: nat)
    requires full.Keys == start.Keys + ids && wanted.Keys == ids
    requires forall id :: id in ids ==> id in full && id in wanted && full[id] == wanted[id]
    requires Removed(full, after, ids, n) && |after| == |ids|
    ensures after == wanted && n == |start.Keys - ids|
  {
    var gone: set<S.Id> :| gone <= full.Keys - ids && |gone| == n && after == full - gone;
    assert after.Keys == full.Keys - gone;
    KeysLeft(start.Keys, ids, gone);
    forall id | id in after
      ensures id in wanted && after[id] == wanted[id]
    {
      assert id in ids && after[id] == full[id];
    }
    assert after == wanted;
  }

  lemma KeysLeft(was: set<S.Id>, ids: set<S.Id>, gone: set<S.Id>)
    requires gone <= (was + ids) - ids && |(was + ids) - gone| == |ids|
    ensures (was + ids) - gone == ids && gone == was - ids
  {
    SameSize(ids, (was + ids) - gone);
  }

  lemma SameSize(a: set<S.Id>, b: set<S.Id>)
    requires a <= b && |b| == |a|
    ensures a == b
  {
    assert |b - a| == |b| - |a|;
    assert b == a + (b - a);
  }
}
