/** Turning rows into documents (source.rs, Documents::next). */
module Source {
  import opened Wrappers
  import opened Bytes
  import B = Batching

  const MAX_DOCUMENT_BYTES := 8 * 1024 * 1024 - 2

  type Id = bytes

  /** What reading and transforming one row gives: an error, nothing, or a document. */
  datatype Row = Broken | Skip | Value(document: B.Document)

  /** document_id for the chosen primary key; None when the key is missing or unusable. */
  type IdOf = B.Document -> Option<Id>

  datatype SourceError = BadRow | BadId | DuplicateId | TooLarge

  function Ids(key: IdOf, docs: seq<B.Document>): set<Id> {
    set d | d in docs && key(d).Some? :: key(d).value
  }

  /** The documents among the rows, in order. */
  function Values(rows: seq<Row>): seq<B.Document> {
    if rows == [] then []
    else Values(rows[..|rows| - 1]) + if rows[|rows| - 1].Value? then [rows[|rows| - 1].document] else []
  }

  /** No row fails, and the documents have ids, all different, and none has more than 8 MiB less two bytes. */
  ghost predicate Acceptable(key: IdOf, rows: seq<Row>) {
    && (forall i :: 0 <= i < |rows| ==> !rows[i].Broken?)
    && Keyed(key, Values(rows))
    && (forall i :: 0 <= i < |Values(rows)| ==> |Values(rows)[i]| <= 8388606)
  }

  /** The documents of a list of rows; None when some row makes the run fail. */
  ghost function Generate(key: IdOf, rows: seq<Row>): (r: Option<seq<B.Document>>) {
    if Acceptable(key, rows) then Some(Values(rows)) else None
  }

  lemma GenerateExact(key: IdOf, rows: seq<Row>)
    ensures Generate(key, rows).Some? <==> Acceptable(key, rows)
    ensures Generate(key, rows).Some? ==> Generate(key, rows).value == Values(rows)
  {
    hide Acceptable, Values;
  }

  /** One more document, if it may come after these. */
  function Extend(key: IdOf, docs: seq<B.Document>, row: Row): Option<seq<B.Document>> {
    match row
    case Broken => None
    case Skip => Some(docs)
    case Value(d) =>
      if key(d).None? || key(d).value in Ids(key, docs) || |d| > MAX_DOCUMENT_BYTES then None
      else Some(docs + [d])
  }

  /** Reading row by row accepts the same lists and gives the same documents. */
  lemma GenerateSnoc(key: IdOf, rows: seq<Row>)
    requires rows != []
    ensures Generate(key, rows) ==
              match Generate(key, rows[..|rows| - 1])
              case None => None
              case Some(docs) => Extend(key, docs, rows[|rows| - 1])
  {
    var front, row := rows[..|rows| - 1], rows[|rows| - 1];
    assert rows == front + [row];
    AcceptableFront(key, front, row);
    hide Acceptable, Values, Ids;
    if Acceptable(key, front) {
      match row
      case Value(d) => AcceptableValue(key, front, d);
      case _ => assert Values(front) + [] == Values(front);
    }
  }

  lemma AcceptableFront(key: IdOf, front: seq<Row>, row: Row)
    ensures Acceptable(key, front + [row]) ==> Acceptable(key, front) && !row.Broken?
    ensures Acceptable(key, front) && row.Skip? ==> Acceptable(key, front + [row])
    ensures Values(front + [row]) == Values(front) + if row.Value? then [row.document] else []
  {
    var rows := front + [row];
    assert rows[..|rows| - 1] == front && rows[|front|] == row;
    assert forall i :: 0 <= i < |front| ==> rows[i] == front[i];
    assert forall i :: 0 <= i < |Values(front)| ==> Values(rows)[i] == Values(front)[i];
  }

  lemma AcceptableValue(key: IdOf, front: seq<Row>, d: B.Document)
    requires Acceptable(key, front)
    ensures Acceptable(key, front + [Value(d)]) <==>
              key(d).Some? && key(d).value !in Ids(key, Values(front)) && |d| <= MAX_DOCUMENT_BYTES
  {
    var rows, docs := front + [Value(d)], Values(front);
    AcceptableFront(key, front, Value(d));
    assert Values(rows) == docs + [d];
    assert forall i :: 0 <= i < |front| ==> rows[i] == front[i];
    assert Values(rows)[|docs|] == d && forall i :: 0 <= i < |docs| ==> Values(rows)[i] == docs[i];
    if key(d).Some? {
      if key(d).value in Ids(key, docs) {
        var e :| e in docs && key(e).Some? && key(e).value == key(d).value;
        var i :| 0 <= i < |docs| && docs[i] == e;
        assert key(Values(rows)[i]) == key(Values(rows)[|docs|]);
      } else {
        forall i | 0 <= i < |docs|
          ensures key(docs[i]) != key(d)
        {
          assert docs[i] in docs;
        }
      }
    }
  }

  function CountSkips(rows: seq<Row>): nat {
    if rows == [] then 0 else CountSkips(rows[..|rows| - 1]) + if rows[|rows| - 1].Skip? then 1 else 0
  }

  ghost predicate Keyed(key: IdOf, docs: seq<B.Document>) {
    && (forall i :: 0 <= i < |docs| ==> key(docs[i]).Some?)
    && (forall i, j :: 0 <= i < j < |docs| ==> key(docs[i]) != key(docs[j]))
  }

  /** Generated documents have ids of their own and each can be sent in a batch of its own. */
  lemma GenerateKeyed(key: IdOf, rows: seq<Row>)
    requires Generate(key, rows).Some?
    ensures Keyed(key, Generate(key, rows).value) && B.Sendable(Generate(key, rows).value)
  {
    var docs := Values(rows);
    forall i | 0 <= i < |docs|
      ensures B.Fits([docs[i]])
    {
    }
  }

  /** A broken prefix cannot be mended by more rows. */
  lemma {:induction false} GenerateStuck(key: IdOf, rows: seq<Row>, n: nat)
    requires n <= |rows| && Generate(key, rows[..n]).None?
    ensures Generate(key, rows).None?
  {
    hide Generate;
    if n < |rows| {
      assert rows[..|rows| - 1][..n] == rows[..n];
      GenerateSnoc(key, rows);
      GenerateStuck(key, rows[..|rows| - 1], n);
    } else {
      assert rows[..n] == rows;
    }
  }

  /** Reading the row at n after the rows before it have generated docs. */
  lemma ReadRow(key: IdOf, rows: seq<Row>, n: nat, docs: seq<B.Document>)
    requires n < |rows| && Generate(key, rows[..n]) == Some(docs)
    ensures Generate(key, rows[..n + 1]) == Extend(key, docs, rows[n])
    ensures CountSkips(rows[..n + 1]) == CountSkips(rows[..n]) + if rows[n].Skip? then 1 else 0
    ensures Extend(key, docs, rows[n]).None? ==> Generate(key, rows).None?
  {
    hide Extend, Generate;
    GenerateSnoc(key, rows[..n + 1]);
    assert rows[..n + 1][..n] == rows[..n] && rows[..n + 1][n] == rows[n];
    if Extend(key, docs, rows[n]).None? {
      GenerateStuck(key, rows, n + 1);
    }
  }

  lemma IdsSnoc(key: IdOf, docs: seq<B.Document>, d: B.Document)
    requires key(d).Some?
    ensures Ids(key, docs + [d]) == Ids(key, docs) + {key(d).value}
  {
    forall e
      ensures e in docs + [d] <==> e in docs || e == d
    {}
  }

  lemma {:induction false} IdsCount(key: IdOf, docs: seq<B.Document>)
    requires Keyed(key, docs)
    ensures |Ids(key, docs)| == |docs|
  {
    if docs != [] {
      var front, d := docs[..|docs| - 1], docs[|docs| - 1];
      assert docs == front + [d];
      IdsCount(key, front);
      IdsSnoc(key, front, d);
      assert key(d).value !in Ids(key, front);
    }
  }

  class Documents {
    const key: IdOf
    const rows: seq<Row>
    var position: nat
    var ids: set<Id>
    var rowsRead: nat
    var rowsSkipped: nat
    var documents: nat
    ghost var produced: seq<B.Document>

    /** produced is what the rows read so far generate, and ids and counts describe it. */
    ghost predicate Valid()
      reads this
    {
      && position <= |rows|
      && Generate(key, rows[..position]) == Some(produced)
      && ids == Ids(key, produced)
      && rowsRead == position
      && rowsSkipped == CountSkips(rows[..position])
      && documents == |produced|
    }

    constructor (key: IdOf, rows: seq<Row>)
      ensures Valid() && produced == [] && this.key == key && this.rows == rows
    {
      this.key, this.rows := key, rows;
      position, ids, rowsRead, rowsSkipped, documents, produced := 0, {}, 0, 0, 0, [];
    }

    method Next() returns (r: Result<Option<B.Document>, SourceError>)
      requires Valid()
      modifies this
      ensures r.Ok? ==> Valid()
      ensures r.Ok? && r.value.Some? ==> produced == old(produced) + [r.value.value] && B.Fits([r.value.value])
      ensures r.Ok? ==> position >= old(position) && (r.value.Some? ==> position > old(position))
      ensures r.Ok? && r.value.None? ==> produced == old(produced) && position == |rows|
      ensures r.Err? ==> Generate(key, rows).None?
    {
      hide Generate, CountSkips, Ids;
      while true
        invariant Valid() && produced == old(produced) && position >= old(position)
        decreases |rows| - position
      {
        if position == |rows| {
          return Ok(None);
        }
        var row := rows[position];
        ReadRow(key, rows, position, produced);
        position := position + 1;
        rowsRead := rowsRead + 1;
        if row.Broken? {
          return Err(BadRow);
        }
        if row.Skip? {
          rowsSkipped := rowsSkipped + 1;
          continue;
        }
        var value := row.document;
        var id := key(value);
        if id.None? {
          return Err(BadId);
        }
        if id.value in ids {
          return Err(DuplicateId);
        }
        ids := ids + {id.value};
        if |value| > MAX_DOCUMENT_BYTES {
          return Err(TooLarge);
        }
        documents := documents + 1;
        IdsSnoc(key, produced, value);
        produced := produced + [value];
        return Ok(Some(value));
      }
    }
  }
}
