/** Cutting a stream of documents into upload batches (sync.rs, Batch and the loop in run). */
module Batching {
  import opened Bytes

  const MAX_BATCH_DOCUMENTS := 1024
  const MAX_BATCH_BYTES := 8 * 1024 * 1024

  /** A document, as the JSON text it is sent as. */
  type Document = bytes

  /** The body of an upload: the JSON array of the documents. */
  function Render(values: seq<Document>): bytes {
    [0x5b] + Join(values) + [0x5d]
  }

  function Join(values: seq<Document>): bytes {
    if values == [] then []
    else if |values| == 1 then values[0]
    else Join(values[..|values| - 1]) + [0x2c] + values[|values| - 1]
  }

  lemma RenderSnoc(values: seq<Document>, d: Document)
    ensures |Render(values + [d])| == |Render(values)| + |d| + if values == [] then 0 else 1
  {
    assert (values + [d])[..|values|] == values;
  }

  /** The batch may still be sent. */
  predicate Fits(values: seq<Document>) {
    |values| <= 1024 && |Render(values)| <= 8_388_608
  }

  /** A batch under construction; bytes is the exact length of its JSON array. */
  class Batch {
    var values: seq<Document>
    var bytes: nat

    ghost predicate Valid()
      reads this
    {
      bytes == |Render(values)|
    }

    constructor ()
      ensures Valid() && values == []
    {
      values, bytes := [], 2;
    }

    predicate WouldOverflow(d: Document)
      requires Valid()
      reads this
      ensures WouldOverflow(d) <==> Overflows(values, d)
    {
      RenderSnoc(values, d);
      |values| >= MAX_BATCH_DOCUMENTS || bytes + |d| + (if values == [] then 0 else 1) > MAX_BATCH_BYTES
    }

    method Push(d: Document)
      requires Valid()
      modifies this
      ensures Valid() && values == old(values) + [d]
    {
      RenderSnoc(values, d);
      bytes := bytes + |d| + if values == [] then 0 else 1;
      values := values + [d];
    }
  }

  // ----- the batches that the loop sends -----

  /** The batches still to come when cur is open and docs have not been read. */
  function Greedy(cur: seq<Document>, docs: seq<Document>): seq<seq<Document>>
    decreases |docs|
  {
    if docs == [] then if cur == [] then [] else [cur]
    else if Overflows(cur, docs[0]) then [cur] + Greedy([docs[0]], docs[1..])
    else Greedy(cur + [docs[0]], docs[1..])
  }

  predicate Overflows(cur: seq<Document>, d: Document) {
    |cur| >= MAX_BATCH_DOCUMENTS || |Render(cur + [d])| > MAX_BATCH_BYTES
  }

  function Concat(batches: seq<seq<Document>>): seq<Document> {
    if batches == [] then [] else batches[0] + Concat(batches[1..])
  }

  /** Every document can be sent on its own; the source of the documents sees to that. */
  predicate Sendable(docs: seq<Document>) {
    forall i :: 0 <= i < |docs| ==> Fits([docs[i]])
  }

  /** An order-preserving split of docs into batches that may be sent. */
  predicate Split(batches: seq<seq<Document>>, docs: seq<Document>) {
    Concat(batches) == docs && forall i :: 0 <= i < |batches| ==> Fits(batches[i])
  }

  /** The batches are non-empty, within the limits, and make up the documents in order. */
  lemma {:induction false} GreedySplits(cur: seq<Document>, docs: seq<Document>)
    requires Sendable(docs) && Fits(cur)
    ensures Split(Greedy(cur, docs), cur + docs)
    ensures forall i :: 0 <= i < |Greedy(cur, docs)| ==> Greedy(cur, docs)[i] != []
    decreases |docs|
  {
    hide Render;
    if docs == [] {
      assert cur + docs == cur;
      assert Concat([cur]) == cur + Concat([cur][1..]) == cur;
    } else if Overflows(cur, docs[0]) {
      assert Fits([docs[0]]);
      EmptyHasRoom(cur, docs[0]);
      GreedySplits([docs[0]], docs[1..]);
      var rest := Greedy([docs[0]], docs[1..]);
      assert ([cur] + rest)[1..] == rest;
      assert cur + docs == cur + ([docs[0]] + docs[1..]);
    } else {
      GreedySplits(cur + [docs[0]], docs[1..]);
      assert cur + docs == (cur + [docs[0]]) + docs[1..];
    }
  }

  lemma EmptyHasRoom(cur: seq<Document>, d: Document)
    requires Fits([d]) && Overflows(cur, d)
    ensures cur != []
  {
    assert [] + [d] == [d];
  }

  lemma {:induction false} RenderGrows(x: seq<Document>, c: seq<Document>)
    ensures |Render(x + c)| >= |Render(c)|
    decreases |c|
  {
    if c == [] {
      assert x + c == x;
      assert |Render([])| == 2;
    } else {
      var front, d := c[..|c| - 1], c[|c| - 1];
      assert c == front + [d] && x + c == (x + front) + [d];
      RenderGrows(x, front);
      RenderSnoc(front, d);
      RenderSnoc(x + front, d);
    }
  }

  lemma OverflowGrows(x: seq<Document>, c: seq<Document>, d: Document)
    ensures Overflows(c, d) ==> Overflows(x + c, d)
  {
    hide Render;
    RenderGrows(x, c + [d]);
    assert x + (c + [d]) == (x + c) + [d];
  }

  /** A fuller open batch never leads to fewer batches, and costs at most one more. */
  lemma {:induction false} FullerCosts(x: seq<Document>, c: seq<Document>, docs: seq<Document>)
    requires c != [] && Sendable(docs)
    ensures |Greedy(c, docs)| <= |Greedy(x + c, docs)| <= 1 + |Greedy(c, docs)|
    decreases |docs|
  {
    hide Overflows, Fits;
    if docs != [] {
      var d, rest := docs[0], docs[1..];
      assert (x + c) + [d] == x + (c + [d]);
      OverflowGrows(x, c, d);
      FullerCosts(x, c + [d], rest);
      FullerCosts(c, [d], rest);
    }
  }

  lemma {:induction false} OpenOnce(b: seq<Document>, docs: seq<Document>)
    requires Sendable(docs)
    ensures |Greedy(b, docs)| <= 1 + |Greedy([], docs)|
  {
    if docs != [] {
      var d, rest := docs[0], docs[1..];
      assert Fits([d]);
      assert [] + [d] == [d];
      hide Render;
      assert Greedy([], docs) == Greedy([d], rest);
      FullerCosts(b, [d], rest);
    }
  }

  /** A batch that may be sent is taken whole. */
  lemma {:induction false} TakesWhole(cur: seq<Document>, b: seq<Document>, docs: seq<Document>)
    requires Fits(cur + b)
    ensures Greedy(cur, b + docs) == Greedy(cur + b, docs)
    decreases |b|
  {
    if b == [] {
      assert b + docs == docs && cur + b == cur;
    } else {
      var d := b[0];
      assert (b + docs)[0] == d && (b + docs)[1..] == b[1..] + docs;
      assert (cur + [d]) + b[1..] == cur + b;
      PrefixFits(cur + [d], b[1..]);
      hide Render;
      TakesWhole(cur + [d], b[1..], docs);
    }
  }

  lemma {:induction false} PrefixFits(a: seq<Document>, b: seq<Document>)
    requires Fits(a + b)
    ensures Fits(a)
    decreases |b|
  {
    if b == [] {
      assert a + b == a;
    } else {
      assert a + b == (a + b[..|b| - 1]) + [b[|b| - 1]];
      RenderSnoc(a + b[..|b| - 1], b[|b| - 1]);
      PrefixFits(a, b[..|b| - 1]);
    }
  }

  /** No order-preserving split within the limits uses fewer batches. */
  lemma {:induction false} GreedyOptimal(docs: seq<Document>, batches: seq<seq<Document>>)
    requires Sendable(docs) && Split(batches, docs)
    ensures |Greedy([], docs)| <= |batches|
    decreases |batches|
  {
    hide Fits;
    if batches != [] {
      var b, rest := batches[0], Concat(batches[1..]);
      assert rest == docs[|b|..];
      assert Fits(b);
      GreedyOptimal(rest, batches[1..]);
      assert [] + b == b;
      TakesWhole([], b, rest);
      OpenOnce(b, rest);
    }
  }

  /** The loop's own view: the batches sent and the open one, after pushing docs one by one. */
  function Pushed(docs: seq<Document>): (r: (seq<seq<Document>>, seq<Document>)) {
    if docs == [] then ([], [])
    else
      var (sent, cur) := Pushed(docs[..|docs| - 1]);
      var d := docs[|docs| - 1];
      if Overflows(cur, d) then (sent + [cur], [d]) else (sent, cur + [d])
  }

  lemma PushedSnoc(docs: seq<Document>, d: Document)
    ensures var (sent, cur) := Pushed(docs);
            Pushed(docs + [d]) == if Overflows(cur, d) then (sent + [cur], [d]) else (sent, cur + [d])
  {
    hide Overflows;
    assert (docs + [d])[..|docs|] == docs;
  }

  lemma {:induction false} PushedIsGreedy(docs: seq<Document>, more: seq<Document>)
    ensures Greedy([], docs + more) == Pushed(docs).0 + Greedy(Pushed(docs).1, more)
    decreases |docs|
  {
    hide Overflows;
    if docs == [] {
      assert [] + more == more;
    } else {
      var front, d := docs[..|docs| - 1], docs[|docs| - 1];
      assert docs + more == front + ([d] + more);
      PushedIsGreedy(front, [d] + more);
      var (sent, cur) := Pushed(front);
      assert ([d] + more)[1..] == more;
      assert sent + ([cur] + Greedy([d], more)) == (sent + [cur]) + Greedy([d], more);
    }
  }

  lemma {:induction false} PushedConcat(docs: seq<Document>)
    ensures Concat(Pushed(docs).0) + Pushed(docs).1 == docs
  {
    hide Overflows;
    if docs != [] {
      var front, d := docs[..|docs| - 1], docs[|docs| - 1];
      PushedConcat(front);
      var (sent, cur) := Pushed(front);
      ConcatSnoc(sent, cur);
      assert docs == front + [d];
    }
  }

  lemma {:induction false} ConcatSnoc(bs: seq<seq<Document>>, b: seq<Document>)
    ensures Concat(bs + [b]) == Concat(bs) + b
  {
    if bs == [] {
      assert [b][1..] == [] && b + [] == b;
    } else {
      assert (bs + [b])[1..] == bs[1..] + [b];
      ConcatSnoc(bs[1..], b);
    }
  }

  /** What the loop has sent when it ends is the greedy split. */
  lemma PushedAll(docs: seq<Document>)
    ensures Greedy([], docs) == Pushed(docs).0 + if Pushed(docs).1 == [] then [] else [Pushed(docs).1]
  {
    PushedIsGreedy(docs, []);
    assert docs + [] == docs;
  }
}
