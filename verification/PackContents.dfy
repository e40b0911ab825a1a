/** What a parsed pack puts in the store, and writing a pack. */
module PackContents {
  import opened Wrappers
  import opened Bytes
  import opened Objects
  import opened Chains
  import opened PackFile
  import R = ResolveDeltas

  const EMPTY := Loaded(Index(map[], map[]), [])

  // ----- accepted packs leave a well-posed resolution problem -----

  /** Objects and deltas sit at offsets below bound, each at its own, and n entries have been filed. */
  ghost predicate Tidy(s: Loaded, bound: int, n: nat) {
    && s.index.Located()
    && DistinctSources(s.deltas)
    && (forall off :: off in s.index.byOffset ==> off < bound)
    && (forall d :: d in s.deltas ==> d.data.Some? && d.src < bound && d.src !in s.index.byOffset)
    && |s.index.byOID| + |s.deltas| == n
    && |s.index.byOffset| + |s.deltas| == n
  }

  lemma TidyIsFresh(hash: Hash, s: Loaded, bound: int, n: nat)
    requires Tidy(s, bound, n)
    ensures Fresh(Posed(hash, s.index, s.deltas)) && DistinctSources(s.deltas)
  {
    var p := Posed(hash, s.index, s.deltas);
    forall d, e | d in p.deltas && e in p.deltas && d.src == e.src
      ensures d == e
    {
      var i :| 0 <= i < |s.deltas| && s.deltas[i] == d;
      var j :| 0 <= j < |s.deltas| && s.deltas[j] == e;
      assert i == j;
    }
  }

  lemma LoadTidy(hash: Hash, s: Loaded, n: nat, off: int, e: Entry, t: Loaded)
    requires Tidy(s, off, n) && Load(hash, s, off, e) == Some(t)
    ensures Tidy(t, off + 1, n + 1)
  {
    hide Index.Located;
    if e.Plain? {
      var o := Object(e.typ, IdOf(hash, e.typ, e.data).value, e.data);
      R.WithLocated(s.index, off, o);
      assert |t.index.byOID| == |s.index.byOID| + 1 && |t.index.byOffset| == |s.index.byOffset| + 1;
    } else {
      assert forall d :: d in t.deltas <==> d in s.deltas || d == t.deltas[|s.deltas|];
    }
  }

  lemma TidyMore(s: Loaded, a: int, b: int, n: nat)
    requires Tidy(s, a, n) && a <= b
    ensures Tidy(s, b, n)
  {}

  ghost predicate Increasing(offs: seq<int>) {
    forall i, j :: 0 <= i < j < |offs| ==> offs[i] < offs[j]
  }

  lemma {:induction false} LoadSeqTidy(hash: Hash, s: Loaded, n: nat, bound: int, offs: seq<int>, es: seq<Entry>,
                                       end: int)
    requires |offs| == |es| && Increasing(offs + [end]) && bound <= (offs + [end])[0]
    requires Tidy(s, bound, n) && LoadSeq(hash, s, offs, es).Some?
    ensures Tidy(LoadSeq(hash, s, offs, es).value, end, n + |es|)
    decreases |es|
  {
    hide Tidy, Load;
    if es == [] {
      TidyMore(s, bound, end, n);
    } else {
      var t := Load(hash, s, offs[0], es[0]).value;
      TidyMore(s, bound, offs[0], n);
      LoadTidy(hash, s, n, offs[0], es[0], t);
      assert (offs + [end])[1..] == offs[1..] + [end];
      assert offs[0] + 1 <= (offs[1..] + [end])[0];
      LoadSeqTidy(hash, t, n + 1, offs[0] + 1, offs[1..], es[1..], end);
    }
  }

  lemma {:induction false} TilesIncrease(k: Codec, pack: bytes, cuts: seq<nat>, es: seq<Entry>, i: nat, j: nat)
    requires Tiling(k, pack, cuts, es) && i < j <= |es|
    ensures cuts[i] < cuts[j]
    decreases j
  {
    hide ReadEntry;
    if i + 1 < j {
      TilesIncrease(k, pack, cuts, es, i, j - 1);
    }
  }

  /**
   * An accepted pack: its entries tile the bytes between header and checksum at strictly increasing
   * offsets, and the store poses a well-formed resolution problem with one object or delta per entry.
   */
  lemma ParsedIsTidy(k: Codec, pack: bytes, t: Loaded)
    returns (cuts: seq<nat>, es: seq<Entry>)
    requires Parse(k, pack, EMPTY) == Some(t)
    ensures |pack| >= 12 + k.raw && |es| == BigEndian(pack[8..12]) && Tiling(k, pack, cuts, es)
    ensures cuts[0] == 12 && cuts[|es|] == |pack| - k.raw && Increasing(cuts)
    ensures LoadSeq(k.hash, EMPTY, cuts[..|es|], es) == Some(t)
    ensures Tidy(t, |pack| - k.raw, |es|)
  {
    hide Parse, LoadSeq, Tiling;
    ParseExact(k, pack, EMPTY, t);
    cuts, es :| Accepted(k, pack, EMPTY, t, cuts, es);
    forall i, j | 0 <= i < j < |cuts|
      ensures cuts[i] < cuts[j]
    {
      assert |cuts| == |es| + 1 by { ScannedLength(k, pack, EMPTY, t, cuts, es); }
      TilesIncrease(k, pack, cuts, es, i, j);
    }
    ScannedLength(k, pack, EMPTY, t, cuts, es);
    assert Tidy(EMPTY, 12, 0);
    assert cuts == cuts[..|es|] + [cuts[|es|]];
    LoadSeqTidy(k.hash, EMPTY, 0, 12, cuts[..|es|], es, cuts[|es|]);
  }

  lemma ScannedLength(k: Codec, pack: bytes, s: Loaded, t: Loaded, cuts: seq<nat>, es: seq<Entry>)
    requires |pack| >= 12 + k.raw && Accepted(k, pack, s, t, cuts, es)
    ensures |cuts| == |es| + 1
  {}

  // ----- writing a pack -----

  predicate AllWritable(k: Codec, es: seq<Entry>) {
    forall i :: 0 <= i < |es| ==> Writable(k, es[i])
  }

  function WriteEntries(k: Codec, deflate: bytes -> bytes, es: seq<Entry>): bytes
    requires AllWritable(k, es)
  {
    if es == [] then [] else WriteEntry(k, deflate, es[0]) + WriteEntries(k, deflate, es[1..])
  }

  /** Where each entry starts when the first starts at pos, and where the last one ends. */
  function Cuts(k: Codec, deflate: bytes -> bytes, es: seq<Entry>, pos: nat): (r: seq<nat>)
    requires AllWritable(k, es)
    ensures |r| == |es| + 1 && r[0] == pos
    decreases |es|
  {
    if es == [] then [pos]
    else [pos] + Cuts(k, deflate, es[1..], pos + |WriteEntry(k, deflate, es[0])|)
  }

  function WritePack(k: Codec, deflate: bytes -> bytes, version: nat, es: seq<Entry>): bytes
    requires AllWritable(k, es)
  {
    var body := PACK + EncodeBigEndian(version, 4) + EncodeBigEndian(|es|, 4) + WriteEntries(k, deflate, es);
    body + k.sum(body)
  }

  lemma {:induction false} WrittenTiles(k: Codec, deflate: bytes -> bytes, before: bytes, es: seq<Entry>, rest: bytes)
    requires Undoes(k, deflate) && AllWritable(k, es)
    ensures Tiling(k, before + WriteEntries(k, deflate, es) + rest, Cuts(k, deflate, es, |before|), es)
    ensures Cuts(k, deflate, es, |before|)[|es|] == |before + WriteEntries(k, deflate, es)|
    decreases |es|
  {
    hide ReadEntry, WriteEntry, Undoes, Writable;
    if es == [] {
    } else {
      var w, more := WriteEntry(k, deflate, es[0]), WriteEntries(k, deflate, es[1..]);
      assert before + (w + more) + rest == before + w + (more + rest);
      assert before + (w + more) + rest == (before + w) + more + rest;
      ReadEntryInverse(k, deflate, before, es[0], more + rest);
      WrittenTiles(k, deflate, before + w, es[1..], rest);
      ConsTile(k, before + (w + more) + rest, es[0], |before|, Cuts(k, deflate, es[1..], |before + w|), es[1..]);
      assert es == [es[0]] + es[1..];
    }
  }

  lemma ConsTile(k: Codec, pack: bytes, e: Entry, pos: nat, cuts: seq<nat>, es: seq<Entry>)
    requires Tiling(k, pack, cuts, es) && pos <= |pack| && ReadEntry(k, pack, pos) == Ok((e, cuts[0]))
    ensures Tiling(k, pack, [pos] + cuts, [e] + es)
  {
    hide ReadEntry;
  }

  lemma HeaderParts(version: nat, n: nat, rest: bytes)
    requires version < Pow256(4) && n < Pow256(4)
    ensures var h := PACK + EncodeBigEndian(version, 4) + EncodeBigEndian(n, 4) + rest;
            h[..4] == PACK && BigEndian(h[4..8]) == version && BigEndian(h[8..12]) == n
  {
    var v, c := EncodeBigEndian(version, 4), EncodeBigEndian(n, 4);
    var h := PACK + v + c + rest;
    BigEndianInverse(version, 4);
    BigEndianInverse(n, 4);
    assert h[..4] == PACK && h[4..8] == v && h[8..12] == c;
  }

  /** Parsing undoes writing: the store ends up with the written entries, each at the byte where it starts. */
  lemma ParseUndoesWrite(k: Codec, deflate: bytes -> bytes, version: nat, es: seq<Entry>)
    requires Undoes(k, deflate) && AllWritable(k, es)
    requires version == 2 || version == 3
    requires |es| < Pow256(4)
    requires forall b :: |k.sum(b)| == k.raw
    ensures Parse(k, WritePack(k, deflate, version, es), EMPTY)
         == LoadSeq(k.hash, EMPTY, Cuts(k, deflate, es, 12)[..|es|], es)
  {
    hide ReadEntry, WriteEntry, Undoes, Writable, BigEndian, EncodeBigEndian, LoadSeq, Load, Tiling;
    var head := PACK + EncodeBigEndian(version, 4) + EncodeBigEndian(|es|, 4);
    var body := head + WriteEntries(k, deflate, es);
    var pack := WritePack(k, deflate, version, es);
    var cuts := Cuts(k, deflate, es, 12);
    assert Pow256(4) == 256 * 256 * 256 * 256 by { assert Pow256(2) == 256 * 256; }
    assert pack == head + (WriteEntries(k, deflate, es) + k.sum(body));
    HeaderParts(version, |es|, WriteEntries(k, deflate, es) + k.sum(body));
    WrittenTiles(k, deflate, head, es, k.sum(body));
    assert pack[..|body|] == body && pack[|body|..] == k.sum(body);
    ScanTiles(k, pack, EMPTY, cuts, es);
  }

  /** On tiled bytes the scan succeeds exactly when filing the entries does. */
  lemma {:induction false} ScanTiles(k: Codec, pack: bytes, s: Loaded, cuts: seq<nat>, es: seq<Entry>)
    requires Tiling(k, pack, cuts, es)
    ensures cuts[0] <= |pack|
    ensures Scan(k, pack, cuts[0], |es|, s) ==
              match LoadSeq(k.hash, s, cuts[..|es|], es)
              case None => None
              case Some(t) => Some((t, cuts[|es|]))
    decreases |es|
  {
    hide ReadEntry, Load;
    if es != [] {
      var offs := cuts[..|es|];
      assert cuts[1..][..|es| - 1] == offs[1..] && offs[0] == cuts[0];
      assert ReadEntry(k, pack, cuts[0]) == Ok((es[0], cuts[1]));
      match Load(k.hash, s, offs[0], es[0])
      case None =>
      case Some(t) => ScanTiles(k, pack, t, cuts[1..], es[1..]);
    }
  }
}
