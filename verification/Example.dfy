/**
 * A repository that meets every premise of the end-to-end theorem: a tag, a commit, a tree with one file,
 * and the file's data as an offset delta against another blob, with a compressor and a hash written out.
 */
module Example {
  import opened Wrappers
  import opened Bytes
  import opened Objects
  import opened TreeEntries
  import opened Fetch
  import opened E = EndToEnd
  import V = Varints
  import PL = PktLine
  import PF = PackFile
  import PC = PackContents
  import CO = Checkout
  import Delta
  import F = Files

  // ----- a compressor -----

  /** Each byte after a one, and a zero at the end. */
  function Deflate(x: bytes): (z: bytes)
    ensures |z| == 2 * |x| + 1
  {
    if x == [] then [0] else [1, x[0]] + Deflate(x[1..])
  }

  function Inflate(z: bytes): Option<(bytes, nat)> {
    if z == [] then None
    else if z[0] == 0 then Some(([], 1))
    else if |z| == 1 then None
    else
      match Inflate(z[2..])
      case None => None
      case Some((x, n)) => Some(([z[1]] + x, n + 2))
  }

  lemma {:induction false} InflateDeflate(x: bytes, rest: bytes)
    ensures Inflate(Deflate(x) + rest) == Some((x, |Deflate(x)|))
  {
    hide Inflate;
    if x == [] {
      InflateEnd(rest);
    } else {
      var tail := x[1..];
      Assoc([1, x[0]], Deflate(tail), rest);
      InflateDeflate(tail, rest);
      InflateTwo(x[0], Deflate(tail) + rest);
      assert [x[0]] + tail == x;
    }
  }

  lemma InflateEnd(rest: bytes)
    ensures Inflate([0] + rest) == Some(([], 1))
  {
    assert ([0] + rest)[0] == 0;
  }

  lemma InflateTwo(b: byte, more: bytes)
    ensures Inflate([1, b] + more) ==
              match Inflate(more)
              case None => None
              case Some((x, n)) => Some(([b] + x, n + 2))
  {
    var z := [1, b] + more;
    assert z[0] == 1 && z[1] == b && z[2..] == more;
  }

  // ----- a hash that tells types and lengths apart -----

  const RAW := 20

  function Id(kind: byte, n: nat): (oid: OID)
    ensures |oid| == RAW
  {
    seq(RAW, i => if i == 0 then kind else (n + 1) % 256)
  }

  lemma IdsDiffer(k: byte, m: nat, l: byte, n: nat)
    requires m < 255 && n < 255 && (k != l || m != n)
    ensures Id(k, m) != Id(l, n) && !IsZero(Id(l, n))
  {
    assert Id(k, m)[0] == k && Id(l, n)[0] == l;
    assert Id(k, m)[1] == m + 1 && Id(l, n)[1] == n + 1;
  }

  function HashOf(name: string, data: bytes): OID {
    Id(if name == "commit" then 1 else if name == "tree" then 2 else if name == "blob" then 3
       else if name == "tag" then 4 else 0, |data|)
  }

  const CODEC := PF.Codec(RAW, HashOf, (b: bytes) => Id(0, 0), Inflate)

  lemma CodecIsLawful()
    ensures PF.Undoes(CODEC, Deflate) && forall b :: |CODEC.sum(b)| == CODEC.raw
  {
    var deflate: bytes -> bytes := Deflate;
    forall x, rest
      ensures deflate(x) != [] && CODEC.inflate(deflate(x) + rest) == Some((x, |deflate(x)|))
    {
      InflateDeflate(x, rest);
      assert deflate(x) == Deflate(x);
    }
  }

  // ----- the objects -----

  const NAME: bytes := [0x66]               // "f"
  const OLD: bytes := [0x61]                // "a"
  const NEW: bytes := [0x61, 0x62]          // "ab"
  const ENTRY := TreeEntry(NAME, CO.REGULAR, Id(3, 2))

  function TreeData(): bytes {
    WriteTree([ENTRY])
  }

  function CommitData(): bytes {
    TREE_KEY + Hex(Id(2, |TreeData()|)) + [NEWLINE]
  }

  function TagData(): bytes {
    OBJECT_KEY + Hex(Id(1, |CommitData()|)) + [NEWLINE]
  }

  lemma Lengths()
    ensures |TreeData()| == 29 && |CommitData()| == 46 && |TagData()| == 48
  {
    assert |Octal(CO.REGULAR)| == 6 by {
      assert |Octal(CO.REGULAR / 8 / 8 / 8)| == 3;
    }
    assert [ENTRY][1..] == [];
    assert WriteTree([ENTRY]) == WriteEntry(ENTRY) + [];
  }

  function Stowed(typ: byte, data: bytes): Object {
    Object(typ, Id(typ, |data|), data)
  }

  function Objects5(): seq<Object> {
    [Stowed(BLOB, OLD), Stowed(BLOB, NEW), Stowed(TREE, TreeData()), Stowed(COMMIT, CommitData()),
     Stowed(TAG, TagData())]
  }

  // ----- the pack -----

  // Copy one byte from offset zero, then insert "b".
  const PROGRAM := [Delta.Copy(0x90, [1]), Delta.Insert([0x62])]

  lemma ProgramRuns()
    ensures Delta.Runnable(OLD, PROGRAM) && Delta.RunAll(OLD, PROGRAM) == NEW
  {
    var copy, insert := PROGRAM[0], PROGRAM[1];
    Flags();
    assert PROGRAM[1..] == [insert] && [insert][1..] == [];
    assert Delta.Run(OLD, copy) == OLD[0..1] == OLD;
    assert Delta.RunAll(OLD, [insert]) == Delta.Run(OLD, insert) + [] == [0x62];
  }

  lemma Flags()
    ensures Delta.Count(0x90, 7) == 1 && Delta.CopyOffset(0x90, [1]) == 0 && Delta.CopySize(0x90, [1]) == 1
  {
    assert Delta.Bit(0x90, 4) by { assert Delta.Bit(0x48, 3) && Delta.Bit(0x24, 2) && Delta.Bit(0x12, 1); }
  }

  function DeltaBytes(): bytes
  {
    V.EncodeLeb(1) + V.EncodeLeb(2) + ([0x90, 1] + [1, 0x62])
  }

  lemma ProgramText()
    ensures Delta.WellFormed(PROGRAM[0]) && Delta.WellFormed(PROGRAM[1])
    ensures Delta.WriteOps(PROGRAM) == [0x90, 1] + [1, 0x62]
  {
    Flags();
    hide Delta.Count;
    var copy, insert := PROGRAM[0], PROGRAM[1];
    assert PROGRAM[1..] == [insert] && [insert][1..] == [];
    assert Delta.WriteOp(copy) == [0x90, 1] && Delta.WriteOp(insert) == [1, 0x62];
    assert Delta.WriteOps([insert]) == [1, 0x62] + [];
  }

  lemma DeltaApplies()
    ensures Delta.Apply(OLD, DeltaBytes()) == Ok(NEW)
  {
    ProgramRuns();
    ProgramText();
    hide Delta.Apply, Delta.RunAll, Delta.WriteOps, Delta.Runnable, V.EncodeLeb;
    assert |OLD| == 1 && |NEW| == 2;
    Delta.ApplyRoundTrip(OLD, PROGRAM);
  }

  lemma DeltaIsShort()
    ensures |DeltaBytes()| == 6
  {
    assert |V.EncodeLeb(1)| == 1 && |V.EncodeLeb(2)| == 1;
  }

  const FIRST := PF.Plain(BLOB, OLD)

  function Distance(): nat {
    |PF.WriteEntry(CODEC, Deflate, FIRST)|
  }

  function Entries(): seq<PF.Entry> {
    [FIRST, PF.Ofs(Distance(), DeltaBytes()), PF.Plain(TREE, TreeData()), PF.Plain(COMMIT, CommitData()),
     PF.Plain(TAG, TagData())]
  }

  function ThePlan(): Plan {
    Plan(Objects5(), [0, 0, 0, 0, 0], [0, 1, 0, 0, 0])
  }

  lemma EntryIsLong(k: PF.Codec, deflate: bytes -> bytes, e: PF.Entry)
    requires PF.Undoes(k, deflate) && PF.Writable(k, e)
    ensures |PF.WriteEntry(k, deflate, e)| > 0
  {
    var x := if e.Plain? then e.data else e.delta;
    assert k.inflate(deflate(x) + []).Some?;
  }

  lemma {:induction false} CutsAscend(k: PF.Codec, deflate: bytes -> bytes, es: seq<PF.Entry>, pos: nat)
    requires PC.AllWritable(k, es) && PF.Undoes(k, deflate)
    ensures var cuts := PC.Cuts(k, deflate, es, pos);
            && (forall i, j :: 0 <= i < j < |cuts| ==> cuts[i] < cuts[j])
            && (es != [] ==> cuts[1] == pos + |PF.WriteEntry(k, deflate, es[0])|)
    decreases |es|
  {
    hide PF.WriteEntry, PF.Writable, PF.Undoes;
    if es != [] {
      var next := pos + |PF.WriteEntry(k, deflate, es[0])|;
      EntryIsLong(k, deflate, es[0]);
      CutsAscend(k, deflate, es[1..], next);
      var cuts, more := PC.Cuts(k, deflate, es, pos), PC.Cuts(k, deflate, es[1..], next);
      assert cuts == [pos] + more;
      assert forall i :: 0 <= i < |more| ==> more[i] >= next;
    }
  }

  lemma DistanceIsFour()
    ensures Distance() == 4
  {
    assert |V.EncodeHeader(BLOB, 1)| == 1;
    assert |Deflate(OLD)| == 3;
  }

  lemma EntriesWritable()
    ensures PC.AllWritable(CODEC, Entries())
  {
    Lengths();
    DistanceIsFour();
    DeltaIsShort();
    hide TreeData, CommitData, TagData, DeltaBytes, Distance, Inflate, Deflate, Id;
    var es := Entries();
    assert PF.Writable(CODEC, es[0]) && PF.Writable(CODEC, es[1]) && PF.Writable(CODEC, es[2]);
    assert PF.Writable(CODEC, es[3]) && PF.Writable(CODEC, es[4]);
  }

  lemma PlanIsGood()
    ensures GoodObjects(HashOf, Objects5())
  {
    Lengths();
    hide TreeData, CommitData, TagData, Id;
    var os := Objects5();
    forall i, j | 0 <= i < j < |os|
      ensures os[i].oid != os[j].oid
    {
      IdsDiffer(os[i].typ, |os[i].data|, os[j].typ, |os[j].data|);
    }
  }

  function Offsets(): seq<nat>
    requires PC.AllWritable(CODEC, Entries())
  {
    PC.Cuts(CODEC, Deflate, Entries(), 12)[..5]
  }

  lemma PlanIsEncoded()
    requires PC.AllWritable(CODEC, Entries())
    ensures Encoded(HashOf, Offsets(), Entries(), ThePlan())
  {
    PlanIsGood();
    OffsetsAscend();
    FiveEach();
    hide GoodObjects, PC.AllWritable, Offsets, Objects5, Entries, Encodes;
    forall i | 0 <= i < 5
      ensures Encodes(Offsets(), Entries(), ThePlan(), i)
    {
      EntryEncodes(i);
    }
  }

  lemma OffsetsAscend()
    requires PC.AllWritable(CODEC, Entries())
    ensures Ascending(Offsets()) && |Offsets()| == 5
    ensures Offsets()[1] == Offsets()[0] + Distance() && Offsets()[1] < 100
  {
    DistanceIsFour();
    FiveEach();
    CodecIsLawful();
    hide PC.AllWritable, PC.Cuts, Entries, Inflate, Deflate, PF.WriteEntry, PF.Undoes;
    CutsAscend(CODEC, Deflate, Entries(), 12);
  }

  lemma FiveEach()
    ensures |Objects5()| == |Entries()| == 5 && Entries()[0] == FIRST
  {}

  lemma SameAsObject(i: nat)
    requires i < 5 && i != 1
    ensures Entries()[i].Plain? && Entries()[i].typ == Objects5()[i].typ && Entries()[i].data == Objects5()[i].data
  {
    hide TreeData, CommitData, TagData, DeltaBytes, Id, Distance;
  }

  lemma SecondIsDelta()
    ensures Entries()[1] == PF.Ofs(Distance(), DeltaBytes())
    ensures Objects5()[0] == Stowed(BLOB, OLD) && Objects5()[1] == Stowed(BLOB, NEW)
  {
    hide TreeData, CommitData, TagData, DeltaBytes, Id, Distance;
  }

  lemma PlainEncodes(offs: seq<nat>, es: seq<PF.Entry>, plan: Plan, i: nat)
    requires i < |es| == |offs| == |plan.objects| == |plan.basis| == |plan.level|
    requires es[i].Plain? && es[i].typ == plan.objects[i].typ && es[i].data == plan.objects[i].data
    ensures Encodes(offs, es, plan, i)
  {}

  lemma OfsEncodes(offs: seq<nat>, es: seq<PF.Entry>, plan: Plan, i: nat, j: nat)
    requires i < |es| == |offs| == |plan.objects| == |plan.basis| == |plan.level|
    requires j < |es| && plan.basis[i] == j && plan.level[j] < plan.level[i]
    requires plan.objects[j].typ == plan.objects[i].typ
    requires es[i].Ofs? && offs[j] <= offs[i] < TWO_63 && es[i].distance == offs[i] - offs[j]
    requires Delta.Apply(plan.objects[j].data, es[i].delta) == Ok(plan.objects[i].data)
    ensures Encodes(offs, es, plan, i)
  {}

  lemma EntryEncodes(i: nat)
    requires i < 5 && PC.AllWritable(CODEC, Entries())
    ensures |Objects5()| == |Entries()| == |Offsets()| == 5
    ensures Encodes(Offsets(), Entries(), ThePlan(), i)
  {
    FiveEach();
    OffsetsAscend();
    hide PC.AllWritable, Offsets, Objects5, Entries, Delta.Apply, DeltaBytes, Id, Distance, Encodes;
    if i == 1 {
      DeltaApplies();
      SecondIsDelta();
      OfsEncodes(Offsets(), Entries(), ThePlan(), 1, 0);
    } else {
      SameAsObject(i);
      PlainEncodes(Offsets(), Entries(), ThePlan(), i);
    }
  }

  lemma WriterIsGood()
    ensures GoodWriter(CODEC, Deflate, 2, Entries(), ThePlan())
  {
    CodecIsLawful();
    EntriesWritable();
    PlanIsEncoded();
    hide PF.Undoes, PC.AllWritable, Encoded;
    assert 5 < Pow256(4) by { assert Pow256(4) == 256 * Pow256(3) && Pow256(3) >= 1; }
  }

  // ----- what is served -----

  function Response(): bytes
    requires PC.AllWritable(CODEC, Entries())
  {
    PC.WritePack(CODEC, Deflate, 2, Entries())
  }

  lemma CarriedBare(pack: bytes)
    ensures Carries(pack, pack)
  {
    assert PL.WriteAll([]) + pack == pack;
    assert CarriedBy([], pack, pack);
  }

  function Chain(): seq<Object> {
    [Stowed(TAG, TagData()), Stowed(COMMIT, CommitData())]
  }

  const CONTENT := CO.Entry(NAME, CO.Blob(NEW, false), CO.End)

  /** The store holds the five objects and nothing else. */
  ghost predicate HoldsFive(s: Index) {
    && (forall o :: o in Objects5() ==> o.oid in s.byOID && s.byOID[o.oid] == o)
    && (forall oid :: oid in s.byOID ==> s.byOID[oid] in Objects5())
  }

  lemma StoredFive()
    requires GoodWriter(CODEC, Deflate, 2, Entries(), ThePlan())
    ensures HoldsFive(Stored(CODEC, Deflate, 2, Entries(), ThePlan()))
  {
    hide Objects5, GoodWriter, Stored, Entries;
    StoredAll(CODEC, Deflate, 2, Entries(), ThePlan());
  }

  /** The store of a written pack holds the objects of the plan and nothing else. */
  lemma StoredAll(k: PF.Codec, deflate: bytes -> bytes, version: nat, es: seq<PF.Entry>, plan: Plan)
    requires GoodWriter(k, deflate, version, es, plan)
    ensures var s := Stored(k, deflate, version, es, plan);
            && (forall o :: o in plan.objects ==> o.oid in s.byOID && s.byOID[o.oid] == o)
            && (forall oid :: oid in s.byOID ==> s.byOID[oid] in plan.objects)
  {
    var s, os := Stored(k, deflate, version, es, plan), plan.objects;
    assert DistinctIds(os) && s.byOID == ById(os);
    hide GoodWriter, Stored, DistinctIds, ById;
    forall oid | oid in s.byOID
      ensures s.byOID[oid] in os
    {
      var i :| 0 <= i < |os| && os[i].oid == oid;
      assert s.byOID[os[i].oid] == os[i];
    }
  }

  lemma TreeIsListed(s: Index)
    requires HoldsFive(s)
    ensures TreeHere(s, RAW, Stowed(TREE, TreeData()).oid, CONTENT)
  {
    var os := Objects5();
    assert os[1] == Stowed(BLOB, NEW) && os[2] == Stowed(TREE, TreeData());
    assert os[1] in os && os[2] in os;
    EntryIsStorable();
    hide Objects5, Id, WriteTree;
    assert CO.TreeAt(s, os[2].oid) == Some(WriteTree([ENTRY]));
    assert CO.BlobAt(s, ENTRY.oid) == Some(NEW);
    assert [ENTRY][1..] == [];
    assert Represents(s, RAW, [ENTRY], CONTENT);
  }

  lemma EntryIsStorable()
    ensures AllStorable([ENTRY], RAW)
  {
    assert |Octal(CO.REGULAR)| == 6 by {
      assert |Octal(CO.REGULAR / 8 / 8 / 8)| == 3;
    }
  }

  lemma OneTreeOnly(s: Index, rank: OID -> nat)
    requires HoldsFive(s)
    ensures CO.Acyclic(s, RAW, rank)
  {
    EntryIsStorable();
    ListWriteTree([], [ENTRY], RAW);
    assert [] + TreeData() == TreeData();
    forall oid | CO.TreeAt(s, oid).Some?
      ensures CO.Descends(s, rank, oid, List(CO.TreeAt(s, oid).value, 0, RAW).entries)
    {
      TreeIsTheTree(s.byOID[oid]);
    }
  }

  lemma TreeIsTheTree(o: Object)
    requires o in Objects5() && o.typ == TREE
    ensures o.data == TreeData()
  {
    hide TreeData, CommitData, TagData, Id;
  }

  lemma ChainIsThere(s: Index)
    requires HoldsFive(s)
    ensures LeadsTo(s, RAW, Chain(), Stowed(TREE, TreeData()).oid)
  {
    Lengths();
    IdsDiffer(0, 0, 2, |TreeData()|);
    var os := Objects5();
    assert os[3] in os && os[4] in os;
    hide TreeData, Hex, Id, IsZero, Objects5;
    assert CommitData() + [] == CommitData() && TagData() + [] == TagData();
    assert Says(Stowed(COMMIT, CommitData()), TREE_KEY, Id(2, |TreeData()|));
    assert Says(Stowed(TAG, TagData()), OBJECT_KEY, Id(1, |CommitData()|));
  }

  /** The premises of the end-to-end theorem hold of this repository. */
  lemma IsServed(rank: OID -> nat)
    ensures PC.AllWritable(CODEC, Entries())
    ensures Serves(CODEC, Deflate, 2, Entries(), ThePlan(), Response(), Chain(),
                   Stowed(TREE, TreeData()).oid, CONTENT, rank)
  {
    EntriesWritable();
    WriterIsGood();
    StoredFive();
    hide GoodWriter, Stored, HoldsFive, Carries, LeadsTo, TreeHere, Describes, CO.Acyclic, PC.AllWritable, PC.WritePack;
    hide Entries, Objects5, TreeData, Id;
    var s := Stored(CODEC, Deflate, 2, Entries(), ThePlan());
    CarriedBare(Response());
    WrittenIsDescribed(CODEC, Deflate, 2, Entries(), ThePlan(), Response());
    TreeIsListed(s);
    ChainIsThere(s);
    OneTreeOnly(s, rank);
    forall u | Describes(CODEC, Response(), u)
      ensures u == s
    {
      DescribedOnce(CODEC, Response(), s, u);
    }
  }

  /** Cloning it into an empty place writes the one file, put together from the delta. */
  lemma CloneOfExample(rank: OID -> nat, outDir: F.Path, after: F.Tree, r: Result<nat, CloneError>)
    requires PC.AllWritable(CODEC, Entries())
    requires forall s :: Describes(CODEC, Response(), s) ==> CO.Acyclic(s, CODEC.raw, rank)
    requires Cloned(CODEC, Response(), Chain()[0].oid, rank, outDir, map[], after, r)
    ensures r == Ok(1)
    ensures after == map[outDir := F.Dir, outDir + [NAME] := F.File(NEW, false)]
  {
    IsServed(rank);
    hide Serves, Cloned, Describes, CO.Acyclic, Response, Entries;
    E.EndToEnd(CODEC, Deflate, 2, Entries(), ThePlan(), Response(), Chain(), Stowed(TREE, TreeData()).oid, CONTENT,
               rank, outDir, map[], after, r);
    assert CO.Flatten(CO.End, outDir) == map[];
    assert CO.Flatten(CONTENT, outDir) == map[outDir + [NAME] := F.File(NEW, false)];
  }
}
