/** The ids of all objects that a pack brings, plain or resolved (pack.go, object.go). */
module ObjectIds {
  import opened Wrappers
  import opened Bytes
  import opened Objects
  import opened Chains
  import PF = PackFile
  import PC = PackContents
  import FE = Fetch

  ghost predicate AllNamed(hash: Hash, s: Index) {
    forall off :: off in s.byOffset ==> RightlyNamed(hash, s.byOffset[off])
  }

  lemma LoadNamed(hash: Hash, s: PF.Loaded, off: int, e: PF.Entry)
    requires AllNamed(hash, s.index) && PF.Load(hash, s, off, e).Some?
    ensures AllNamed(hash, PF.Load(hash, s, off, e).value.index)
    ensures e.Plain? ==>
              var t := PF.Load(hash, s, off, e).value;
              && off in t.index.byOffset && RightlyNamed(hash, t.index.byOffset[off])
              && t.index.byOffset[off].typ == e.typ && t.index.byOffset[off].data == e.data
  {
    if e.Plain? {
      NamedByType(hash, Object(e.typ, PF.IdOf(hash, e.typ, e.data).value, e.data));
    }
  }

  lemma {:induction false} ScanNamed(k: PF.Codec, pack: bytes, pos: nat, n: nat, s: PF.Loaded)
    requires pos <= |pack| && AllNamed(k.hash, s.index) && PF.Scan(k, pack, pos, n, s).Some?
    ensures AllNamed(k.hash, PF.Scan(k, pack, pos, n, s).value.0.index)
    decreases n
  {
    hide AllNamed, PF.Load, PF.ReadEntry;
    if n > 0 {
      var (e, end) := PF.ReadEntry(k, pack, pos).value;
      LoadNamed(k.hash, s, pos, e);
      ScanNamed(k, pack, end, n - 1, PF.Load(k.hash, s, pos, e).value);
    }
  }

  /** After parsing, every object has the hash under "commit", "tree", "blob" or "tag" as its type says. */
  lemma ParsedNamed(k: PF.Codec, pack: bytes, t: PF.Loaded)
    requires PF.Parse(k, pack, PC.EMPTY) == Some(t)
    ensures AllNamed(k.hash, t.index)
  {
    hide PF.Scan;
    ScanNamed(k, pack, 12, BigEndian(pack[8..12]), PC.EMPTY);
  }

  /** A resolved delta has an id under the name of its root's type. */
  lemma {:induction false} ChainNamed(p: Problem, c: Chain)
    requires Fresh(p) && AllNamed(p.hash, p.plain) && ObjectOf(p, c).Some?
    ensures RightlyNamed(p.hash, ObjectOf(p, c).value)
  {
    hide RightlyNamed;
    match c
    case Root(_) =>
    case Link(d, b) =>
      ChainNamed(p, b);
      NamedByType(p.hash, ObjectOf(p, c).value);
  }

  lemma SolutionNamed(p: Problem, s: Index)
    requires Fresh(p) && AllNamed(p.hash, p.plain) && Solution(p, s)
    ensures AllNamed(p.hash, s)
    ensures forall oid :: oid in s.byOID ==> s.byOID[oid].oid == oid && RightlyNamed(p.hash, s.byOID[oid])
  {
    hide RightlyNamed, ObjectOf;
    forall off | off in s.byOffset
      ensures RightlyNamed(p.hash, s.byOffset[off])
    {
      var c :| Ends(p, c, off, s.byOffset[off]);
      ChainNamed(p, c);
    }
    forall oid | oid in s.byOID
      ensures s.byOID[oid].oid == oid && RightlyNamed(p.hash, s.byOID[oid])
    {
      var off :| off in s.byOffset && s.byOffset[off].oid == oid;
    }
  }

  /** Whatever is looked up after a response has been loaded is an object with that very id, under its literal name. */
  lemma DescribedNamed(k: PF.Codec, response: bytes, s: Index)
    requires FE.Describes(k, response, s)
    ensures AllNamed(k.hash, s)
    ensures forall oid :: oid in s.byOID ==> s.byOID[oid].oid == oid && RightlyNamed(k.hash, s.byOID[oid])
  {
    hide RightlyNamed, AllNamed, PF.Parse, Solvable, Solution, Fresh;
    var pack := FE.SB.Extract(response).value;
    var t := PF.Parse(k, pack, PC.EMPTY).value;
    ParsedNamed(k, pack, t);
    SolutionNamed(Posed(k.hash, t.index, t.deltas), s);
  }
}
