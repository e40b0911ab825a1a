/** Objects, pending deltas and the store they live in (object.go). */
module Objects {
  import opened Wrappers
  import opened Bytes

  const COMMIT := 1
  const TREE := 2
  const BLOB := 3
  const TAG := 4
  const OFS_DELTA := 6
  const REF_DELTA := 7

  type OID = bytes

  /** The object hash, from a type name and the object's bytes; nothing is assumed about it. */
  type Hash = (string, bytes) -> OID

  datatype Object = Object(typ: int, oid: OID, data: bytes)

  /** data becomes None once the delta is resolved. */
  datatype Pending = Pending(kind: int, offset: int, base: OID, data: Option<bytes>, src: int)

  function TypeName(typ: int): Option<string> {
    if typ == COMMIT then Some("commit")
    else if typ == TREE then Some("tree")
    else if typ == BLOB then Some("blob")
    else if typ == TAG then Some("tag")
    else None
  }

  /** The id is the hash of the data under the name that the type has in every repository. */
  predicate RightlyNamed(hash: Hash, o: Object) {
    || (o.typ == 1 && o.oid == hash("commit", o.data))
    || (o.typ == 2 && o.oid == hash("tree", o.data))
    || (o.typ == 3 && o.oid == hash("blob", o.data))
    || (o.typ == 4 && o.oid == hash("tag", o.data))
  }

  lemma NamedByType(hash: Hash, o: Object)
    ensures RightlyNamed(hash, o) <==> TypeName(o.typ).Some? && o.oid == hash(TypeName(o.typ).value, o.data)
  {}

  /** The two indexes of a store, as values. */
  datatype Index = Index(byOID: map<OID, Object>, byOffset: map<int, Object>) {
    /**
     * Every object is filed under its own id and at exactly one offset; equivalently, the offsets
     * name distinct objects and the ids are the ids of the objects at some offset.
     */
    ghost predicate Located() {
      && (forall off :: off in byOffset ==> Filed(byOffset[off]))
      && (forall a, b :: a in byOffset && b in byOffset && byOffset[a].oid == byOffset[b].oid ==> a == b)
      && (forall oid :: oid in byOID ==> exists off :: off in byOffset && byOffset[off].oid == oid)
    }

    ghost predicate Filed(o: Object) {
      o.oid in byOID && byOID[o.oid] == o
    }

    function With(off: int, o: Object): Index {
      Index(byOID[o.oid := o], byOffset[off := o])
    }
  }

  datatype StoreError = InvalidArgument | Duplicate | NotFound

  class ObjectStore {
    const hash: Hash
    var byOID: map<OID, Object>
    var byOffset: map<int, Object>
    var deltas: seq<Pending>

    constructor (hash: Hash)
      ensures this.hash == hash
      ensures View() == Index(map[], map[]) && deltas == []
    {
      this.hash := hash;
      byOID, byOffset, deltas := map[], map[], [];
    }

    ghost function View(): Index
      reads this
    {
      Index(byOID, byOffset)
    }

    method Add(typ: int, oid: OID, data: bytes) returns (r: Result<(), StoreError>)
      modifies this`byOID
      ensures r.Ok? <==> typ != 0 && oid !in old(byOID)
      ensures byOID == if r.Ok? then old(byOID)[oid := Object(typ, oid, data)] else old(byOID)
    {
      if typ == 0 {
        return Err(InvalidArgument);
      }
      if oid in byOID {
        return Err(Duplicate);
      }
      byOID := byOID[oid := Object(typ, oid, data)];
      return Ok(());
    }

    method SetOffset(oid: OID, offset: int) returns (r: Result<(), StoreError>)
      modifies this`byOffset
      ensures r.Ok? <==> oid in byOID
      ensures byOffset == if r.Ok? then old(byOffset)[offset := byOID[oid]] else old(byOffset)
    {
      var obj := Get(oid);
      if obj.None? {
        return Err(NotFound);
      }
      byOffset := byOffset[offset := obj.value];
      return Ok(());
    }

    function Get(oid: OID): Option<Object>
      reads this
    {
      if oid in byOID then Some(byOID[oid]) else None
    }

    function GetByOffset(offset: int): Option<Object>
      reads this
    {
      if offset in byOffset then Some(byOffset[offset]) else None
    }

    method AddPendingDelta(delta: Pending)
      modifies this`deltas
      ensures deltas == old(deltas) + [delta]
    {
      deltas := deltas + [delta];
    }
  }
}
