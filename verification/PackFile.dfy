/** Packfiles (pack.go, parsePack): a header, entries one after another, and a checksum. */
module PackFile {
  import opened Wrappers
  import opened Bytes
  import opened Objects
  import opened Chains
  import V = Varints

  /** What the parser takes as given: the hash, its raw size, the checksum, and zlib's inflate. */
  datatype Codec = Codec(
    raw: nat,
    hash: Hash,
    sum: bytes -> bytes,
    inflate: bytes -> Option<(bytes, nat)>)

  /** A compressor that inflate undoes, reporting how many bytes it took whatever follows them. */
  ghost predicate Undoes(k: Codec, deflate: bytes -> bytes) {
    forall x, rest :: deflate(x) != [] && k.inflate(deflate(x) + rest) == Some((x, |deflate(x)|))
  }

  datatype Entry =
    | Plain(typ: nat, data: bytes)
    | Ofs(distance: int, delta: bytes)
    | Ref(base: OID, delta: bytes)

  datatype PackError =
    | TooShort | NotAPack | BadVersion | BadHeader | BadOffset | TruncatedRef | BadZlib
    | SizeMismatch | UnknownType | Rejected(reason: StoreError) | TrailingData | BadChecksum

  // ----- one entry -----

  /** The compressed part of an entry, from q on. */
  function ReadBody(k: Codec, pack: bytes, q: nat, size: nat): (r: Result<(bytes, nat), PackError>)
    requires q <= |pack|
    ensures r.Ok? ==> q < r.value.1 <= |pack|
  {
    match k.inflate(pack[q..])
    case None => Err(BadZlib)
    case Some((data, n)) =>
      if n == 0 || q + n > |pack| || |data| != size then Err(SizeMismatch) else Ok((data, q + n))
  }

  /** The entry at pos and the position after it. */
  function ReadEntry(k: Codec, pack: bytes, pos: nat): (r: Result<(Entry, nat), PackError>)
    requires pos <= |pack|
    ensures r.Ok? ==> pos < r.value.1 <= |pack|
  {
    match V.ObjectHeader(pack, pos)
    case None => Err(BadHeader)
    case Some((typ, size, p)) =>
      if typ == REF_DELTA then
        if p + k.raw > |pack| then Err(TruncatedRef)
        else match ReadBody(k, pack, p + k.raw, size)
          case Err(e) => Err(e)
          case Ok((delta, end)) => Ok((Ref(pack[p..p + k.raw], delta), end))
      else if typ == OFS_DELTA then
        match V.OfsDelta(pack, p)
        case None => Err(BadOffset)
        case Some((distance, q)) =>
          match ReadBody(k, pack, q, size)
          case Err(e) => Err(e)
          case Ok((delta, end)) => Ok((Ofs(distance, delta), end))
      else
        match ReadBody(k, pack, p, size)
        case Err(e) => Err(e)
        case Ok((data, end)) => if COMMIT <= typ <= TAG then Ok((Plain(typ, data), end)) else Err(UnknownType)
  }

  predicate Writable(k: Codec, e: Entry) {
    match e
    case Plain(typ, data) => COMMIT <= typ <= TAG && |data| < TWO_63
    case Ofs(distance, delta) => 0 <= distance < TWO_63 && |delta| < TWO_63
    case Ref(base, delta) => |base| == k.raw && |delta| < TWO_63
  }

  function WriteEntry(k: Codec, deflate: bytes -> bytes, e: Entry): bytes
    requires Writable(k, e)
  {
    match e
    case Plain(typ, data) => V.EncodeHeader(typ, |data|) + [] + deflate(data)
    case Ofs(distance, delta) => V.EncodeHeader(OFS_DELTA, |delta|) + V.EncodeOfs(distance) + deflate(delta)
    case Ref(base, delta) => V.EncodeHeader(REF_DELTA, |delta|) + base + deflate(delta)
  }

  lemma ReadBodyInverse(k: Codec, deflate: bytes -> bytes, before: bytes, data: bytes, rest: bytes)
    requires Undoes(k, deflate)
    ensures ReadBody(k, before + deflate(data) + rest, |before|, |data|) == Ok((data, |before| + |deflate(data)|))
  {
    Slices(before, deflate(data), rest);
    assert k.inflate(deflate(data) + rest) == Some((data, |deflate(data)|));
  }

  lemma ReadEntryInverse(k: Codec, deflate: bytes -> bytes, before: bytes, e: Entry, rest: bytes)
    requires Undoes(k, deflate) && Writable(k, e)
    ensures ReadEntry(k, before + WriteEntry(k, deflate, e) + rest, |before|)
         == Ok((e, |before| + |WriteEntry(k, deflate, e)|))
  {
    hide ReadBody, Undoes, V.ObjectHeader, V.OfsDelta, V.EncodeHeader, V.EncodeOfs, V.OfsValue, V.Terminated;
    var typ := match e case Plain(t, _) => t case Ofs(_, _) => OFS_DELTA case Ref(_, _) => REF_DELTA;
    var data := if e.Plain? then e.data else e.delta;
    var h := V.EncodeHeader(typ, |data|);
    var m := match e case Plain(_, _) => [] case Ofs(d, _) => V.EncodeOfs(d) case Ref(b, _) => b;
    var z := deflate(data);
    Parts(before, h, m, z, rest);
    V.ObjectHeaderRoundTrip(before, typ, |data|, m + z + rest);
    ReadBodyInverse(k, deflate, before + h + m, data, rest);
    match e
    case Plain(_, _) =>
    case Ofs(d, _) => V.OfsDeltaExact(before + h, m, z + rest, d);
    case Ref(b, _) => Slices(before + h, m, z + rest);
  }

  method TakeBody(k: Codec, pack: bytes, q: nat, size: nat) returns (r: Result<(bytes, nat), PackError>)
    requires q <= |pack|
    ensures r == ReadBody(k, pack, q, size)
  {
    var inflated := k.inflate(pack[q..]);
    if inflated.None? {
      return Err(BadZlib);
    }
    var (raw, consumed) := inflated.value;
    if consumed == 0 || q + consumed > |pack| || |raw| != size {
      return Err(SizeMismatch);
    }
    return Ok((raw, q + consumed));
  }

  method TakeEntry(k: Codec, pack: bytes, start: nat) returns (r: Result<(Entry, nat), PackError>)
    requires start <= |pack|
    ensures r == ReadEntry(k, pack, start)
  {
    hide ReadBody, V.ObjectHeader, V.OfsDelta;
    var header := V.DecodeObjectHeader(pack, start);
    if header.None? {
      return Err(BadHeader);
    }
    var (objType, size, pos) := header.value;
    var base: OID, distance := [], 0;
    if objType == REF_DELTA {
      if pos + k.raw > |pack| {
        return Err(TruncatedRef);
      }
      base := pack[pos..pos + k.raw];
      pos := pos + k.raw;
    } else if objType == OFS_DELTA {
      var ofs := V.DecodeOfsDelta(pack, pos);
      if ofs.None? {
        return Err(BadOffset);
      }
      distance, pos := ofs.value.0, ofs.value.1;
    }
    var body := TakeBody(k, pack, pos, size);
    if body.Err? {
      return Err(body.error);
    }
    var (raw, end) := body.value;
    if COMMIT <= objType <= TAG {
      return Ok((Plain(objType, raw), end));
    }
    if objType != REF_DELTA && objType != OFS_DELTA {
      return Err(UnknownType);
    }
    return Ok((if objType == REF_DELTA then Ref(base, raw) else Ofs(distance, raw), end));
  }

  // ----- all entries -----

  /** What parsing leaves in the store. */
  datatype Loaded = Loaded(index: Index, deltas: seq<Pending>)

  function IdOf(hash: Hash, typ: int, data: bytes): Option<OID> {
    match TypeName(typ)
    case None => None
    case Some(name) => Some(hash(name, data))
  }

  /** Filing the entry found at off; None when its id is taken. */
  function Load(hash: Hash, s: Loaded, off: int, e: Entry): Option<Loaded> {
    match e
    case Plain(typ, data) =>
      (match IdOf(hash, typ, data)
       case None => None
       case Some(oid) =>
         if oid in s.index.byOID then None
         else Some(s.(index := s.index.With(off, Object(typ, oid, data)))))
    case Ofs(distance, delta) =>
      Some(s.(deltas := s.deltas + [Pending(OFS_DELTA, distance, [], Some(delta), off)]))
    case Ref(base, delta) =>
      Some(s.(deltas := s.deltas + [Pending(REF_DELTA, 0, base, Some(delta), off)]))
  }

  function LoadSeq(hash: Hash, s: Loaded, offs: seq<int>, es: seq<Entry>): Option<Loaded>
    requires |offs| == |es|
    decreases |es|
  {
    if es == [] then Some(s)
    else match Load(hash, s, offs[0], es[0])
      case None => None
      case Some(t) => LoadSeq(hash, t, offs[1..], es[1..])
  }

  /** n entries from pos on, filed one after another: what the store holds and where they end. */
  function Scan(k: Codec, pack: bytes, pos: nat, n: nat, s: Loaded): (r: Option<(Loaded, nat)>)
    requires pos <= |pack|
    ensures r.Some? ==> pos <= r.value.1 <= |pack|
    decreases n
  {
    if n == 0 then Some((s, pos))
    else match ReadEntry(k, pack, pos)
      case Err(_) => None
      case Ok((e, end)) =>
        match Load(k.hash, s, pos, e)
        case None => None
        case Some(t) => Scan(k, pack, end, n - 1, t)
  }

  /** parsePack on a store holding s: what it holds afterwards, when the pack is accepted. */
  function Parse(k: Codec, pack: bytes, s: Loaded): Option<Loaded> {
    if |pack| < 12 + k.raw || pack[..4] != PACK then None
    else if BigEndian(pack[4..8]) != 2 && BigEndian(pack[4..8]) != 3 then None
    else match Scan(k, pack, 12, BigEndian(pack[8..12]), s)
      case None => None
      case Some((t, end)) =>
        if end + k.raw == |pack| && k.sum(pack[..end]) == pack[end..] then Some(t) else None
  }

  ghost function Contents(store: ObjectStore): Loaded
    reads store
  {
    Loaded(store.View(), store.deltas)
  }

  method LoadEntry(store: ObjectStore, off: int, e: Entry) returns (r: Result<(), PackError>)
    modifies store
    ensures var t := Load(store.hash, old(Contents(store)), off, e);
            (r.Ok? <==> t.Some?) && (r.Ok? ==> Contents(store) == t.value)
  {
    match e {
      case Plain(typ, data) =>
        var name := TypeName(typ);
        if name.None? {
          return Err(UnknownType);
        }
        var oid := store.hash(name.value, data);
        var added := store.Add(typ, oid, data);
        if added.Err? {
          return Err(Rejected(added.error));
        }
        var placed := store.SetOffset(oid, off);
        assert placed.Ok?;  // the object has just been added
      case Ofs(distance, delta) =>
        store.AddPendingDelta(Pending(OFS_DELTA, distance, [], Some(delta), off));
      case Ref(base, delta) =>
        store.AddPendingDelta(Pending(REF_DELTA, 0, base, Some(delta), off));
    }
    return Ok(());
  }

  method ParsePack(k: Codec, pack: bytes, store: ObjectStore) returns (r: Result<(), PackError>)
    requires store.hash == k.hash
    modifies store
    ensures var t := Parse(k, pack, old(Contents(store)));
            (r.Ok? <==> t.Some?) && (r.Ok? ==> Contents(store) == t.value)
  {
    hide ReadEntry, Load, BigEndian;
    if |pack| < 12 + k.raw {
      return Err(TooShort);
    }
    if pack[..4] != PACK {
      return Err(NotAPack);
    }
    var version := BigEndian(pack[4..8]);
    if version != 2 && version != 3 {
      return Err(BadVersion);
    }
    var count := BigEndian(pack[8..12]);
    var pos := 12;
    var i := 0;
    while i < count
      invariant 0 <= i <= count && pos <= |pack|
      invariant Scan(k, pack, 12, count, old(Contents(store))) == Scan(k, pack, pos, count - i, Contents(store))
    {
      var entry := TakeEntry(k, pack, pos);
      if entry.Err? {
        return Err(entry.error);
      }
      var (e, end) := entry.value;
      var loaded := LoadEntry(store, pos, e);
      if loaded.Err? {
        return loaded;
      }
      pos := end;
      i := i + 1;
    }
    if pos + k.raw != |pack| {
      return Err(TrailingData);
    }
    if k.sum(pack[..pos]) != pack[pos..] {
      return Err(BadChecksum);
    }
    return Ok(());
  }

  // ----- accepted packs are tiled by their entries -----

  /** cuts are the boundaries of the entries es in pack, the first at cuts[0], each ending where the next starts. */
  ghost predicate Tiling(k: Codec, pack: bytes, cuts: seq<nat>, es: seq<Entry>) {
    && |cuts| == |es| + 1
    && (forall i :: 0 <= i < |cuts| ==> cuts[i] <= |pack|)
    && (forall i :: 0 <= i < |es| ==> ReadEntry(k, pack, cuts[i]) == Ok((es[i], cuts[i + 1])))
  }

  ghost predicate Scanned(k: Codec, pack: bytes, pos: nat, s: Loaded, t: Loaded, end: nat, cuts: seq<nat>,
                          es: seq<Entry>) {
    && Tiling(k, pack, cuts, es)
    && cuts[0] == pos && cuts[|es|] == end
    && LoadSeq(k.hash, s, cuts[..|es|], es) == Some(t)
  }

  lemma {:induction false} ScanSound(k: Codec, pack: bytes, pos: nat, n: nat, s: Loaded)
    returns (cuts: seq<nat>, es: seq<Entry>)
    requires pos <= |pack| && Scan(k, pack, pos, n, s).Some?
    ensures |es| == n
    ensures var (t, end) := Scan(k, pack, pos, n, s).value; Scanned(k, pack, pos, s, t, end, cuts, es)
    decreases n
  {
    hide ReadEntry, Load;
    if n == 0 {
      return [pos], [];
    }
    var (e, next) := ReadEntry(k, pack, pos).value;
    var t := Load(k.hash, s, pos, e).value;
    var cuts', es' := ScanSound(k, pack, next, n - 1, t);
    cuts, es := [pos] + cuts', [e] + es';
    assert cuts[..n][1..] == cuts'[..n - 1] && es[1..] == es';
  }

  lemma {:induction false} ScanComplete(k: Codec, pack: bytes, pos: nat, s: Loaded, t: Loaded, end: nat,
                                        cuts: seq<nat>, es: seq<Entry>)
    requires Scanned(k, pack, pos, s, t, end, cuts, es)
    ensures pos <= |pack| && Scan(k, pack, pos, |es|, s) == Some((t, end))
    decreases |es|
  {
    hide ReadEntry, Load;
    if es != [] {
      var u := Load(k.hash, s, pos, es[0]).value;
      assert cuts[1..][..|es| - 1] == cuts[..|es|][1..];
      ScanComplete(k, pack, cuts[1], u, t, end, cuts[1..], es[1..]);
    }
  }

  /**
   * A pack is accepted, leaving t, exactly when it is a header with the magic, version 2 or 3 and a
   * count, that many entries back to back, each filed at its own offset, and the checksum of it all.
   */
  lemma ParseExact(k: Codec, pack: bytes, s: Loaded, t: Loaded)
    ensures Parse(k, pack, s) == Some(t) <==>
              |pack| >= 12 + k.raw && exists cuts, es :: Accepted(k, pack, s, t, cuts, es)
  {
    hide Scan;
    if Parse(k, pack, s) == Some(t) {
      var cuts, es := ScanSound(k, pack, 12, BigEndian(pack[8..12]), s);
      assert Accepted(k, pack, s, t, cuts, es);
    }
    if |pack| >= 12 + k.raw && exists cuts, es :: Accepted(k, pack, s, t, cuts, es) {
      var cuts, es :| Accepted(k, pack, s, t, cuts, es);
      ScanComplete(k, pack, 12, s, t, |pack| - k.raw, cuts, es);
    }
  }

  ghost predicate Accepted(k: Codec, pack: bytes, s: Loaded, t: Loaded, cuts: seq<nat>, es: seq<Entry>)
    requires |pack| >= 12 + k.raw
  {
    var end := |pack| - k.raw;
    && pack[..4] == PACK
    && (BigEndian(pack[4..8]) == 2 || BigEndian(pack[4..8]) == 3)
    && BigEndian(pack[8..12]) == |es|
    && Scanned(k, pack, 12, s, t, end, cuts, es)
    && k.sum(pack[..end]) == pack[end..]
  }
}
