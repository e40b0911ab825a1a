/** From a ref to a checkout (fetch.go): the stages after the transfer, in order. */
module Fetch {
  import opened Wrappers
  import opened Bytes
  import opened Objects
  import opened Chains
  import PL = PktLine
  import SB = SideBand
  import PF = PackFile
  import PC = PackContents
  import RD = ResolveDeltas
  import CO = Checkout
  import CT = CheckoutTheorems
  import F = Files

  // ----- object headers -----

  const NEWLINE: byte := 0x0a
  const TREE_KEY: bytes := [0x74, 0x72, 0x65, 0x65, 0x20]                    // "tree "
  const OBJECT_KEY: bytes := [0x6f, 0x62, 0x6a, 0x65, 0x63, 0x74, 0x20]      // "object "

  datatype HeaderError = MalformedHeader | MissingHeader | BadHex

  /** The raw id that hex digits in either case stand for. */
  function UnHex(s: bytes): Option<OID> {
    if s == [] then Some([])
    else if |s| == 1 then None
    else match (PL.HexValue(s[0]), PL.HexValue(s[1]), UnHex(s[2..]))
      case (Some(a), Some(b), Some(rest)) => Some([16 * a + b] + rest)
      case _ => None
  }

  function Hex(oid: OID): (s: bytes)
    ensures |s| == 2 * |oid| && NEWLINE !in s
  {
    if oid == [] then [] else [PL.HexDigit(oid[0] / 16), PL.HexDigit(oid[0] % 16)] + Hex(oid[1..])
  }

  lemma DigitsBack(b: byte)
    ensures PL.HexValue(PL.HexDigit(b / 16)) == Some(b / 16)
    ensures PL.HexValue(PL.HexDigit(b % 16)) == Some(b % 16)
    ensures 16 * (b / 16) + b % 16 == b
  {}

  lemma {:induction false} UnHexHex(oid: OID)
    ensures UnHex(Hex(oid)) == Some(oid)
  {
    hide PL.HexValue, PL.HexDigit;
    if oid != [] {
      DigitsBack(oid[0]);
      UnHexHex(oid[1..]);
      assert Hex(oid)[2..] == Hex(oid[1..]);
      assert oid == [oid[0]] + oid[1..];
    }
  }

  /** Two digits for each byte, the high one first. */
  predicate Spells(s: bytes, oid: OID) {
    |s| == 2 * |oid|
    && forall i :: 0 <= i < |oid| ==> PL.Digit(s[2 * i], oid[i] / 16) && PL.Digit(s[2 * i + 1], oid[i] % 16)
  }

  lemma {:induction false} UnHexExact(s: bytes, oid: OID)
    ensures UnHex(s) == Some(oid) <==> Spells(s, oid)
  {
    hide PL.HexValue, PL.Digit;
    if |s| >= 2 && oid != [] {
      UnHexExact(s[2..], oid[1..]);
      PL.DigitValue(s[0], oid[0] / 16);
      PL.DigitValue(s[1], oid[0] % 16);
      assert oid == [oid[0]] + oid[1..];
      SpellsCons(s, oid);
    }
  }

  lemma SpellsCons(s: bytes, oid: OID)
    requires |s| >= 2 && oid != []
    ensures Spells(s, oid) <==>
              PL.Digit(s[0], oid[0] / 16) && PL.Digit(s[1], oid[0] % 16) && Spells(s[2..], oid[1..])
  {
    hide PL.Digit;
    var more, rest := s[2..], oid[1..];
    if |s| == 2 * |oid| {
      assert forall i :: 0 <= i < |rest| ==>
               rest[i] == oid[i + 1] && more[2 * i] == s[2 * (i + 1)] && more[2 * i + 1] == s[2 * (i + 1) + 1];
      assert forall i :: 0 < i < |oid| ==>
               oid[i] == rest[i - 1] && s[2 * i] == more[2 * (i - 1)] && s[2 * i + 1] == more[2 * (i - 1) + 1];
    }
  }

  /** parseHeaderOID: the id on the first header line that is the key and as many digits as an id has. */
  function HeaderOID(data: bytes, key: bytes, raw: nat): Result<OID, HeaderError>
    decreases |data|
  {
    if data == [] then Err(MissingHeader)
    else match IndexOf(data, NEWLINE)
      case None => Err(MalformedHeader)
      case Some(nl) =>
        var line := data[..nl];
        if line == [] then Err(MissingHeader)
        else if |line| == |key| + 2 * raw && line[..|key|] == key then
          match UnHex(line[|key|..])
          case None => Err(BadHex)
          case Some(oid) => Ok(oid)
        else HeaderOID(data[nl + 1..], key, raw)
  }

  method ParseHeaderOID(content: bytes, key: bytes, raw: nat) returns (r: Result<OID, HeaderError>)
    ensures r == HeaderOID(content, key, raw)
  {
    hide UnHex, IndexOf;
    var data := content;
    while |data| > 0
      invariant HeaderOID(content, key, raw) == HeaderOID(data, key, raw)
      decreases |data|
    {
      var nl := IndexOf(data, NEWLINE);
      if nl.None? {
        return Err(MalformedHeader);
      }
      var line := data[..nl.value];
      if |line| == 0 {
        break;
      }
      if |line| == |key| + 2 * raw && line[..|key|] == key {
        var oid := UnHex(line[|key|..]);
        return if oid.None? then Err(BadHex) else Ok(oid.value);
      }
      data := data[nl.value + 1..];
    }
    return Err(MissingHeader);
  }

  /** An object whose first line is the key and an id names that id. */
  lemma HeaderFirst(key: bytes, oid: OID, rest: bytes)
    requires NEWLINE !in key && key != []
    ensures HeaderOID(key + Hex(oid) + [NEWLINE] + rest, key, |oid|) == Ok(oid)
  {
    var line := key + Hex(oid);
    UnHexHex(oid);
    hide UnHex, IndexOf, Hex;
    IndexOfFirst(line, NEWLINE, rest);
    var data := line + [NEWLINE] + rest;
    assert data[..|line|] == line;
    assert line[..|key|] == key && line[|key|..] == Hex(oid);
  }

  // ----- peeling tags -----

  datatype PeelError = NotACommit | BadTag(error: HeaderError)

  function Lookup(s: Index, oid: OID): Option<Object> {
    if oid in s.byOID then Some(s.byOID[oid]) else None
  }

  /** peelToCommit, with k objects still to look at. */
  function Peel(s: Index, raw: nat, o: Option<Object>, k: nat): Result<Object, PeelError>
    decreases k
  {
    if o.None? || k == 0 then Err(NotACommit)
    else if o.value.typ == COMMIT then Ok(o.value)
    else if o.value.typ != TAG then Err(NotACommit)
    else match HeaderOID(o.value.data, OBJECT_KEY, raw)
      case Err(e) => Err(BadTag(e))
      case Ok(target) => Peel(s, raw, Lookup(s, target), k - 1)
  }

  method PeelToCommit(store: ObjectStore, raw: nat, start: Object) returns (r: Result<Object, PeelError>)
    ensures r == Peel(store.View(), raw, Some(start), 8)
  {
    hide HeaderOID;
    var obj := Some(start);
    var depth := 0;
    while obj.Some? && depth < 8
      invariant 0 <= depth <= 8
      invariant Peel(store.View(), raw, Some(start), 8) == Peel(store.View(), raw, obj, 8 - depth)
    {
      if obj.value.typ == COMMIT {
        return Ok(obj.value);
      }
      if obj.value.typ != TAG {
        return Err(NotACommit);
      }
      var target := ParseHeaderOID(obj.value.data, OBJECT_KEY, raw);
      if target.Err? {
        return Err(BadTag(target.error));
      }
      obj := store.Get(target.value);
      depth := depth + 1;
    }
    return Err(NotACommit);
  }

  /** Tags, each naming the next, that end in a commit. */
  ghost predicate TagChain(s: Index, raw: nat, os: seq<Object>) {
    && os != []
    && os[|os| - 1].typ == COMMIT
    && forall i :: 0 <= i < |os| - 1 ==>
         && os[i].typ == TAG
         && HeaderOID(os[i].data, OBJECT_KEY, raw).Ok?
         && Lookup(s, HeaderOID(os[i].data, OBJECT_KEY, raw).value) == Some(os[i + 1])
  }

  /** Peeling finds a commit exactly when fewer than k tags lead to it. */
  lemma {:induction false} PeelExact(s: Index, raw: nat, o: Object, k: nat, c: Object)
    ensures Peel(s, raw, Some(o), k) == Ok(c) <==>
              exists os :: TagChain(s, raw, os) && |os| <= k && os[0] == o && os[|os| - 1] == c
    decreases k
  {
    hide HeaderOID;
    if Peel(s, raw, Some(o), k) == Ok(c) {
      if o.typ == COMMIT {
        assert TagChain(s, raw, [o]);
      } else {
        var next := Lookup(s, HeaderOID(o.data, OBJECT_KEY, raw).value).value;
        PeelExact(s, raw, next, k - 1, c);
        var os :| TagChain(s, raw, os) && |os| <= k - 1 && os[0] == next && os[|os| - 1] == c;
        assert TagChain(s, raw, [o] + os);
      }
    }
    forall os | TagChain(s, raw, os) && |os| <= k && os[0] == o && os[|os| - 1] == c
      ensures Peel(s, raw, Some(o), k) == Ok(c)
    {
      if |os| > 1 {
        assert TagChain(s, raw, os[1..]);
        PeelExact(s, raw, os[1], k - 1, c);
      }
    }
  }

  // ----- the pipeline -----

  datatype CloneError =
    | BadResponse(e: SB.ExtractError)
    | BadPack(p: PF.PackError)
    | BadDeltas(d: RD.ResolveError)
    | RefNotInPack
    | NoCommit(q: PeelError)
    | NoTree(h: HeaderError)
    | ZeroTree
    | CheckoutFailed(c: CO.CheckoutError)

  /** s is the object store that the response describes. */
  ghost predicate Describes(k: PF.Codec, response: bytes, s: Index) {
    var pack := SB.Extract(response);
    && pack.Ok?
    && Loads(k, pack.value, s)
  }

  ghost predicate Loads(k: PF.Codec, pack: bytes, s: Index) {
    var t := PF.Parse(k, pack, PC.EMPTY);
    && t.Some?
    && var p := Posed(k.hash, t.value.index, t.value.deltas);
       Fresh(p) && Solvable(p) && Solution(p, s)
  }

  /** The tree that the wanted id leads to in s. */
  ghost function WantedTree(s: Index, raw: nat, wanted: OID): Option<OID> {
    if wanted !in s.byOID then None
    else match Peel(s, raw, Some(s.byOID[wanted]), 8)
      case Err(_) => None
      case Ok(commit) =>
        match HeaderOID(commit.data, TREE_KEY, raw)
        case Err(_) => None
        case Ok(tree) => if IsZero(tree) then None else Some(tree)
  }

  predicate IsZero(oid: OID) {
    forall i :: 0 <= i < |oid| ==> oid[i] == 0
  }

  /** What a run did to the output: on success, exactly the checkout of the wanted tree. */
  ghost predicate Cloned(k: PF.Codec, response: bytes, wanted: OID, rank: OID -> nat, outDir: F.Path,
                         before: F.Tree, after: F.Tree, r: Result<nat, CloneError>)
    requires forall s :: Describes(k, response, s) ==> CO.Acyclic(s, k.raw, rank)
  {
    && CT.Contained(before, after, outDir)
    && (r.Ok? ==> exists s :: Describes(k, response, s) && Landed(k, s, wanted, rank, outDir, before, after, r.value))
    && (forall s :: Describes(k, response, s) && Expected(k, s, wanted, rank, outDir, before) ==> r.Ok?)
  }

  ghost predicate Landed(k: PF.Codec, s: Index, wanted: OID, rank: OID -> nat, outDir: F.Path, before: F.Tree,
                         after: F.Tree, n: nat)
    requires CO.Acyclic(s, k.raw, rank)
  {
    var tree := WantedTree(s, k.raw, wanted);
    tree.Some? && CT.CheckedOut(s, k.raw, rank, tree.value, outDir, before, after, n)
  }

  ghost predicate Expected(k: PF.Codec, s: Index, wanted: OID, rank: OID -> nat, outDir: F.Path, before: F.Tree)
    requires CO.Acyclic(s, k.raw, rank)
  {
    var tree := WantedTree(s, k.raw, wanted);
    tree.Some? && CT.ReadyFor(s, k.raw, rank, tree.value, outDir, before)
  }

  /** extractPack, parsePack and resolveDeltas: the store afterwards, when all three accept. */
  method LoadResponse(k: PF.Codec, response: bytes) returns (r: Result<(), CloneError>, store: ObjectStore)
    ensures fresh(store)
    ensures r.Ok? ==> Describes(k, response, store.View())
    ensures r.Ok? <==> exists s :: Describes(k, response, s)
    ensures r.Ok? ==>
              var pack := SB.Extract(response).value;
              |pack| >= 12 && |store.byOID| == |store.byOffset| == BigEndian(pack[8..12])
  {
    hide SB.Extract, PF.Parse, Fresh, Solvable, Solution;
    store := new ObjectStore(k.hash);
    var pack := SB.ExtractPack(response);
    if pack.Err? {
      return Err(BadResponse(pack.error)), store;
    }
    assert PF.Contents(store) == PC.EMPTY;
    var parsed := PF.ParsePack(k, pack.value, store);
    if parsed.Err? {
      return Err(BadPack(parsed.error)), store;
    }
    ghost var t := PF.Contents(store);
    var _, es := PC.ParsedIsTidy(k, pack.value, t);
    PC.TidyIsFresh(k.hash, t, |pack.value| - k.raw, |es|);
    var resolved := RD.ResolveDeltas(store);
    if resolved.Err? {
      return Err(BadDeltas(resolved.error)), store;
    }
    assert Describes(k, response, store.View());
    return Ok(()), store;
  }

  lemma DescribedOnce(k: PF.Codec, response: bytes, s: Index, t: Index)
    requires Describes(k, response, s) && Describes(k, response, t)
    ensures s == t
  {
    hide SB.Extract, PF.Parse, Fresh, Solvable, Solution;
    var p := PF.Parse(k, SB.Extract(response).value, PC.EMPTY).value;
    SolutionUnique(Posed(k.hash, p.index, p.deltas), s, t);
  }

  /** Clone, after the response has arrived. */
  method Clone(k: PF.Codec, response: bytes, wanted: OID, ghost rank: OID -> nat, outDir: F.Path, fs: F.FileSystem)
    returns (r: Result<nat, CloneError>)
    requires forall s :: Describes(k, response, s) ==> CO.Acyclic(s, k.raw, rank)
    modifies fs
    ensures Cloned(k, response, wanted, rank, outDir, old(fs.nodes), fs.nodes, r)
  {
    hide Describes, CO.Acyclic, Peel, HeaderOID, CT.CheckedOut, CT.ReadyFor;
    var loaded, store := LoadResponse(k, response);
    if loaded.Err? {
      return Err(loaded.error);
    }
    ghost var s := store.View();
    forall t | Describes(k, response, t)
      ensures t == s
    {
      DescribedOnce(k, response, s, t);
    }
    var start := store.Get(wanted);
    if start.None? {
      return Err(RefNotInPack);
    }
    var commit := PeelToCommit(store, k.raw, start.value);
    if commit.Err? {
      return Err(NoCommit(commit.error));
    }
    var tree := ParseHeaderOID(commit.value.data, TREE_KEY, k.raw);
    if tree.Err? {
      return Err(NoTree(tree.error));
    }
    if IsZero(tree.value) {
      return Err(ZeroTree);
    }
    var files := CT.Materialize(store, k.raw, rank, tree.value, outDir, fs);
    if files.Err? {
      return Err(CheckoutFailed(files.error));
    }
    return Ok(files.value);
  }
}
