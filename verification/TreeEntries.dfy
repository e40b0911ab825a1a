/** The entries of a tree object (writer.go, nextTreeEntry): octal mode, space, name, NUL, raw id. */
module TreeEntries {
  import opened Wrappers
  import opened Bytes
  import opened Objects

  const SPACE: byte := 0x20
  const NUL: byte := 0

  datatype TreeEntry = TreeEntry(name: bytes, mode: nat, oid: OID)

  datatype EntryError =
    | MissingModeTerminator | InvalidModeLength | InvalidModeDigit
    | MissingNameTerminator | EmptyName | TruncatedId

  predicate OctalDigit(c: byte) { 0x30 <= c <= 0x37 }

  predicate AllOctal(bs: bytes) {
    forall i :: 0 <= i < |bs| ==> OctalDigit(bs[i])
  }

  function OctalValue(bs: bytes): nat
    requires AllOctal(bs)
  {
    if bs == [] then 0 else 8 * OctalValue(bs[..|bs| - 1]) + (bs[|bs| - 1] - 0x30)
  }

  /** The part of an entry after the mode, which ends at space. */
  function AfterMode(data: bytes, space: nat, raw: nat, mode: nat): (r: Result<(TreeEntry, nat), EntryError>)
    requires space < |data|
    ensures r.Ok? ==> space < r.value.1 <= |data|
  {
    match IndexOf(data[space + 1..], NUL)
    case None => Err(MissingNameTerminator)
    case Some(n) =>
      var nul := space + 1 + n;
      if n == 0 then Err(EmptyName)
      else if nul + 1 + raw > |data| then Err(TruncatedId)
      else Ok((TreeEntry(data[space + 1..nul], mode, data[nul + 1..nul + 1 + raw]), nul + 1 + raw))
  }

  /** The entry at pos and the position after it; None at the end of the tree. */
  function Next(data: bytes, pos: nat, raw: nat): (r: Result<Option<(TreeEntry, nat)>, EntryError>)
    ensures r.Ok? && r.value.Some? ==> pos < r.value.value.1 <= |data|
  {
    if pos >= |data| then Ok(None)
    else match IndexOf(data[pos..], SPACE)
      case None => Err(MissingModeTerminator)
      case Some(n) =>
        if n == 0 || n >= 7 then Err(InvalidModeLength)
        else if !AllOctal(data[pos..pos + n]) then Err(InvalidModeDigit)
        else match AfterMode(data, pos + n, raw, OctalValue(data[pos..pos + n]))
          case Err(e) => Err(e)
          case Ok(found) => Ok(Some(found))
  }

  method NextTreeEntry(data: bytes, pos: nat, raw: nat)
    returns (r: Result<Option<(TreeEntry, nat)>, EntryError>)
    ensures r == Next(data, pos, raw)
  {
    hide OctalValue, AllOctal, IndexOf;
    if pos >= |data| {
      return Ok(None);
    }
    var n := IndexOf(data[pos..], SPACE);
    if n.None? {
      return Err(MissingModeTerminator);
    }
    var space := pos + n.value;
    var modeBytes := data[pos..space];
    if |modeBytes| == 0 || |modeBytes| >= 7 {
      return Err(InvalidModeLength);
    }
    var ok, mode := ReadMode(modeBytes);
    if !ok {
      return Err(InvalidModeDigit);
    }
    var m := IndexOf(data[space + 1..], NUL);
    if m.None? {
      return Err(MissingNameTerminator);
    }
    var nul := space + 1 + m.value;
    if m.value == 0 {
      return Err(EmptyName);
    }
    var oidStart, oidEnd := nul + 1, nul + 1 + raw;
    if oidEnd > |data| {
      return Err(TruncatedId);
    }
    return Ok(Some((TreeEntry(data[space + 1..nul], mode, data[oidStart..oidEnd]), oidEnd)));
  }

  method ReadMode(modeBytes: bytes) returns (ok: bool, mode: nat)
    ensures ok <==> AllOctal(modeBytes)
    ensures ok ==> mode == OctalValue(modeBytes)
  {
    mode := 0;
    var i := 0;
    while i < |modeBytes|
      invariant 0 <= i <= |modeBytes|
      invariant AllOctal(modeBytes[..i]) && mode == OctalValue(modeBytes[..i])
    {
      var c := modeBytes[i];
      if c < 0x30 || c > 0x37 {
        return false, 0;
      }
      assert modeBytes[..i + 1][..i] == modeBytes[..i];
      mode := 8 * mode + (c - 0x30);
      i := i + 1;
    }
    assert modeBytes[..i] == modeBytes;
    return true, mode;
  }

  // ----- writing entries -----

  function Octal(n: nat): (bs: bytes)
    ensures bs != [] && AllOctal(bs)
  {
    if n < 8 then [0x30 + n] else Octal(n / 8) + [0x30 + n % 8]
  }

  lemma {:induction false} OctalInverse(n: nat)
    ensures OctalValue(Octal(n)) == n
  {
    if n < 8 {
      assert OctalValue([0x30 + n][..0]) == 0;
    } else {
      OctalInverse(n / 8);
      assert Octal(n)[..|Octal(n / 8)|] == Octal(n / 8);
    }
  }

  predicate Storable(e: TreeEntry, raw: nat) {
    e.name != [] && NUL !in e.name && |Octal(e.mode)| < 7 && |e.oid| == raw
  }

  function WriteEntry(e: TreeEntry): bytes {
    Octal(e.mode) + [SPACE] + (e.name + [NUL] + e.oid)
  }

  lemma AfterModeInverse(before: bytes, name: bytes, oid: OID, rest: bytes, mode: nat)
    requires name != [] && NUL !in name
    ensures AfterMode(before + [SPACE] + (name + [NUL] + oid) + rest, |before|, |oid|, mode)
         == Ok((TreeEntry(name, mode, oid), |before + [SPACE] + (name + [NUL] + oid)|))
  {
    hide IndexOf;
    var b := before + [SPACE];
    Pieces(b, name, [NUL], oid, rest);
    IndexOfFirst(name, NUL, oid + rest);
  }

  /** b + (p + q + r) + rest, seen from the start of each piece. */
  lemma Pieces(b: bytes, p: bytes, q: bytes, r: bytes, rest: bytes)
    ensures var data := b + (p + q + r) + rest;
            && data[|b|..] == p + q + (r + rest)
            && data[|b|..|b| + |p|] == p
            && data[|b| + |p| + |q|..|b| + |p| + |q| + |r|] == r
            && data == (b + p) + q + r + rest
  {
    var tail := r + rest;
    assert b + (p + q + r) + rest == b + p + (q + tail);
    Slices(b, p, q + tail);
    Assoc(p, q, tail);
    assert b + (p + q + r) + rest == (b + p + q) + r + rest;
    Slices(b + p + q, r, rest);
  }

  /** A written entry is read back, whatever surrounds it. */
  lemma NextInverse(before: bytes, e: TreeEntry, rest: bytes)
    requires Storable(e, |e.oid|)
    ensures Next(before + WriteEntry(e) + rest, |before|, |e.oid|) == Ok(Some((e, |before| + |WriteEntry(e)|)))
  {
    var m := Octal(e.mode);
    OctalInverse(e.mode);
    hide IndexOf, OctalValue, AfterMode, Octal;
    var tail := e.name + [NUL] + e.oid;
    assert SPACE !in m;
    Pieces(before, m, [SPACE], tail, rest);
    IndexOfFirst(m, SPACE, tail + rest);
    AfterModeInverse(before + m, e.name, e.oid, rest, e.mode);
  }

  // ----- whole trees -----

  /** The entries before the end of the tree or the first malformed one, and whether the end was reached. */
  datatype Listing = Listing(entries: seq<TreeEntry>, complete: bool)

  function List(data: bytes, pos: nat, raw: nat): Listing
    decreases |data| - pos
  {
    match Next(data, pos, raw)
    case Err(_) => Listing([], false)
    case Ok(None) => Listing([], true)
    case Ok(Some((e, next))) =>
      var l := List(data, next, raw);
      Listing([e] + l.entries, l.complete)
  }

  function WriteTree(es: seq<TreeEntry>): bytes {
    if es == [] then [] else WriteEntry(es[0]) + WriteTree(es[1..])
  }

  predicate AllStorable(es: seq<TreeEntry>, raw: nat) {
    forall i :: 0 <= i < |es| ==> Storable(es[i], raw)
  }

  /** Listing undoes tree serialization. */
  lemma {:induction false} ListWriteTree(before: bytes, es: seq<TreeEntry>, raw: nat)
    requires AllStorable(es, raw)
    ensures List(before + WriteTree(es), |before|, raw) == Listing(es, true)
    decreases |es|
  {
    hide Next, WriteEntry;
    if es == [] {
      assert Next(before + [], |before|, raw) == Ok(None) by { NextAtEnd(before + [], raw); }
    } else {
      var w, more := WriteEntry(es[0]), WriteTree(es[1..]);
      Assoc(before, w, more);
      NextInverse(before, es[0], more);
      ListWriteTree(before + w, es[1..], raw);
      assert es == [es[0]] + es[1..];
    }
  }

  lemma NextAtEnd(data: bytes, raw: nat)
    ensures Next(data, |data|, raw) == Ok(None)
  {}
}
