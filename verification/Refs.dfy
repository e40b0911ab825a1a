/** Choosing the commit to fetch from the server's list of refs (protocol.go, selectAdvertisedRef). */
module Refs {
  import opened Wrappers
  import opened Bytes
  import opened Objects
  import P = PktLine
  import SB = SideBand
  import FE = Fetch
  import PF = PackFile
  import CO = Checkout
  import F = Files

  const SPACE: byte := 0x20
  const NEWLINE: byte := 0x0a
  const NUL: byte := 0
  const HEAD: bytes := [0x48, 0x45, 0x41, 0x44]                                        // "HEAD"
  const TAGS: bytes := [0x72, 0x65, 0x66, 0x73, 0x2f, 0x74, 0x61, 0x67, 0x73, 0x2f]    // "refs/tags/"
  const HEADS: bytes := [0x72, 0x65, 0x66, 0x73, 0x2f, 0x68, 0x65, 0x61, 0x64, 0x73, 0x2f] // "refs/heads/"
  const VERSION: bytes := [0x76, 0x65, 0x72, 0x73, 0x69, 0x6f, 0x6e, 0x20]             // "version "
  // "# service=git-upload-pack"
  const SERVICE: bytes := [0x23, 0x20, 0x73, 0x65, 0x72, 0x76, 0x69, 0x63, 0x65, 0x3d, 0x67, 0x69, 0x74, 0x2d,
                           0x75, 0x70, 0x6c, 0x6f, 0x61, 0x64, 0x2d, 0x70, 0x61, 0x63, 0x6b]
  // "object-format="
  const FORMAT: bytes := [0x6f, 0x62, 0x6a, 0x65, 0x63, 0x74, 0x2d, 0x66, 0x6f, 0x72, 0x6d, 0x61, 0x74, 0x3d]
  const SHA1: bytes := [0x73, 0x68, 0x61, 0x31]
  const SHA256: bytes := [0x73, 0x68, 0x61, 0x32, 0x35, 0x36]

  datatype RefError = BadPkt(error: P.PktError) | MalformedRef | EmptyName | BadFormat | BadId | RefNotFound

  /** How well a name answers what is wanted: not at all, as HEAD, as a tag, or, best, as a branch. */
  function Grade(name: bytes, wanted: bytes): nat {
    if wanted == HEAD then if name == HEAD then 1 else 0
    else if name == TAGS + wanted then 2
    else if name == HEADS + wanted then 3
    else 0
  }

  // ----- the object format -----

  /** The bytes in an id of the named hash. */
  function SizeOf(name: bytes): Option<nat> {
    if name == SHA1 then Some(20) else if name == SHA256 then Some(32) else None
  }

  /** The first hash among the capabilities; an unknown one anywhere is an error. */
  function Advertised(caps: seq<bytes>): Result<Option<nat>, RefError> {
    if caps == [] then Ok(None)
    else if !SB.HasPrefix(caps[0], FORMAT) then Advertised(caps[1..])
    else
      match (SizeOf(caps[0][|FORMAT|..]), Advertised(caps[1..]))
      case (None, _) => Err(BadFormat)
      case (_, Err(e)) => Err(e)
      case (Some(n), Ok(_)) => Ok(Some(n))
  }

  /** advertisedObjectFormat: the bytes in an id, which the digits of the first id must agree with. */
  function ObjectFormat(caps: seq<bytes>, digits: nat): Result<nat, RefError> {
    match Advertised(caps)
    case Err(e) => Err(e)
    case Ok(n) =>
      if digits != 40 && digits != 64 then Err(BadFormat)
      else if n.Some? && 2 * n.value != digits then Err(BadFormat)
      else Ok(digits / 2)
  }

  predicate NamesFormat(cap: bytes) {
    SB.HasPrefix(cap, FORMAT)
  }

  function FormatSize(cap: bytes): Option<nat>
    requires NamesFormat(cap)
  {
    SizeOf(cap[|FORMAT|..])
  }

  predicate FirstFormat(caps: seq<bytes>, i: int) {
    0 <= i < |caps| && NamesFormat(caps[i]) && forall j :: 0 <= j < i ==> !NamesFormat(caps[j])
  }

  lemma {:induction false} AdvertisedExact(caps: seq<bytes>)
    ensures Advertised(caps).Ok? <==> forall i :: 0 <= i < |caps| && NamesFormat(caps[i]) ==> FormatSize(caps[i]).Some?
    ensures Advertised(caps).Ok? ==>
              match Advertised(caps).value
              case None => forall i :: 0 <= i < |caps| ==> !NamesFormat(caps[i])
              case Some(n) => exists i :: FirstFormat(caps, i) && FormatSize(caps[i]) == Some(n)
  {
    hide SizeOf;
    if caps != [] {
      var more := caps[1..];
      AdvertisedExact(more);
      assert forall i :: 0 <= i < |more| ==> more[i] == caps[i + 1];
      assert forall i :: 0 < i < |caps| ==> caps[i] == more[i - 1];
      if !NamesFormat(caps[0]) && Advertised(caps).Ok? && Advertised(caps).value.Some? {
        var i :| FirstFormat(more, i) && FormatSize(more[i]) == Advertised(more).value;
        assert FirstFormat(caps, i + 1);
      }
    }
  }

  /** Accepted exactly when the id has the length of a known hash, all formats named are known, and the first agrees. */
  lemma FormatExact(caps: seq<bytes>, digits: nat, raw: nat)
    ensures ObjectFormat(caps, digits) == Ok(raw) <==>
              && digits == 2 * raw && (raw == 20 || raw == 32)
              && (forall i :: 0 <= i < |caps| && NamesFormat(caps[i]) ==> FormatSize(caps[i]).Some?)
              && (forall i :: FirstFormat(caps, i) ==> FormatSize(caps[i]) == Some(raw))
  {
    hide FormatSize, NamesFormat, Advertised;
    AdvertisedExact(caps);
  }

  // ----- the scan -----

  /** raw is 0 until the first ref has told the format. */
  datatype Scan = Scan(parsing: bool, raw: nat, grade: nat, oid: OID)

  const START := Scan(false, 0, 0, [])

  function Consider(s: Scan, name: bytes, hex: bytes, wanted: bytes): Result<Scan, RefError> {
    if name == [] then Err(EmptyName)
    else if Grade(name, wanted) <= s.grade then Ok(s)
    else if |hex| != 2 * s.raw then Err(BadId)
    else
      match FE.UnHex(hex)
      case None => Err(BadId)
      case Some(oid) => Ok(s.(grade := Grade(name, wanted), oid := oid))
  }

  function TrimNewline(s: bytes): bytes {
    if s != [] && s[|s| - 1] == NEWLINE then s[..|s| - 1] else s
  }

  /** The first ref line after its id: a name, a NUL and the capabilities. */
  function FirstRef(s: Scan, hex: bytes, rest: bytes, wanted: bytes,
                    split: bytes -> seq<bytes>): Result<Scan, RefError> {
    match IndexOf(rest, NUL)
    case None => Err(MalformedRef)
    case Some(nul) =>
      match ObjectFormat(split(rest[nul + 1..]), |hex|)
      case Err(e) => Err(e)
      case Ok(raw) => Consider(s.(parsing := true, raw := raw), rest[..nul], hex, wanted)
  }

  /** One line that is not empty. Splitting the capabilities at white space is a parameter. */
  function Line(s: Scan, line: bytes, wanted: bytes, split: bytes -> seq<bytes>): Result<Scan, RefError> {
    if !s.parsing && SB.HasPrefix(line, SERVICE) then Ok(s)
    else if SB.HasPrefix(line, VERSION) then Ok(s)
    else
      match IndexOf(line, SPACE)
      case None => Err(MalformedRef)
      case Some(space) =>
        if space == 0 then Err(MalformedRef)
        else
          var hex, rest := line[..space], line[space + 1..];
          if s.raw == 0 then FirstRef(s, hex, rest, wanted, split)
          else Consider(s.(parsing := true), TrimNewline(rest), hex, wanted)
  }

  function Finish(s: Scan): Result<OID, RefError> {
    if s.grade == 0 then Err(RefNotFound) else Ok(s.oid)
  }

  function Loop(stream: bytes, pos: nat, s: Scan, wanted: bytes, split: bytes -> seq<bytes>): Result<OID, RefError>
    requires pos <= |stream|
    decreases |stream| - pos
  {
    if pos == |stream| then Finish(s)
    else
      match P.Read(stream, pos)
      case Err(e) => Err(BadPkt(e))
      case Ok((Control(_), next)) => if s.parsing then Finish(s) else Loop(stream, next, s, wanted, split)
      case Ok((Data(line), next)) =>
        if line == [] then Loop(stream, next, s, wanted, split)
        else
          match Line(s, line, wanted, split)
          case Err(e) => Err(e)
          case Ok(t) => Loop(stream, next, t, wanted, split)
  }

  function Select(stream: bytes, wanted: bytes, split: bytes -> seq<bytes>): Result<OID, RefError> {
    Loop(stream, 0, START, wanted, split)
  }

  method SelectAdvertisedRef(stream: bytes, wanted: bytes, split: bytes -> seq<bytes>)
    returns (r: Result<OID, RefError>)
    ensures r == Select(stream, wanted, split)
  {
    hide P.Read, Line;
    var pos := 0;
    var s := START;
    while pos < |stream|
      invariant pos <= |stream|
      invariant Select(stream, wanted, split) == Loop(stream, pos, s, wanted, split)
      decreases |stream| - pos
    {
      var frame := P.PktRead(stream, pos);
      if frame.Err? {
        return Err(BadPkt(frame.error));
      }
      pos := frame.value.1;
      match frame.value.0 {
        case Control(_) =>
          if s.parsing {
            break;
          }
        case Data(line) =>
          if line != [] {
            var t := Line(s, line, wanted, split);
            if t.Err? {
              return Err(t.error);
            }
            s := t.value;
          }
      }
    }
    return Finish(s);
  }

  // ----- frames -----

  /** The scan over frames instead of bytes: a flush after the first ref ends it. */
  function Fold(fs: seq<P.Frame>, s: Scan, wanted: bytes, split: bytes -> seq<bytes>): Result<Scan, RefError>
    decreases |fs|
  {
    if fs == [] then Ok(s)
    else
      match fs[0]
      case Control(_) => if s.parsing then Ok(s) else Fold(fs[1..], s, wanted, split)
      case Data(line) =>
        if line == [] then Fold(fs[1..], s, wanted, split)
        else
          match Line(s, line, wanted, split)
          case Err(e) => Err(e)
          case Ok(t) => Fold(fs[1..], t, wanted, split)
  }

  lemma {:induction false} LoopIsFold(before: bytes, fs: seq<P.Frame>, s: Scan, wanted: bytes,
                                      split: bytes -> seq<bytes>)
    requires P.AllSendable(fs)
    ensures Loop(before + P.WriteAll(fs), |before|, s, wanted, split) ==
              match Fold(fs, s, wanted, split)
              case Err(e) => Err(e)
              case Ok(t) => Finish(t)
    decreases |fs|
  {
    hide P.Read, P.Write, P.Sendable, Line, Finish;
    if fs != [] {
      var w, more := P.Write(fs[0]), P.WriteAll(fs[1..]);
      P.ReadWrite(before, fs[0], more);
      P.WriteLength(fs[0]);
      Assoc(before, w, more);
      match fs[0]
      case Control(_) => LoopIsFold(before + w, fs[1..], s, wanted, split);
      case Data(line) =>
        if line == [] {
          LoopIsFold(before + w, fs[1..], s, wanted, split);
        } else if Line(s, line, wanted, split).Ok? {
          LoopIsFold(before + w, fs[1..], Line(s, line, wanted, split).value, wanted, split);
        }
    }
  }

  // ----- what a server writes -----

  datatype Ref = Ref(name: bytes, oid: OID, newline: bool)

  function FirstLine(r: Ref, caps: bytes): bytes {
    FE.Hex(r.oid) + ([SPACE] + (r.name + ([NUL] + caps)))
  }

  function OtherLine(r: Ref): bytes {
    FE.Hex(r.oid) + ([SPACE] + (r.name + if r.newline then [NEWLINE] else []))
  }

  function OtherLines(refs: seq<Ref>): seq<P.Frame> {
    seq(|refs|, i requires 0 <= i < |refs| => P.Data(OtherLine(refs[i])))
  }

  ghost predicate Writable(r: Ref, raw: nat) {
    |r.oid| == raw && r.name != [] && (r.newline || r.name[|r.name| - 1] != NEWLINE)
  }

  /** Lines that may come before the first ref. */
  predicate Preamble(f: P.Frame) {
    f.Data? && f.payload != [] ==> SB.HasPrefix(f.payload, SERVICE) || SB.HasPrefix(f.payload, VERSION)
  }

  /** The best answer in a list: of the highest grade, and the first of that grade. */
  ghost predicate Chosen(refs: seq<Ref>, wanted: bytes, i: nat) {
    && i < |refs| && Grade(refs[i].name, wanted) > 0
    && (forall j :: 0 <= j < |refs| ==> Grade(refs[j].name, wanted) <= Grade(refs[i].name, wanted))
    && (forall j :: 0 <= j < i ==> Grade(refs[j].name, wanted) < Grade(refs[i].name, wanted))
  }

  /** The scan has seen these refs. */
  ghost predicate Best(refs: seq<Ref>, wanted: bytes, s: Scan) {
    if s.grade == 0 then forall j :: 0 <= j < |refs| ==> Grade(refs[j].name, wanted) == 0
    else exists i: nat :: Chosen(refs, wanted, i) && s.oid == refs[i].oid && s.grade == Grade(refs[i].name, wanted)
  }

  lemma OneMore(refs: seq<Ref>, wanted: bytes, s: Scan, r: Ref)
    requires Best(refs, wanted, s)
    ensures Best(refs + [r], wanted,
                 if Grade(r.name, wanted) <= s.grade then s
                 else s.(grade := Grade(r.name, wanted), oid := r.oid))
  {
    hide Grade;
    var all := refs + [r];
    assert all[|refs|] == r && forall j :: 0 <= j < |refs| ==> all[j] == refs[j];
    if Grade(r.name, wanted) > s.grade {
      assert Chosen(all, wanted, |refs|);
    } else if s.grade > 0 {
      var i: nat :| Chosen(refs, wanted, i) && s.oid == refs[i].oid && s.grade == Grade(refs[i].name, wanted);
      assert Chosen(all, wanted, i);
    }
  }

  // ----- reading a written line -----

  lemma {:induction false} HexDigits(oid: OID)
    ensures forall c :: c in FE.Hex(oid) ==> P.HexValue(c).Some?
    ensures SPACE !in FE.Hex(oid)
  {
    if oid != [] {
      HexDigits(oid[1..]);
    }
  }

  /** The line is neither a version nor a service line. */
  lemma IsRefLine(oid: OID, rest: bytes)
    requires oid != []
    ensures var line := FE.Hex(oid) + ([SPACE] + rest);
            line != [] && !SB.HasPrefix(line, SERVICE) && !SB.HasPrefix(line, VERSION)
  {
    hide FE.Hex, SB.HasPrefix, P.HexValue;
    HexDigits(oid);
    assert FE.Hex(oid)[0] in FE.Hex(oid);
    NoKeyword(FE.Hex(oid), [SPACE] + rest);
  }

  /** A written line is taken apart into its id and the rest. */
  lemma LineMeans(s: Scan, oid: OID, rest: bytes, wanted: bytes, split: bytes -> seq<bytes>)
    requires oid != []
    ensures var line := FE.Hex(oid) + ([SPACE] + rest);
            && line != []
            && Line(s, line, wanted, split) ==
                 if s.raw == 0 then FirstRef(s, FE.Hex(oid), rest, wanted, split)
                 else Consider(s.(parsing := true), TrimNewline(rest), FE.Hex(oid), wanted)
  {
    hide FE.Hex, IndexOf, SB.HasPrefix, Consider, FirstRef, TrimNewline;
    HexDigits(oid);
    IsRefLine(oid, rest);
    CutAt(FE.Hex(oid), SPACE, rest);
  }

  lemma NoKeyword(hex: bytes, rest: bytes)
    requires hex != [] && P.HexValue(hex[0]).Some?
    ensures !SB.HasPrefix(hex + rest, SERVICE) && !SB.HasPrefix(hex + rest, VERSION)
  {
    var line := hex + rest;
    assert line[0] == hex[0];
    assert line[0] != SERVICE[0] && line[0] != VERSION[0];
  }

  lemma CutAt(a: bytes, b: byte, rest: bytes)
    requires b !in a
    ensures var line := a + ([b] + rest);
            IndexOf(line, b) == Some(|a|) && line[..|a|] == a && line[|a| + 1..] == rest
  {
    hide IndexOf;
    IndexOfFirst(a, b, rest);
    assert a + ([b] + rest) == a + [b] + rest;
  }

  lemma ConsiderRef(s: Scan, r: Ref, wanted: bytes)
    requires r.name != [] && |r.oid| == s.raw
    ensures Consider(s, r.name, FE.Hex(r.oid), wanted) ==
              Ok(if Grade(r.name, wanted) <= s.grade then s else s.(grade := Grade(r.name, wanted), oid := r.oid))
  {
    FE.UnHexHex(r.oid);
  }

  lemma ReadOther(s: Scan, r: Ref, wanted: bytes, split: bytes -> seq<bytes>, refs: seq<Ref>)
    requires s.parsing && s.raw > 0 && Writable(r, s.raw) && Best(refs, wanted, s)
    ensures OtherLine(r) != []
    ensures var t := Line(s, OtherLine(r), wanted, split);
            t.Ok? && t.value.parsing && t.value.raw == s.raw && Best(refs + [r], wanted, t.value)
  {
    hide Line, Consider, Grade, FE.Hex, FE.UnHex, Best;
    var rest := r.name + if r.newline then [NEWLINE] else [];
    LineMeans(s, r.oid, rest, wanted, split);
    assert TrimNewline(rest) == r.name;
    ConsiderRef(s, r, wanted);
    OneMore(refs, wanted, s, r);
  }

  lemma ReadFirst(r: Ref, caps: bytes, raw: nat, wanted: bytes, split: bytes -> seq<bytes>)
    requires raw > 0 && |r.oid| == raw && r.name != [] && NUL !in r.name
    requires ObjectFormat(split(caps), 2 * raw) == Ok(raw)
    ensures FirstLine(r, caps) != []
    ensures var t := Line(START, FirstLine(r, caps), wanted, split);
            t.Ok? && t.value.parsing && t.value.raw == raw && Best([r], wanted, t.value)
  {
    hide Line, Consider, Grade, FE.Hex, FE.UnHex, Best, IndexOf, ObjectFormat;
    LineMeans(START, r.oid, r.name + ([NUL] + caps), wanted, split);
    CutAt(r.name, NUL, caps);
    var s := START.(parsing := true, raw := raw);
    ConsiderRef(s, r, wanted);
    NoneYet(wanted, s);
    OneMore([], wanted, s, r);
    assert [] + [r] == [r];
  }

  lemma NoneYet(wanted: bytes, s: Scan)
    requires s.grade == 0
    ensures Best([], wanted, s)
  {}

  // ----- a whole advertisement -----

  ghost predicate AllWritable(refs: seq<Ref>, raw: nat) {
    forall i :: 0 <= i < |refs| ==> Writable(refs[i], raw)
  }

  /** The refs after the first, up to a flush. */
  lemma {:induction false} FoldOthers(s: Scan, seen: seq<Ref>, refs: seq<Ref>, post: seq<P.Frame>, wanted: bytes,
                                      split: bytes -> seq<bytes>)
    requires s.parsing && s.raw > 0 && AllWritable(refs, s.raw) && Best(seen, wanted, s)
    ensures var t := Fold(OtherLines(refs) + ([P.Control(0)] + post), s, wanted, split);
            t.Ok? && Best(seen + refs, wanted, t.value)
    decreases |refs|
  {
    hide Line, Best, OtherLine, Writable;
    var end := [P.Control(0)] + post;
    if refs == [] {
      assert OtherLines(refs) + end == end;
      assert seen + refs == seen;
    } else {
      var fs := OtherLines(refs) + end;
      var line := OtherLine(refs[0]);
      ReadOther(s, refs[0], wanted, split, seen);
      assert fs[0] == P.Data(line);
      assert fs[1..] == OtherLines(refs[1..]) + end;
      var t := Line(s, line, wanted, split).value;
      FoldOthers(t, seen + [refs[0]], refs[1..], post, wanted, split);
      assert seen + [refs[0]] + refs[1..] == seen + refs;
    }
  }

  lemma {:induction false} FoldPreamble(pre: seq<P.Frame>, fs: seq<P.Frame>, wanted: bytes, split: bytes -> seq<bytes>)
    requires forall i :: 0 <= i < |pre| ==> Preamble(pre[i])
    ensures Fold(pre + fs, START, wanted, split) == Fold(fs, START, wanted, split)
    decreases |pre|
  {
    if pre == [] {
      assert pre + fs == fs;
    } else {
      assert (pre + fs)[1..] == pre[1..] + fs;
      assert (pre + fs)[0] == pre[0];
      FoldPreamble(pre[1..], fs, wanted, split);
    }
  }

  /** The frames of an advertisement: what may come first, the refs, a flush, and anything. */
  function Advertisement(pre: seq<P.Frame>, refs: seq<Ref>, caps: bytes, post: seq<P.Frame>): seq<P.Frame>
    requires refs != []
  {
    pre + ([P.Data(FirstLine(refs[0], caps))] + (OtherLines(refs[1..]) + ([P.Control(0)] + post)))
  }

  /** From what a server writes, the best answer in its list is selected, and nothing if there is none. */
  lemma SelectsBest(pre: seq<P.Frame>, refs: seq<Ref>, caps: bytes, post: seq<P.Frame>, raw: nat, wanted: bytes,
                    split: bytes -> seq<bytes>)
    requires forall i :: 0 <= i < |pre| ==> Preamble(pre[i])
    requires refs != [] && raw > 0 && AllWritable(refs, raw) && NUL !in refs[0].name
    requires ObjectFormat(split(caps), 2 * raw) == Ok(raw)
    requires P.AllSendable(Advertisement(pre, refs, caps, post))
    ensures match Select(P.WriteAll(Advertisement(pre, refs, caps, post)), wanted, split)
            case Ok(oid) => exists i: nat :: Chosen(refs, wanted, i) && oid == refs[i].oid
            case Err(e) => e == RefNotFound && forall i :: 0 <= i < |refs| ==> Grade(refs[i].name, wanted) == 0
  {
    hide Line, FirstLine, Grade, ObjectFormat, P.Sendable, Chosen, Loop, P.WriteAll;
    var fs := Advertisement(pre, refs, caps, post);
    var rest := OtherLines(refs[1..]) + ([P.Control(0)] + post);
    var first := [P.Data(FirstLine(refs[0], caps))] + rest;
    FoldPreamble(pre, first, wanted, split);
    ReadFirst(refs[0], caps, raw, wanted, split);
    assert first[1..] == rest;
    var s := Line(START, FirstLine(refs[0], caps), wanted, split).value;
    FoldOthers(s, [refs[0]], refs[1..], post, wanted, split);
    assert [refs[0]] + refs[1..] == refs;
    assert [] + P.WriteAll(fs) == P.WriteAll(fs);
    LoopIsFold([], fs, START, wanted, split);
  }

  /** The first ref of that name. */
  predicate FirstNamed(refs: seq<Ref>, name: bytes, i: int) {
    0 <= i < |refs| && refs[i].name == name && forall j :: 0 <= j < i ==> refs[j].name != name
  }

  predicate Named(refs: seq<Ref>, name: bytes) {
    exists i :: 0 <= i < |refs| && refs[i].name == name
  }

  lemma HeadSpelled()
    ensures HEAD == Ascii("HEAD")
  {}

  lemma TagsSpelled()
    ensures TAGS == Ascii("refs/tags/")
  {}

  lemma HeadsSpelled()
    ensures HEADS == Ascii("refs/heads/")
  {}

  /** A branch is preferred to a tag of the same name; "HEAD" is only ever the ref HEAD itself. */
  lemma BranchBeatsTag(pre: seq<P.Frame>, refs: seq<Ref>, caps: bytes, post: seq<P.Frame>, raw: nat, wanted: bytes,
                       split: bytes -> seq<bytes>)
    requires forall i :: 0 <= i < |pre| ==> Preamble(pre[i])
    requires refs != [] && raw > 0 && AllWritable(refs, raw) && NUL !in refs[0].name
    requires ObjectFormat(split(caps), 2 * raw) == Ok(raw)
    requires P.AllSendable(Advertisement(pre, refs, caps, post))
    ensures var r := Select(P.WriteAll(Advertisement(pre, refs, caps, post)), wanted, split);
            var head, branch, tag := Ascii("HEAD"), Ascii("refs/heads/") + wanted, Ascii("refs/tags/") + wanted;
            if wanted == head then
              && (forall i :: FirstNamed(refs, head, i) ==> r == Ok(refs[i].oid))
              && (!Named(refs, head) ==> r == Err(RefNotFound))
            else
              && (forall i :: FirstNamed(refs, branch, i) ==> r == Ok(refs[i].oid))
              && (!Named(refs, branch) ==> forall i :: FirstNamed(refs, tag, i) ==> r == Ok(refs[i].oid))
              && (!Named(refs, branch) && !Named(refs, tag) ==> r == Err(RefNotFound))
  {
    HeadSpelled();
    TagsSpelled();
    HeadsSpelled();
    SelectsBest(pre, refs, caps, post, raw, wanted, split);
    BranchIsNotTag(wanted);
    hide Select, Advertisement, P.WriteAll, ObjectFormat, Ascii;
    var r := Select(P.WriteAll(Advertisement(pre, refs, caps, post)), wanted, split);
    forall i | 0 <= i < |refs| && FirstNamed(refs, if wanted == HEAD then HEAD else HEADS + wanted, i)
      ensures r == Ok(refs[i].oid)
    {
      assert Grade(refs[i].name, wanted) > 0;
      FirstIsChosen(refs, wanted, i);
    }
    forall i | FirstNamed(refs, TAGS + wanted, i) && wanted != HEAD && !Named(refs, HEADS + wanted)
      ensures r == Ok(refs[i].oid)
    {
      assert Grade(refs[i].name, wanted) > 0;
      FirstIsChosen(refs, wanted, i);
    }
  }

  lemma BranchIsNotTag(wanted: bytes)
    ensures HEADS + wanted != TAGS + wanted
  {
    assert (HEADS + wanted)[5] == HEADS[5] && (TAGS + wanted)[5] == TAGS[5];
  }

  /** The first ref of the best name there is, is the one chosen. */
  lemma FirstIsChosen(refs: seq<Ref>, wanted: bytes, i: nat)
    requires FirstNamed(refs, if wanted == HEAD then HEAD else HEADS + wanted, i)
          || (wanted != HEAD && FirstNamed(refs, TAGS + wanted, i) && !Named(refs, HEADS + wanted))
    ensures Chosen(refs, wanted, i) && forall j: nat :: Chosen(refs, wanted, j) ==> j == i
  {
    BranchIsNotTag(wanted);
    forall j | 0 <= j < |refs|
      ensures Grade(refs[j].name, wanted) <= Grade(refs[i].name, wanted)
      ensures j < i ==> Grade(refs[j].name, wanted) < Grade(refs[i].name, wanted)
    {
    }
  }

  // ----- lines that end the scan -----

  lemma KeywordsSpelled()
    ensures SERVICE == Ascii("# service=git-upload-pack") && VERSION == Ascii("version ")
    ensures FORMAT == Ascii("object-format=") && SHA1 == Ascii("sha1") && SHA256 == Ascii("sha256")
  {
    assert |SERVICE| == |"# service=git-upload-pack"|;
  }

  /** A line of a service or a protocol version says nothing about refs. */
  predicate Keyword(s: Scan, line: bytes) {
    SB.HasPrefix(line, Ascii("version ")) || (!s.parsing && SB.HasPrefix(line, Ascii("# service=git-upload-pack")))
  }

  /** The line is the text of an id, a space, and something more. */
  predicate Cut(line: bytes, hex: bytes, rest: bytes) {
    hex != [] && 0x20 !in hex && line == hex + ([0x20] + rest)
  }

  lemma CutMeans(s: Scan, line: bytes, hex: bytes, rest: bytes, wanted: bytes, split: bytes -> seq<bytes>)
    requires Cut(line, hex, rest) && !Keyword(s, line)
    ensures Line(s, line, wanted, split) ==
              if s.raw == 0 then FirstRef(s, hex, rest, wanted, split)
              else Consider(s.(parsing := true), TrimNewline(rest), hex, wanted)
  {
    KeywordsSpelled();
    hide IndexOf, SB.HasPrefix, Consider, FirstRef, TrimNewline;
    CutAt(hex, SPACE, rest);
  }

  /** After the first ref, a line without a name ends the scan, and so does a better name without a proper id. */
  lemma LaterLine(s: Scan, line: bytes, hex: bytes, rest: bytes, wanted: bytes, split: bytes -> seq<bytes>)
    requires s.parsing && s.raw > 0 && Cut(line, hex, rest) && !Keyword(s, line)
    ensures var r, name := Line(s, line, wanted, split), TrimNewline(rest);
            && (name == [] ==> r == Err(EmptyName))
            && (name != [] && Grade(name, wanted) <= s.grade ==> r == Ok(s))
            && (name != [] && Grade(name, wanted) > s.grade ==>
                  && (forall oid :: |oid| == s.raw && FE.Spells(hex, oid) ==>
                        r == Ok(s.(grade := Grade(name, wanted), oid := oid)))
                  && ((forall oid :: |oid| == s.raw ==> !FE.Spells(hex, oid)) ==> r == Err(BadId)))
  {
    CutMeans(s, line, hex, rest, wanted, split);
    hide Line, Grade, FE.UnHex, FE.Spells;
    forall oid
      ensures FE.UnHex(hex) == Some(oid) <==> FE.Spells(hex, oid)
    {
      FE.UnHexExact(hex, oid);
    }
    if |hex| == 2 * s.raw && FE.UnHex(hex).Some? {
      assert FE.Spells(hex, FE.UnHex(hex).value);
      SpellsLength(hex, FE.UnHex(hex).value);
    }
  }

  lemma SpellsLength(hex: bytes, oid: OID)
    requires FE.Spells(hex, oid)
    ensures |hex| == 2 * |oid|
  {}

  /** A line without an id, at any time, and a first ref without capabilities or a name, end the scan. */
  lemma BrokenLine(s: Scan, line: bytes, wanted: bytes, split: bytes -> seq<bytes>)
    requires line != [] && !Keyword(s, line)
    ensures 0x20 !in line || line[0] == 0x20 ==> Line(s, line, wanted, split) == Err(MalformedRef)
    ensures s.raw == 0 ==> forall hex, rest :: Cut(line, hex, rest) && 0 !in rest ==>
              Line(s, line, wanted, split) == Err(MalformedRef)
    ensures s.raw == 0 ==> forall hex, caps :: Cut(line, hex, [0] + caps) && ObjectFormat(split(caps), |hex|).Ok? ==>
              Line(s, line, wanted, split) == Err(EmptyName)
  {
    KeywordsSpelled();
    forall hex, rest | Cut(line, hex, rest) && s.raw == 0 && 0 !in rest
      ensures Line(s, line, wanted, split) == Err(MalformedRef)
    {
      CutMeans(s, line, hex, rest, wanted, split);
    }
    forall hex, caps | Cut(line, hex, [0] + caps) && s.raw == 0 && ObjectFormat(split(caps), |hex|).Ok?
      ensures Line(s, line, wanted, split) == Err(EmptyName)
    {
      CutMeans(s, line, hex, [0] + caps, wanted, split);
      NoName(s, hex, caps, wanted, split);
    }
  }

  /** Such a line where the first ref should be makes the whole advertisement fail. */
  lemma BrokenAdvertisement(pre: seq<P.Frame>, line: bytes, post: seq<P.Frame>, wanted: bytes,
                            split: bytes -> seq<bytes>)
    requires forall i :: 0 <= i < |pre| ==> Preamble(pre[i])
    requires P.AllSendable(pre + ([P.Data(line)] + post)) && line != [] && Line(START, line, wanted, split).Err?
    ensures Select(P.WriteAll(pre + ([P.Data(line)] + post)), wanted, split)
         == Err(Line(START, line, wanted, split).error)
  {
    hide Line, P.AllSendable, Loop, P.WriteAll;
    var fs := pre + ([P.Data(line)] + post);
    LoopIsFold([], fs, START, wanted, split);
    assert [] + P.WriteAll(fs) == P.WriteAll(fs);
    FoldPreamble(pre, [P.Data(line)] + post, wanted, split);
  }

  lemma NoName(s: Scan, hex: bytes, caps: bytes, wanted: bytes, split: bytes -> seq<bytes>)
    requires ObjectFormat(split(caps), |hex|).Ok?
    ensures FirstRef(s, hex, [0] + caps, wanted, split) == Err(EmptyName)
  {
    hide ObjectFormat;
    assert ([0] + caps)[1..] == caps;
  }

  /** With distinct names, the order in which the server lists its refs does not matter. */
  lemma OrderDoesNotMatter(a: seq<Ref>, b: seq<Ref>, wanted: bytes, i: nat, j: nat)
    requires multiset(a) == multiset(b)
    requires forall m, n :: 0 <= m < |a| && 0 <= n < |a| && a[m].name == a[n].name ==> m == n
    requires Chosen(a, wanted, i) && Chosen(b, wanted, j)
    ensures a[i] == b[j]
  {
    assert a[i] in multiset(b) && b[j] in multiset(a);
    var j' :| 0 <= j' < |b| && b[j'] == a[i];
    var i' :| 0 <= i' < |a| && a[i'] == b[j];
    assert Grade(a[i].name, wanted) == Grade(b[j].name, wanted);
    SameGradeSameName(a[i].name, a[i'].name, wanted);
  }

  lemma SameGradeSameName(m: bytes, n: bytes, wanted: bytes)
    requires Grade(m, wanted) == Grade(n, wanted) > 0
    ensures m == n
  {}

  // ----- cloning by name -----

  datatype RunError = BadRef(error: RefError) | BadClone(cause: FE.CloneError)

  /** What a whole run did: without a ref nothing, and with one a clone of its id, in the format of that id. */
  ghost predicate ClonedByName(codecs: nat -> PF.Codec, advertisement: bytes, name: bytes, split: bytes -> seq<bytes>,
                               response: bytes, rank: OID -> nat, outDir: F.Path,
                               before: F.Tree, after: F.Tree, r: Result<nat, RunError>)
    requires forall raw, s :: FE.Describes(codecs(raw), response, s) ==> CO.Acyclic(s, codecs(raw).raw, rank)
  {
    match Select(advertisement, name, split)
    case Err(e) => r == Err(BadRef(e)) && after == before
    case Ok(wanted) =>
      && !(r.Err? && r.error.BadRef?)
      && FE.Cloned(codecs(|wanted|), response, wanted, rank, outDir, before, after,
                   if r.Ok? then Ok(r.value) else Err(r.error.cause))
  }

  /** Clone: the ref first, then all that depends on it. The format of its id decides how packs are read. */
  method CloneRef(codecs: nat -> PF.Codec, advertisement: bytes, name: bytes, split: bytes -> seq<bytes>,
                  response: bytes, ghost rank: OID -> nat, outDir: F.Path, fs: F.FileSystem)
    returns (r: Result<nat, RunError>)
    requires forall raw, s :: FE.Describes(codecs(raw), response, s) ==> CO.Acyclic(s, codecs(raw).raw, rank)
    modifies fs
    ensures ClonedByName(codecs, advertisement, name, split, response, rank, outDir, old(fs.nodes), fs.nodes, r)
  {
    hide FE.Describes, CO.Acyclic, FE.Cloned, Loop;
    var selected := SelectAdvertisedRef(advertisement, name, split);
    if selected.Err? {
      return Err(BadRef(selected.error));
    }
    var wanted := selected.value;
    var files := FE.Clone(codecs(|wanted|), response, wanted, rank, outDir, fs);
    if files.Err? {
      return Err(BadClone(files.error));
    }
    return Ok(files.value);
  }
}
