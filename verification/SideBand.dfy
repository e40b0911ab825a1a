/** Taking the pack out of an upload-pack response (protocol.go, extractPack). */
module SideBand {
  import opened Wrappers
  import opened Bytes
  import P = PktLine

  const ERR: bytes := [0x45, 0x52, 0x52, 0x20]

  datatype ExtractError = BadPkt(error: P.PktError) | Remote(message: bytes) | NoPack

  predicate HasPrefix(s: bytes, prefix: bytes) {
    |s| >= |prefix| && s[..|prefix|] == prefix
  }

  /** What has been collected, and whether a pack has been seen. */
  datatype State = State(out: bytes, saw: bool)

  /** One line of the response: band 1 is pack data, band 2 progress, band 3 a fatal error. */
  function Line(s: State, line: bytes): Result<State, ExtractError> {
    if line == [] then Ok(s)
    else if line[0] == 1 then
      if |line| > 1 then
        var out := s.out + line[1..];
        Ok(State(out, s.saw || HasPrefix(out, PACK)))
      else Ok(s)
    else if line[0] == 2 then Ok(s)
    else if line[0] == 3 then Err(Remote(line[1..]))
    else if HasPrefix(line, ERR) then Err(Remote(line[4..]))
    else if HasPrefix(line, PACK) then Ok(State(s.out + line, true))
    else Ok(s)
  }

  function Finish(s: State): Result<bytes, ExtractError> {
    if s.saw && HasPrefix(s.out, PACK) then Ok(s.out) else Err(NoPack)
  }

  function Loop(response: bytes, pos: nat, s: State): Result<bytes, ExtractError>
    requires pos <= |response|
    decreases |response| - pos
  {
    if pos == |response| then Finish(s)
    else if HasPrefix(response[pos..], PACK) then Finish(State(s.out + response[pos..], true))
    else match P.Read(response, pos)
      case Err(e) => Err(BadPkt(e))
      case Ok((Control(_), next)) => Loop(response, next, s)
      case Ok((Data(line), next)) =>
        match Line(s, line)
        case Err(e) => Err(e)
        case Ok(t) => Loop(response, next, t)
  }

  function Extract(response: bytes): Result<bytes, ExtractError> {
    Loop(response, 0, State([], false))
  }

  method ExtractPack(response: bytes) returns (r: Result<bytes, ExtractError>)
    ensures r == Extract(response)
  {
    hide P.Read, Line;
    var s := State([], false);
    var pos := 0;
    while pos < |response|
      invariant pos <= |response|
      invariant Extract(response) == Loop(response, pos, s)
      decreases |response| - pos
    {
      if HasPrefix(response[pos..], PACK) {
        return Finish(State(s.out + response[pos..], true));
      }
      var frame := P.PktRead(response, pos);
      if frame.Err? {
        return Err(BadPkt(frame.error));
      }
      pos := frame.value.1;
      if frame.value.0.Control? {
        continue;
      }
      var t := Line(s, frame.value.0.payload);
      if t.Err? {
        return Err(t.error);
      }
      s := t.value;
    }
    return Finish(s);
  }

  // ----- independence of the framing -----

  /** All lines of a response, one after another. */
  function Demux(fs: seq<P.Frame>, s: State): Result<State, ExtractError>
    decreases |fs|
  {
    if fs == [] then Ok(s)
    else if fs[0].Control? then Demux(fs[1..], s)
    else match Line(s, fs[0].payload)
      case Err(e) => Err(e)
      case Ok(t) => Demux(fs[1..], t)
  }

  /** Frames, and then perhaps a pack with no framing at all. */
  lemma {:induction false} LoopIsDemux(before: bytes, fs: seq<P.Frame>, tail: bytes, s: State)
    requires P.AllSendable(fs) && (tail == [] || HasPrefix(tail, PACK))
    ensures Loop(before + P.WriteAll(fs) + tail, |before|, s) ==
              match Demux(fs, s)
              case Err(e) => Err(e)
              case Ok(t) => if tail == [] then Finish(t) else Finish(State(t.out + tail, true))
    decreases |fs|
  {
    hide P.Read, P.Write, P.Sendable, Line, Finish;
    if fs == [] {
      assert before + P.WriteAll(fs) + tail == before + tail;
      assert (before + tail)[|before|..] == tail;
    } else {
      hide HasPrefix;
      var w, more := P.Write(fs[0]), P.WriteAll(fs[1..]);
      FirstFrame(before, w, more, tail);
      P.ReadWrite(before, fs[0], more + tail);
      NotPack(before, fs[0], more + tail);
      match fs[0]
      case Control(_) => LoopIsDemux(before + w, fs[1..], tail, s);
      case Data(line) =>
        if Line(s, line).Ok? {
          LoopIsDemux(before + w, fs[1..], tail, Line(s, line).value);
        }
    }
  }

  lemma FirstFrame(before: bytes, w: bytes, more: bytes, tail: bytes)
    ensures before + (w + more) + tail == before + w + (more + tail)
    ensures before + (w + more) + tail == (before + w) + more + tail
  {}

  /** A frame starts with a hex digit, so it is never taken for a bare pack. */
  lemma NotPack(before: bytes, f: P.Frame, rest: bytes)
    requires P.Sendable(f)
    ensures var response := before + P.Write(f) + rest;
            |before| < |response| && !HasPrefix(response[|before|..], PACK)
  {
    hide P.Write;
    P.WriteLength(f);
    var response := before + P.Write(f) + rest;
    Slices(before, P.Write(f), rest);
    assert response[|before|..][0] == P.Write(f)[0];
    assert P.HexValue(0x50).None?;
  }

  /** A line that neither ends the transfer nor puts pack data outside band 1. */
  predicate Quiet(f: P.Frame) {
    f.Data? && f.payload != [] && f.payload[0] != 1 ==>
      f.payload[0] != 3 && !HasPrefix(f.payload, ERR) && !HasPrefix(f.payload, PACK)
  }

  function Band1(fs: seq<P.Frame>): bytes
    decreases |fs|
  {
    if fs == [] then []
    else
      (if fs[0].Data? && fs[0].payload != [] && fs[0].payload[0] == 1 then fs[0].payload[1..] else [])
      + Band1(fs[1..])
  }

  predicate AllQuiet(fs: seq<P.Frame>) {
    forall i :: 0 <= i < |fs| ==> Quiet(fs[i])
  }

  lemma {:induction false} DemuxBand1(fs: seq<P.Frame>, out: bytes)
    requires AllQuiet(fs)
    ensures Demux(fs, State(out, HasPrefix(out, PACK)))
         == Ok(State(out + Band1(fs), HasPrefix(out + Band1(fs), PACK)))
    decreases |fs|
  {
    if fs == [] {
      assert out + [] == out;
    } else {
      assert Quiet(fs[0]);
      var more := if fs[0].Data? && fs[0].payload != [] && fs[0].payload[0] == 1 then fs[0].payload[1..] else [];
      DemuxBand1(fs[1..], out + more);
      assert more == [] ==> out + more == out;
      PrefixGrows(out, more);
      Assoc(out, more, Band1(fs[1..]));
    }
  }

  lemma PrefixGrows(out: bytes, more: bytes)
    ensures HasPrefix(out, PACK) ==> HasPrefix(out + more, PACK)
  {
    if HasPrefix(out, PACK) {
      assert (out + more)[..4] == out[..4];
    }
  }

  /**
   * However a server cuts a stream into band-1 packets, and whatever progress, flush, NAK or shallow
   * lines it puts between them, the result is the stream itself if it starts like a pack, and
   * otherwise that there is no pack.
   */
  lemma FramedExtract(fs: seq<P.Frame>)
    requires P.AllSendable(fs) && AllQuiet(fs)
    ensures Extract(P.WriteAll(fs)) == if HasPrefix(Band1(fs), PACK) then Ok(Band1(fs)) else Err(NoPack)
  {
    hide Loop, Demux, Band1, P.WriteAll;
    LoopIsDemux([], fs, [], State([], false));
    assert [] + P.WriteAll(fs) + [] == P.WriteAll(fs);
    DemuxBand1(fs, []);
    assert [] + Band1(fs) == Band1(fs);
  }

  /** The framed and the bare form of a pack give the same result. */
  lemma BareExtract(fs: seq<P.Frame>, pack: bytes)
    requires P.AllSendable(fs) && AllQuiet(fs) && Band1(fs) == [] && HasPrefix(pack, PACK)
    ensures Extract(P.WriteAll(fs) + pack) == Ok(pack)
  {
    hide Loop, Demux, Band1, P.WriteAll;
    LoopIsDemux([], fs, pack, State([], false));
    assert [] + P.WriteAll(fs) == P.WriteAll(fs);
    DemuxBand1(fs, []);
    assert [] + [] + pack == pack;
  }

  // ----- lines outside band 1 -----

  /** A line that does not end the transfer. */
  predicate Harmless(f: P.Frame) {
    f.Data? && f.payload != [] ==>
      f.payload[0] != 3 && (f.payload[0] == 1 || f.payload[0] == 2 || !HasPrefix(f.payload, Ascii("ERR ")))
  }

  /** Band 1, and lines that start with "PACK" outside any band. */
  function Part(f: P.Frame): bytes {
    if !f.Data? || f.payload == [] then []
    else if f.payload[0] == 1 then f.payload[1..]
    else if HasPrefix(f.payload, Ascii("PACK")) then f.payload
    else []
  }

  function Collected(fs: seq<P.Frame>): bytes
    decreases |fs|
  {
    if fs == [] then [] else Part(fs[0]) + Collected(fs[1..])
  }

  lemma Spelled()
    ensures PACK == Ascii("PACK") && ERR == Ascii("ERR ")
  {}

  lemma {:induction false} DemuxCollected(fs: seq<P.Frame>, s: State)
    requires (forall i :: 0 <= i < |fs| ==> Harmless(fs[i])) && (HasPrefix(s.out, PACK) ==> s.saw)
    ensures var t := Demux(fs, s);
            t.Ok? && t.value.out == s.out + Collected(fs) && (HasPrefix(t.value.out, PACK) ==> t.value.saw)
    decreases |fs|
  {
    Spelled();
    hide Ascii;
    if fs == [] {
      assert s.out + [] == s.out;
    } else {
      assert Harmless(fs[0]);
      assert forall i :: 0 <= i < |fs[1..]| ==> fs[1..][i] == fs[i + 1];
      var t := if fs[0].Control? then s else Line(s, fs[0].payload).value;
      var part := Part(fs[0]);
      assert t.out == s.out + part;
      DemuxCollected(fs[1..], t);
      Assoc(s.out, part, Collected(fs[1..]));
    }
  }

  /** Without a fatal line, what is extracted is all that was collected, if it starts like a pack. */
  lemma AnyExtract(fs: seq<P.Frame>)
    requires P.AllSendable(fs) && forall i :: 0 <= i < |fs| ==> Harmless(fs[i])
    ensures Extract(P.WriteAll(fs)) ==
              if HasPrefix(Collected(fs), Ascii("PACK")) then Ok(Collected(fs)) else Err(NoPack)
  {
    Spelled();
    hide Loop, Demux, Collected, P.WriteAll, Ascii, Harmless;
    LoopIsDemux([], fs, [], State([], false));
    assert [] + P.WriteAll(fs) + [] == P.WriteAll(fs);
    DemuxCollected(fs, State([], false));
    assert [] + Collected(fs) == Collected(fs);
  }

  /** Frames that do not end the transfer are passed over, whatever comes after them. */
  lemma {:induction false} LoopSkips(before: bytes, fs: seq<P.Frame>, tail: bytes, s: State)
    requires P.AllSendable(fs) && Demux(fs, s).Ok?
    ensures Loop(before + P.WriteAll(fs) + tail, |before|, s)
         == Loop(before + P.WriteAll(fs) + tail, |before + P.WriteAll(fs)|, Demux(fs, s).value)
    decreases |fs|
  {
    hide P.Read, P.Write, P.Sendable, Line, Finish;
    if fs == [] {
      assert before + [] == before;
    } else {
      hide HasPrefix;
      var w, more := P.Write(fs[0]), P.WriteAll(fs[1..]);
      FirstFrame(before, w, more, tail);
      Assoc(before, w, more);
      P.ReadWrite(before, fs[0], more + tail);
      NotPack(before, fs[0], more + tail);
      var t := if fs[0].Control? then s
               else Line(s, fs[0].payload).value;
      LoopSkips(before + w, fs[1..], tail, t);
    }
  }

  /** The first line in band 3, or the first that starts with "ERR ", ends extraction with its message. */
  lemma FatalLine(fs: seq<P.Frame>, message: bytes, banded: bool, rest: bytes)
    requires P.AllSendable(fs) && forall i :: 0 <= i < |fs| ==> Harmless(fs[i])
    requires var line := (if banded then [3] else Ascii("ERR ")) + message; P.Sendable(P.Data(line))
    ensures var line := (if banded then [3] else Ascii("ERR ")) + message;
            Extract(P.WriteAll(fs) + P.Write(P.Data(line)) + rest) == Err(Remote(message))
  {
    var line := (if banded then [3] else Ascii("ERR ")) + message;
    DemuxCollected(fs, State([], false));
    LineIsFatal(Demux(fs, State([], false)).value, message, banded);
    hide Demux, Harmless, P.Sendable, P.WriteAll, P.Write, Ascii, Line;
    StopsAt(fs, line, message, rest);
  }

  lemma StopsAt(fs: seq<P.Frame>, line: bytes, message: bytes, rest: bytes)
    requires P.AllSendable(fs) && P.Sendable(P.Data(line)) && line != []
    requires Demux(fs, State([], false)).Ok?
    requires Line(Demux(fs, State([], false)).value, line) == Err(Remote(message))
    ensures Extract(P.WriteAll(fs) + P.Write(P.Data(line)) + rest) == Err(Remote(message))
  {
    hide P.Read, P.Write, P.WriteAll, Line, Demux, HasPrefix, P.Sendable;
    var w, f := P.WriteAll(fs), P.Write(P.Data(line));
    LoopSkips([], fs, f + rest, State([], false));
    assert [] + w == w;
    Assoc(w, f, rest);
    P.ReadWrite(w, P.Data(line), rest);
    NotPack(w, P.Data(line), rest);
  }

  lemma LineIsFatal(t: State, message: bytes, banded: bool)
    ensures Line(t, (if banded then [3] else Ascii("ERR ")) + message) == Err(Remote(message))
  {
    Spelled();
    var head := if banded then [3] else ERR;
    var line := head + message;
    assert line[0] == head[0] && line[..|head|] == head && line[|head|..] == message;
  }
}
