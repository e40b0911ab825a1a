/**
 * Cutting the probe's output into frames (ssh-auto-port, probe.rs). Data arrives in chunks; a frame
 * ends at a marker, and a line end after the marker is dropped if it has already arrived.
 */
module ProbeFrames {
  import opened Wrappers
  import opened Bytes

  const CR: byte := 0x0d
  const LF: byte := 0x0a
  // "---SYNC---"
  const MARKER: bytes := [0x2d, 0x2d, 0x2d, 0x53, 0x59, 0x4e, 0x43, 0x2d, 0x2d, 0x2d]
  const MAX_PROBE_FRAME_BYTES := 1024 * 1024

  /** What the channel delivers: output, something to ignore, or the end (closed, exited, timed out). */
  datatype Message = Data(data: bytes) | Ignored | Ended

  datatype ProbeError = Oversized | Dead

  // ----- finding the marker -----

  predicate MarkerAt(buf: bytes, i: nat) {
    i + |MARKER| <= |buf| && buf[i..i + |MARKER|] == MARKER
  }

  lemma MarkerSpelled(buf: bytes, i: nat)
    ensures MarkerAt(buf, i) <==> i + 10 <= |buf| && buf[i..i + 10] == Ascii("---SYNC---")
  {
    assert MARKER == Ascii("---SYNC---");
  }

  /** The first position of the marker. */
  function Find(buf: bytes): (r: Option<nat>)
    ensures r.Some? ==> MarkerAt(buf, r.value) && forall i :: 0 <= i < r.value ==> !MarkerAt(buf, i)
    ensures r.None? ==> forall i :: 0 <= i <= |buf| ==> !MarkerAt(buf, i)
  {
    FindFrom(buf, 0)
  }

  function FindFrom(buf: bytes, i: nat): (r: Option<nat>)
    requires i <= |buf|
    ensures r.Some? ==> i <= r.value && MarkerAt(buf, r.value) && forall j :: i <= j < r.value ==> !MarkerAt(buf, j)
    ensures r.None? ==> forall j :: i <= j <= |buf| ==> !MarkerAt(buf, j)
    decreases |buf| - i
  {
    if MarkerAt(buf, i) then Some(i)
    else if i == |buf| then None
    else FindFrom(buf, i + 1)
  }

  lemma FindIs(buf: bytes, p: nat)
    requires MarkerAt(buf, p) && forall i :: 0 <= i < p ==> !MarkerAt(buf, i)
    ensures Find(buf) == Some(p)
  {
    var r := Find(buf);
    assert p <= |buf|;
    hide MarkerAt, Find;
    assert r.Some?;
    assert !(r.value < p) && !(p < r.value);
  }

  /** More data does not move a marker that has been found. */
  lemma FindStable(buf: bytes, more: bytes)
    requires Find(buf).Some?
    ensures Find(buf + more) == Find(buf)
  {
    var p := Find(buf).value;
    MarkerMoves(buf, more, p);
    forall i | 0 <= i < p
      ensures !MarkerAt(buf + more, i)
    {
      MarkerMoves(buf, more, i);
    }
    FindIs(buf + more, p);
  }

  lemma MarkerMoves(buf: bytes, more: bytes, i: nat)
    requires i + |MARKER| <= |buf|
    ensures MarkerAt(buf + more, i) <==> MarkerAt(buf, i)
  {
    assert (buf + more)[i..i + |MARKER|] == buf[i..i + |MARKER|];
  }

  /** A line end, or part of one. */
  predicate LineEnd(p: bytes) {
    p == [] || p == [CR] || p == [LF] || p == [CR, LF]
  }

  /** A line end in front is never part of a marker. */
  lemma FindAfterLineEnd(p: bytes, buf: bytes)
    requires LineEnd(p) && Find(buf).Some?
    ensures Find(p + buf) == Some(|p| + Find(buf).value)
  {
    var q := Find(buf).value;
    ShiftedWindow(p, buf, q, |MARKER|);
    forall i | 0 <= i < |p| + q
      ensures !MarkerAt(p + buf, i)
    {
      NoMarkerBefore(p, buf, q, i);
    }
    FindIs(p + buf, |p| + q);
  }

  lemma ShiftedWindow(p: bytes, buf: bytes, i: nat, n: nat)
    requires i + n <= |buf|
    ensures (p + buf)[|p| + i..|p| + i + n] == buf[i..i + n]
  {}

  lemma NoMarkerBefore(p: bytes, buf: bytes, q: nat, i: nat)
    requires LineEnd(p) && i < |p| + q && forall j :: 0 <= j < q ==> !MarkerAt(buf, j)
    ensures !MarkerAt(p + buf, i)
  {
    if i + |MARKER| <= |p + buf| {
      if i < |p| {
        assert (p + buf)[i..i + |MARKER|][0] == p[i] != MARKER[0];
      } else {
        ShiftedWindow(p, buf, i - |p|, |MARKER|);
        assert !MarkerAt(buf, i - |p|);
      }
    }
  }

  lemma NoneAfterLineEnd(p: bytes, buf: bytes)
    requires LineEnd(p) && Find(buf).None?
    ensures Find(p + buf).None?
  {
    forall i: nat | i <= |p| + |buf|
      ensures !MarkerAt(p + buf, i)
    {
      NoMarkerBefore(p, buf, |buf| + 1, i);
    }
  }

  // ----- reading frames -----

  /** How much of a line end there is after the marker. */
  function Skip(buf: bytes, end: nat): (p: bytes)
    requires end <= |buf|
    ensures LineEnd(p) && end + |p| <= |buf| && buf[end..end + |p|] == p
  {
    var cr := end < |buf| && buf[end] == CR;
    var mid := if cr then end + 1 else end;
    var lf := mid < |buf| && buf[mid] == LF;
    var p := (if cr then [CR] else []) + (if lf then [LF] else []);
    assert buf[end..end + |p|] == p;
    p
  }

  /** One call of read_frame: the frame or the error, and what is left. */
  datatype Reading = Reading(frame: Result<bytes, ProbeError>, buf: bytes, inbox: seq<Message>)

  function Read(buf: bytes, inbox: seq<Message>): (r: Reading)
    ensures r.frame.Ok? ==> |r.buf| + Size(r.inbox) < |buf| + Size(inbox)
    decreases |inbox|
  {
    match Find(buf)
    case Some(p) =>
      var end := p + |MARKER|;
      Reading(Ok(buf[..p]), buf[end + |Skip(buf, end)|..], inbox)
    case None =>
      if inbox == [] then Reading(Err(Dead), buf, inbox)
      else match inbox[0]
        case Ended => Reading(Err(Dead), buf, inbox[1..])
        case Ignored => Read(buf, inbox[1..])
        case Data(data) =>
          if |buf| + |data| > MAX_PROBE_FRAME_BYTES then Reading(Err(Oversized), buf, inbox[1..])
          else Read(buf + data, inbox[1..])
  }

  /** The bytes still to come. */
  function Size(inbox: seq<Message>): nat {
    if inbox == [] then 0 else (if inbox[0].Data? then |inbox[0].data| else 0) + Size(inbox[1..])
  }

  /** All frames until reading fails, and how it fails. */
  function Frames(buf: bytes, inbox: seq<Message>): (seq<bytes>, ProbeError)
    decreases |buf| + Size(inbox)
  {
    var r := Read(buf, inbox);
    match r.frame
    case Err(e) => ([], e)
    case Ok(frame) =>
      var (more, e) := Frames(r.buf, r.inbox);
      ([frame] + more, e)
  }

  /** The buffer and the channel of one probe. */
  class Probe {
    var buf: bytes
    var inbox: seq<Message>

    constructor (inbox: seq<Message>)
      ensures buf == [] && this.inbox == inbox
    {
      buf, this.inbox := [], inbox;
    }

    /** append_probe_data */
    method Append(data: bytes) returns (ok: bool)
      modifies this`buf
      ensures ok <==> |old(buf)| + |data| <= MAX_PROBE_FRAME_BYTES
      ensures buf == if ok then old(buf) + data else old(buf)
    {
      if |buf| + |data| > MAX_PROBE_FRAME_BYTES {
        return false;
      }
      buf := buf + data;
      return true;
    }

    method ReadFrame() returns (r: Result<bytes, ProbeError>)
      modifies this
      ensures Reading(r, buf, inbox) == Read(old(buf), old(inbox))
    {
      hide Find, Skip;
      while true
        invariant Read(buf, inbox) == Read(old(buf), old(inbox))
        decreases |inbox|
      {
        var pos := Find(buf);
        if pos.Some? {
          var frame := buf[..pos.value];
          var end := pos.value + |MARKER|;
          var skipped := Skip(buf, end);
          buf := buf[end + |skipped|..];
          return Ok(frame);
        }
        if inbox == [] {
          return Err(Dead);
        }
        var msg := inbox[0];
        inbox := inbox[1..];
        match msg {
          case Data(data) =>
            var ok := Append(data);
            if !ok {
              return Err(Oversized);
            }
          case Ignored =>
          case Ended => return Err(Dead);
        }
      }
    }
  }

  // ----- the stream behind the chunks -----

  /** All output up to the end of the channel. */
  function Stream(inbox: seq<Message>): bytes {
    if inbox == [] || inbox[0].Ended? then []
    else (if inbox[0].Data? then inbox[0].data else []) + Stream(inbox[1..])
  }

  /** The parts of a stream that markers end. */
  function Segments(stream: bytes): seq<bytes>
    decreases |stream|
  {
    match Find(stream)
    case None => []
    case Some(p) => [stream[..p]] + Segments(stream[p + |MARKER|..])
  }

  /** Each frame is its segment, but for a line end in front that has been dropped. */
  ghost predicate Match(frames: seq<bytes>, segments: seq<bytes>) {
    && |frames| <= |segments|
    && forall i :: 0 <= i < |frames| ==> exists p :: LineEnd(p) && segments[i] == p + frames[i]
  }

  /** What one read_frame does to the stream that buffer and channel stand for. */
  lemma {:induction false} ReadMatches(p: bytes, buf: bytes, inbox: seq<Message>)
    requires LineEnd(p)
    ensures var r := Read(buf, inbox);
            var stream := p + buf + Stream(inbox);
            && (r.frame.Ok? ==> exists q ::
                  && LineEnd(q)
                  && Find(stream) == Some(|p| + |r.frame.value|)
                  && stream == p + r.frame.value + MARKER + (q + r.buf + Stream(r.inbox)))
            && (r.frame == Err(Dead) ==> Find(stream).None?)
    decreases |inbox|
  {
    hide Find, Skip;
    if Find(buf).Some? {
      FoundInBuffer(p, buf, Stream(inbox));
      var end := Find(buf).value + |MARKER|;
      assert LineEnd(Skip(buf, end));
    } else if inbox == [] || inbox[0].Ended? {
      assert p + buf + [] == p + buf;
      NoneAfterLineEnd(p, buf);
    } else {
      var data := if inbox[0].Data? then inbox[0].data else [];
      assert p + buf + (data + Stream(inbox[1..])) == p + (buf + data) + Stream(inbox[1..]);
      assert buf + [] == buf;
      ReadMatches(p, buf + data, inbox[1..]);
    }
  }

  lemma FoundInBuffer(p: bytes, buf: bytes, rest: bytes)
    requires LineEnd(p) && Find(buf).Some?
    ensures var f := Find(buf).value;
            var q := Skip(buf, f + |MARKER|);
            && Find(p + buf + rest) == Some(|p| + f)
            && p + buf + rest == p + buf[..f] + MARKER + (q + buf[f + |MARKER| + |q|..] + rest)
  {
    hide Find, Skip;
    var f := Find(buf).value;
    var q := Skip(buf, f + |MARKER|);
    FindAfterLineEnd(p, buf);
    FindStable(p + buf, rest);
    CutMarker(buf, f, q);
    Regroup(p, buf[..f], MARKER, q, buf[f + |MARKER| + |q|..], rest);
  }

  lemma CutMarker(buf: bytes, f: nat, q: bytes)
    requires MarkerAt(buf, f)
    requires f + |MARKER| + |q| <= |buf| && buf[f + |MARKER|..f + |MARKER| + |q|] == q
    ensures buf == buf[..f] + MARKER + (q + buf[f + |MARKER| + |q|..])
  {
    var a, b := f + |MARKER|, f + |MARKER| + |q|;
    assert buf == buf[..f] + buf[f..a] + (buf[a..b] + buf[b..]);
  }

  lemma Regroup(p: bytes, a: bytes, m: bytes, q: bytes, t: bytes, rest: bytes)
    ensures p + (a + m + (q + t)) + rest == p + a + m + (q + t + rest)
  {}

  /** The frames are the segments of the stream, whatever the chunks; a dead channel leaves none out. */
  lemma {:induction false} FramesMatch(p: bytes, buf: bytes, inbox: seq<Message>)
    requires LineEnd(p)
    ensures Match(Frames(buf, inbox).0, Segments(p + buf + Stream(inbox)))
    ensures Frames(buf, inbox).1 == Dead ==> |Frames(buf, inbox).0| == |Segments(p + buf + Stream(inbox))|
    decreases |buf| + Size(inbox)
  {
    hide Find, Read, LineEnd;
    var stream := p + buf + Stream(inbox);
    var r := Read(buf, inbox);
    ReadMatches(p, buf, inbox);
    if r.frame.Ok? {
      var f := r.frame.value;
      var q :| LineEnd(q) && Find(stream) == Some(|p| + |f|)
            && stream == p + f + MARKER + (q + r.buf + Stream(r.inbox));
      var rest := q + r.buf + Stream(r.inbox);
      assert stream[..|p| + |f|] == p + f;
      assert stream[|p| + |f| + |MARKER|..] == rest;
      assert Segments(stream) == [p + f] + Segments(rest);
      FramesMatch(q, r.buf, r.inbox);
      MatchCons(p, f, Frames(r.buf, r.inbox).0, Segments(rest));
    }
  }

  lemma MatchCons(p: bytes, f: bytes, frames: seq<bytes>, segments: seq<bytes>)
    requires LineEnd(p) && Match(frames, segments)
    ensures Match([f] + frames, [p + f] + segments)
  {
    hide LineEnd;
    var a, b := [f] + frames, [p + f] + segments;
    forall i | 0 <= i < |a|
      ensures exists q :: LineEnd(q) && b[i] == q + a[i]
    {
      if i == 0 {
        assert b[i] == p + a[i];
      } else {
        assert a[i] == frames[i - 1] && b[i] == segments[i - 1];
      }
    }
  }

  // ----- the size limit -----

  /** No more than n bytes go by without a marker starting. */
  ghost predicate Dense(stream: bytes, n: nat)
    decreases |stream|
  {
    match Find(stream)
    case None => |stream| <= n + 9
    case Some(p) => p <= n && Dense(stream[p + |MARKER|..], n)
  }

  ghost predicate Small(inbox: seq<Message>, c: nat) {
    forall i :: 0 <= i < |inbox| && inbox[i].Data? ==> |inbox[i].data| <= c
  }

  /** With markers dense enough for the chunk size, reading never gives up on a frame. */
  lemma {:induction false} NeverOversized(p: bytes, buf: bytes, inbox: seq<Message>, n: nat, c: nat)
    requires LineEnd(p) && Dense(p + buf + Stream(inbox), n) && Small(inbox, c)
    requires n + 9 + c <= 1_048_576
    ensures Frames(buf, inbox).1 == Dead
    decreases |buf| + Size(inbox)
  {
    hide Find, Read, LineEnd, Small;
    var stream := p + buf + Stream(inbox);
    var r := Read(buf, inbox);
    ReadMatches(p, buf, inbox);
    ReadFits(p, buf, inbox, n, c);
    if r.frame.Ok? {
      var f := r.frame.value;
      var q :| LineEnd(q) && Find(stream) == Some(|p| + |f|)
            && stream == p + f + MARKER + (q + r.buf + Stream(r.inbox));
      assert stream[|p| + |f| + |MARKER|..] == q + r.buf + Stream(r.inbox);
      NeverOversized(q, r.buf, r.inbox, n, c);
    }
  }

  lemma {:induction false} ReadFits(p: bytes, buf: bytes, inbox: seq<Message>, n: nat, c: nat)
    requires LineEnd(p) && Dense(p + buf + Stream(inbox), n) && Small(inbox, c)
    requires n + 9 + c <= 1_048_576
    ensures Read(buf, inbox).frame != Err(Oversized) && Small(Read(buf, inbox).inbox, c)
    decreases |inbox|
  {
    hide Find;
    if Find(buf).None? && inbox != [] && !inbox[0].Ended? {
      var data := if inbox[0].Data? then inbox[0].data else [];
      assert p + buf + (data + Stream(inbox[1..])) == p + (buf + data) + Stream(inbox[1..]);
      assert buf + [] == buf;
      NoneAfterLineEnd(p, buf);
      ShortWithoutMarker(p + buf, Stream(inbox), n);
      ReadFits(p, buf + data, inbox[1..], n, c);
    }
  }

  lemma ShortWithoutMarker(buf: bytes, rest: bytes, n: nat)
    requires Find(buf).None? && Dense(buf + rest, n)
    ensures |buf| <= n + 9
  {
    match Find(buf + rest)
    case None =>
    case Some(q) =>
      if q + |MARKER| <= |buf| {
        MarkerMoves(buf, rest, q);
      }
  }
}
