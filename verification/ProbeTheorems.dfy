/**
 * What the probe as a whole promises: the ports of successive frames do not depend on how the stream
 * was cut into chunks, and for a table the kernel printed they are the listening ports.
 */
module ProbeTheorems {
  import opened Wrappers
  import opened Bytes
  import opened ProbeFrames
  import opened ProbeText

  // ----- chunks do not matter -----

  /** Decoding (String::from_utf8_lossy) keeps a leading CR or LF apart from what follows. */
  ghost predicate KeepsLineEnds(decode: bytes -> string) {
    && (forall x :: decode([CR] + x) == "\r" + decode(x))
    && (forall x :: decode([LF] + x) == "\n" + decode(x))
  }

  lemma LineFeedInFront(s: string)
    ensures Parse("\n" + s) == Parse(s)
  {
    var t := "\n" + s;
    assert t[1..] == s;
    assert Lines(t) == [""] + Lines(s);
    assert Content([""] + Lines(s)) == Content(Lines(s)) by {
      assert ([""] + Lines(s))[1..] == Lines(s);
    }
  }

  lemma ReturnInFront(s: string)
    ensures Parse("\r" + s) == Parse(s)
  {
    var t := "\r" + s;
    assert t[1..] == s;
    var n := LineLength(s);
    assert LineLength(t) == n + 1;
    assert t[..n + 1] == "\r" + s[..n];
    TrimReturn(s[..n]);
    if n == |s| {
      assert s[..n] == s;
      assert Lines(t) == [t];
      if s == "" {
        assert Content(Lines(t)) == [] == Content(Lines(s));
      } else {
        assert Content(Lines(t)) == Content(Lines(s));
      }
    } else {
      var rest := Lines(s[n + 1..]);
      assert t[n + 2..] == s[n + 1..];
      var a, b := StripReturn("\r" + s[..n]), StripReturn(s[..n]);
      assert Lines(t) == [a] + rest && Lines(s) == [b] + rest;
      assert ([a] + rest)[1..] == rest && ([b] + rest)[1..] == rest;
      assert Content([a] + rest) == Content([b] + rest);
    }
  }

  /** A carriage return in front of a line is trimmed, whether or not one at its end is stripped. */
  lemma TrimReturn(line: string)
    ensures Trim("\r" + line) == Trim(line)
    ensures Trim(StripReturn("\r" + line)) == Trim(StripReturn(line))
  {
    assert ("\r" + line)[1..] == line;
    if line != "" && line[|line| - 1] == '\r' {
      var body := line[..|line| - 1];
      assert ("\r" + line)[..|line|] == "\r" + body;
      assert ("\r" + body)[1..] == body;
    }
  }

  lemma LineEndInFront(decode: bytes -> string, p: bytes, x: bytes)
    requires KeepsLineEnds(decode) && LineEnd(p)
    ensures Parse(decode(p + x)) == Parse(decode(x))
  {
    hide Parse;
    if p == [] {
      assert p + x == x;
    } else if p == [CR] {
      ReturnInFront(decode(x));
    } else if p == [LF] {
      LineFeedInFront(decode(x));
    } else {
      assert p + x == [CR] + ([LF] + x);
      LineFeedInFront(decode(x));
      ReturnInFront(decode([LF] + x));
    }
  }

  /** What the caller of read_frame and parse_frame sees of each frame. */
  function Results(decode: bytes -> string, frames: seq<bytes>): seq<Result<set<nat>, FrameError>> {
    seq(|frames|, i requires 0 <= i < |frames| => Parse(decode(frames[i])))
  }

  /** Two ways to cut one stream give the same results up to the first error, in full if neither outgrew the buffer. */
  lemma ChunkingInvariance(decode: bytes -> string, a: seq<Message>, b: seq<Message>)
    requires KeepsLineEnds(decode) && Stream(a) == Stream(b)
    ensures var (fa, ea) := Frames([], a);
            var (fb, eb) := Frames([], b);
            && (Results(decode, fa) <= Results(decode, fb) || Results(decode, fb) <= Results(decode, fa))
            && (ea == Dead ==> Results(decode, fb) <= Results(decode, fa))
            && (ea == Dead && eb == Dead ==> Results(decode, fa) == Results(decode, fb))
  {
    assert LineEnd([]);
    hide Frames, Segments, Parse, LineEnd;
    var (fa, ea) := Frames([], a);
    var (fb, eb) := Frames([], b);
    var segments := Segments(Stream(a));
    assert [] + [] + Stream(a) == Stream(a);
    FramesMatch([], [], a);
    FramesMatch([], [], b);
    SameAsSegments(decode, fa, segments);
    SameAsSegments(decode, fb, segments);
  }

  lemma SameAsSegments(decode: bytes -> string, frames: seq<bytes>, segments: seq<bytes>)
    requires KeepsLineEnds(decode) && Match(frames, segments)
    ensures Results(decode, frames) == Results(decode, segments)[..|frames|]
  {
    hide Parse, LineEnd;
    forall i | 0 <= i < |frames|
      ensures Parse(decode(frames[i])) == Parse(decode(segments[i]))
    {
      var p :| LineEnd(p) && segments[i] == p + frames[i];
      LineEndInFront(decode, p, frames[i]);
    }
  }
}
