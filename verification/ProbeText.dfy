/**
 * Reading a frame of /proc/net/tcp (ssh-auto-port, probe.rs): the ports the remote side listens on,
 * at 127.0.0.1 or 0.0.0.0.
 */
module ProbeText {
  import opened Wrappers

  datatype FrameError = NotATable

  // ----- text -----

  /** The characters with the Unicode property White_Space. */
  predicate White(c: char) {
    var i := c as int;
    || 9 <= i <= 13 || i == 0x20 || i == 0x85 || i == 0xA0 || i == 0x1680 || 0x2000 <= i <= 0x200A
    || i == 0x2028 || i == 0x2029 || i == 0x202F || i == 0x205F || i == 0x3000
  }

  /** str::trim */
  function TrimStart(s: string): (r: string)
    ensures r == "" || !White(r[0])
    ensures |r| <= |s|
  {
    if s != "" && White(s[0]) then TrimStart(s[1..]) else s
  }

  function TrimEnd(s: string): (r: string)
    ensures r <= s
    ensures s != "" && !White(s[0]) ==> r != ""
  {
    if s != "" && White(s[|s| - 1]) then TrimEnd(s[..|s| - 1]) else s
  }

  function Trim(s: string): string {
    TrimEnd(TrimStart(s))
  }

  /** The number of characters before the first line feed. */
  function LineLength(s: string): (n: nat)
    ensures n <= |s| && '\n' !in s[..n]
    ensures n < |s| ==> s[n] == '\n'
  {
    if s == "" || s[0] == '\n' then 0 else 1 + LineLength(s[1..])
  }

  function StripReturn(s: string): string {
    if s != "" && s[|s| - 1] == '\r' then s[..|s| - 1] else s
  }

  /** str::lines */
  function Lines(s: string): (r: seq<string>)
    decreases |s|
  {
    if s == "" then []
    else
      var n := LineLength(s);
      if n == |s| then [s] else [StripReturn(s[..n])] + Lines(s[n + 1..])
  }

  /** str::split_whitespace */
  function WordLength(s: string): (n: nat)
    ensures n <= |s|
  {
    if s == "" || White(s[0]) then 0 else 1 + WordLength(s[1..])
  }

  function Fields(s: string): seq<string>
    decreases |s|
  {
    if s == "" then []
    else if White(s[0]) then Fields(s[1..])
    else [s[..WordLength(s)]] + Fields(s[WordLength(s)..])
  }

  function Utf8Length(s: string): (n: nat)
    ensures n >= |s|
  {
    if s == "" then 0
    else
      var i := s[0] as int;
      (if i < 0x80 then 1 else if i < 0x800 then 2 else if i < 0x10000 then 3 else 4) + Utf8Length(s[1..])
  }

  // ----- one line -----

  function Digit(c: char): Option<nat> {
    if '0' <= c <= '9' then Some(c as int - '0' as int)
    else if 'A' <= c <= 'F' then Some(c as int - 'A' as int + 10)
    else if 'a' <= c <= 'f' then Some(c as int - 'a' as int + 10)
    else None
  }

  function Value(s: string): Option<nat> {
    if s == "" then Some(0)
    else
      match (Value(s[..|s| - 1]), Digit(s[|s| - 1]))
      case (Some(v), Some(d)) => Some(16 * v + d)
      case _ => None
  }

  /** from_str_radix(s, 16) on so few digits that nothing overflows; one plus sign is allowed. */
  function Radix(s: string): Option<nat> {
    if s == "" || s == "+" then None
    else Value(if s[0] == '+' then s[1..] else s)
  }

  function ColonAt(s: string): (r: Option<nat>)
    ensures r.Some? ==> r.value < |s| && s[r.value] == ':'
  {
    if s == "" then None
    else if s[0] == ':' then Some(0)
    else match ColonAt(s[1..]) case Some(i) => Some(i + 1) case None => None
  }

  const LOOPBACK := 0x0100007F // 127.0.0.1 read as a little-endian number
  const ANY := 0

  /** None: not understood. Some(None): understood, and nothing to forward. Some(Some(port)): a port to forward. */
  function ParseLine(line: string): Option<Option<nat>> {
    if |line| >= 2 && line[..2] == "sl" then Some(None)
    else
      var fields := Fields(line);
      if |fields| < 4 then None
      else
        match ColonAt(fields[1])
        case None => None
        case Some(i) =>
          var addr, port := fields[1][..i], fields[1][i + 1..];
          if Utf8Length(addr) != 8 || Utf8Length(port) != 4 then None
          else
            match Radix(port)
            case None => None
            case Some(p) =>
              if fields[3] != "0A" then Some(None)
              else
                match Radix(addr)
                case None => None
                case Some(a) => Some(if a == LOOPBACK || a == ANY then Some(p) else None)
  }

  // ----- a whole frame -----

  /** The lines that are not blank. */
  function Content(lines: seq<string>): seq<string> {
    if lines == [] then []
    else (if Trim(lines[0]) == "" then [] else [Trim(lines[0])]) + Content(lines[1..])
  }

  function Ports(content: seq<string>): set<nat> {
    set i | 0 <= i < |content| && ParseLine(content[i]).Some? && ParseLine(content[i]).value.Some? ::
      ParseLine(content[i]).value.value
  }

  predicate Recognized(content: seq<string>) {
    exists i :: 0 <= i < |content| && ParseLine(content[i]).Some?
  }

  /** What a frame means. */
  function Parse(text: string): Result<set<nat>, FrameError> {
    var content := Content(Lines(text));
    if content != [] && !Recognized(content) then Err(NotATable) else Ok(Ports(content))
  }

  /** parse_frame */
  method ParseFrame(text: string) returns (r: Result<set<nat>, FrameError>)
    ensures r == Parse(text)
  {
    hide ParseLine, Trim, Lines, Ports, Recognized, Content;
    NothingSeen();
    var ports: set<nat> := {};
    var sawContent, recognized := false, false;
    var lines := Lines(text);
    ghost var seen: seq<string> := [];
    for i := 0 to |lines|
      invariant seen == Content(lines[..i])
      invariant sawContent <==> seen != []
      invariant recognized <==> Recognized(seen)
      invariant ports == Ports(seen)
    {
      ContentSnoc(lines[..i], lines[i]);
      assert lines[..i] + [lines[i]] == lines[..i + 1];
      var line := Trim(lines[i]);
      if line != "" {
        sawContent := true;
        OneMore(seen, line);
        seen := seen + [line];
        var parsed := ParseLine(line);
        if parsed.Some? {
          recognized := true;
          if parsed.value.Some? {
            ports := ports + {parsed.value.value};
          }
        }
      }
    }
    assert lines[..|lines|] == lines;
    if sawContent && !recognized {
      return Err(NotATable);
    }
    return Ok(ports);
  }

  lemma NothingSeen()
    ensures Content([]) == [] && Ports([]) == {} && !Recognized([])
  {}

  lemma {:induction false} ContentSnoc(lines: seq<string>, line: string)
    ensures Content(lines + [line]) == Content(lines) + if Trim(line) == "" then [] else [Trim(line)]
  {
    hide Trim;
    if lines != [] {
      ContentSnoc(lines[1..], line);
      assert (lines + [line])[1..] == lines[1..] + [line];
    } else {
      assert Content([]) == [];
    }
  }

  lemma OneMore(seen: seq<string>, line: string)
    ensures Recognized(seen + [line]) <==> Recognized(seen) || ParseLine(line).Some?
    ensures Ports(seen + [line]) == Ports(seen) +
              (if ParseLine(line).Some? && ParseLine(line).value.Some? then {ParseLine(line).value.value} else {})
  {
    hide ParseLine;
    var all := seen + [line];
    assert all[|seen|] == line;
    assert forall i :: 0 <= i < |seen| ==> all[i] == seen[i];
  }

  // ----- what a frame means, line by line -----

  /** Line i is not blank and is understood as the result. */
  predicate Reads(lines: seq<string>, i: nat, result: Option<nat>) {
    i < |lines| && Trim(lines[i]) != "" && ParseLine(Trim(lines[i])) == Some(result)
  }

  predicate NotBlank(lines: seq<string>) {
    exists i :: 0 <= i < |lines| && Trim(lines[i]) != ""
  }

  lemma {:induction false} ContentMembers(lines: seq<string>)
    ensures forall c :: c in Content(lines) <==> c != "" && exists i :: 0 <= i < |lines| && Trim(lines[i]) == c
  {
    hide Trim;
    if lines != [] {
      ContentMembers(lines[1..]);
      assert forall i :: 0 <= i < |lines[1..]| ==> lines[1..][i] == lines[i + 1];
      forall c
        ensures c in Content(lines) <==> c != "" && exists i :: 0 <= i < |lines| && Trim(lines[i]) == c
      {
        if c != "" && exists i :: 0 <= i < |lines| && Trim(lines[i]) == c {
          var i :| 0 <= i < |lines| && Trim(lines[i]) == c;
          assert i > 0 ==> Trim(lines[1..][i - 1]) == c;
        }
      }
    }
  }

  /** A frame is refused exactly when it has a line that is not blank and no such line is understood. */
  lemma RefusedExactly(text: string)
    ensures Parse(text).Err? <==>
              NotBlank(Lines(text))
              && forall i: nat :: i < |Lines(text)| && Trim(Lines(text)[i]) != "" ==>
                   ParseLine(Trim(Lines(text)[i])).None?
  {
    hide Trim, ParseLine, Lines;
    var lines := Lines(text);
    var content := Content(lines);
    ContentMembers(lines);
    if content != [] {
      assert content[0] in content;
    }
    if NotBlank(lines) {
      var i :| 0 <= i < |lines| && Trim(lines[i]) != "";
      assert Trim(lines[i]) in content;
    }
    if Recognized(content) {
      var i :| 0 <= i < |content| && ParseLine(content[i]).Some?;
      assert content[i] in content;
    }
    forall i: nat | i < |lines| && Trim(lines[i]) != "" && ParseLine(Trim(lines[i])).Some?
      ensures Recognized(content)
    {
      assert Trim(lines[i]) in content;
      var j :| 0 <= j < |content| && content[j] == Trim(lines[i]);
      assert ParseLine(content[j]).Some?;
    }
  }

  /** The ports of a frame are those that some line gives. */
  lemma PortsExactly(text: string, p: nat)
    requires Parse(text).Ok?
    ensures p in Parse(text).value <==> exists i: nat :: Reads(Lines(text), i, Some(p))
  {
    hide Trim, ParseLine, Lines;
    var lines := Lines(text);
    var content := Content(lines);
    ContentMembers(lines);
    if p in Ports(content) {
      var j :| 0 <= j < |content| && ParseLine(content[j]) == Some(Some(p));
      assert content[j] in content;
      var i: nat :| i < |lines| && Trim(lines[i]) == content[j];
      assert Reads(lines, i, Some(p));
    }
    if i: nat :| Reads(lines, i, Some(p)) {
      assert Trim(lines[i]) in content;
      var j :| 0 <= j < |content| && content[j] == Trim(lines[i]);
      PortOfLine(content, j, p);
      assert Reads(Lines(text), i, Some(p));
      assert p in Parse(text).value;
    }
  }

  lemma PortOfLine(content: seq<string>, j: nat, p: nat)
    requires j < |content| && ParseLine(content[j]) == Some(Some(p))
    ensures p in Ports(content)
  {
    hide ParseLine;
    assert ParseLine(content[j]).value.value in Ports(content);
  }
}
