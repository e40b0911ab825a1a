/**
 * The socket table as the kernel prints it (/proc/net/tcp, read by ssh-auto-port, probe.rs): parsing it
 * gives back exactly the ports that listen on 127.0.0.1 or 0.0.0.0.
 */
module ProbeTable {
  import opened Wrappers
  import opened Bytes
  import opened ProbeText

  function HexDigit(d: nat): char
    requires d < 16
  {
    if d < 10 then (d + 48) as char else (d + 55) as char
  }

  /** v in n upper-case digits */
  function Hex(v: nat, n: nat): (s: string)
    ensures |s| == n && forall c :: c in s ==> '0' <= c <= '9' || 'A' <= c <= 'F'
  {
    if n == 0 then "" else Hex(v / 16, n - 1) + [HexDigit(v % 16)]
  }

  lemma {:induction false} HexValue(v: nat, n: nat)
    requires v < Pow16(n)
    ensures Value(Hex(v, n)) == Some(v)
  {
    if n > 0 {
      HexValue(v / 16, n - 1);
      var s := Hex(v, n);
      assert s[..|s| - 1] == Hex(v / 16, n - 1);
    }
  }

  lemma HexRadix(v: nat, n: nat)
    requires 0 < n && v < Pow16(n)
    ensures Radix(Hex(v, n)) == Some(v) && Utf8Length(Hex(v, n)) == n
  {
    HexValue(v, n);
    var s := Hex(v, n);
    assert s[0] in s;
    Ascii(s);
  }

  lemma {:induction false} Ascii(s: string)
    requires forall c :: c in s ==> c < '\U{0080}'
    ensures Utf8Length(s) == |s|
  {
    if s != "" {
      assert s[0] in s;
      assert forall c :: c in s[1..] ==> c in s;
      Ascii(s[1..]);
    }
  }

  // ----- one line -----

  /** One socket, with the columns that the parser does not look into kept as they are. */
  datatype Socket = Socket(pad: string, slot: string, addr: nat, port: nat, remote: string, state: string, rest: string)

  predicate Word(s: string) {
    s != "" && forall c :: c in s ==> !White(c)
  }

  predicate Break(s: string) {
    s == "" || White(s[0])
  }

  ghost predicate Printable(e: Socket) {
    && (forall c :: c in e.pad ==> c == ' ')
    && Word(e.slot) && e.slot[0] != 's' && Word(e.remote) && Word(e.state)
    && Break(e.rest) && '\n' !in e.rest && '\r' !in e.rest
    && e.addr < 0x1_0000_0000 && e.port < 0x1_0000
  }

  function Address(e: Socket): string {
    Hex(e.addr, 8) + ":" + Hex(e.port, 4)
  }

  function Columns(e: Socket): string {
    e.slot + (" " + (Address(e) + (" " + (e.remote + (" " + (e.state + e.rest))))))
  }

  function Line(e: Socket): string {
    e.pad + Columns(e)
  }

  /** A socket in state LISTEN (0A) at 127.0.0.1, first octet lowest, or at 0.0.0.0. */
  predicate Listens(e: Socket) {
    e.state == "0A" && (e.addr == 127 + 0x100_0000 || e.addr == 0)
  }

  /** Port 8080 on 127.0.0.1. */
  lemma AddressSpelled(e: Socket)
    requires e.addr == 127 + 0x100_0000 && e.port == 8080
    ensures Address(e) == "0100007F:1F90"
  {
    assert Hex(e.port, 2) == "90" && Hex(e.port / 256, 2) == "1F";
  }

  lemma {:induction false} WordInFront(w: string, rest: string)
    requires (forall c :: c in w ==> !White(c)) && Break(rest)
    ensures WordLength(w + rest) == |w|
  {
    if w == "" {
      assert w + rest == rest;
    } else {
      assert (w + rest)[1..] == w[1..] + rest;
      assert (w + rest)[0] == w[0] && w[0] in w;
      WordInFront(w[1..], rest);
    }
  }

  lemma FieldInFront(w: string, rest: string)
    requires Word(w) && Break(rest)
    ensures Fields(w + rest) == [w] + Fields(rest)
  {
    var s := w + rest;
    WordInFront(w, rest);
    assert s[0] == w[0] && w[0] in w;
    assert s[..|w|] == w && s[|w|..] == rest;
  }

  lemma FieldAfterSpace(w: string, rest: string)
    requires Word(w) && Break(rest)
    ensures Fields(" " + (w + rest)) == [w] + Fields(rest)
  {
    assert (" " + (w + rest))[1..] == w + rest;
    FieldInFront(w, rest);
  }

  lemma {:induction false} FieldsBeforeWhite(s: string, c: char)
    requires White(c)
    ensures Fields(s + [c]) == Fields(s)
    decreases |s|
  {
    if s == "" {
      assert s + [c] == [c] && [c][1..] == "";
    } else if White(s[0]) {
      assert (s + [c])[1..] == s[1..] + [c];
      FieldsBeforeWhite(s[1..], c);
    } else {
      var n := WordLength(s);
      WordStops(s, c);
      assert (s + [c])[..n] == s[..n] && (s + [c])[n..] == s[n..] + [c];
      FieldsBeforeWhite(s[n..], c);
    }
  }

  lemma {:induction false} WordStops(s: string, c: char)
    requires White(c)
    ensures WordLength(s + [c]) == WordLength(s)
  {
    if s != "" {
      assert (s + [c])[1..] == s[1..] + [c];
      WordStops(s[1..], c);
    } else {
      assert s + [c] == [c];
    }
  }

  lemma {:induction false} FieldsTrimEnd(s: string)
    ensures Fields(TrimEnd(s)) == Fields(s)
  {
    if s != "" && White(s[|s| - 1]) {
      assert s == s[..|s| - 1] + [s[|s| - 1]];
      FieldsBeforeWhite(s[..|s| - 1], s[|s| - 1]);
      FieldsTrimEnd(s[..|s| - 1]);
    }
  }

  lemma {:induction false} PadIsTrimmed(pad: string, s: string)
    requires (forall c :: c in pad ==> c == ' ') && s != "" && !White(s[0])
    ensures TrimStart(pad + s) == s
  {
    if pad == "" {
      assert pad + s == s;
    } else {
      assert pad[0] in pad;
      assert forall c :: c in pad[1..] ==> c in pad;
      assert (pad + s)[1..] == pad[1..] + s;
      PadIsTrimmed(pad[1..], s);
    }
  }

  lemma {:induction false} ColonAfter(a: string, b: string)
    requires ':' !in a
    ensures ColonAt(a + (":" + b)) == Some(|a|)
  {
    var s := a + (":" + b);
    if a != "" {
      assert s[1..] == a[1..] + (":" + b);
      ColonAfter(a[1..], b);
    }
  }

  lemma LineFields(e: Socket)
    requires Printable(e)
    ensures Fields(Columns(e)) == [e.slot, Address(e), e.remote, e.state] + Fields(e.rest)
  {
    hide Fields, Hex;
    var tail3 := " " + (e.state + e.rest);
    var tail2 := " " + (e.remote + tail3);
    var tail1 := " " + (Address(e) + tail2);
    FieldAfterSpace(e.state, e.rest);
    FieldAfterSpace(e.remote, tail3);
    FieldAfterSpace(Address(e), tail2);
    FieldInFront(e.slot, tail1);
  }

  /** Trimming keeps the fields of a printed line. */
  lemma LineTrims(e: Socket)
    requires Printable(e)
    ensures var line := Trim(Line(e));
            && line != "" && line[0] != 's'
            && Fields(line) == [e.slot, Address(e), e.remote, e.state] + Fields(e.rest)
  {
    hide Fields, Hex, Address;
    var columns := Columns(e);
    assert columns[0] == e.slot[0] && e.slot[0] in e.slot;
    PadIsTrimmed(e.pad, columns);
    var line := TrimEnd(columns);
    assert line[0] == columns[0];
    LineFields(e);
    FieldsTrimEnd(columns);
  }

  lemma AddressParts(e: Socket)
    requires e.addr < 0x1_0000_0000 && e.port < 0x1_0000
    ensures var (s, a, p) := (Address(e), Hex(e.addr, 8), Hex(e.port, 4));
            && ColonAt(s) == Some(8) && s[..8] == a && s[9..] == p
            && Utf8Length(a) == 8 && Utf8Length(p) == 4 && Radix(a) == Some(e.addr) && Radix(p) == Some(e.port)
  {
    hide ColonAt, Hex, Radix, Utf8Length;
    var a, p := Hex(e.addr, 8), Hex(e.port, 4);
    assert Address(e) == a + (":" + p);
    ColonAfter(a, p);
    assert Pow16(4) == 0x1_0000 && Pow16(8) == 16 * (16 * (16 * (16 * Pow16(4))));
    HexRadix(e.addr, 8);
    HexRadix(e.port, 4);
  }

  /** Each printed line is understood, and yields its port if the socket listens. */
  lemma LineParses(e: Socket)
    requires Printable(e)
    ensures Trim(Line(e)) != ""
    ensures ParseLine(Trim(Line(e))) == Some(if Listens(e) then Some(e.port) else None)
  {
    hide Fields, Address, ColonAt, Radix, Utf8Length, Trim, Line;
    LineTrims(e);
    AddressParts(e);
  }

  // ----- the table -----

  function Table(sockets: seq<Socket>): string {
    if sockets == [] then "" else Line(sockets[0]) + "\n" + Table(sockets[1..])
  }

  ghost predicate Header(header: string) {
    '\n' !in header && '\r' !in header && "sl" <= Trim(header)
  }

  lemma {:induction false} LineEnds(line: string, rest: string)
    requires '\n' !in line
    ensures LineLength(line + "\n" + rest) == |line|
  {
    var s := line + "\n" + rest;
    if line != "" {
      assert s[1..] == line[1..] + "\n" + rest;
      LineEnds(line[1..], rest);
    }
  }

  lemma LineInFront(line: string, rest: string)
    requires '\n' !in line && '\r' !in line
    ensures Lines(line + "\n" + rest) == [line] + Lines(rest)
  {
    var s := line + "\n" + rest;
    LineEnds(line, rest);
    assert s[..|line|] == line && s[|line| + 1..] == rest;
  }

  function ListeningPorts(sockets: seq<Socket>): set<nat> {
    set e | e in sockets && Listens(e) :: e.port
  }

  lemma NoContent()
    ensures Content(Lines("")) == []
  {}

  lemma {:induction false} TableContent(sockets: seq<Socket>)
    requires forall e :: e in sockets ==> Printable(e)
    ensures var content := Content(Lines(Table(sockets)));
            && |content| == |sockets|
            && forall i :: 0 <= i < |sockets| ==> content[i] == Trim(Line(sockets[i]))
  {
    hide Printable, Trim, Line, Lines, Content, ParseLine, Listens;
    if sockets == [] {
      NoContent();
    } else {
      var e, others := sockets[0], sockets[1..];
      TableContent(others);
      PlainLine(e);
      LineParses(e);
      LineInFront(Line(e), Table(others));
      ContentInFront(Line(e), Lines(Table(others)));
      assert forall i :: 0 <= i < |others| ==> others[i] == sockets[i + 1];
    }
  }

  lemma ContentInFront(line: string, lines: seq<string>)
    requires Trim(line) != ""
    ensures Content([line] + lines) == [Trim(line)] + Content(lines)
  {
    hide Trim;
    assert ([line] + lines)[1..] == lines;
  }

  lemma PlainLine(e: Socket)
    requires Printable(e)
    ensures '\n' !in Line(e) && '\r' !in Line(e)
  {
    hide Hex;
  }

  /** Parsing undoes printing: the ports are those of the listening sockets, no more and no fewer. */
  lemma TableParses(header: string, sockets: seq<Socket>)
    requires Header(header) && forall e :: e in sockets ==> Printable(e)
    ensures Parse(header + "\n" + Table(sockets)) == Ok(ListeningPorts(sockets))
  {
    hide Printable, Trim, Line, Lines, Listens, Table;
    var title := Trim(header);
    var content := Content(Lines(Table(sockets)));
    LineInFront(header, Table(sockets));
    TableContent(sockets);
    var all := [title] + content;
    assert ([header] + Lines(Table(sockets)))[1..] == Lines(Table(sockets));
    assert Content(Lines(header + "\n" + Table(sockets))) == all;
    assert ParseLine(title) == Some(None) by { assert title[..2] == "sl"; }
    PortsOfTable(title, content, sockets);
    assert ParseLine(all[0]).Some?;
  }

  lemma PortsOfTable(title: string, content: seq<string>, sockets: seq<Socket>)
    requires ParseLine(title) == Some(None) && |content| == |sockets|
    requires forall e :: e in sockets ==> Printable(e)
    requires forall i :: 0 <= i < |sockets| ==> content[i] == Trim(Line(sockets[i]))
    ensures Ports([title] + content) == ListeningPorts(sockets)
  {
    hide Printable, Trim, Line, Listens, ParseLine;
    var all := [title] + content;
    forall i | 0 <= i < |sockets|
      ensures ParseLine(all[i + 1]) == Some(if Listens(sockets[i]) then Some(sockets[i].port) else None)
    {
      LineParses(sockets[i]);
    }
    forall i | 0 <= i < |all| && ParseLine(all[i]).Some? && ParseLine(all[i]).value.Some?
      ensures ParseLine(all[i]).value.value in ListeningPorts(sockets)
    {
      assert i > 0 && sockets[i - 1] in sockets;
      assert ParseLine(all[i - 1 + 1]).Some?;
    }
    forall e | e in sockets && Listens(e)
      ensures e.port in Ports(all)
    {
      var i :| 0 <= i < |sockets| && sockets[i] == e;
      assert ParseLine(all[i + 1]) == Some(Some(e.port));
    }
  }
}
