/** The loop of one SSH session (ssh-auto-port, main.rs): read a frame, parse it, filter it, reconcile. */
module PollLoop {
  import opened Wrappers
  import opened Bytes
  import opened ProbeFrames
  import opened ProbeText
  import opened ProbeTheorems
  import opened ProbeTable
  import opened PortSearch
  import opened Forwards
  import opened ForwardRuns

  datatype Params = Params(lo: nat, hi: nat, exclude: set<nat>, skip: bool)

  /** The clock and the local machine when the n-th frame is handled. */
  datatype World = World(clock: nat -> nat, machine: nat -> nat -> Host)

  function Retained(ports: set<nat>, params: Params): set<nat> {
    set p | p in ports && params.lo <= p <= params.hi && p !in params.exclude
  }

  /** The calls of reconcile that a sequence of parsed frames leads to: none for a frame that is not a table. */
  function Rounds(results: seq<Result<set<nat>, FrameError>>, params: Params, world: World): seq<Round> {
    if results == [] then []
    else
      var n := |results| - 1;
      Rounds(results[..n], params, world)
      + if results[n].Err? then []
        else [Round(Retained(results[n].value, params), params.skip, world.clock(n), world.machine(n))]
  }

  /** The frames read so far are the first of all frames. */
  ghost predicate ReadSoFar(inbox: seq<Message>, seen: seq<bytes>, buf: bytes, rest: seq<Message>) {
    var (frames, error) := Frames(buf, rest);
    Frames([], inbox) == (seen + frames, error)
  }

  lemma ReadStart(inbox: seq<Message>)
    ensures ReadSoFar(inbox, [], [], inbox)
  {
    var frames := Frames([], inbox).0;
    assert [] + frames == frames;
  }

  lemma ReadOn(inbox: seq<Message>, seen: seq<bytes>, buf: bytes, rest: seq<Message>, r: Reading)
    requires ReadSoFar(inbox, seen, buf, rest) && r == Read(buf, rest)
    ensures r.frame.Err? ==> Frames([], inbox) == (seen, r.frame.error)
    ensures r.frame.Ok? ==> ReadSoFar(inbox, seen + [r.frame.value], r.buf, r.inbox)
  {
    hide Read;
    if r.frame.Err? {
      assert seen + [] == seen;
    } else {
      var more := Frames(r.buf, r.inbox).0;
      assert seen + ([r.frame.value] + more) == seen + [r.frame.value] + more;
    }
  }

  /** poll_loop, up to the point where all forwards are stopped. */
  method Poll(inbox: seq<Message>, decode: bytes -> string, params: Params, world: World)
    returns (error: ProbeError, manager: ForwardManager)
    ensures error == Frames([], inbox).1
    ensures manager.View() == Run(Rounds(Results(decode, Frames([], inbox).0), params, world))
  {
    hide Read, Frames, ReadSoFar, Run, Rounds, Results, ForwardManager.View;
    var probe := new Probe(inbox);
    manager := new ForwardManager();
    var n := 0;
    ghost var seen: seq<bytes> := [];
    ReadStart(inbox);
    NoRounds(decode, params, world);
    while true
      invariant n == |seen|
      invariant ReadSoFar(inbox, seen, probe.buf, probe.inbox)
      invariant manager.View() == Run(Rounds(Results(decode, seen), params, world))
      invariant fresh(probe) && fresh(manager)
      decreases |probe.buf| + Size(probe.inbox)
    {
      ghost var r := Read(probe.buf, probe.inbox);
      ReadOn(inbox, seen, probe.buf, probe.inbox, r);
      var frame := probe.ReadFrame();
      assert r == Reading(frame, probe.buf, probe.inbox);
      if frame.Err? {
        return frame.error, manager;
      }
      Handle(manager, seen, n, frame.value, decode, params, world);
      seen := seen + [frame.value];
      n := n + 1;
    }
  }

  /** The body of the loop once a frame has been read. */
  method Handle(manager: ForwardManager, ghost seen: seq<bytes>, n: nat, frame: bytes, decode: bytes -> string,
                params: Params, world: World)
    requires n == |seen| && manager.View() == Run(Rounds(Results(decode, seen), params, world))
    modifies manager
    ensures manager.View() == Run(Rounds(Results(decode, seen + [frame]), params, world))
  {
    hide Parse, Reconciled, Run, Rounds, Results;
    OneMoreRound(decode, seen, frame, params, world);
    var parsed := ParseFrame(decode(frame));
    match parsed {
      case Ok(all) =>
        var ports := Retained(all, params);
        manager.Reconcile(Round(ports, params.skip, world.clock(n), world.machine(n)));
      case Err(_) =>
    }
  }

  lemma NoRounds(decode: bytes -> string, params: Params, world: World)
    ensures Run(Rounds(Results(decode, []), params, world)) == INITIAL
  {}

  lemma OneMoreRound(decode: bytes -> string, frames: seq<bytes>, frame: bytes, params: Params, world: World)
    ensures var parsed := Parse(decode(frame));
            var before := Run(Rounds(Results(decode, frames), params, world));
            var after := Run(Rounds(Results(decode, frames + [frame]), params, world));
            after == if parsed.Err? then before
                     else Reconciled(before, Round(Retained(parsed.value, params), params.skip,
                                                   world.clock(|frames|), world.machine(|frames|)))
  {
    hide Parse, Reconciled;
    var results := Results(decode, frames);
    var more := Results(decode, frames + [frame]);
    assert more == results + [Parse(decode(frame))];
    assert more[..|frames|] == results;
    var rounds := Rounds(results, params, world);
    var all := Rounds(more, params, world);
    if Parse(decode(frame)).Err? {
      assert rounds + [] == rounds;
    } else {
      assert all[..|all| - 1] == rounds;
    }
  }

  /** The state reached does not depend on how the output was cut into chunks. */
  lemma PollInvariance(decode: bytes -> string, a: seq<Message>, b: seq<Message>, params: Params, world: World)
    requires KeepsLineEnds(decode) && Stream(a) == Stream(b)
    requires Frames([], a).1 == Dead && Frames([], b).1 == Dead
    ensures Run(Rounds(Results(decode, Frames([], a).0), params, world))
         == Run(Rounds(Results(decode, Frames([], b).0), params, world))
  {
    ChunkingInvariance(decode, a, b);
  }

  /** A frame in which nothing is understood, though something is there, leaves the forwards alone. */
  lemma GarbageIgnored(decode: bytes -> string, frames: seq<bytes>, frame: bytes, params: Params, world: World)
    requires var lines := Lines(decode(frame));
             && NotBlank(lines)
             && forall i: nat :: i < |lines| && Trim(lines[i]) != "" ==> ParseLine(Trim(lines[i])).None?
    ensures Run(Rounds(Results(decode, frames + [frame]), params, world))
         == Run(Rounds(Results(decode, frames), params, world))
  {
    hide Parse, Lines, Trim, ParseLine, Reconciled;
    RefusedExactly(decode(frame));
    OneMoreRound(decode, frames, frame, params, world);
  }

  /** A socket that listens on 127.0.0.1 or 0.0.0.0, at a port that is let through. */
  predicate Wanted(e: Socket, params: Params, p: nat) {
    && e.port == p && e.state == "0A" && (e.addr == 0x0100007F || e.addr == 0)
    && params.lo <= p <= params.hi && p !in params.exclude
  }

  /** After a frame that holds the kernel's table, the local forwards follow the listening ports exactly. */
  lemma FollowsTable(decode: bytes -> string, frames: seq<bytes>, frame: bytes, params: Params, world: World,
                     header: string, sockets: seq<Socket>)
    requires Header(header) && (forall e :: e in sockets ==> Printable(e))
    requires decode(frame) == header + "\n" + Table(sockets)
    ensures var s := Run(Rounds(Results(decode, frames + [frame]), params, world));
            && Good(s, s.desired)
            && forall p :: p in s.desired <==> exists e :: e in sockets && Wanted(e, params, p)
  {
    hide Parse, Reconciled, Header, Printable, Good, Table, ListeningPorts;
    TableParses(header, sockets);
    OneMoreRound(decode, frames, frame, params, world);
    var rounds := Rounds(Results(decode, frames), params, world);
    RunIsGood(rounds);
    RoundKeeps(Run(rounds), Round(Retained(ListeningPorts(sockets), params), params.skip,
                                  world.clock(|frames|), world.machine(|frames|)));
    LetThrough(sockets, params);
  }

  lemma LetThrough(sockets: seq<Socket>, params: Params)
    ensures forall p ::
              p in Retained(ListeningPorts(sockets), params) <==> exists e :: e in sockets && Wanted(e, params, p)
  {
    forall p | p in Retained(ListeningPorts(sockets), params)
      ensures exists e :: e in sockets && Wanted(e, params, p)
    {
      var e :| e in sockets && Listens(e) && e.port == p;
      assert Wanted(e, params, p);
    }
  }
}
