/** Keeping the local forwards in step with the remote ports (ssh-auto-port, forward.rs). */
module Forwards {
  import opened Wrappers
  import opened PortSearch

  const RETRY_DELAY := 30_000 // milliseconds

  // ----- one forward -----

  datatype ForwardSetup = Started(local: nat) | Skipped | RetryLater

  function Setup(host: Host, port: nat, skip: bool): Result<ForwardSetup, BindError> {
    match TryBind(host, port)
    case Err(e) => Err(e)
    case Ok(bound) =>
      if bound then Ok(Started(port))
      else if skip then Ok(Skipped)
      else
        match Search(host, port, 1)
        case None => Ok(RetryLater)
        case Some(Ok(q)) => Ok(Started(q))
        case Some(Err(e)) => Err(e)
  }

  /** The own port if it is free; if it is in use, nothing with skip, and else the nearest free one, if any. */
  lemma SetupExact(host: Host, port: nat, skip: bool)
    ensures Free(host, port) ==> Setup(host, port, skip) == Ok(Started(port))
    ensures port in host.failing ==> Setup(host, port, skip) == Err(BindFailed(port))
    ensures Busy(host, port) && skip ==> Setup(host, port, skip) == Ok(Skipped)
    ensures Busy(host, port) && !skip && (forall c :: Candidate(port, c) ==> c !in host.failing) ==>
              match Setup(host, port, skip)
              case Ok(RetryLater) => forall c :: Candidate(port, c) ==> c in host.inUse
              case Ok(Started(q)) =>
                && Candidate(port, q) && q !in host.inUse
                && forall c :: Candidate(port, c) && c !in host.inUse && c != q ==> Before(port, q, c)
              case _ => false
  {
    hide Search, Candidate, Before;
    if forall c :: Candidate(port, c) ==> c !in host.failing {
      NearestFree(host, port);
    }
  }

  /** add_forward */
  method AddForward(host: Host, port: nat, skip: bool) returns (r: Result<ForwardSetup, BindError>)
    ensures r == Setup(host, port, skip)
  {
    var bound := TryBind(host, port);
    if bound.Err? {
      return Err(bound.error);
    }
    if bound.value {
      return Ok(Started(port));
    }
    if skip {
      return Ok(Skipped);
    }
    var near := FindFreeNear(host, port);
    if near.Err? {
      return Err(near.error);
    }
    match near.value {
      case Some(q) => return Ok(Started(q));
      case None => return Ok(RetryLater);
    }
  }

  // ----- the manager's state -----

  /** Which remote ports are wanted, and what became of each: forwarded, skipped, or to be tried again. */
  datatype State = State(desired: set<nat>, forwards: map<nat, nat>, skipped: set<nat>, retryAt: map<nat, nat>)

  const INITIAL := State({}, map[], {}, map[])

  /** One call of reconcile. The machine may differ from one attempt to the next. */
  datatype Round = Round(target: set<nat>, skip: bool, now: nat, machine: nat -> Host)

  /** The machine as an attempt sees it: our own listeners hold their ports. */
  function Seen(s: State, round: Round, port: nat): Host {
    round.machine(port).(inUse := round.machine(port).inUse + s.forwards.Values)
  }

  function Retire(s: State, removed: set<nat>): State {
    State(s.desired, s.forwards - removed, s.skipped - removed, s.retryAt - removed)
  }

  function Pending(s: State, round: Round): set<nat> {
    set p | p in round.target && p !in s.forwards && p !in s.skipped && (p !in s.retryAt || s.retryAt[p] <= round.now)
  }

  function Attempt(s: State, round: Round, port: nat): State {
    match Setup(Seen(s, round, port), port, round.skip)
    case Ok(Started(q)) => s.(forwards := s.forwards[port := q], retryAt := s.retryAt - {port})
    case Ok(Skipped) => s.(skipped := s.skipped + {port}, retryAt := s.retryAt - {port})
    case Ok(RetryLater) => s.(retryAt := s.retryAt[port := round.now + RETRY_DELAY])
    case Err(_) => s.(retryAt := s.retryAt[port := round.now + RETRY_DELAY])
  }

  predicate IsLeast(ports: set<nat>, m: nat) {
    m in ports && forall p :: p in ports ==> m <= p
  }

  lemma {:induction false} HasLeast(ports: set<nat>)
    requires ports != {}
    ensures exists m :: IsLeast(ports, m)
  {
    var p :| p in ports;
    if ports == {p} {
      assert IsLeast(ports, p);
    } else {
      HasLeast(ports - {p});
      var m :| IsLeast(ports - {p}, m);
      assert forall q :: q in ports ==> q == p || q in ports - {p};
      assert IsLeast(ports, if p < m then p else m);
    }
  }

  function Least(ports: set<nat>): (m: nat)
    requires ports != {}
    ensures IsLeast(ports, m)
  {
    HasLeast(ports);
    var m :| IsLeast(ports, m);
    m
  }

  /** The attempts of one round, in ascending order of ports. */
  function AttemptAll(s: State, round: Round, pending: set<nat>): State
    decreases |pending|
  {
    if pending == {} then s
    else
      var port := Least(pending);
      AttemptAll(Attempt(s, round, port), round, pending - {port})
  }

  function Reconciled(s: State, round: Round): State {
    var kept := Retire(s, s.desired - round.target);
    AttemptAll(kept, round, Pending(kept, round)).(desired := round.target)
  }

  lemma RetireNone(s: State)
    ensures Retire(s, {}) == s
  {
    assert s.forwards - {} == s.forwards && s.retryAt - {} == s.retryAt && s.skipped - {} == s.skipped;
  }

  lemma RetireOneMore(s: State, done: set<nat>, port: nat)
    ensures Retire(Retire(s, done), {port}) == Retire(s, done + {port})
  {
    assert s.forwards - done - {port} == s.forwards - (done + {port});
    assert s.retryAt - done - {port} == s.retryAt - (done + {port});
    assert s.skipped - done - {port} == s.skipped - (done + {port});
  }

  class ForwardManager {
    var desired: set<nat>
    var forwards: map<nat, nat>
    var skipped: set<nat>
    var retryAt: map<nat, nat>

    constructor ()
      ensures View() == INITIAL
    {
      desired, forwards, skipped, retryAt := {}, map[], {}, map[];
    }

    function View(): State
      reads this
    {
      State(desired, forwards, skipped, retryAt)
    }

    /** reconcile */
    method Reconcile(round: Round)
      modifies this
      ensures View() == Reconciled(old(View()), round)
    {
      hide Pending, AttemptAll;
      StopAll(desired - round.target);
      TryAll(round, Pending(View(), round));
      desired := round.target;
    }

    method StopAll(removed: set<nat>)
      modifies this
      ensures View() == Retire(old(View()), removed)
    {
      hide Retire;
      var left := removed;
      assert removed - left == {};
      RetireNone(View());
      while left != {}
        invariant left <= removed
        invariant View() == Retire(old(View()), removed - left)
        decreases |left|
      {
        var port :| port in left;
        Stop(port);
        RetireOneMore(old(View()), removed - left, port);
        assert removed - (left - {port}) == removed - left + {port};
        left := left - {port};
      }
      assert removed - left == removed;
    }

    method Stop(port: nat)
      modifies this
      ensures View() == Retire(old(View()), {port})
    {
      if port in forwards {
        forwards := forwards - {port};
      } else {
        assert forwards - {port} == forwards;
      }
      skipped := skipped - {port};
      retryAt := retryAt - {port};
    }

    method TryAll(round: Round, pending: set<nat>)
      modifies this
      ensures View() == AttemptAll(old(View()), round, pending)
    {
      hide Attempt;
      var left := pending;
      while left != {}
        invariant AttemptAll(View(), round, left) == AttemptAll(old(View()), round, pending)
        decreases |left|
      {
        var port := Least(left);
        Try(round, port);
        left := left - {port};
      }
    }

    method Try(round: Round, port: nat)
      modifies this
      ensures View() == Attempt(old(View()), round, port)
    {
      hide Setup;
      var setup := AddForward(Seen(View(), round, port), port, round.skip);
      match setup {
        case Ok(Started(q)) =>
          forwards := forwards[port := q];
          retryAt := retryAt - {port};
        case Ok(Skipped) =>
          skipped := skipped + {port};
          retryAt := retryAt - {port};
        case Ok(RetryLater) =>
          retryAt := retryAt[port := round.now + RETRY_DELAY];
        case Err(_) =>
          retryAt := retryAt[port := round.now + RETRY_DELAY];
      }
    }
  }
}
