/** What holds after every call of reconcile, over every run (ssh-auto-port, forward.rs). */
module ForwardRuns {
  import opened PortSearch
  import opened Forwards

  // ----- the invariant -----

  /** The port is forwarded, skipped or scheduled, and only one of these. */
  ghost predicate InOne(s: State, p: nat) {
    && (p in s.forwards || p in s.skipped || p in s.retryAt)
    && (p in s.forwards ==> p !in s.skipped && p !in s.retryAt)
    && (p in s.skipped ==> p !in s.retryAt)
  }

  /** Each of the ports is in exactly one of the three, and no other port is in any. */
  ghost predicate Split(s: State, ports: set<nat>) {
    && (forall p :: p in ports ==> InOne(s, p))
    && s.forwards.Keys + s.skipped + s.retryAt.Keys <= ports
  }

  /** No two forwards share a local port. */
  ghost predicate Distinct(s: State) {
    forall p, q :: p in s.forwards && q in s.forwards && s.forwards[p] == s.forwards[q] ==> p == q
  }

  /** Each forward listens on its own port, or on one that may stand in for it. */
  ghost predicate Placed(s: State) {
    forall p :: p in s.forwards ==> s.forwards[p] == p || Candidate(p, s.forwards[p])
  }

  ghost predicate Good(s: State, ports: set<nat>) {
    Split(s, ports) && Distinct(s) && Placed(s)
  }

  // ----- one attempt -----

  /** Nothing but the one port is touched. */
  ghost predicate OnlyAt(s: State, t: State, port: nat) {
    && t.desired == s.desired
    && (forall p :: p != port ==> (p in t.forwards <==> p in s.forwards))
    && (forall p :: p != port && p in s.forwards ==> t.forwards[p] == s.forwards[p])
    && (forall p :: p != port ==> (p in t.skipped <==> p in s.skipped))
    && (forall p :: p != port ==> (p in t.retryAt <==> p in s.retryAt))
    && (forall p :: p != port && p in s.retryAt ==> t.retryAt[p] == s.retryAt[p])
  }

  /** What the attempt does for its own port. */
  ghost predicate Settled(s: State, t: State, round: Round, port: nat) {
    && InOne(t, port)
    && (port in t.retryAt ==> t.retryAt[port] == round.now + RETRY_DELAY)
    && (port in t.skipped ==> round.skip)
    && (port in t.forwards ==>
          && (t.forwards[port] == port || (!round.skip && Candidate(port, t.forwards[port])))
          && (t.forwards[port] == 0 || t.forwards[port] !in s.forwards.Values))
  }

  lemma AttemptSettles(s: State, round: Round, port: nat)
    requires port !in s.forwards && port !in s.skipped
    ensures OnlyAt(s, Attempt(s, round, port), port)
    ensures Settled(s, Attempt(s, round, port), round, port)
  {
    hide Search;
    SearchFrom(Seen(s, round, port), port, 1);
  }

  lemma AttemptKeeps(s: State, t: State, round: Round, port: nat, ports: set<nat>)
    requires Good(s, ports) && port !in s.forwards && port !in s.skipped
    requires OnlyAt(s, t, port) && Settled(s, t, round, port)
    ensures Good(t, ports + {port})
  {
    forall p | p in t.forwards && p != port
      ensures port in t.forwards ==> t.forwards[p] != t.forwards[port]
    {
      assert s.forwards[p] in s.forwards.Values;
    }
  }

  // ----- all attempts of a round -----

  /** Ports outside the set are untouched, and those in it are settled. */
  ghost predicate Tried(s: State, t: State, round: Round, pending: set<nat>) {
    && (forall p :: p !in pending ==> (p in t.forwards <==> p in s.forwards))
    && (forall p :: p in s.forwards ==> p in t.forwards && t.forwards[p] == s.forwards[p])
    && (forall p :: p !in pending ==> (p in t.skipped <==> p in s.skipped))
    && (forall p :: p !in pending ==> (p in t.retryAt <==> p in s.retryAt))
    && (forall p :: p !in pending && p in s.retryAt ==> t.retryAt[p] == s.retryAt[p])
    && (forall p :: p in pending && p in t.retryAt ==> t.retryAt[p] == round.now + RETRY_DELAY)
    && (forall p :: p in pending && p in t.skipped ==> round.skip)
    && (forall p :: p in pending && p in t.forwards ==> t.forwards[p] == p || !round.skip)
  }

  lemma StillPending(s: State, t: State, port: nat, pending: set<nat>)
    requires OnlyAt(s, t, port) && forall p :: p in pending ==> p !in s.forwards && p !in s.skipped
    ensures forall p :: p in pending - {port} ==> p !in t.forwards && p !in t.skipped
  {}

  lemma TriedAfter(s: State, t: State, u: State, round: Round, port: nat, pending: set<nat>)
    requires port in pending && port !in s.forwards
    requires OnlyAt(s, t, port) && Settled(s, t, round, port) && Tried(t, u, round, pending - {port})
    ensures Tried(s, u, round, pending)
  {}

  lemma {:induction false} AttemptsKeep(s: State, round: Round, pending: set<nat>, ports: set<nat>)
    requires Good(s, ports) && forall p :: p in pending ==> p !in s.forwards && p !in s.skipped
    ensures Good(AttemptAll(s, round, pending), ports + pending)
    ensures Tried(s, AttemptAll(s, round, pending), round, pending)
    decreases |pending|
  {
    hide Attempt, Good, OnlyAt, Settled;
    if pending == {} {
      assert ports + pending == ports;
    } else {
      var port := Least(pending);
      var t := Attempt(s, round, port);
      AttemptSettles(s, round, port);
      AttemptKeeps(s, t, round, port, ports);
      StillPending(s, t, port, pending);
      AttemptsKeep(t, round, pending - {port}, ports + {port});
      TriedAfter(s, t, AttemptAll(s, round, pending), round, port, pending);
      assert ports + {port} + (pending - {port}) == ports + pending;
    }
  }

  // ----- one round -----

  lemma RetireKeeps(s: State, ports: set<nat>, removed: set<nat>)
    requires Good(s, ports)
    ensures Good(Retire(s, removed), ports - removed)
  {
    var t := Retire(s, removed);
    forall p | p in ports - removed
      ensures InOne(t, p)
    {
      assert InOne(s, p);
    }
  }

  /** What a round leaves alone, and what it does to the ports it tries. */
  ghost predicate Stepped(s: State, t: State, round: Round) {
    && (forall p :: p in round.target && p in s.forwards ==> p in t.forwards && t.forwards[p] == s.forwards[p])
    && (forall p :: p in round.target && p in s.skipped ==> p in t.skipped)
    && (forall p :: p in round.target && p in s.retryAt && s.retryAt[p] > round.now ==>
          p in t.retryAt && t.retryAt[p] == s.retryAt[p])
    && (forall p :: p in t.retryAt && !(p in s.retryAt && s.retryAt[p] > round.now) ==>
          t.retryAt[p] == round.now + RETRY_DELAY)
    && (forall p :: p in t.skipped && p !in s.skipped ==> round.skip)
    && (forall p :: p in t.forwards && p !in s.forwards ==> t.forwards[p] == p || !round.skip)
  }

  lemma RoundKeeps(s: State, round: Round)
    requires Good(s, s.desired)
    ensures Reconciled(s, round).desired == round.target
    ensures Good(Reconciled(s, round), round.target)
    ensures Stepped(s, Reconciled(s, round), round)
  {
    hide AttemptAll, Good;
    var removed := s.desired - round.target;
    var kept := Retire(s, removed);
    var pending := Pending(kept, round);
    RetireKeeps(s, s.desired, removed);
    AttemptsKeep(kept, round, pending, s.desired - removed);
    var t := AttemptAll(kept, round, pending);
    KeptPorts(s, kept, round, pending);
    SameParts(t, t.(desired := round.target), round.target);
    Steps(s, kept, t, round);
  }

  lemma KeptPorts(s: State, kept: State, round: Round, pending: set<nat>)
    requires kept == Retire(s, s.desired - round.target) && pending == Pending(kept, round)
    requires Good(kept, s.desired - (s.desired - round.target))
    ensures s.desired - (s.desired - round.target) + pending == round.target
  {
    forall p | p in round.target && p !in s.desired
      ensures p in pending
    {
    }
  }

  lemma SameParts(s: State, t: State, ports: set<nat>)
    requires Good(s, ports) && t == s.(desired := t.desired)
    ensures Good(t, ports)
  {
    forall p | p in ports
      ensures InOne(t, p)
    {
      assert InOne(s, p);
    }
  }

  lemma Steps(s: State, kept: State, t: State, round: Round)
    requires Good(s, s.desired) && kept == Retire(s, s.desired - round.target)
    requires Tried(kept, t, round, Pending(kept, round))
    ensures Stepped(s, t.(desired := round.target), round)
  {
    forall p | p in round.target && (p in s.forwards || p in s.skipped)
      ensures p !in Pending(kept, round)
    {
      assert p in s.desired && InOne(s, p);
    }
  }

  // ----- runs -----

  function Run(rounds: seq<Round>): State {
    if rounds == [] then INITIAL else Reconciled(Run(rounds[..|rounds| - 1]), rounds[|rounds| - 1])
  }

  /** After any rounds: the wanted ports are those of the last, split in three, on distinct local ports. */
  lemma {:induction false} RunIsGood(rounds: seq<Round>)
    ensures var s := Run(rounds);
            && s.desired == (if rounds == [] then {} else rounds[|rounds| - 1].target)
            && Good(s, s.desired)
  {
    if rounds != [] {
      RunIsGood(rounds[..|rounds| - 1]);
      RoundKeeps(Run(rounds[..|rounds| - 1]), rounds[|rounds| - 1]);
    }
  }

  lemma RunStep(rounds: seq<Round>, k: nat)
    requires k < |rounds|
    ensures Run(rounds[..k + 1]) == Reconciled(Run(rounds[..k]), rounds[k])
    ensures Stepped(Run(rounds[..k]), Run(rounds[..k + 1]), rounds[k])
    ensures Good(Run(rounds[..k]), Run(rounds[..k]).desired)
  {
    var now := rounds[..k + 1];
    assert now[..|now| - 1] == rounds[..k] && now[|now| - 1] == rounds[k];
    RunIsGood(rounds[..k]);
    RoundKeeps(Run(rounds[..k]), rounds[k]);
  }

  /** The option is set once for a run; it decides which of remapping and skipping can occur. */
  lemma {:induction false} RunMode(rounds: seq<Round>, skip: bool)
    requires forall k :: 0 <= k < |rounds| ==> rounds[k].skip == skip
    ensures skip ==> forall p :: p in Run(rounds).forwards ==> Run(rounds).forwards[p] == p
    ensures !skip ==> Run(rounds).skipped == {}
  {
    assert Run([]) == INITIAL;
    hide Run, Reconciled, Good, Stepped;
    if rounds == [] {
    } else {
      var n := |rounds| - 1;
      RunMode(rounds[..n], skip);
      RunStep(rounds, n);
      RunIsGood(rounds);
      assert rounds[..n + 1] == rounds;
      ModeKept(Run(rounds[..n]), Run(rounds), rounds[n]);
    }
  }

  lemma ModeKept(s: State, t: State, round: Round)
    requires Good(t, round.target) && Stepped(s, t, round)
    requires if round.skip then forall p :: p in s.forwards ==> s.forwards[p] == p else s.skipped == {}
    ensures if round.skip then forall p :: p in t.forwards ==> t.forwards[p] == p else t.skipped == {}
  {
    forall p | p in t.forwards && p in s.forwards
      ensures t.forwards[p] == s.forwards[p]
    {
      assert p in round.target;
    }
  }

  /** Round k tries to bind a local port for p. */
  ghost predicate Tries(rounds: seq<Round>, k: nat, p: nat)
    requires k < |rounds|
  {
    var s := Run(rounds[..k]);
    p in Pending(Retire(s, s.desired - rounds[k].target), rounds[k])
  }

  /** Round k tries and ends up scheduling another attempt. */
  ghost predicate Fails(rounds: seq<Round>, k: nat, p: nat)
    requires k < |rounds|
  {
    Tries(rounds, k, p) && p in Run(rounds[..k + 1]).retryAt
  }

  /** No attempt for the port is due before the time. */
  ghost predicate Waits(s: State, p: nat, time: nat) {
    p in s.forwards || p in s.skipped || (p in s.retryAt && s.retryAt[p] >= time)
  }

  /** While a port stays wanted, the attempt after a failed one comes at least 30 seconds later. */
  lemma RetriesApart(rounds: seq<Round>, i: nat, j: nat, p: nat)
    requires i < j < |rounds|
    requires forall a, b :: 0 <= a < b < |rounds| ==> rounds[a].now <= rounds[b].now
    requires forall k :: i <= k <= j ==> p in rounds[k].target
    requires Fails(rounds, i, p) && Tries(rounds, j, p)
    ensures rounds[j].now >= rounds[i].now + 30_000
  {
    hide Run, Reconciled, Good;
    StillWaits(rounds, i, j, p);
    RunIsGood(rounds[..j]);
    WaitingIsNotTried(Run(rounds[..j]), rounds[j], p, rounds[i].now + RETRY_DELAY);
  }

  lemma WaitingIsNotTried(s: State, round: Round, p: nat, time: nat)
    requires Good(s, s.desired) && Waits(s, p, time) && p in round.target
    requires p in Pending(Retire(s, s.desired - round.target), round)
    ensures round.now >= time
  {
    assert InOne(s, p);
  }

  lemma {:induction false} StillWaits(rounds: seq<Round>, i: nat, j: nat, p: nat)
    requires i < j <= |rounds|
    requires forall a, b :: 0 <= a < b < |rounds| ==> rounds[a].now <= rounds[b].now
    requires forall k :: i <= k < j ==> p in rounds[k].target
    requires Fails(rounds, i, p)
    ensures Waits(Run(rounds[..j]), p, rounds[i].now + RETRY_DELAY)
    decreases j
  {
    hide Run, Reconciled, Good;
    RunStep(rounds, j - 1);
    var s := Run(rounds[..j - 1]);
    if j > i + 1 {
      StillWaits(rounds, i, j - 1, p);
      RunIsGood(rounds[..j]);
      StepWaits(s, Run(rounds[..j]), rounds[j - 1], p, rounds[i].now + RETRY_DELAY);
    }
  }

  lemma StepWaits(s: State, t: State, round: Round, p: nat, time: nat)
    requires Good(s, s.desired) && Good(t, round.target) && Stepped(s, t, round)
    requires p in round.target && Waits(s, p, time) && round.now + RETRY_DELAY >= time
    ensures Waits(t, p, time)
  {
    assert InOne(t, p);
  }
}
