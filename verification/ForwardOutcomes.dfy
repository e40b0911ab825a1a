/** What a round of reconcile does for each port, in terms of the machine (ssh-auto-port, forward.rs). */
module ForwardOutcomes {
  import opened Wrappers
  import opened PortSearch
  import opened Forwards
  import opened ForwardRuns

  /** The local ports that forwards hold when p's turn comes: kept ones, and those of smaller ports. */
  function Held(s: State, t: State, p: nat): set<nat> {
    set q | q in t.forwards && (q in s.forwards || q < p) :: t.forwards[q]
  }

  /** The machine as it is at p's turn. */
  function Turn(s: State, t: State, round: Round, p: nat): Host {
    var host := round.machine(p);
    Host(host.inUse + Held(s, t, p), host.failing)
  }

  /** The port is wanted, not settled, and not waiting. */
  predicate Due(s: State, round: Round, p: nat) {
    p in round.target && p !in s.forwards && p !in s.skipped && !(p in s.retryAt && s.retryAt[p] > round.now)
  }

  /** No candidate can be bound, or one that fails oddly is preferred to every one that can. */
  ghost predicate NoneUsable(host: Host, p: nat) {
    || (forall c :: Candidate(p, c) ==> !Free(host, c))
    || (exists c :: Candidate(p, c) && c in host.failing
                    && forall q :: Candidate(p, q) && Free(host, q) ==> Before(p, c, q))
  }

  /** q is free and may stand in for p, and all that is preferred to it is in use. */
  ghost predicate Nearest(host: Host, p: nat, q: nat) {
    Candidate(p, q) && Free(host, q) && forall c :: Candidate(p, c) && Before(p, c, q) ==> Busy(host, c)
  }

  /** Where the port is afterwards. */
  ghost predicate Outcome(host: Host, skip: bool, now: nat, t: State, p: nat) {
    && (Free(host, p) ==> p in t.forwards && t.forwards[p] == p)
    && (p in host.failing ==> p in t.retryAt)
    && (Busy(host, p) && skip ==> p in t.skipped)
    && (Busy(host, p) && !skip && NoneUsable(host, p) ==> p in t.retryAt)
    && (Busy(host, p) && !skip && !NoneUsable(host, p) ==> p in t.forwards && Nearest(host, p, t.forwards[p]))
    && (p in t.retryAt ==> t.retryAt[p] == now + 30_000)
  }

  lemma SearchOutcome(host: Host, p: nat)
    ensures var r := Search(host, p, 1);
            if r.Some? && r.value.Ok? then !NoneUsable(host, p) && Nearest(host, p, r.value.value)
            else NoneUsable(host, p)
  {
    SearchFrom(host, p, 1);
    SearchFails(host, p);
    assert forall c :: Candidate(p, c) <==> From(p, 1, c);
    hide Search, Candidate, Before;
  }

  lemma AttemptOutcome(u: State, round: Round, p: nat)
    requires p !in u.forwards && p !in u.skipped
    ensures Outcome(Seen(u, round, p), round.skip, round.now, Attempt(u, round, p), p)
  {
    SearchOutcome(Seen(u, round, p), p);
    hide Search, NoneUsable, Nearest;
  }

  /** Two states have the same to say about p. */
  predicate AgreeOn(a: State, b: State, p: nat) {
    && (p in a.forwards <==> p in b.forwards) && (p in a.forwards ==> a.forwards[p] == b.forwards[p])
    && (p in a.skipped <==> p in b.skipped)
    && (p in a.retryAt <==> p in b.retryAt) && (p in a.retryAt ==> a.retryAt[p] == b.retryAt[p])
  }

  /** The state in which p's turn came. */
  lemma {:induction false} AtTurn(s: State, round: Round, pending: set<nat>, ports: set<nat>, p: nat) returns (u: State)
    requires Good(s, ports) && (forall q :: q in pending ==> q !in s.forwards && q !in s.skipped) && p in pending
    ensures p !in u.forwards && p !in u.skipped
    ensures u.forwards.Values == Held(s, AttemptAll(s, round, pending), p)
    ensures AgreeOn(Attempt(u, round, p), AttemptAll(s, round, pending), p)
    decreases |pending|
  {
    hide Attempt, Good, OnlyAt, Settled;
    var port := Least(pending);
    var s1, t := Attempt(s, round, port), AttemptAll(s, round, pending);
    AttemptSettles(s, round, port);
    AttemptKeeps(s, s1, round, port, ports);
    StillPending(s, s1, port, pending);
    AttemptsKeep(s1, round, pending - {port}, ports + {port});
    AttemptsKeep(s, round, pending, ports);
    if p == port {
      u := s;
      FirstHolds(s, t, round, pending, p);
    } else {
      u := AtTurn(s1, round, pending - {port}, ports + {port}, p);
      SameHeld(s, s1, t, port, p);
    }
  }

  lemma FirstHolds(s: State, t: State, round: Round, pending: set<nat>, p: nat)
    requires IsLeast(pending, p) && Tried(s, t, round, pending)
    ensures s.forwards.Values == Held(s, t, p)
  {
    forall q | q in t.forwards && (q in s.forwards || q < p)
      ensures q in s.forwards && t.forwards[q] == s.forwards[q]
    {
    }
    forall v
      ensures v in s.forwards.Values <==> v in Held(s, t, p)
    {
      if v in s.forwards.Values {
        var q :| q in s.forwards && s.forwards[q] == v;
        assert t.forwards[q] == v;
      }
    }
  }

  lemma SameHeld(s: State, s1: State, t: State, port: nat, p: nat)
    requires port < p && OnlyAt(s, s1, port) && port !in s.forwards
    ensures Held(s, t, p) == Held(s1, t, p)
  {
    assert forall q :: q in t.forwards ==> ((q in s.forwards || q < p) <==> (q in s1.forwards || q < p));
  }

  /** Every port that is due ends up where the machine at its turn says; no forward is made or refused otherwise. */
  lemma PortSettles(s: State, round: Round, p: nat)
    requires Good(s, s.desired) && Due(s, round, p)
    ensures var t := Reconciled(s, round); Outcome(Turn(s, t, round, p), round.skip, round.now, t, p)
  {
    hide AttemptAll, Good, Outcome;
    var removed := s.desired - round.target;
    var kept := Retire(s, removed);
    RetireKeeps(s, s.desired, removed);
    var pending := Pending(kept, round);
    var done := AttemptAll(kept, round, pending);
    var u := AtTurn(kept, round, pending, s.desired - removed, p);
    AttemptOutcome(u, round, p);
    var t := Reconciled(s, round);
    AttemptsKeep(kept, round, pending, s.desired - removed);
    RoundKeeps(s, round);
    RetiredHeld(s, kept, t, round, p);
    assert Seen(u, round, p) == Turn(s, t, round, p);
    SameOutcome(Turn(s, t, round, p), round, Attempt(u, round, p), t, p);
  }

  lemma RetiredHeld(s: State, kept: State, t: State, round: Round, p: nat)
    requires kept == Retire(s, s.desired - round.target)
    requires Good(s, s.desired) && Good(t, round.target)
    ensures Held(kept, t, p) == Held(s, t, p)
  {
    forall q | q in t.forwards
      ensures q in kept.forwards <==> q in s.forwards
    {
      assert q in round.target;
    }
  }

  lemma SameOutcome(host: Host, round: Round, a: State, b: State, p: nat)
    requires AgreeOn(a, b, p) && Outcome(host, round.skip, round.now, a, p)
    ensures Outcome(host, round.skip, round.now, b, p)
  {
    hide NoneUsable, Nearest;
  }

  /** The same in a run, for the last of any rounds. */
  lemma RunSettles(rounds: seq<Round>, round: Round, p: nat)
    requires Due(Run(rounds), round, p)
    ensures var s, t := Run(rounds), Run(rounds + [round]);
            Outcome(Turn(s, t, round, p), round.skip, round.now, t, p)
  {
    hide Reconciled, Good, Outcome;
    RunIsGood(rounds);
    assert (rounds + [round])[..|rounds|] == rounds;
    PortSettles(Run(rounds), round, p);
  }
}
