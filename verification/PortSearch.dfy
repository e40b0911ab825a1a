/** The local port for a forward (ssh-auto-port, forward.rs): the remote port itself, or the nearest free one. */
module PortSearch {
  import opened Wrappers

  const REMAP_SEARCH_RADIUS := 200
  const MIN_REMAP_PORT := 1024
  const MAX_REMAP_PORT := 65535

  datatype BindError = BindFailed(port: nat)

  /** The local machine: the ports in use on 127.0.0.1, and those that cannot be bound for another reason. */
  datatype Host = Host(inUse: set<nat>, failing: set<nat>)

  /** try_bind: whether the port is now bound. Port 0 stands for any free port and is never in use. */
  function TryBind(host: Host, port: nat): Result<bool, BindError> {
    if port in host.failing then Err(BindFailed(port)) else Ok(port == 0 || port !in host.inUse)
  }

  // ----- the search, candidate by candidate -----

  function Above(port: nat, offset: nat): nat {
    port + offset
  }

  function Below(port: nat, offset: nat): nat {
    if offset <= port then port - offset else 0
  }

  predicate InRange(candidate: nat) {
    MIN_REMAP_PORT <= candidate <= MAX_REMAP_PORT
  }

  /** One candidate: None to go on. */
  function Probe(host: Host, candidate: nat): Option<Result<nat, BindError>> {
    if !InRange(candidate) then None
    else
      match TryBind(host, candidate)
      case Err(e) => Some(Err(e))
      case Ok(bound) => if bound then Some(Ok(candidate)) else None
  }

  /** What the search from an offset on finds: None if it runs out of candidates. */
  function Search(host: Host, port: nat, offset: nat): Option<Result<nat, BindError>>
    decreases REMAP_SEARCH_RADIUS + 1 - offset
  {
    if offset > REMAP_SEARCH_RADIUS then None
    else if Probe(host, Above(port, offset)).Some? then Probe(host, Above(port, offset))
    else if Probe(host, Below(port, offset)).Some? then Probe(host, Below(port, offset))
    else Search(host, port, offset + 1)
  }

  /** find_free_near */
  method FindFreeNear(host: Host, port: nat) returns (r: Result<Option<nat>, BindError>)
    ensures r == (match Search(host, port, 1)
                  case None => Ok(None)
                  case Some(Ok(q)) => Ok(Some(q))
                  case Some(Err(e)) => Err(e))
  {
    var offset := 1;
    while offset <= REMAP_SEARCH_RADIUS
      invariant 1 <= offset <= REMAP_SEARCH_RADIUS + 1
      invariant Search(host, port, offset) == Search(host, port, 1)
    {
      var candidates := [Above(port, offset), Below(port, offset)];
      for i := 0 to 2
        invariant 0 < i ==> Probe(host, Above(port, offset)).None?
        invariant 1 < i ==> Probe(host, Below(port, offset)).None?
      {
        assert candidates[i] == if i == 0 then Above(port, offset) else Below(port, offset);
        if InRange(candidates[i]) {
          var bound := TryBind(host, candidates[i]);
          match bound {
            case Err(e) =>
              return Err(e);
            case Ok(free) =>
              if free {
                return Ok(Some(candidates[i]));
              }
          }
        }
      }
      offset := offset + 1;
    }
    return Ok(None);
  }

  // ----- what the search finds -----

  function Distance(p: nat, q: nat): nat {
    if p <= q then q - p else p - q
  }

  /** The ports that may stand in for a port. */
  predicate Candidate(port: nat, q: nat) {
    1024 <= q <= 65535 && 1 <= Distance(port, q) <= 200
  }

  /** a is preferred to b: it is nearer, or as near and above. */
  predicate Before(port: nat, a: nat, b: nat) {
    Distance(port, a) < Distance(port, b) || (Distance(port, a) == Distance(port, b) && a > b)
  }

  /** The port can be bound. */
  predicate Free(host: Host, q: nat) {
    q !in host.failing && (q == 0 || q !in host.inUse)
  }

  /** The port is only in use. */
  predicate Busy(host: Host, q: nat) {
    q !in host.failing && q != 0 && q in host.inUse
  }

  /** Candidates from an offset on. */
  predicate From(port: nat, offset: nat, q: nat) {
    Candidate(port, q) && offset <= Distance(port, q)
  }

  lemma {:induction false} SearchFrom(host: Host, port: nat, offset: nat)
    requires 1 <= offset
    ensures match Search(host, port, offset)
            case None => forall q :: From(port, offset, q) ==> Busy(host, q)
            case Some(r) =>
              var q := if r.Ok? then r.value else r.error.port;
              && From(port, offset, q)
              && (if r.Ok? then Free(host, q) else q in host.failing)
              && forall c :: From(port, offset, c) && Before(port, c, q) ==> Busy(host, c)
    decreases REMAP_SEARCH_RADIUS + 1 - offset
  {
    if offset <= REMAP_SEARCH_RADIUS {
      SearchFrom(host, port, offset + 1);
      forall q | From(port, offset, q) && !From(port, offset + 1, q)
        ensures q == Above(port, offset) || q == Below(port, offset)
      {
      }
    }
  }

  /** find_free_near finds the free candidate that all others lose to, unless binding a better one fails oddly. */
  lemma NearestFree(host: Host, port: nat)
    requires forall c :: Candidate(port, c) ==> c !in host.failing
    ensures Search(host, port, 1).None? <==> forall c :: Candidate(port, c) ==> c in host.inUse
    ensures Search(host, port, 1).Some? ==>
              && Search(host, port, 1).value.Ok?
              && var q := Search(host, port, 1).value.value;
                 && Candidate(port, q) && q !in host.inUse
                 && forall c :: Candidate(port, c) && c !in host.inUse && c != q ==> Before(port, q, c)
  {
    SearchFrom(host, port, 1);
    assert forall c :: Candidate(port, c) <==> From(port, 1, c);
    var r := Search(host, port, 1);
    if r.Some? && r.value.Ok? {
      var q := r.value.value;
      forall c | Candidate(port, c) && c !in host.inUse && c != q
        ensures Before(port, q, c)
      {
        assert !Before(port, c, q);
      }
    }
  }

  /** The search fails exactly when a candidate that cannot be bound is preferred to every free one. */
  lemma SearchFails(host: Host, port: nat)
    ensures (Search(host, port, 1).Some? && Search(host, port, 1).value.Err?) <==>
            exists c :: Candidate(port, c) && c in host.failing
                     && forall q :: Candidate(port, q) && Free(host, q) ==> Before(port, c, q)
  {
    SearchFrom(host, port, 1);
    assert forall c :: Candidate(port, c) <==> From(port, 1, c);
    var r := Search(host, port, 1);
    if r.Some? && r.value.Err? {
      var c := r.value.error.port;
      forall q | Candidate(port, q) && Free(host, q)
        ensures Before(port, c, q)
      {
        assert !Before(port, q, c) && q != c;
      }
    }
  }
}
