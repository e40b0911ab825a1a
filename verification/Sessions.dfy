/**
 * Web sessions and the backend, step by step (remote-text-input, main.rs and wayland.rs). Sessions queue
 * for one lock; its holder sends commands down one channel; the backend takes them in order, between
 * events of the compositor. Any interleaving of the steps below can happen.
 */
module Sessions {
  import opened Wrappers
  import opened Bytes
  import opened InputMethod

  /** Where a session is. All but the first hold the lock. */
  datatype Phase =
    | Waiting
    | Starting              // about to send the first status
    | Ready                 // waiting for a message or a change of status
    | Asking(request: nat)  // waiting for the reply to an update
    | Responding            // about to send something to the browser
    | Closing               // about to queue Clear
    | Releasing             // about to give the lock up

  datatype Command =
    | Update(session: nat, request: nat, epoch: nat, text: bytes, submit: bool)
    | Clear

  datatype Answer = Answer(session: nat, request: nat, result: Result<(), Fault>)

  /** An accepted update, and the length of the history when it was processed. */
  datatype Accepted = Accepted(update: Command, at: nat)

  /** Whose draft the preedit is, and for which focus. */
  datatype Draft = Draft(session: nat, epoch: nat, text: bytes)

  datatype Sys = Sys(
    phases: map<nat, Phase>, // sessions are numbered in the order in which they queue
    joined: nat,
    permit: Option<nat>,
    waiters: seq<nat>,
    commands: seq<Command>,
    askers: seq<nat>,        // which session made each request
    answers: seq<Answer>,
    history: History,
    accepted: seq<Accepted>,
    draft: Option<Draft>)

  const INITIAL := Sys(map[], 0, None, [], [], [], [], [], [], None)

  datatype Label =
    | Join                             // a session polls the lock for the first time
    | Leave(k: nat)                    // the k-th waiter is gone
    | Abandon                          // a session is gone after it was handed the lock, before it noticed
    | Acquire
    | SendInitial(ok: bool)
    | Notice                           // the status changed, or the message is not understood
    | Ask(epoch: nat, text: bytes, submit: bool)
    | TakeReply
    | Respond(ok: bool)
    | Break                            // the browser is gone
    | SendClear
    | Release
    | Process                          // the backend takes a command
    | Compositor(event: Event)

  predicate Holds(s: Sys, p: Phase) {
    s.permit.Some? && s.permit.value in s.phases && s.phases[s.permit.value] == p
  }

  predicate HoldsAsking(s: Sys) {
    s.permit.Some? && s.permit.value in s.phases && s.phases[s.permit.value].Asking?
  }

  predicate Enabled(s: Sys, l: Label) {
    match l
    case Join => true
    case Leave(k) => k < |s.waiters|
    case Abandon => Holds(s, Waiting)
    case Acquire => Holds(s, Waiting)
    case SendInitial(_) => Holds(s, Starting)
    case Notice => Holds(s, Ready)
    case Ask(_, _, _) => Holds(s, Ready)
    case TakeReply => HoldsAsking(s) && s.phases[s.permit.value].request < |s.answers|
    case Respond(_) => Holds(s, Responding)
    case Break => Holds(s, Ready)
    case SendClear => Holds(s, Closing)
    case Release => Holds(s, Releasing)
    case Process => s.commands != []
    case Compositor(_) => true
  }

  /** The lock goes to the session that has queued longest. */
  function Pass(s: Sys): Sys {
    if s.waiters == [] then s.(permit := None) else s.(permit := Some(s.waiters[0]), waiters := s.waiters[1..])
  }

  function Enter(s: Sys, p: Phase): Sys
    requires s.permit.Some?
  {
    s.(phases := s.phases[s.permit.value := p])
  }

  function Processed(s: Sys): Sys
    requires s.commands != []
  {
    var t := s.(commands := s.commands[1..]);
    match s.commands[0]
    case Clear => t.(history := s.history + ClearRequests(s.history),
                     draft := if Active(s.history) then None else s.draft)
    case Update(session, request, epoch, text, submit) =>
      var result := Judge(s.history, epoch, text);
      var u := t.(answers := s.answers + [Answer(session, request, result)]);
      if result.Err? then u
      else u.(history := s.history + Requests(s.history, text, submit),
              accepted := s.accepted + [Accepted(s.commands[0], |s.history|)],
              draft := if submit then None else Some(Draft(session, epoch, text)))
  }

  function Step(s: Sys, l: Label): Sys
    requires Enabled(s, l)
  {
    match l
    case Join =>
      var t := s.(phases := s.phases[s.joined := Waiting], joined := s.joined + 1);
      if s.permit.None? && s.waiters == [] then t.(permit := Some(s.joined)) else t.(waiters := s.waiters + [s.joined])
    case Leave(k) =>
      s.(phases := s.phases - {s.waiters[k]}, waiters := s.waiters[..k] + s.waiters[k + 1..])
    case Abandon => Pass(s.(phases := s.phases - {s.permit.value}))
    case Acquire => Enter(s, Starting)
    case SendInitial(ok) => Enter(s, if ok then Ready else Releasing)
    case Notice => Enter(s, Responding)
    case Ask(epoch, text, submit) =>
      Enter(s.(commands := s.commands + [Update(s.permit.value, |s.askers|, epoch, text, submit)],
               askers := s.askers + [s.permit.value]),
            Asking(|s.askers|))
    case TakeReply => Enter(s, Responding)
    case Respond(ok) => Enter(s, if ok then Ready else Closing)
    case Break => Enter(s, Closing)
    case SendClear => Enter(s.(commands := s.commands + [Clear]), Releasing)
    case Release => Pass(s.(phases := s.phases - {s.permit.value}))
    case Process => Processed(s)
    case Compositor(e) =>
      s.(history := s.history + [Ev(e)],
         draft := if e.Done? && Announced(s.history) then None else s.draft)
  }

  // ----- the invariant -----

  /** The sessions present are the holder of the lock and, in the order in which they came, the waiters. */
  ghost predicate Queued(s: Sys) {
    && (s.permit.None? ==> s.waiters == [])
    && (s.permit.Some? ==> s.permit.value in s.phases && s.permit.value < s.joined)
    && (forall k :: 0 <= k < |s.waiters| ==> s.waiters[k] in s.phases && s.phases[s.waiters[k]] == Waiting)
    && (forall k :: 0 <= k < |s.waiters| ==> s.permit.Some? && s.permit.value < s.waiters[k] < s.joined)
    && (forall j, k :: 0 <= j < k < |s.waiters| ==> s.waiters[j] < s.waiters[k])
    && (forall i :: i in s.phases ==> s.permit == Some(i) || i in s.waiters)
  }

  predicate Pending(s: Sys) {
    s.commands != [] && s.commands[|s.commands| - 1].Update?
  }

  /** At most one update is under way: the holder's, and nothing is queued behind it. Replies match updates. */
  ghost predicate Answering(s: Sys) {
    && (forall k :: 0 <= k < |s.commands| - 1 ==> s.commands[k].Clear?)
    && |s.answers| + (if Pending(s) then 1 else 0) == |s.askers|
    && (forall k :: 0 <= k < |s.answers| ==> s.answers[k].request == k && s.answers[k].session == s.askers[k])
    && (Pending(s) ==>
          var u := s.commands[|s.commands| - 1];
          s.permit == Some(u.session) && Holds(s, Asking(u.request)))
    && (HoldsAsking(s) ==>
          var n := s.phases[s.permit.value].request;
          n == |s.askers| - 1 && s.askers[n] == s.permit.value)
  }

  /** The preedit is the draft, made for the present focus; all that was accepted was made for the focus it met. */
  ghost predicate Focused(s: Sys) {
    && HeldText(s.history) == [] && SerialsRight(s.history)
    && Preedit(s.history) == (if s.draft.Some? then s.draft.value.text else [])
    && (s.draft.Some? ==> Active(s.history) && s.draft.value.epoch == Epoch(s.history))
    && Inserted(s.history) == Sent(s.accepted)
    && (forall k :: 0 <= k < |s.accepted| ==> Met(s.history, s.accepted[k]))
  }

  /** The texts submitted, with the focus each was made for. */
  function Sent(accepted: seq<Accepted>): seq<(nat, bytes)> {
    if accepted == [] then []
    else
      var u := accepted[|accepted| - 1].update;
      Sent(accepted[..|accepted| - 1]) + if u.Update? && u.submit && u.text != [] then [(u.epoch, u.text)] else []
  }

  /** The update came while its focus was the active one. */
  ghost predicate Met(h: History, a: Accepted) {
    a.at <= |h| && a.update.Update? && Active(h[..a.at]) && Epoch(h[..a.at]) == a.update.epoch
  }

  predicate Drafting(p: Phase) {
    p.Ready? || p.Asking? || p.Responding? || p.Closing?
  }

  /** A draft belongs to the session in control, or its Clear is on the way. */
  ghost predicate Owned(s: Sys) {
    s.draft.Some? ==>
      || Clear in s.commands
      || (s.permit == Some(s.draft.value.session) && s.permit.value in s.phases && Drafting(s.phases[s.permit.value]))
  }

  ghost predicate Inv(s: Sys) {
    Queued(s) && Answering(s) && Focused(s) && Owned(s)
  }

  // ----- every step keeps it -----

  lemma JoinQueued(s: Sys)
    requires Queued(s)
    ensures Queued(Step(s, Join))
  {
    var t := Step(s, Join);
    forall i | i in t.phases
      ensures t.permit == Some(i) || i in t.waiters
    {
      if i == s.joined && s.permit.Some? {
        assert t.waiters[|s.waiters|] == i;
      }
    }
  }

  /** The waiters without the k-th. */
  lemma OneLess(waiters: seq<nat>, k: nat)
    requires k < |waiters|
    ensures var rest := waiters[..k] + waiters[k + 1..];
            && (forall j :: 0 <= j < |rest| ==> rest[j] == waiters[if j < k then j else j + 1])
            && (forall i :: i in waiters && i != waiters[k] ==> i in rest)
  {
    var rest := waiters[..k] + waiters[k + 1..];
    forall i | i in waiters && i != waiters[k]
      ensures i in rest
    {
      var j :| 0 <= j < |waiters| && waiters[j] == i;
      assert rest[if j < k then j else j - 1] == i;
    }
  }

  lemma LeaveQueued(s: Sys, k: nat)
    requires Queued(s) && k < |s.waiters|
    ensures Queued(Step(s, Leave(k)))
  {
    OneLess(s.waiters, k);
    var rest := s.waiters[..k] + s.waiters[k + 1..];
    WithoutOne(s, k, rest);
  }

  lemma WithoutOne(s: Sys, k: nat, rest: seq<nat>)
    requires Queued(s) && k < |s.waiters| && |rest| == |s.waiters| - 1
    requires forall j :: 0 <= j < |rest| ==> rest[j] == s.waiters[if j < k then j else j + 1]
    requires forall i :: i in s.waiters && i != s.waiters[k] ==> i in rest
    ensures Queued(s.(phases := s.phases - {s.waiters[k]}, waiters := rest))
  {}

  /** The holder is gone, and the next in line has the lock. */
  lemma PassQueued(s: Sys)
    requires Queued(s) && s.permit.Some?
    ensures Queued(Pass(s.(phases := s.phases - {s.permit.value})))
  {
    var t := Pass(s.(phases := s.phases - {s.permit.value}));
    forall i | i in t.phases
      ensures t.permit == Some(i) || i in t.waiters
    {
      assert i in s.waiters;
      var j :| 0 <= j < |s.waiters| && s.waiters[j] == i;
      assert j == 0 || t.waiters[j - 1] == i;
    }
  }

  lemma EnterQueued(s: Sys, p: Phase)
    requires Queued(s) && s.permit.Some?
    ensures Queued(Enter(s, p))
  {}

  lemma StepQueued(s: Sys, l: Label)
    requires Queued(s) && Enabled(s, l)
    ensures Queued(Step(s, l))
  {
    hide Queued;
    match l
    case Join => JoinQueued(s);
    case Leave(k) => LeaveQueued(s, k);
    case Abandon => PassQueued(s);
    case Acquire => EnterQueued(s, Starting);
    case SendInitial(ok) => EnterQueued(s, if ok then Ready else Releasing);
    case Notice => EnterQueued(s, Responding);
    case Ask(epoch, text, submit) =>
      var u := Update(s.permit.value, |s.askers|, epoch, text, submit);
      var t := s.(commands := s.commands + [u], askers := s.askers + [s.permit.value]);
      SameQueue(s, t);
      EnterQueued(t, Asking(|s.askers|));
    case TakeReply => EnterQueued(s, Responding);
    case Respond(ok) => EnterQueued(s, if ok then Ready else Closing);
    case Break => EnterQueued(s, Closing);
    case SendClear =>
      SameQueue(s, s.(commands := s.commands + [Clear]));
      EnterQueued(s.(commands := s.commands + [Clear]), Releasing);
    case Release => PassQueued(s);
    case Process => SameQueue(s, Step(s, l));
    case Compositor(e) => SameQueue(s, Step(s, l));
  }

  lemma SameQueue(s: Sys, t: Sys)
    requires Queued(s)
    requires t.phases == s.phases && t.joined == s.joined && t.permit == s.permit && t.waiters == s.waiters
    ensures Queued(t)
  {}

  lemma StepAnswering(s: Sys, l: Label)
    requires Queued(s) && Answering(s) && Enabled(s, l)
    ensures Answering(Step(s, l))
  {
    match l
    case Join => JoinAnswering(s);
    case Leave(k) =>
    case Abandon => PassAnswering(s);
    case Acquire => EnterAnswering(s, Starting);
    case SendInitial(ok) => EnterAnswering(s, if ok then Ready else Releasing);
    case Notice => EnterAnswering(s, Responding);
    case Ask(epoch, text, submit) => AskAnswering(s, epoch, text, submit);
    case TakeReply => EnterAnswering(s, Responding);
    case Respond(ok) => EnterAnswering(s, if ok then Ready else Closing);
    case Break => EnterAnswering(s, Closing);
    case SendClear =>
    case Release => PassAnswering(s);
    case Process => ProcessAnswering(s);
    case Compositor(e) =>
  }

  lemma AskAnswering(s: Sys, epoch: nat, text: bytes, submit: bool)
    requires Answering(s) && Holds(s, Ready)
    ensures Answering(Step(s, Ask(epoch, text, submit)))
  {}

  lemma ProcessAnswering(s: Sys)
    requires Answering(s) && s.commands != []
    ensures Answering(Processed(s))
  {}

  lemma JoinAnswering(s: Sys)
    requires Queued(s) && Answering(s)
    ensures Answering(Step(s, Join))
  {}

  /** The next in line has not asked for anything yet. */
  lemma PassAnswering(s: Sys)
    requires Queued(s) && Answering(s) && s.permit.Some? && !HoldsAsking(s)
    ensures Answering(Pass(s.(phases := s.phases - {s.permit.value})))
  {}

  lemma EnterAnswering(s: Sys, p: Phase)
    requires Answering(s) && s.permit.Some? && !p.Asking?
    requires HoldsAsking(s) ==> s.phases[s.permit.value].request < |s.answers|
    ensures Answering(Enter(s, p))
  {}

  /** What was accepted stays as it was, whatever the history goes on with. */
  lemma MetLater(h: History, g: History, a: Accepted)
    requires Met(h, a)
    ensures Met(h + g, a)
  {
    assert (h + g)[..a.at] == h[..a.at];
  }

  lemma MetAllLater(h: History, g: History, accepted: seq<Accepted>)
    requires forall k :: 0 <= k < |accepted| ==> Met(h, accepted[k])
    ensures forall k :: 0 <= k < |accepted| ==> Met(h + g, accepted[k])
  {
    forall k | 0 <= k < |accepted|
      ensures Met(h + g, accepted[k])
    {
      MetLater(h, g, accepted[k]);
    }
  }

  lemma CompositorFocused(s: Sys, e: Event)
    requires Focused(s)
    ensures Focused(Step(s, Compositor(e)))
  {
    hide Met, SerialsRight, Sent;
    EventDoes(s.history, e);
    MetAllLater(s.history, [Ev(e)], s.accepted);
    if !Announced(s.history) {
      ActiveIsWanted(s.history);
    }
  }

  lemma ClearFocused(s: Sys)
    requires Focused(s) && s.commands != [] && s.commands[0].Clear?
    ensures Focused(Processed(s))
  {
    hide Met, SerialsRight, Sent;
    ClearDoes(s.history);
    MetAllLater(s.history, ClearRequests(s.history), s.accepted);
  }

  lemma UpdateFocused(s: Sys)
    requires Focused(s) && s.commands != [] && s.commands[0].Update?
    ensures Focused(Processed(s))
  {
    hide SerialsRight, Requests, Preedit, Inserted, HeldText;
    var u := s.commands[0];
    if Judge(s.history, u.epoch, u.text).Ok? {
      var more := Requests(s.history, u.text, u.submit);
      RequestsDo(s.history, u.text, u.submit);
      assert (s.history + more)[..|s.history|] == s.history;
      assert Met(s.history + more, Accepted(u, |s.history|));
      hide Met;
      MetAllLater(s.history, more, s.accepted);
      var t := Processed(s);
      assert t.accepted[..|t.accepted| - 1] == s.accepted;
    }
  }

  lemma StepFocused(s: Sys, l: Label)
    requires Focused(s) && Enabled(s, l)
    ensures Focused(Step(s, l))
  {
    match l
    case Process =>
      if s.commands[0].Clear? {
        ClearFocused(s);
      } else {
        UpdateFocused(s);
      }
    case Compositor(e) => CompositorFocused(s, e);
    case _ => SameFocused(s, Step(s, l));
  }

  lemma SameFocused(s: Sys, t: Sys)
    requires Focused(s) && t.history == s.history && t.accepted == s.accepted && t.draft == s.draft
    ensures Focused(t)
  {}

  lemma StepOwned(s: Sys, l: Label)
    requires Queued(s) && Answering(s) && Focused(s) && Owned(s) && Enabled(s, l)
    ensures Owned(Step(s, l))
  {
    hide Focused;
    match l
    case Process => ProcessOwned(s);
    case Join => assert s.joined in s.phases || s.permit != Some(s.joined);
    case SendClear => assert (s.commands + [Clear])[|s.commands|] == Clear;
    case _ =>
  }

  /** A Clear takes the draft away; an update comes from the session in control and leaves that session's draft. */
  lemma ProcessOwned(s: Sys)
    requires Queued(s) && Answering(s) && Focused(s) && Owned(s) && s.commands != []
    ensures Owned(Processed(s))
  {
    if s.commands[0].Clear? {
      assert Processed(s).draft.None?;
    } else {
      assert s.commands == [s.commands[0]];
      assert Holds(s, Asking(s.commands[0].request));
    }
  }

  lemma StepKeeps(s: Sys, l: Label)
    requires Inv(s) && Enabled(s, l)
    ensures Inv(Step(s, l))
  {
    hide Step, Enabled, Queued, Answering, Focused, Owned;
    StepQueued(s, l);
    StepAnswering(s, l);
    StepFocused(s, l);
    StepOwned(s, l);
  }

  // ----- over all runs -----

  /** A sequence of steps from the start, each possible when it is taken. */
  ghost predicate Possible(labels: seq<Label>)
    decreases |labels|, 0
  {
    labels == [] || (Possible(labels[..|labels| - 1])
                     && Enabled(After(labels[..|labels| - 1]), labels[|labels| - 1]))
  }

  ghost function After(labels: seq<Label>): Sys
    requires Possible(labels)
    decreases |labels|, 1
  {
    if labels == [] then INITIAL else Step(After(labels[..|labels| - 1]), labels[|labels| - 1])
  }

  lemma {:induction false} Always(labels: seq<Label>)
    requires Possible(labels)
    ensures Inv(After(labels))
  {
    hide Step, Enabled, Inv;
    if labels == [] {
      Start();
    } else {
      Always(labels[..|labels| - 1]);
      StepKeeps(After(labels[..|labels| - 1]), labels[|labels| - 1]);
    }
  }

  lemma Start()
    ensures Inv(INITIAL)
  {}

  /** Never do two sessions control, and control goes to the one that has been present longest. */
  lemma OneController(labels: seq<Label>, i: nat)
    requires Possible(labels) && i in After(labels).phases
    ensures var s := After(labels);
            && s.permit.Some? && s.permit.value <= i
            && (s.phases[i] != Waiting ==> s.permit == Some(i))
  {
    hide Possible, After, Answering, Focused, Owned;
    Always(labels);
    var s := After(labels);
    if s.permit != Some(i) {
      assert i in s.waiters;
      var k :| 0 <= k < |s.waiters| && s.waiters[k] == i;
    }
  }

  /** When an update is processed, what the focus shows is nothing or that session's own draft for this very focus. */
  lemma Isolation(labels: seq<Label>)
    requires Possible(labels)
    requires var s := After(labels); s.commands != [] && s.commands[0].Update?
    ensures var s := After(labels);
            && s.commands == [s.commands[0]]
            && s.permit == Some(s.commands[0].session)
            && (Preedit(s.history) != [] ==>
                  && s.draft.Some? && s.draft.value.text == Preedit(s.history)
                  && s.draft.value.session == s.commands[0].session
                  && s.draft.value.epoch == Epoch(s.history))
  {
    hide Possible, After, Queued;
    Always(labels);
    var s := After(labels);
    assert s.commands == [s.commands[0]];
  }

  /** Without a focus there is no preedit; every Commit names the Done events before it. */
  lemma NoFocusNoPreedit(labels: seq<Label>)
    requires Possible(labels)
    ensures var h := After(labels).history; SerialsRight(h) && (Active(h) || Preedit(h) == [])
  {
    hide Possible, After, Queued, Answering, Owned;
    Always(labels);
  }

  /** What was inserted is what was submitted and accepted, in order, each text in the focus it was meant for. */
  lemma InsertedAsAsked(labels: seq<Label>)
    requires Possible(labels)
    ensures var s := After(labels);
            && Inserted(s.history) == Sent(s.accepted)
            && forall k :: 0 <= k < |s.accepted| ==> Met(s.history, s.accepted[k])
  {
    hide Possible, After, Queued, Answering, Owned;
    Always(labels);
  }

  /** The k-th reply answers the k-th update; with no command left, no session waits in vain. */
  lemma RepliesMatch(labels: seq<Label>)
    requires Possible(labels)
    ensures var s := After(labels);
            && |s.answers| <= |s.askers| <= |s.answers| + 1
            && (forall k :: 0 <= k < |s.answers| ==> s.answers[k].request == k && s.answers[k].session == s.askers[k])
            && (HoldsAsking(s) ==>
                  var n := s.phases[s.permit.value].request;
                  && n == |s.askers| - 1 && s.askers[n] == s.permit.value
                  && (n < |s.answers| || (Pending(s) && s.commands[|s.commands| - 1].request == n)))
            && (!HoldsAsking(s) ==> |s.answers| == |s.askers|)
  {
    hide Possible, After, Queued, Focused, Owned;
    Always(labels);
    LastAsked(After(labels));
  }

  lemma LastAsked(s: Sys)
    requires Answering(s)
    ensures HoldsAsking(s) ==>
              var n := s.phases[s.permit.value].request;
              n < |s.answers| || (Pending(s) && s.commands[|s.commands| - 1].request == n)
    ensures !HoldsAsking(s) ==> |s.answers| == |s.askers|
  {}

  // ----- epochs -----

  lemma {:induction false} HistoryGrows(labels: seq<Label>, n: nat)
    requires Possible(labels) && n <= |labels|
    ensures Possible(labels[..n]) && After(labels[..n]).history <= After(labels).history
  {
    if n == |labels| {
      assert labels[..n] == labels;
    } else {
      var before := labels[..|labels| - 1];
      HistoryGrows(before, n);
      assert before[..n] == labels[..n];
      assert After(before).history <= Step(After(before), labels[|labels| - 1]).history;
    }
  }

  lemma {:induction false} EpochGrows(h: History, g: History)
    requires h <= g
    ensures Epoch(h) <= Epoch(g) && Dones(h) <= Dones(g)
  {
    if |h| < |g| {
      EpochGrows(h, Before(g));
    } else {
      assert h == g;
    }
  }

  /** Epochs never go back, and a Done that follows an announcement moves to the next. */
  lemma EpochsAdvance(labels: seq<Label>, n: nat)
    requires Possible(labels) && n < |labels|
    ensures Possible(labels[..n])
    ensures var h := After(labels[..n]).history;
            && Epoch(h) <= Epoch(After(labels).history)
            && (labels[n] == Compositor(Done) && Announced(h) ==> Epoch(h) < Epoch(After(labels).history))
  {
    hide Possible, After, Epoch, Enabled, Step;
    HistoryGrows(labels, n);
    HistoryGrows(labels, n + 1);
    NthStep(labels, n);
    var h, g := After(labels[..n]).history, After(labels[..n + 1]).history;
    EpochGrows(h, After(labels).history);
    EpochGrows(g, After(labels).history);
    if labels[n] == Compositor(Done) {
      DoneStep(After(labels[..n]));
    }
  }

  lemma NthStep(labels: seq<Label>, n: nat)
    requires n < |labels| && Possible(labels[..n]) && Possible(labels[..n + 1])
    ensures Enabled(After(labels[..n]), labels[n])
    ensures After(labels[..n + 1]) == Step(After(labels[..n]), labels[n])
  {
    hide Step, Enabled;
    assert labels[..n + 1][..n] == labels[..n];
  }

  lemma DoneStep(s: Sys)
    ensures Announced(s.history) ==> Epoch(Step(s, Compositor(Done)).history) == Epoch(s.history) + 1
  {
    Extend(s.history, Ev(Done));
  }
}
