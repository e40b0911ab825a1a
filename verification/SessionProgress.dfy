/** What sessions get done: an update is answered, its answer tells what became of it, and the lock moves on. */
module SessionProgress {
  import opened Wrappers
  import opened Bytes
  import opened InputMethod
  import opened Sessions

  // ----- what a command does -----

  lemma UpdateTells(s: Sys)
    requires Inv(s) && s.commands != [] && s.commands[0].Update?
    ensures var t, u := Step(s, Process), s.commands[0];
            && t.commands == s.commands[1..] && |t.answers| == |s.answers| + 1
            && t.phases == s.phases && t.permit == s.permit
            && var a := t.answers[|s.answers|];
               && a.session == u.session && a.request == u.request
               && (a.result.Ok? <==>
                     Active(s.history) && Epoch(s.history) == u.epoch && |u.text| <= 3900 && 0 !in u.text)
               && Preedit(t.history) == (if a.result.Err? then Preedit(s.history) else if u.submit then [] else u.text)
               && Inserted(t.history) == Inserted(s.history) +
                    (if a.result.Ok? && u.submit && u.text != [] then [(u.epoch, u.text)] else [])
               && (a.result.Err? ==> t.history == s.history)
  {
    hide Queued, Owned, SerialsRight;
    RequestsDo(s.history, s.commands[0].text, s.commands[0].submit);
  }

  /** An answer says whether the text arrived: as the preedit, or, submitted, in the focus it was meant for. */
  lemma AnswerTells(labels: seq<Label>)
    requires Possible(labels)
    requires var s := After(labels); s.commands != [] && s.commands[0].Update?
    ensures var s, t := After(labels), Step(After(labels), Process);
            var u := s.commands[0];
            && |t.answers| == |s.answers| + 1
            && var a := t.answers[|s.answers|];
               && a.session == u.session && a.request == u.request
               && (a.result.Ok? <==>
                     Active(s.history) && Epoch(s.history) == u.epoch && |u.text| <= 3900 && 0 !in u.text)
               && Preedit(t.history) == (if a.result.Err? then Preedit(s.history) else if u.submit then [] else u.text)
               && Inserted(t.history) == Inserted(s.history) +
                    (if a.result.Ok? && u.submit && u.text != [] then [(u.epoch, u.text)] else [])
               && (a.result.Err? ==> t.history == s.history)
  {
    hide Possible, After, Step, Inv;
    Always(labels);
    UpdateTells(After(labels));
  }

  /** A Clear leaves no preedit and inserts nothing. */
  lemma ClearTells(labels: seq<Label>)
    requires Possible(labels)
    requires var s := After(labels); s.commands != [] && s.commands[0].Clear?
    ensures var s, t := After(labels), Step(After(labels), Process);
            && t.commands == s.commands[1..] && t.answers == s.answers
            && Preedit(t.history) == [] && Inserted(t.history) == Inserted(s.history)
  {
    hide Possible, After, Queued, Owned, SerialsRight;
    Always(labels);
    ClearDoes(After(labels).history);
  }

  // ----- every update is answered -----

  function Processes(labels: seq<Label>): nat {
    if labels == [] then 0
    else Processes(labels[..|labels| - 1]) + if labels[|labels| - 1] == Process then 1 else 0
  }

  /** The holder waits for the reply to request n, with this many commands in the queue. */
  ghost predicate Awaits(s: Sys, n: nat, queue: nat) {
    HoldsAsking(s) && s.phases[s.permit.value].request == n && |s.commands| == queue
  }

  ghost predicate OnTheWay(s: Sys, n: nat, queue: int) {
    n < |s.answers| || (queue >= 0 && Awaits(s, n, queue))
  }

  /** Until the reply is there, a step neither lets the session go on nor adds a command. */
  lemma StepTowards(s: Sys, l: Label, n: nat, queue: int)
    requires Inv(s) && Enabled(s, l) && OnTheWay(s, n, queue)
    ensures OnTheWay(Step(s, l), n, if l == Process then queue - 1 else queue)
  {
    hide Focused, Owned;
    if n >= |s.answers| {
      LastAsked(s);
      hide Answering;
    }
  }

  lemma {:induction false} Towards(labels: seq<Label>, m: nat, n: nat)
    requires Possible(labels) && m <= |labels| && Possible(labels[..m])
    requires OnTheWay(After(labels[..m]), n, |After(labels[..m]).commands|)
    ensures OnTheWay(After(labels), n, |After(labels[..m]).commands| - Processes(labels[m..]))
    decreases |labels|
  {
    hide Step, Enabled, Inv, OnTheWay;
    if m == |labels| {
      assert labels[..m] == labels && labels[m..] == [];
    } else {
      var before := labels[..|labels| - 1];
      assert before[..m] == labels[..m] && labels[m..][..|labels| - m - 1] == before[m..];
      Towards(before, m, n);
      Always(before);
      StepTowards(After(before), labels[|labels| - 1], n, |After(labels[..m]).commands| - Processes(before[m..]));
    }
  }

  /** Whatever else happens, once the backend has taken as many commands as were queued, the reply is there. */
  lemma AnsweredInTime(labels: seq<Label>, m: nat)
    requires Possible(labels) && m <= |labels| && Possible(labels[..m]) && HoldsAsking(After(labels[..m]))
    ensures var s := After(labels[..m]);
            && Processes(labels[m..]) >= |s.commands| ==>
                 s.phases[s.permit.value].request < |After(labels).answers|
  {
    hide Possible, After, Inv, Processes;
    var s := After(labels[..m]);
    Towards(labels, m, s.phases[s.permit.value].request);
    RepliesMatch(labels);
  }

  // ----- the lock moves on -----

  /** The steps can be taken from s one after the other. */
  ghost predicate CanTake(s: Sys, labels: seq<Label>)
    decreases |labels|
  {
    labels == [] || (Enabled(s, labels[0]) && CanTake(Step(s, labels[0]), labels[1..]))
  }

  ghost function Taken(s: Sys, labels: seq<Label>): Sys
    requires CanTake(s, labels)
    decreases |labels|
  {
    if labels == [] then s else Taken(Step(s, labels[0]), labels[1..])
  }

  /** Continuing a run. */
  lemma {:induction false} Continued(labels: seq<Label>, more: seq<Label>)
    requires Possible(labels) && CanTake(After(labels), more)
    ensures Possible(labels + more) && After(labels + more) == Taken(After(labels), more)
    decreases |more|
  {
    hide Step, Enabled;
    if more == [] {
      assert labels + more == labels;
    } else {
      var longer := labels + [more[0]];
      assert longer[..|labels|] == labels;
      Continued(longer, more[1..]);
      assert longer + more[1..] == labels + more;
    }
  }

  predicate Occupied(s: Sys) {
    s.permit.Some? && s.permit.value in s.phases
  }

  /** How the session in control leaves, if the browser is gone. */
  function Leaving(s: Sys): Label
    requires Occupied(s)
  {
    match s.phases[s.permit.value]
    case Waiting => Acquire
    case Starting => SendInitial(false)
    case Ready => Break
    case Asking(n) => if n < |s.answers| then TakeReply else Process
    case Responding => Respond(false)
    case Closing => SendClear
    case Releasing => Release
  }

  predicate IsLeaving(l: Label) {
    l in {Acquire, SendInitial(false), Break, TakeReply, Process, Respond(false), SendClear, Release}
  }

  function StepsLeft(s: Sys): nat
    requires Occupied(s)
  {
    match s.phases[s.permit.value]
    case Waiting => 3
    case Starting => 2
    case Ready => 3
    case Asking(n) => 4 + if n < |s.answers| then 0 else |s.commands|
    case Responding => 3
    case Closing => 2
    case Releasing => 1
  }

  lemma LeavesSooner(s: Sys)
    requires Inv(s) && Occupied(s)
    ensures Enabled(s, Leaving(s)) && IsLeaving(Leaving(s))
    ensures var t := Step(s, Leaving(s));
            if StepsLeft(s) == 1 then
              t.permit == (if s.waiters == [] then None else Some(s.waiters[0])) && s.permit.value !in t.phases
            else
              t.permit == s.permit && Occupied(t) && t.waiters == s.waiters && StepsLeft(t) < StepsLeft(s)
  {
    hide Focused, Owned;
    LastAsked(s);
  }

  /** In a run so far, a session in control whose browser is gone passes the lock on, and needs none but the backend. */
  lemma {:induction false} LockMovesOn(labels: seq<Label>) returns (more: seq<Label>)
    requires Possible(labels) && Occupied(After(labels))
    ensures Possible(labels + more)
    ensures var s, t := After(labels), After(labels + more);
            && s.permit.value !in t.phases
            && t.permit == (if s.waiters == [] then None else Some(s.waiters[0]))
    ensures |more| <= StepsLeft(After(labels)) && forall k :: 0 <= k < |more| ==> IsLeaving(more[k])
    decreases StepsLeft(After(labels))
  {
    hide Step, Enabled, Inv, StepsLeft, Leaving, IsLeaving;
    Always(labels);
    LeavesSooner(After(labels));
    var l := Leaving(After(labels));
    var longer := labels + [l];
    assert longer[..|labels|] == labels;
    if StepsLeft(After(labels)) == 1 {
      more := [l];
    } else {
      var rest := LockMovesOn(longer);
      more := [l] + rest;
      assert longer + rest == labels + more;
    }
  }

  // ----- typing -----

  function Times(k: nat, l: Label): seq<Label> {
    if k == 0 then [] else [l] + Times(k - 1, l)
  }

  /** The same but for what the backend has processed. */
  ghost predicate SameSessions(s: Sys, t: Sys) {
    t.phases == s.phases && t.permit == s.permit && t.answers == s.answers && t.askers == s.askers
  }

  lemma OneClear(s: Sys)
    requires Inv(s) && s.commands != [] && s.commands[0].Clear?
    ensures var t := Step(s, Process);
            && Inv(t) && SameSessions(s, t) && t.commands == s.commands[1..]
            && SameFocus(s.history, t.history) && Inserted(t.history) == Inserted(s.history)
  {
    StepKeeps(s, Process);
    hide Queued, Answering, Owned, SerialsRight;
    ClearDoes(s.history);
  }

  /** The Clears in front of the queue. */
  lemma {:induction false} Cleared(s: Sys, k: nat)
    requires Inv(s) && k <= |s.commands| && forall j :: 0 <= j < k ==> s.commands[j].Clear?
    ensures CanTake(s, Times(k, Process))
    ensures var t := Taken(s, Times(k, Process));
            && Inv(t) && SameSessions(s, t) && t.commands == s.commands[k..]
            && SameFocus(s.history, t.history) && Inserted(t.history) == Inserted(s.history)
    decreases k
  {
    hide Step, Inv;
    if k > 0 {
      OneClear(s);
      Cleared(Step(s, Process), k - 1);
      assert Times(k, Process)[1..] == Times(k - 1, Process);
    }
  }

  lemma {:induction false} TakenSum(s: Sys, a: seq<Label>, b: seq<Label>)
    requires CanTake(s, a) && CanTake(Taken(s, a), b)
    ensures CanTake(s, a + b) && Taken(s, a + b) == Taken(Taken(s, a), b)
    decreases |a|
  {
    hide Step, Enabled;
    if a == [] {
      assert a + b == b;
    } else {
      assert (a + b)[1..] == a[1..] + b;
      TakenSum(Step(s, a[0]), a[1..], b);
    }
  }

  lemma ThreeSteps(s: Sys, x: Label, y: Label, z: Label)
    requires Enabled(s, x) && Enabled(Step(s, x), y) && Enabled(Step(Step(s, x), y), z)
    ensures CanTake(s, [x, y, z]) && Taken(s, [x, y, z]) == Step(Step(Step(s, x), y), z)
  {
    hide Step, Enabled;
    var t := Step(Step(s, x), y);
    assert [x, y, z][1..] == [y, z] && [y, z][1..] == [z] && [z][1..] == [];
    assert CanTake(Step(t, z), []) && Taken(Step(t, z), []) == Step(t, z);
    assert CanTake(t, [z]);
    assert Taken(t, [z]) == Taken(Step(t, z), []);
    assert CanTake(Step(s, x), [y, z]);
    assert Taken(Step(s, x), [y, z]) == Taken(t, [z]);
  }

  lemma Asked(s: Sys, text: bytes, submit: bool)
    requires Inv(s) && Holds(s, Waiting)
    ensures var labels := [Acquire, SendInitial(true), Ask(Epoch(s.history), text, submit)];
            && CanTake(s, labels)
            && var t, n := Taken(s, labels), |s.answers|;
               && Inv(t) && t.permit == s.permit && Holds(t, Asking(n))
               && t.history == s.history && t.answers == s.answers
               && t.commands == s.commands + [Update(s.permit.value, n, Epoch(s.history), text, submit)]
               && forall j :: 0 <= j < |s.commands| ==> t.commands[j].Clear?
  {
    var ask := Ask(Epoch(s.history), text, submit);
    var a := Step(s, Acquire);
    var b := Step(a, SendInitial(true));
    hide Queued, Focused, Owned, CanTake, Taken;
    LastAsked(s);
    assert Enabled(s, Acquire) && Enabled(a, SendInitial(true)) && Enabled(b, ask);
    StepKeeps(s, Acquire);
    StepKeeps(a, SendInitial(true));
    StepKeeps(b, ask);
    ThreeSteps(s, Acquire, SendInitial(true), ask);
  }

  /** The session takes its reply and passes it on. */
  lemma Replied(s: Sys, n: nat)
    requires Holds(s, Asking(n)) && n < |s.answers|
    ensures Enabled(s, TakeReply) && Enabled(Step(s, TakeReply), Respond(true))
    ensures var t := Step(Step(s, TakeReply), Respond(true));
            Holds(t, Ready) && t.permit == s.permit && t.answers == s.answers && t.history == s.history
  {}

  /** The backend takes the update, the session its reply, and the browser the response. */
  lemma Delivered(s: Sys, n: nat)
    requires Inv(s) && Holds(s, Asking(n)) && |s.commands| == 1 && s.commands[0].Update? && |s.answers| == n
    requires var u := s.commands[0];
             Active(s.history) && u.epoch == Epoch(s.history) && |u.text| <= 3900 && 0 !in u.text
    ensures var labels := [Process, TakeReply, Respond(true)];
            CanTake(s, labels) && var t, u := Taken(s, labels), s.commands[0];
            && t.permit == s.permit && Holds(t, Ready)
            && |t.answers| == |s.answers| + 1 && t.answers[n].result == Ok(())
            && Preedit(t.history) == (if u.submit then [] else u.text)
            && Inserted(t.history) == Inserted(s.history) +
                 if u.submit && u.text != [] then [(u.epoch, u.text)] else []
  {
    UpdateTells(s);
    assert Enabled(s, Process);
    var t := Step(s, Process);
    assert Holds(t, Asking(n));
    hide Inv, CanTake, Taken, Step, Enabled;
    Replied(t, n);
    ThreeSteps(s, Process, TakeReply, Respond(true));
  }

  /** The session that was handed the lock can type: its text reaches the focus, and it is told so. */
  lemma Typing(s: Sys, text: bytes, submit: bool)
    requires Inv(s) && Holds(s, Waiting) && Active(s.history) && |text| <= 3900 && 0 !in text
    ensures var labels := [Acquire, SendInitial(true), Ask(Epoch(s.history), text, submit)]
                          + Times(|s.commands|, Process) + [Process, TakeReply, Respond(true)];
            CanTake(s, labels) && var t := Taken(s, labels);
            && t.permit == s.permit && Holds(t, Ready)
            && |t.answers| == |s.answers| + 1 && t.answers[|s.answers|].result == Ok(())
            && Preedit(t.history) == (if submit then [] else text)
            && Inserted(t.history) == Inserted(s.history) +
                 if submit && text != [] then [(Epoch(s.history), text)] else []
  {
    var first := [Acquire, SendInitial(true), Ask(Epoch(s.history), text, submit)];
    var clears, last := Times(|s.commands|, Process), [Process, TakeReply, Respond(true)];
    Asked(s, text, submit);
    var a := Taken(s, first);
    Cleared(a, |s.commands|);
    var b := Taken(a, clears);
    hide Inv, CanTake, Taken;
    Delivered(b, |s.answers|);
    TakenSum(s, first, clears);
    TakenSum(s, first + clears, last);
  }
}
