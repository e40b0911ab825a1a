/**
 * The input-method backend (remote-text-input, wayland.rs). It keeps a few fields up to date; here each
 * field is tied to a definition over the whole history of events received and requests sent.
 */
module InputMethod {
  import opened Wrappers
  import opened Bytes

  const MAX_TEXT_BYTES := 3900

  /** What the compositor sends. Changes become effective at Done. */
  datatype Event = Activate | Deactivate | Done | OtherEvent

  /** What the backend sends. Text is held back until Commit, which names the last Done seen. */
  datatype Request =
    | SetPreedit(text: bytes, begin: nat, end: nat)
    | CommitString(text: bytes)
    | Commit(serial: nat)

  datatype Item = Ev(event: Event) | Req(request: Request)

  type History = seq<Item>

  datatype Fault = FocusChanged | BadText | NotReady

  // ----- what a history means -----

  function Before(h: History): History
    requires h != []
  {
    h[..|h| - 1]
  }

  function Last(h: History): Item
    requires h != []
  {
    h[|h| - 1]
  }

  function Dones(h: History): nat {
    if h == [] then 0 else Dones(Before(h)) + if Last(h) == Ev(Done) then 1 else 0
  }

  function Serial(h: History): nat {
    Dones(h) % 0x1_0000_0000
  }

  /** The focus has been announced anew since the last Done. */
  predicate Announced(h: History) {
    h != [] && (Last(h) == Ev(Activate) || Last(h) == Ev(Deactivate) || (Last(h) != Ev(Done) && Announced(Before(h))))
  }

  /** The last announcement was that there is a focus. */
  predicate Wanted(h: History) {
    h != [] && (Last(h) == Ev(Activate) || (Last(h) != Ev(Deactivate) && Wanted(Before(h))))
  }

  /** The backend has a focus: as announced before the last Done. */
  predicate Active(h: History) {
    h != [] && if Last(h) == Ev(Done) then Wanted(Before(h)) else Active(Before(h))
  }

  /** This history ends with a change of focus. */
  predicate FocusChange(h: History) {
    h != [] && Last(h) == Ev(Done) && Announced(Before(h))
  }

  /** How often the focus has changed. */
  function Epoch(h: History): nat {
    if h == [] then 0 else Epoch(Before(h)) + if FocusChange(h) then 1 else 0
  }

  /** What requests have prepared for the next Commit. */
  function HeldPreedit(h: History): bytes {
    if h == [] || FocusChange(h) || (Last(h).Req? && Last(h).request.Commit?) then []
    else if Last(h).Req? && Last(h).request.SetPreedit? then Last(h).request.text
    else HeldPreedit(Before(h))
  }

  function HeldText(h: History): bytes {
    if h == [] || FocusChange(h) || (Last(h).Req? && Last(h).request.Commit?) then []
    else if Last(h).Req? && Last(h).request.CommitString? then Last(h).request.text
    else HeldText(Before(h))
  }

  /** The preedit text that the focus shows: what the last Commit left, if the focus has not changed since. */
  function Preedit(h: History): bytes {
    if h == [] || FocusChange(h) then []
    else if Last(h).Req? && Last(h).request.Commit? then HeldPreedit(Before(h))
    else Preedit(Before(h))
  }

  /** The texts inserted for good, each with the focus that received it. */
  function Inserted(h: History): seq<(nat, bytes)> {
    if h == [] then []
    else Inserted(Before(h)) + if Last(h).Req? && Last(h).request.Commit? && HeldText(Before(h)) != []
                               then [(Epoch(h), HeldText(Before(h)))] else []
  }

  /** Every Commit names the number of Done events before it. */
  ghost predicate SerialsRight(h: History) {
    forall i :: 0 <= i < |h| && h[i].Req? && h[i].request.Commit? ==> h[i].request.serial == Serial(h[..i])
  }

  // ----- what the backend sends -----

  function Judge(h: History, epoch: nat, text: bytes): Result<(), Fault> {
    if !Active(h) || epoch != Epoch(h) then Err(FocusChanged)
    else if |text| > MAX_TEXT_BYTES || 0 in text then Err(BadText)
    else Ok(())
  }

  function Requests(h: History, text: bytes, submit: bool): History {
    (if submit then [Req(SetPreedit([], 0, 0)), Req(CommitString(text))] else [Req(SetPreedit(text, |text|, |text|))])
    + [Req(Commit(Serial(h)))]
  }

  function ClearRequests(h: History): History {
    if Active(h) then [Req(SetPreedit([], 0, 0)), Req(Commit(Serial(h)))] else []
  }

  lemma Extend(h: History, x: Item)
    ensures Before(h + [x]) == h && Last(h + [x]) == x
  {}

  lemma Extend2(h: History, x: Item, y: Item)
    ensures h + [x, y] == h + [x] + [y]
    ensures Before(h + [x, y]) == h + [x] && Last(h + [x, y]) == y
  {
    assert h + [x, y] == h + [x] + [y];
    Extend(h + [x], y);
  }

  lemma Extend3(h: History, x: Item, y: Item, z: Item)
    ensures h + [x, y, z] == h + [x, y] + [z]
    ensures Before(h + [x, y, z]) == h + [x, y] && Last(h + [x, y, z]) == z
  {
    assert h + [x, y, z] == h + [x, y] + [z];
    Extend(h + [x, y], z);
  }

  /** Requests change neither the focus nor the count of Done events. */
  ghost predicate SameFocus(h: History, g: History) {
    && Dones(g) == Dones(h) && Active(g) == Active(h) && Epoch(g) == Epoch(h)
    && Announced(g) == Announced(h) && Wanted(g) == Wanted(h)
  }

  lemma RequestKeepsFocus(h: History, r: Request)
    ensures SameFocus(h, h + [Req(r)])
  {
    Extend(h, Req(r));
  }

  lemma OneSerial(h: History, r: Request)
    requires SerialsRight(h) && (r.Commit? ==> r.serial == Serial(h))
    ensures SerialsRight(h + [Req(r)])
  {
    var g := h + [Req(r)];
    forall i | 0 <= i < |g| && g[i].Req? && g[i].request.Commit?
      ensures g[i].request.serial == Serial(g[..i])
    {
      assert g[..i] == h[..i];
      if i == |h| {
        assert h[..i] == h;
      }
    }
  }

  /** A draft becomes the preedit; a submitted text is inserted and leaves no preedit. */
  lemma RequestsDo(h: History, text: bytes, submit: bool)
    requires HeldText(h) == [] && SerialsRight(h)
    ensures var g := h + Requests(h, text, submit);
            && SameFocus(h, g) && SerialsRight(g) && HeldText(g) == []
            && Preedit(g) == (if submit then [] else text)
            && Inserted(g) == Inserted(h) + if submit && text != [] then [(Epoch(h), text)] else []
  {
    if submit {
      assert Requests(h, text, submit) == [Req(SetPreedit([], 0, 0)), Req(CommitString(text)), Req(Commit(Serial(h)))];
      Push(h, [], text, true);
    } else {
      assert Requests(h, text, submit) == [Req(SetPreedit(text, |text|, |text|)), Req(Commit(Serial(h)))];
      Push(h, text, [], false);
    }
  }

  lemma ClearDoes(h: History)
    requires HeldText(h) == [] && SerialsRight(h)
    ensures var g := h + ClearRequests(h);
            && SameFocus(h, g) && SerialsRight(g) && HeldText(g) == [] && Inserted(g) == Inserted(h)
            && Preedit(g) == (if Active(h) then [] else Preedit(h))
  {
    if Active(h) {
      Push(h, [], [], false);
    } else {
      assert h + [] == h;
    }
  }

  /** A preedit, perhaps a text, and a Commit. */
  lemma Push(h: History, preedit: bytes, text: bytes, insert: bool)
    requires HeldText(h) == [] && SerialsRight(h)
    ensures var p, c := Req(SetPreedit(preedit, |preedit|, |preedit|)), Req(Commit(Serial(h)));
            var g := h + if insert then [p, Req(CommitString(text)), c] else [p, c];
            && SameFocus(h, g) && SerialsRight(g) && HeldText(g) == []
            && Preedit(g) == preedit
            && Inserted(g) == Inserted(h) + if insert && text != [] then [(Epoch(h), text)] else []
  {
    hide SerialsRight;
    var p, c := SetPreedit(preedit, |preedit|, |preedit|), Commit(Serial(h));
    var h1 := h + [Req(p)];
    Extend(h, Req(p));
    RequestKeepsFocus(h, p);
    OneSerial(h, p);
    assert HeldPreedit(h1) == preedit && HeldText(h1) == [] && Inserted(h1) == Inserted(h);
    var h2 := if insert then h1 + [Req(CommitString(text))] else h1;
    if insert {
      Extend(h1, Req(CommitString(text)));
      RequestKeepsFocus(h1, CommitString(text));
      OneSerial(h1, CommitString(text));
      Extend3(h, Req(p), Req(CommitString(text)), Req(c));
      Extend2(h, Req(p), Req(CommitString(text)));
    } else {
      Extend2(h, Req(p), Req(c));
    }
    assert HeldPreedit(h2) == preedit && HeldText(h2) == (if insert then text else []) && Inserted(h2) == Inserted(h);
    Extend(h2, Req(c));
    RequestKeepsFocus(h2, c);
    OneSerial(h2, c);
  }

  /** An event inserts nothing; only a change of focus takes the preedit away. */
  lemma EventDoes(h: History, e: Event)
    requires HeldText(h) == [] && SerialsRight(h)
    ensures var g := h + [Ev(e)];
            && SerialsRight(g) && HeldText(g) == [] && Inserted(g) == Inserted(h)
            && Preedit(g) == (if e.Done? && Announced(h) then [] else Preedit(h))
            && Epoch(g) == Epoch(h) + (if e.Done? && Announced(h) then 1 else 0)
            && Active(g) == (if e.Done? then Wanted(h) else Active(h))
  {
    var g := h + [Ev(e)];
    Extend(h, Ev(e));
    forall i | 0 <= i < |g| && g[i].Req? && g[i].request.Commit?
      ensures g[i].request.serial == Serial(g[..i])
    {
      assert g[..i] == h[..i];
    }
  }

  /** Losing or gaining the focus shows in an announcement first. */
  lemma {:induction false} ActiveIsWanted(h: History)
    requires !Announced(h)
    ensures Active(h) == Wanted(h)
  {
    if h != [] && Last(h) != Ev(Done) {
      ActiveIsWanted(Before(h));
    }
  }

  /** A Commit that carries the present serial was sent after the last Done, unless 2^32 Done events came between. */
  lemma SerialTells(h: History, i: nat)
    requires SerialsRight(h) && i < |h| && h[i].Req? && h[i].request.Commit?
    requires Dones(h) - Dones(h[..i]) < 0x1_0000_0000
    ensures h[i].request.serial == Serial(h) <==> forall j :: i <= j < |h| ==> h[j] != Ev(Done)
  {
    hide Dones;
    DonesBetween(h, i);
    SameResidue(Dones(h[..i]), Dones(h));
  }

  lemma SameResidue(a: nat, b: nat)
    requires a <= b && b - a < 0x1_0000_0000
    ensures a % 0x1_0000_0000 == b % 0x1_0000_0000 <==> a == b
  {
    var q, r := a / 0x1_0000_0000, b / 0x1_0000_0000;
    if a % 0x1_0000_0000 == b % 0x1_0000_0000 {
      assert b - a == (r - q) * 0x1_0000_0000;
      assert r - q < 1 && r - q >= 0;
    }
  }

  lemma {:induction false} DonesBetween(h: History, i: nat)
    requires i <= |h|
    ensures Dones(h[..i]) <= Dones(h)
    ensures Dones(h[..i]) == Dones(h) <==> forall j :: i <= j < |h| ==> h[j] != Ev(Done)
  {
    if i < |h| {
      var p := Before(h);
      DonesBetween(p, i);
      assert p[..i] == h[..i];
      assert forall j :: 0 <= j < |p| ==> p[j] == h[j];
      assert Last(h) == h[|h| - 1];
    } else {
      assert h[..i] == h;
    }
  }

  // ----- the backend object -----

  class Backend {
    var active: bool
    var epoch: nat
    var published: (bool, nat)
    var pendingActive: bool
    var pendingReset: bool
    var serial: nat
    const ready: bool
    ghost var history: History

    /** The fields are the values that the history defines. */
    ghost predicate Valid()
      reads this
    {
      && active == Active(history)
      && epoch == Epoch(history)
      && published == (active, epoch)
      && pendingActive == Wanted(history)
      && pendingReset == Announced(history)
      && serial == Serial(history)
    }

    constructor (ready: bool)
      ensures Valid() && history == [] && this.ready == ready
    {
      this.ready := ready;
      active, epoch, published := false, 0, (false, 0);
      pendingActive, pendingReset, serial := false, false, 0;
      history := [];
    }

    method Send(r: Request)
      requires Valid()
      modifies this`history
      ensures Valid() && history == old(history) + [Req(r)]
    {
      RequestKeepsFocus(history, r);
      history := history + [Req(r)];
    }

    /** update */
    method Update(epoch: nat, text: bytes, submit: bool) returns (r: Result<(), Fault>)
      requires Valid()
      modifies this`history
      ensures Valid()
      ensures r == if Judge(old(history), epoch, text).Ok? && !ready then Err(NotReady)
                   else Judge(old(history), epoch, text)
      ensures r.Ok? <==> Active(old(history)) && epoch == Epoch(old(history)) && |text| <= 3900 && 0 !in text && ready
      ensures r == Err(FocusChanged) <==> !(Active(old(history)) && epoch == Epoch(old(history)))
      ensures history == old(history) + if r.Ok? then Requests(old(history), text, submit) else []
    {
      if !active || epoch != this.epoch {
        return Err(FocusChanged);
      }
      if |text| > MAX_TEXT_BYTES || 0 in text {
        return Err(BadText);
      }
      if !ready {
        return Err(NotReady);
      }
      if submit {
        Send(SetPreedit([], 0, 0));
        Send(CommitString(text));
      } else {
        var cursor := |text|;
        Send(SetPreedit(text, cursor, cursor));
      }
      Send(Commit(serial));
      return Ok(());
    }

    /** clear */
    method Clear()
      requires Valid()
      modifies this`history
      ensures Valid()
      ensures history == old(history) + if ready then ClearRequests(old(history)) else []
    {
      if active && ready {
        Send(SetPreedit([], 0, 0));
        Send(Commit(serial));
      }
    }

    /** The event handler. */
    method Handle(e: Event)
      requires Valid()
      modifies this
      ensures Valid() && history == old(history) + [Ev(e)]
    {
      Extend(history, Ev(e));
      history := history + [Ev(e)];
      match e {
        case Activate =>
          pendingActive := true;
          pendingReset := true;
        case Deactivate =>
          pendingActive := false;
          pendingReset := true;
        case Done =>
          serial := (serial + 1) % 0x1_0000_0000;
          active := pendingActive;
          if pendingReset {
            epoch := epoch + 1;
            pendingReset := false;
          }
          published := (active, epoch);
        case OtherEvent =>
      }
    }
  }
}
