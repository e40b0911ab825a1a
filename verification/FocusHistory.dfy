/** Focus, announcements and epochs by their places in the history (remote-text-input, wayland.rs). */
module FocusHistory {
  import opened Wrappers
  import opened Bytes
  import opened InputMethod

  /** Position d holds the last Done. */
  ghost predicate LastDone(h: History, d: int) {
    0 <= d < |h| && h[d] == Ev(Done) && forall k :: d < k < |h| ==> h[k] != Ev(Done)
  }

  /** An Activate at a, and no Deactivate from there up to n. */
  ghost predicate GivenAt(h: History, a: int, n: int) {
    0 <= a < n <= |h| && h[a] == Ev(Activate) && forall k :: a < k < n ==> h[k] != Ev(Deactivate)
  }

  /** An announcement at a, and no Done from there up to n. */
  ghost predicate AnnouncedAt(h: History, a: int, n: int) {
    && 0 <= a < n <= |h| && (h[a] == Ev(Activate) || h[a] == Ev(Deactivate))
    && forall k :: a < k < n ==> h[k] != Ev(Done)
  }

  /** A Done at d that takes an announcement up. */
  ghost predicate ChangeAt(h: History, d: int) {
    0 <= d < |h| && h[d] == Ev(Done) && exists a :: AnnouncedAt(h, a, d)
  }

  /** All positions of an item in a history that is one longer. */
  lemma Positions(h: History)
    requires h != []
    ensures forall k :: 0 <= k < |h| - 1 ==> Before(h)[k] == h[k]
    ensures Last(h) == h[|h| - 1]
  {}

  lemma {:induction false} WantedExact(h: History)
    ensures Wanted(h) <==> exists a :: GivenAt(h, a, |h|)
  {
    if h != [] {
      var p := Before(h);
      WantedExact(p);
      Positions(h);
      if Last(h) == Ev(Activate) {
        assert GivenAt(h, |h| - 1, |h|);
      } else if Last(h) != Ev(Deactivate) {
        forall a
          ensures GivenAt(p, a, |p|) <==> GivenAt(h, a, |h|)
        {
        }
      }
    }
  }

  /** There is a focus exactly if the last Done comes after an Activate with no Deactivate in between. */
  lemma {:induction false} ActiveExact(h: History)
    ensures Active(h) <==> exists d, a :: LastDone(h, d) && GivenAt(h, a, d)
  {
    if h != [] {
      var p := Before(h);
      ActiveExact(p);
      Positions(h);
      if Last(h) == Ev(Done) {
        WantedExact(p);
        assert LastDone(h, |h| - 1);
        if Wanted(p) {
          var a :| GivenAt(p, a, |p|);
          assert GivenAt(h, a, |h| - 1);
        }
        forall d, a | LastDone(h, d) && GivenAt(h, a, d)
          ensures GivenAt(p, a, |p|)
        {
          assert d == |h| - 1;
        }
      } else {
        forall d, a
          ensures LastDone(p, d) && GivenAt(p, a, d) <==> LastDone(h, d) && GivenAt(h, a, d)
        {
        }
      }
    }
  }

  lemma {:induction false} AnnouncedExact(h: History)
    ensures Announced(h) <==> exists a :: AnnouncedAt(h, a, |h|)
  {
    if h != [] {
      var p := Before(h);
      AnnouncedExact(p);
      Positions(h);
      if Last(h) == Ev(Activate) || Last(h) == Ev(Deactivate) {
        assert AnnouncedAt(h, |h| - 1, |h|);
      } else if Last(h) != Ev(Done) {
        forall a
          ensures AnnouncedAt(p, a, |p|) <==> AnnouncedAt(h, a, |h|)
        {
        }
      }
    }
  }

  lemma ChangeExact(h: History)
    requires h != []
    ensures FocusChange(h) <==> ChangeAt(h, |h| - 1)
  {
    var p := Before(h);
    Positions(h);
    AnnouncedExact(p);
    var d := |h| - 1;
    if Announced(p) {
      var a :| AnnouncedAt(p, a, |p|);
      assert AnnouncedAt(h, a, d);
    }
    if ChangeAt(h, d) {
      var a :| AnnouncedAt(h, a, d);
      assert AnnouncedAt(p, a, |p|);
    }
  }

  ghost function Changes(h: History): set<int> {
    set d | 0 <= d < |h| && ChangeAt(h, d)
  }

  ghost function DoneAt(h: History): set<int> {
    set d | 0 <= d < |h| && h[d] == Ev(Done)
  }

  /** The epoch is the number of Done events that take an announcement up, and the serial counts all of them. */
  lemma {:induction false} EpochExact(h: History)
    ensures Epoch(h) == |Changes(h)| && Dones(h) == |DoneAt(h)|
  {
    if h == [] {
      assert Changes(h) == {} && DoneAt(h) == {};
    } else {
      var p := Before(h);
      EpochExact(p);
      ChangeExact(h);
      hide ChangeAt, FocusChange;
      MoreChanges(h);
      MoreDone(h);
    }
  }

  lemma MoreChanges(h: History)
    requires h != []
    ensures |h| - 1 !in Changes(Before(h))
    ensures Changes(h) == Changes(Before(h)) + if ChangeAt(h, |h| - 1) then {|h| - 1} else {}
  {
    var p := Before(h);
    Positions(h);
    hide ChangeAt;
    forall d | 0 <= d < |p|
      ensures ChangeAt(p, d) <==> ChangeAt(h, d)
    {
      EarlierChange(p, h, d);
    }
  }

  lemma MoreDone(h: History)
    requires h != []
    ensures |h| - 1 !in DoneAt(Before(h))
    ensures DoneAt(h) == DoneAt(Before(h)) + if Last(h) == Ev(Done) then {|h| - 1} else {}
  {
    Positions(h);
  }

  lemma EarlierChange(p: History, h: History, d: int)
    requires 0 <= d < |p| < |h| && forall k :: 0 <= k < |p| ==> p[k] == h[k]
    ensures ChangeAt(p, d) <==> ChangeAt(h, d)
  {
    forall a
      ensures AnnouncedAt(p, a, d) <==> AnnouncedAt(h, a, d)
    {
    }
  }

  /** The first focus: after Activate and Done a short text is accepted; after Deactivate and Done nothing is. */
  lemma FirstFocus(text: bytes)
    requires |text| <= 3900 && 0 !in text
    ensures Judge([Ev(Activate), Ev(Done)], 1, text) == Ok(())
    ensures Judge([Ev(Activate), Ev(Done), Ev(Deactivate), Ev(Done)], 2, text) == Err(FocusChanged)
    ensures Judge([Ev(Activate)], 0, text) == Err(FocusChanged)
  {
    var h := [Ev(Activate), Ev(Done)];
    assert Before(h) == [Ev(Activate)] && Before([Ev(Activate)]) == [];
    assert Active(h) && Epoch(h) == 1;
    var g := [Ev(Activate), Ev(Done), Ev(Deactivate), Ev(Done)];
    assert Before(g) == [Ev(Activate), Ev(Done), Ev(Deactivate)];
    assert !Wanted(Before(g)) && !Active(g);
    assert !Active([Ev(Activate)]);
  }

  /** A preedit has its cursor at its end. */
  lemma CursorAtEnd(h: History, text: bytes, submit: bool, i: nat)
    requires i < |Requests(h, text, submit)|
    requires Requests(h, text, submit)[i].request.SetPreedit?
    ensures var r := Requests(h, text, submit)[i].request; r.begin == r.end == |r.text|
  {}
}
