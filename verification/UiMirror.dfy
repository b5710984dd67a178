/** The view model mirroring the native state: every change notification queues a refresh on the main
    thread; a refresh reads three fields in separate native calls and then replaces the mirrored copy.
    Native setters may run between any two of these steps. */
module UiMirror {
  import opened RadioStates

  datatype VfoUi = VfoUi(frequency: int, mode: int, smeter: int)

  /** The refresh the main thread is executing, with what it has read so far. */
  datatype Refresh =
    | Idle
    | Started(vfo: int)
    | GotFrequency(vfo: int, frequency: int)
    | GotMode(vfo: int, frequency: int, mode: int)
    | GotSmeter(vfo: int, frequency: int, mode: int, smeter: int)

  datatype Machine = Machine(native: Radio, uiA: VfoUi, uiB: VfoUi, queue: seq<string>, refresh: Refresh)

  datatype Event =
    | Native(update: Update)  // a setter, atomic with its notification
    | Main                    // the next step of the main thread

  const START := Machine(DEFAULT_RADIO, VfoUi(14225000, 1, 0), VfoUi(7040000, 2, 0), [], Idle)

  /** `RadioMode.fromOrdinal`: USB outside the list. */
  function FromOrdinal(mode: int): int
  {
    if 0 <= mode <= 7 then mode else 1
  }

  /** What `refreshState` does with a key: the VFO it refreshes, or -1 for none.
      The test for "vfo.active" comes after the one for "vfo.a" and is never reached. */
  function Route(key: string): int
  {
    if StartsWithVfo(key, 'a') then 0 else if StartsWithVfo(key, 'b') then 1 else -1
  }

  /** `startsWith("vfo.")`, then the given letter. */
  predicate StartsWithVfo(key: string, letter: char)
  {
    |key| >= 5 && key[0] == 'v' && key[1] == 'f' && key[2] == 'o' && key[3] == '.' && key[4] == letter
  }

  predicate MainCanStep(m: Machine)
  {
    !m.refresh.Idle? || m.queue != []
  }

  function MainStep(m: Machine): Machine
  {
    match m.refresh
    case Idle =>
      if m.queue == [] then m
      else
        var vfo := Route(m.queue[0]);
        m.(queue := m.queue[1..], refresh := if vfo == -1 then Idle else Started(vfo))
    case Started(v) => m.(refresh := GotFrequency(v, Get(m.native, v).frequency))
    case GotFrequency(v, f) => m.(refresh := GotMode(v, f, FromOrdinal(Get(m.native, v).mode)))
    case GotMode(v, f, mode) => m.(refresh := GotSmeter(v, f, mode, Get(m.native, v).smeter))
    case GotSmeter(v, f, mode, s) =>
      if v == 0 then m.(uiA := VfoUi(f, mode, s), refresh := Idle)
      else m.(uiB := VfoUi(f, mode, s), refresh := Idle)
  }

  function Step(m: Machine, e: Event): Machine
  {
    match e
    case Native(u) => m.(native := Applied(m.native, u), queue := m.queue + Notices(m.native, u))
    case Main => MainStep(m)
  }

  function Run(m: Machine, events: seq<Event>): Machine
  {
    if events == [] then m else Step(Run(m, events[..|events| - 1]), events[|events| - 1])
  }

  // ----- Consistency -----

  function Ui(m: Machine, vfo: int): VfoUi
  {
    if vfo == 0 then m.uiA else m.uiB
  }

  ghost predicate Pending(m: Machine, vfo: int)
  {
    exists key :: key in m.queue && Route(key) == vfo
  }

  predicate InFlight(m: Machine, vfo: int)
  {
    !m.refresh.Idle? && m.refresh.vfo == vfo
  }

  ghost predicate Quiet(m: Machine, vfo: int)
  {
    !Pending(m, vfo) && !InFlight(m, vfo)
  }

  predicate Mirrored(m: Machine, vfo: int)
  {
    var v := Get(m.native, vfo);
    Ui(m, vfo) == VfoUi(v.frequency, FromOrdinal(v.mode), v.smeter)
  }

  /** What a refresh has read is still current. */
  predicate ReadsCurrent(m: Machine)
    requires !m.refresh.Idle?
  {
    var v := Get(m.native, m.refresh.vfo);
    match m.refresh
    case Started(_) => true
    case GotFrequency(_, f) => f == v.frequency
    case GotMode(_, f, mode) => f == v.frequency && mode == FromOrdinal(v.mode)
    case GotSmeter(_, f, mode, s) => f == v.frequency && mode == FromOrdinal(v.mode) && s == v.smeter
  }

  ghost predicate Inv(m: Machine)
  {
    (!m.refresh.Idle? ==> m.refresh.vfo == 0 || m.refresh.vfo == 1) &&
    forall vfo :: 0 <= vfo <= 1 && !Pending(m, vfo) ==> if InFlight(m, vfo) then ReadsCurrent(m) else Mirrored(m, vfo)
  }

  /** Setters of the three mirrored fields, with the VFO they write. */
  predicate Mirrors(u: Update)
  {
    u.Frequency? || u.Mode? || u.Smeter?
  }

  /** Setters whose effect the mirror follows: the tuning rate is not mirrored, so its number does not matter. */
  predicate Followed(u: Update)
  {
    Mirrors(u) ==> Honest(u)
  }

  /** A mirrored setter refreshes the VFO it writes exactly when its number is 0 or odd. */
  lemma KeysRoute(u: Update)
    ensures Mirrors(u) ==> (Route(Key(u)) == u.vfo % 2 <==> Honest(u))
    ensures Mirrors(u) && !Honest(u) ==> u.vfo % 2 == 0 && Route(Key(u)) == 1
    ensures u.ActiveVfo? ==> Route(Key(u)) == 0
  {
    assert Route("vfo.a.freq") == 0 && Route("vfo.a.mode") == 0 && Route("vfo.a.smeter") == 0 && Route("vfo.active") == 0;
    assert Route("vfo.b.freq") == 1 && Route("vfo.b.mode") == 1 && Route("vfo.b.smeter") == 1;
  }

  /** A key refreshes VFO A if it begins with "vfo.a" (which "vfo.active" does), VFO B if it begins with "vfo.b", and
      nothing otherwise. */
  lemma RouteMeaning(key: string)
    ensures Route(key) == 0 <==> "vfo.a" <= key
    ensures Route(key) == 1 <==> "vfo.b" <= key
    ensures Route(key) == -1 <==> !("vfo.a" <= key) && !("vfo.b" <= key)
  {
    if |key| >= 5 {
      assert key[..5] == [key[0], key[1], key[2], key[3], key[4]];
      assert "vfo.a" <= key <==> key[..5] == "vfo.a";
      assert "vfo.b" <= key <==> key[..5] == "vfo.b";
    }
  }

  lemma NativePreserves(m: Machine, u: Update)
    requires Inv(m) && Followed(u)
    ensures Inv(Step(m, Native(u)))
  {
    var m' := Step(m, Native(u));
    KeysRoute(u);
    forall vfo | 0 <= vfo <= 1 && !Pending(m', vfo)
      ensures if InFlight(m', vfo) then ReadsCurrent(m') else Mirrored(m', vfo)
    {
      assert forall key :: key in m.queue ==> key in m'.queue;
      assert !Pending(m, vfo);
      assert Applied(m.native, u) != m.native ==> Key(u) in m'.queue;
      var v, v' := Get(m.native, vfo), Get(m'.native, vfo);
      assert v'.frequency == v.frequency && v'.mode == v.mode && v'.smeter == v.smeter;
    }
  }

  lemma MainPreserves(m: Machine)
    requires Inv(m)
    ensures Inv(MainStep(m))
  {
    var m' := MainStep(m);
    forall vfo | 0 <= vfo <= 1 && !Pending(m', vfo)
      ensures if InFlight(m', vfo) then ReadsCurrent(m') else Mirrored(m', vfo)
    {
      if !m.refresh.Idle? {
        assert m'.queue == m.queue && !Pending(m, vfo);
      } else if m.queue != [] {
        assert forall key :: key in m.queue ==> key == m.queue[0] || key in m'.queue;
        assert Route(m.queue[0]) == vfo || !Pending(m, vfo);
      }
    }
  }

  ghost predicate FollowedRun(events: seq<Event>)
  {
    forall e :: e in events && e.Native? ==> Followed(e.update)
  }

  lemma {:induction false} RunPreserves(m: Machine, events: seq<Event>)
    requires Inv(m) && FollowedRun(events)
    ensures Inv(Run(m, events))
  {
    if events != [] {
      var e, before := events[|events| - 1], Run(m, events[..|events| - 1]);
      RunPreserves(m, events[..|events| - 1]);
      assert e in events;
      if e.Native? { NativePreserves(before, e.update); } else { MainPreserves(before); }
    }
  }

  /** Under every interleaving, a VFO with no refresh pending or in flight is mirrored exactly; its mode is
      the native one when that is a listed mode, and USB otherwise. */
  lemma QuiescentConsistency(events: seq<Event>, vfo: int)
    requires FollowedRun(events) && 0 <= vfo <= 1
    requires Quiet(Run(START, events), vfo)
    ensures var m := Run(START, events);
            var v := Get(m.native, vfo);
            && Ui(m, vfo).frequency == v.frequency && Ui(m, vfo).smeter == v.smeter
            && Ui(m, vfo).mode == (if 0 <= v.mode <= 7 then v.mode else 1)
  {
    RunPreserves(START, events);
  }

  // ----- The main thread catches up -----

  /** Steps the main thread still has to make. */
  function Work(m: Machine): nat
  {
    5 * |m.queue| +
    match m.refresh
    case Idle => 0
    case Started(_) => 4
    case GotFrequency(_, _) => 3
    case GotMode(_, _, _) => 2
    case GotSmeter(_, _, _, _) => 1
  }

  function CaughtUp(m: Machine): Machine
    decreases Work(m)
  {
    if MainCanStep(m) then CaughtUp(MainStep(m)) else m
  }

  lemma {:induction false} CaughtUpIsMirrored(m: Machine)
    requires Inv(m)
    ensures var s := CaughtUp(m); s.native == m.native && Mirrored(s, 0) && Mirrored(s, 1)
    decreases Work(m)
  {
    if MainCanStep(m) {
      MainPreserves(m);
      CaughtUpIsMirrored(MainStep(m));
    } else {
      assert !Pending(m, 0) && !Pending(m, 1);
    }
  }

  /** Once the setters stop, the main thread drains its queue and both VFOs are mirrored. */
  lemma EventuallyMirrored(events: seq<Event>)
    requires FollowedRun(events)
    ensures var m, s := Run(START, events), CaughtUp(Run(START, events));
            s.native == m.native && Mirrored(s, 0) && Mirrored(s, 1)
  {
    RunPreserves(START, events);
    CaughtUpIsMirrored(Run(START, events));
  }

  /** Nothing is waiting or being refreshed. */
  predicate Settled(m: Machine)
  {
    m.queue == [] && m.refresh.Idle?
  }

  /** What the mirror of VFO A would have to show. */
  function Shown(d: Radio): VfoUi
  {
    VfoUi(d.vfoA.frequency, FromOrdinal(d.vfoA.mode), d.vfoA.smeter)
  }

  /** The exact condition, one setter after everything has settled: once the main thread has caught up, VFO B is
      mirrored, and VFO A is mirrored unless the setter wrote it under an even number other than 0 and so changed
      what its mirror should show.  Such a setter refreshes VFO B instead. */
  lemma OneSetterIsFollowed(m: Machine, u: Update)
    requires Inv(m) && Settled(m)
    ensures var s := CaughtUp(Step(m, Native(u)));
            && Settled(s) && s.native == Applied(m.native, u) && Mirrored(s, 1)
            && (Mirrored(s, 0) <==> Followed(u) || Shown(Applied(m.native, u)) == Shown(m.native))
  {
    var m' := Step(m, Native(u));
    hide CaughtUp, Inv;
    CaughtUpSettles(m');
    if Followed(u) {
      NativePreserves(m, u);
      CaughtUpIsMirrored(m');
    } else {
      UnfollowedSetter(m, u);
    }
  }

  lemma {:induction false} CaughtUpSettles(m: Machine)
    ensures Settled(CaughtUp(m)) && CaughtUp(m).native == m.native
    decreases Work(m)
  {
    if MainCanStep(m) { CaughtUpSettles(MainStep(m)); }
  }

  lemma UnfollowedSetter(m: Machine, u: Update)
    requires Inv(m) && Settled(m) && !Followed(u)
    ensures var s := CaughtUp(Step(m, Native(u)));
            Mirrored(s, 1) && (Mirrored(s, 0) <==> Shown(Applied(m.native, u)) == Shown(m.native))
  {
    var m' := Step(m, Native(u));
    assert Mirrored(m, 0) && Mirrored(m, 1) by {
      assert !Pending(m, 0) && !Pending(m, 1);
    }
    KeysRoute(u);
    hide Route, Key, CaughtUp, Pending;
    CaughtUpSettles(m');
    if m'.queue == [] {
      Rested(m');
    } else {
      OneRefresh(m');
    }
  }

  lemma Rested(m: Machine)
    requires Settled(m)
    ensures CaughtUp(m) == m
  {}

  /** From the start, for a change that shows: mirrored exactly when the number is 0 or odd. */
  lemma OtherVfoNumbersBreakTheMirror(u: Update)
    requires Mirrors(u) && u.vfo % 2 == 0 && Shown(Applied(DEFAULT_RADIO, u)) != Shown(DEFAULT_RADIO)
    ensures var s := CaughtUp(Run(START, [Native(u)]));
            Settled(s) && (Mirrored(s, 0) <==> u.vfo == 0)
  {
    assert [Native(u)][..0] == [];
    assert Run(START, [Native(u)]) == Step(Run(START, []), Native(u));
    OneSetterIsFollowed(START, u);
  }

  lemma OneRefresh(m: Machine)
    requires m.refresh.Idle? && |m.queue| == 1 && Route(m.queue[0]) == 1
    ensures CaughtUp(m).uiA == m.uiA && Mirrored(CaughtUp(m), 1)
  {
    var m1 := MainStep(m);
    var m2 := MainStep(m1);
    var m3 := MainStep(m2);
    var m4 := MainStep(m3);
    var m5 := MainStep(m4);
    assert CaughtUp(m) == CaughtUp(m1) == CaughtUp(m2) == CaughtUp(m3);
    assert CaughtUp(m3) == CaughtUp(m4) == CaughtUp(m5) == m5;
  }

  // ----- The view model, between setters -----

  /** The refresh in progress, run to its end without interruption. */
  function Finished(m: Machine): Machine
    decreases Work(m)
  {
    if m.refresh.Idle? then m else Finished(MainStep(m))
  }

  class ViewModel {
    var uiA: VfoUi
    var uiB: VfoUi
    var queue: seq<string>

    constructor ()
      ensures View(DEFAULT_RADIO) == START
      ensures uiA == VfoUi(14225000, 1, 0) && uiB == VfoUi(7040000, 2, 0) && queue == []
    {
      uiA, uiB, queue := VfoUi(14225000, 1, 0), VfoUi(7040000, 2, 0), [];
    }

    function View(native: Radio): Machine
      reads this
    {
      Machine(native, uiA, uiB, queue, Idle)
    }

    method OnStateChanged(key: string)
      modifies this`queue
      ensures queue == old(queue) + [key]
    {
      queue := queue + [key];
    }

    /** The main thread takes the next refresh and runs it while no setter runs. */
    method RunNext(native: RadioState)
      requires queue != []
      modifies this
      ensures View(native.data) == Finished(MainStep(old(View(native.data))))
    {
      var key := queue[0];
      queue := queue[1..];
      RefreshState(key, native);
    }

    method RefreshState(key: string, native: RadioState)
      modifies this`uiA, this`uiB
      ensures View(native.data)
           == var m := old(View(native.data));
              if Route(key) == -1 then m else Finished(m.(refresh := Started(Route(key))))
    {
      if StartsWithVfo(key, 'a') {
        RefreshVfo(0, native);
      } else if StartsWithVfo(key, 'b') {
        RefreshVfo(1, native);
      }
    }

    method RefreshVfo(vfo: int, native: RadioState)
      requires vfo == 0 || vfo == 1
      modifies this`uiA, this`uiB
      ensures View(native.data) == Finished(old(View(native.data)).(refresh := Started(vfo)))
      ensures Mirrored(View(native.data), vfo)
    {
      ghost var m := View(native.data).(refresh := Started(vfo));
      var freq := Get(native.data, vfo).frequency;
      var mode := FromOrdinal(Get(native.data, vfo).mode);
      var smeter := Get(native.data, vfo).smeter;
      if vfo == 0 {
        uiA := VfoUi(freq, mode, smeter);
      } else {
        uiB := VfoUi(freq, mode, smeter);
      }
      UninterruptedRefresh(m);
    }
  }

  lemma UninterruptedRefresh(m: Machine)
    requires m.refresh.Started?
    ensures var v := Get(m.native, m.refresh.vfo);
            var ui := VfoUi(v.frequency, FromOrdinal(v.mode), v.smeter);
            Finished(m) == if m.refresh.vfo == 0 then m.(uiA := ui, refresh := Idle) else m.(uiB := ui, refresh := Idle)
  {
    var m1 := MainStep(m);
    var m2 := MainStep(m1);
    var m3 := MainStep(m2);
    assert Finished(m) == Finished(m1) == Finished(m2) == Finished(m3) == MainStep(m3);
  }
}
