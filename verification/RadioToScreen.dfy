/** The whole receive path: bytes from a radio's CAT server through the frame parser into the native state,
    while the main thread mirrors that state on the screen. */
module RadioToScreen {
  import opened Basics
  import opened FrameFormat
  import opened RadioStates
  import opened CatServer
  import opened CatMirror
  import opened UiMirror

  /** The setter a frame causes, if any. */
  function UpdateOf(f: Frame): seq<Update>
  {
    if f.kind != TYPE_CAT_RESPONSE then []
    else match Interpret(ToText(f.data)) case Some(u) => [u] case None => []
  }

  function Updates(frames: seq<Frame>): seq<Update>
    decreases |frames|
  {
    if frames == [] then [] else UpdateOf(frames[0]) + Updates(frames[1..])
  }

  /** The setters in a run, in order. */
  function Setters(events: seq<Event>): seq<Update>
  {
    if events == [] then []
    else
      var e := events[|events| - 1];
      Setters(events[..|events| - 1]) + if e.Native? then [e.update] else []
  }

  lemma {:induction false} AppliedAppend(d: Radio, a: seq<Update>, b: seq<Update>)
    ensures AppliedAll(d, a + b) == AppliedAll(AppliedAll(d, a), b)
    decreases |a|
  {
    if a == [] {
      assert a + b == b;
    } else {
      assert (a + b)[1..] == a[1..] + b;
      AppliedAppend(Applied(d, a[0]), a[1..], b);
    }
  }

  lemma {:induction false} NativeFollowsSetters(m: Machine, events: seq<Event>)
    ensures Run(m, events).native == AppliedAll(m.native, Setters(events))
  {
    if events != [] {
      var e, front := events[|events| - 1], events[..|events| - 1];
      NativeFollowsSetters(m, front);
      if e.Native? {
        AppliedAppend(m.native, Setters(front), [e.update]);
        assert AppliedAll(Run(m, front).native, [e.update]) == Applied(Run(m, front).native, e.update);
      } else {
        assert Setters(front) + [] == Setters(front);
      }
    }
  }

  lemma {:induction false} DispatchIsUpdates(d: Radio, frames: seq<Frame>)
    ensures DispatchedAll(d, frames) == AppliedAll(d, Updates(frames))
    decreases |frames|
  {
    if frames != [] {
      DispatchIsUpdates(Dispatched(d, frames[0]), frames[1..]);
      AppliedAppend(d, UpdateOf(frames[0]), Updates(frames[1..]));
      var u := UpdateOf(frames[0]);
      assert Dispatched(d, frames[0]) == AppliedAll(d, u) by {
        if u != [] { assert u[1..] == []; }
      }
    }
  }

  lemma {:induction false} UpdatesAreHonest(frames: seq<Frame>)
    ensures forall u :: u in Updates(frames) ==> Honest(u)
    decreases |frames|
  {
    if frames != [] { UpdatesAreHonest(frames[1..]); }
  }

  lemma {:induction false} SettersOfRun(events: seq<Event>)
    ensures forall e :: e in events && e.Native? ==> e.update in Setters(events)
  {
    if events != [] {
      var front := events[..|events| - 1];
      SettersOfRun(front);
      assert events == front + [events[|events| - 1]];
    }
  }

  lemma {:induction false} RunAppend(m: Machine, a: seq<Event>, b: seq<Event>)
    ensures Run(m, a + b) == Run(Run(m, a), b)
    decreases |b|
  {
    if b == [] {
      assert a + b == a;
    } else {
      assert (a + b)[..|a + b| - 1] == a + b[..|b| - 1];
      RunAppend(m, a, b[..|b| - 1]);
    }
  }

  /** The screen shows the values of another radio that it can hear about. */
  predicate Shows(s: Machine, d: Radio)
  {
    s.uiA == VfoUi(d.vfoA.frequency, d.vfoA.mode, d.vfoA.smeter) && s.uiB.frequency == d.vfoB.frequency
  }

  /** After any earlier session, the answers of one radio to the six queries, with any noise between and behind the
      frames and cut in any way that does not overflow, drive the setters; main-thread steps fall anywhere between
      them.  Once the main thread has caught up, the screen shows that radio's frequencies, mode and S-meter
      exactly when each of these fits its answer. */
  lemma ScreenShowsTheRadio(d: Radio, gaps: seq<seq<Byte>>, trailers: seq<seq<Byte>>, end: seq<Byte>,
                            chunks: seq<seq<Byte>>, earlier: seq<Event>, events: seq<Event>)
    requires InRange(d) && FollowedRun(earlier)
    requires |gaps| == |trailers| == 6
    requires forall i :: 0 <= i < 6 ==> MarkerFree(gaps[i]) && |trailers[i]| == 4
    requires MarkerFree(end) && NeverOverflows(FRESH, chunks)
    requires Concat(chunks) == Noisy(AnswerFrames(d), gaps, trailers, end)
    requires Setters(events) == Updates(FeedAll(FRESH, chunks).frames)
    ensures Shows(CaughtUp(Run(START, earlier + events)), d)
       <==> && FrequencyFits(d.vfoA.frequency) && FrequencyFits(d.vfoB.frequency)
            && 0 <= d.vfoA.mode <= 7 && SmeterFits(d.vfoA.smeter)
  {
    hide Interpret, Updates, Setters, CaughtUp, Run, FeedAll, Noisy, AnswerFrames, Answers, ObeyedAll, DispatchedAll;
    var frames, before := FeedAll(FRESH, chunks).frames, Run(START, earlier);
    AnswersArrive(d, before.native, gaps, trailers, end, chunks);
    HearEach(d, before.native);
    DispatchIsUpdates(before.native, frames);
    NativeFollowsSetters(before, events);
    RunAppend(START, earlier, events);
    UpdatesAreHonest(frames);
    SettersOfRun(events);
    EventuallyMirrored(earlier + events);
  }
}
