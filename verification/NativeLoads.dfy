/** What the loads of a run hand to the native text track. */
module NativeLoads {
  import opened Cues
  import opened NativeCues
  import opened Options
  import opened Ordering
  import opened SubtitleLoader
  import opened SubtitleLoaderEffects
  import opened SubtitleLoaderInvariant

  /** The call of addNativeCues between two states of a controller, if there is one. */
  function CallsBetween(k: Controller, m: Controller, browser: Browser): seq<Call> {
    if RanToEnd(k, m) then [Call(PassedOn(k, m), browser(|k.log|).0, browser(|k.log|).1)] else []
  }

  /** The calls of addNativeCues that one step makes for controller c. */
  function StepCalls(s: State, t: State, c: nat, browser: Browser): seq<Call> {
    if c < |s.controllers| && c < |t.controllers| then CallsBetween(s.controllers[c], t.controllers[c], browser) else []
  }

  /** The calls of addNativeCues that the steps of a run make for controller c. */
  ghost function RunCalls(steps: seq<Step>, c: nat, browser: Browser): seq<Call> {
    if steps == [] then []
    else
      var front := steps[..|steps| - 1];
      RunCalls(front, c, browser) + StepCalls(Exec(INITIAL, front), Exec(INITIAL, steps), c, browser)
  }

  /** The same controller, with at most one more merge. */
  ghost predicate LogGrows(k: Controller, m: Controller) {
    m.initial == k.initial && (m.log == k.log || (|m.log| == |k.log| + 1 && m.log[..|k.log|] == k.log))
  }

  lemma TickGrows(s: State, c: nat, d: nat, currentTime: Option<real>)
    requires c < |s.controllers| && d < |s.controllers|
    ensures |ApplyTick(s, c, currentTime).controllers| == |s.controllers|
    ensures LogGrows(s.controllers[d], ApplyTick(s, c, currentTime).controllers[d])
  {}

  lemma FinishGrows(k: Controller, start: nat, promise: Promise)
    ensures LogGrows(k, FinishLoad(k, start, promise))
  {}

  lemma LoadGrows(s: State, w: nat, d: nat)
    requires Enabled(s, Resume(w)) && s.waiters[w].LoadWaiter? && d < |s.controllers|
    ensures |ApplyResume(s, w).controllers| == |s.controllers|
    ensures LogGrows(s.controllers[d], ApplyResume(s, w).controllers[d])
  {
    var LoadWaiter(c, start, r) := s.waiters[w];
    FinishGrows(s.controllers[c], start, s.requests[r].promise);
  }

  lemma CreateGrows(s: State, base: string, start: nat, body: Body, d: nat)
    requires d < |s.controllers|
    ensures d < |SubtitleLoader.CreateController(s, base, start, body).controllers|
    ensures LogGrows(s.controllers[d], SubtitleLoader.CreateController(s, base, start, body).controllers[d])
  {
    var quiet := StopActive(s);
    assert LogGrows(s.controllers[d], quiet.controllers[d]);
  }

  /** A step leaves a controller's log and origin alone, or adds one merge to the log. */
  lemma LogStep(s: State, step: Step, c: nat)
    requires c < |s.controllers|
    ensures c < |Apply(s, step).controllers| && LogGrows(s.controllers[c], Apply(s, step).controllers[c])
  {
    if Enabled(s, step) {
      match step
      case Tick(d, currentTime) => TickGrows(s, d, c, currentTime);
      case Resume(w) =>
        if s.waiters[w].LoadWaiter? {
          LoadGrows(s, w, c);
        } else if s.requests[s.waiters[w].request].promise.Fulfilled? {
          CreateGrows(s.(waiters := s.waiters - {w}), s.waiters[w].base, s.waiters[w].start,
            s.requests[s.waiters[w].request].promise.body, c);
        }
      case _ =>
    }
  }

  lemma NewController(s: State, step: Step, c: nat)
    requires Inv(s) && |s.controllers| <= c < |Apply(s, step).controllers|
    ensures Apply(s, step).controllers[c].log == []
  {}

  lemma CallsFollow(k: Controller, m: Controller, browser: Browser)
    requires LogGrows(k, m) && k.eventKeys == Keys(Replay(k.initial, k.log))
    ensures NativeCalls(m.initial, m.log, browser) == NativeCalls(k.initial, k.log, browser) + CallsBetween(k, m, browser)
  {
    if m.log != k.log {
      assert k.eventKeys == Keys(Replay(k.initial, m.log[..|k.log|]));
    }
  }

  /** One step makes the call that its merge adds to the calls of the log. */
  lemma StepCallsNative(s: State, step: Step, c: nat, browser: Browser)
    requires Inv(s) && c < |s.controllers|
    ensures var t := Apply(s, step);
            && c < |t.controllers|
            && NativeCalls(t.controllers[c].initial, t.controllers[c].log, browser)
               == NativeCalls(s.controllers[c].initial, s.controllers[c].log, browser) + StepCalls(s, t, c, browser)
  {
    LogStep(s, step, c);
    MirroredKeys(s, c);
    CallsFollow(s.controllers[c], Apply(s, step).controllers[c], browser);
  }

  lemma MirroredKeys(s: State, c: nat)
    requires Inv(s) && c < |s.controllers|
    ensures s.controllers[c].eventKeys == Keys(Replay(s.controllers[c].initial, s.controllers[c].log))
  {
    assert ControllerOk(s.requests, s.controllers[c]);
  }

  /** The calls a run makes for a controller are those of its log. */
  lemma {:induction false} RunCallsNative(steps: seq<Step>, c: nat, browser: Browser)
    requires c < |Exec(INITIAL, steps).controllers|
    ensures var k := Exec(INITIAL, steps).controllers[c];
            RunCalls(steps, c, browser) == NativeCalls(k.initial, k.log, browser)
    decreases |steps|
  {
    var front, step := steps[..|steps| - 1], steps[|steps| - 1];
    var s := Exec(INITIAL, front);
    RunKeeps(front);
    if c < |s.controllers| {
      RunCallsNative(front, c, browser);
      StepCallsNative(s, step, c, browser);
    } else {
      NoneYet(front, c, browser);
      NewController(s, step, c);
    }
  }

  lemma {:induction false} NoneYet(steps: seq<Step>, c: nat, browser: Browser)
    requires |Exec(INITIAL, steps).controllers| <= c
    ensures RunCalls(steps, c, browser) == []
    decreases |steps|
  {
    if steps != [] {
      var front := steps[..|steps| - 1];
      RunKeeps(front);
      ControllersStay(Exec(INITIAL, front), steps[|steps| - 1]);
      NoneYet(front, c, browser);
    }
  }

  lemma ControllersStay(s: State, step: Step)
    ensures |s.controllers| <= |Apply(s, step).controllers|
  {}

  /**
   A load that ends on a live controller with a list of entries passes on the new cues in their order
   if no entry is null, and otherwise nothing.
   */
  lemma LoadPasses(steps: seq<Step>, w: nat, entries: seq<Option<Cue>>, cues: seq<Cue>)
    requires Enabled(Exec(INITIAL, steps), Resume(w)) && Exec(INITIAL, steps).waiters[w].LoadWaiter?
    requires var s := Exec(INITIAL, steps);
             !s.controllers[s.waiters[w].controller].stopped
             && s.requests[s.waiters[w].request].promise == Fulfilled(Body(Entries(entries)))
    requires Readable(entries, cues)
    ensures var s := Exec(INITIAL, steps);
            var c := s.waiters[w].controller;
            var k, m := s.controllers[c], Apply(s, Resume(w)).controllers[c];
            PassedOn(k, m) == if forall i :: 0 <= i < |entries| ==> entries[i].Some? then NewCues(k.events, cues) else []
  {
    LoadSucceeds(steps, w, entries, cues);
    RunKeeps(steps);
    var s := Exec(INITIAL, steps);
    var k := s.controllers[s.waiters[w].controller];
    assert ControllerOk(s.requests, k);
    NewCuesAreAdded(k.events, cues);
  }

  /** A load that changes no log passes on nothing. */
  lemma FailedLoadPasses(s: State, w: nat)
    requires Enabled(s, Resume(w)) && s.waiters[w].LoadWaiter?
    requires var promise := s.requests[s.waiters[w].request].promise;
             s.controllers[s.waiters[w].controller].stopped || promise == Rejected
             || promise == Fulfilled(NullBody) || promise == Fulfilled(Body(NotIterable)) || promise == Fulfilled(Body(Missing))
    ensures var c := s.waiters[w].controller; PassedOn(s.controllers[c], Apply(s, Resume(w)).controllers[c]) == []
  {}

  /** Cues of responses of the network, with positions in range. */
  ghost predicate RunInRange(steps: seq<Step>, c: nat)
    requires c < |Exec(INITIAL, steps).controllers|
  {
    forall m, cue :: m in Exec(INITIAL, steps).controllers[c].log && cue in m.cues ==> InRange(cue)
  }

  /** Over a whole run, the loads of a controller put no key into the track twice. */
  lemma RunNeverDuplicates(fp: Arithmetic, before: seq<NativeCue>, steps: seq<Step>, c: nat, browser: Browser, key: string)
    requires Accurate(fp) && c < |Exec(INITIAL, steps).controllers| && RunInRange(steps, c)
    ensures var calls := RunCalls(steps, c, browser);
            NativeBag(fp, NativeCues.Track(fp, before, calls))[key]
            == if NativeBag(fp, before)[key] > 0 then NativeBag(fp, before)[key]
               else if AnyOffers(calls, key) then 1 else 0
  {
    var k := Exec(INITIAL, steps).controllers[c];
    RunCallsNative(steps, c, browser);
    ControllerNeverDuplicates(fp, before, k.initial, k.log, browser, key);
  }
}
