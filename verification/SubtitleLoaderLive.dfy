/** Which controller is live: the one of the fetch that resumed last, if its response could be read. */
module SubtitleLoaderLive {
  import opened Cues
  import opened Options
  import opened SubtitleLoader
  import opened SubtitleLoaderFailures
  import opened SubtitleLoaderInvariant
  import opened SubtitleLoaderTheorems

  /** In state `s` the step resumes an intercepted fetch whose call succeeded. */
  ghost predicate ResumesFetch(s: State, step: Step) {
    && Enabled(s, step) && step.Resume?
    && s.waiters[step.waiter].FetchWaiter?
    && s.requests[s.waiters[step.waiter].request].promise.Fulfilled?
  }

  /** The response the resumed fetch gets. */
  ghost function Answer(s: State, step: Step): Body
    requires ResumesFetch(s, step)
  {
    s.requests[s.waiters[step.waiter].request].promise.body
  }

  ghost predicate Live(s: State, c: nat) { c < |s.controllers| && !s.controllers[c].stopped }

  lemma OtherStepKeepsLive(s: State, step: Step, c: nat)
    requires !ResumesFetch(s, step)
    ensures Live(Apply(s, step), c) <==> Live(s, c)
  {}

  /** Such a step stops whatever was live, and a readable response makes the next controller live. */
  lemma FetchStepDecidesLive(s: State, step: Step, c: nat)
    requires Inv(s) && ResumesFetch(s, step)
    ensures Live(Apply(s, step), c) <==> InitialEvents(Answer(s, step)).Some? && c == |s.controllers|
  {
    var rest := s.(waiters := s.waiters - {step.waiter});
    StoppedByFetch(s, rest);
  }

  lemma StoppedByFetch(s: State, rest: State)
    requires Inv(s) && rest.controllers == s.controllers && rest.active == s.active
    ensures |StopActive(rest).controllers| == |s.controllers|
    ensures forall c :: 0 <= c < |s.controllers| ==> StopActive(rest).controllers[c].stopped
  {}

  /** The i-th step of the run resumes a fetch whose call succeeded. */
  ghost predicate FetchAt(steps: seq<Step>, i: nat)
    requires i < |steps|
  {
    ResumesFetch(Exec(INITIAL, steps[..i]), steps[i])
  }

  /** The last such step of the run. */
  ghost predicate LastFetch(steps: seq<Step>, i: nat) {
    i < |steps| && FetchAt(steps, i) && forall j :: i < j < |steps| ==> !FetchAt(steps, j)
  }

  /** The last resumed fetch made the controller. */
  ghost predicate MadeLast(steps: seq<Step>, i: nat, c: nat) {
    && LastFetch(steps, i)
    && InitialEvents(Answer(Exec(INITIAL, steps[..i]), steps[i])).Some?
    && c == |Exec(INITIAL, steps[..i]).controllers|
  }

  lemma FrontAt(steps: seq<Step>, i: nat)
    requires steps != [] && i < |steps| - 1
    ensures steps[..|steps| - 1][..i] == steps[..i]
    ensures FetchAt(steps[..|steps| - 1], i) <==> FetchAt(steps, i)
  {
    assert steps[..|steps| - 1][..i] == steps[..i];
  }

  lemma LastFetchOfFront(steps: seq<Step>, i: nat)
    requires steps != [] && !FetchAt(steps, |steps| - 1)
    ensures LastFetch(steps, i) <==> LastFetch(steps[..|steps| - 1], i)
  {
    var front := steps[..|steps| - 1];
    forall j: nat | j < |front|
      ensures FetchAt(front, j) <==> FetchAt(steps, j)
    {
      FrontAt(steps, j);
    }
    if LastFetch(front, i) {
      forall j | i < j < |steps|
        ensures !FetchAt(steps, j)
      {
        assert j < |front| ==> !FetchAt(front, j);
      }
    }
    if LastFetch(steps, i) {
      forall j | i < j < |front|
        ensures !FetchAt(front, j)
      {
        assert !FetchAt(steps, j);
      }
    }
  }

  lemma MadeLastOfFront(steps: seq<Step>, i: nat, c: nat)
    requires steps != [] && !FetchAt(steps, |steps| - 1)
    ensures MadeLast(steps, i, c) <==> MadeLast(steps[..|steps| - 1], i, c)
  {
    LastFetchOfFront(steps, i);
    if i < |steps| - 1 {
      FrontAt(steps, i);
    }
  }

  /**
   In every reachable state a controller is live if and only if it was made by the last resumed fetch
   whose call succeeded; a response that cannot be read leaves none live.
   */
  lemma {:induction false} LiveController(steps: seq<Step>, c: nat)
    ensures Live(Exec(INITIAL, steps), c) <==> exists i :: MadeLast(steps, i, c)
  {
    if steps != [] {
      var n := |steps| - 1;
      var front := steps[..n];
      var s := Exec(INITIAL, front);
      RunKeeps(front);
      if ResumesFetch(s, steps[n]) {
        FetchStepDecidesLive(s, steps[n], c);
        assert LastFetch(steps, n);
        assert forall i :: LastFetch(steps, i) ==> i == n;
        assert MadeLast(steps, n, c) <==> InitialEvents(Answer(s, steps[n])).Some? && c == |s.controllers|;
      } else {
        LiveController(front, c);
        OtherStepKeepsLive(s, steps[n], c);
        forall i: nat
          ensures MadeLast(steps, i, c) <==> MadeLast(front, i, c)
        {
          MadeLastOfFront(steps, i, c);
        }
      }
    }
  }

  /** At most one controller is live. */
  lemma OneLive(steps: seq<Step>, c: nat, d: nat)
    requires Live(Exec(INITIAL, steps), c) && Live(Exec(INITIAL, steps), d)
    ensures c == d
  {
    LiveController(steps, c);
    LiveController(steps, d);
    var i :| MadeLast(steps, i, c);
    var j :| MadeLast(steps, j, d);
    assert i == j;
  }

  // ----- A run in which the older of two fetches wins

  /** Two fetches of the first window, for "a" and then for "b"; the call for "b" answers first, without cues. */
  const TWO_FETCHES: seq<Step> := [Intercept("a", None), Intercept("b", None), Settle(1, Fulfilled(Body(Entries([]))))]

  /** The fetch for "b" resumes; then the call for "a" answers and its fetch resumes. */
  const BOTH_RESUME: seq<Step> := [Resume(1), Settle(0, Fulfilled(Body(Entries([])))), Resume(0)]

  function Call(base: string, promise: Promise): Request { Request(WithWindow(base, 0), promise) }

  function Made(base: string, stopped: bool): Controller { Controller(base, 0, [], [], [], {}, {0}, {}, stopped) }

  function Asked(first: Promise, second: Promise, waiting: map<nat, Waiter>, controllers: seq<Controller>, active: Option<nat>, replies: seq<Reply>): State {
    State([CacheEntry(WithWindow("a", 0), 0), CacheEntry(WithWindow("b", 0), 1)],
      [Call("a", first), Call("b", second)], controllers, active, waiting, 2, replies)
  }

  const EMPTY: Promise := Fulfilled(Body(Entries([])))

  lemma TwoFetchesRun()
    ensures Exec(INITIAL, TWO_FETCHES) ==
            Asked(Pending, EMPTY, map[0 := FetchWaiter("a", 0, 0), 1 := FetchWaiter("b", 0, 1)], [], None, [])
  {
    ExecThree(INITIAL, TWO_FETCHES[0], TWO_FETCHES[1], TWO_FETCHES[2]);
    assert WindowStartSeconds(None) == 0;
    var s1 := Apply(INITIAL, TWO_FETCHES[0]);
    assert s1.requests == [Call("a", Pending)] && s1.cache == [CacheEntry(WithWindow("a", 0), 0)];
    assert Lookup(s1.cache[1..], WithWindow("b", 0)) == None;
    var s2 := Apply(s1, TWO_FETCHES[1]);
    assert s2 == Asked(Pending, Pending, map[0 := FetchWaiter("a", 0, 0), 1 := FetchWaiter("b", 0, 1)], [], None, []);
  }

  lemma NewerResumes()
    ensures Apply(Asked(Pending, EMPTY, map[0 := FetchWaiter("a", 0, 0), 1 := FetchWaiter("b", 0, 1)], [], None, []), Resume(1))
         == Asked(Pending, EMPTY, map[0 := FetchWaiter("a", 0, 0)], [Made("b", false)], Some(0), [Events(0)])
  {
    assert map[0 := FetchWaiter("a", 0, 0), 1 := FetchWaiter("b", 0, 1)] - {1} == map[0 := FetchWaiter("a", 0, 0)];
    assert Keys([]) == {};
  }

  lemma OlderResumes()
    ensures Apply(Asked(EMPTY, EMPTY, map[0 := FetchWaiter("a", 0, 0)], [Made("b", false)], Some(0), [Events(0)]), Resume(0))
         == Asked(EMPTY, EMPTY, map[], [Made("b", true), Made("a", false)], Some(1), [Events(0), Events(1)])
  {
    assert map[0 := FetchWaiter("a", 0, 0)] - {0} == map[];
    assert Keys([]) == {};
    assert [Made("b", false)][0 := Made("b", true)] == [Made("b", true)];
  }

  /** The fetch that was made first but resumed last has the live controller; the newer one's is stopped. */
  lemma OlderFetchWins()
    ensures var t := Exec(INITIAL, TWO_FETCHES + BOTH_RESUME);
            t.controllers == [Made("b", true), Made("a", false)] && t.active == Some(1)
  {
    ExecAll(INITIAL, TWO_FETCHES, BOTH_RESUME);
    TwoFetchesRun();
    var s := Exec(INITIAL, TWO_FETCHES);
    ExecThree(s, BOTH_RESUME[0], BOTH_RESUME[1], BOTH_RESUME[2]);
    NewerResumes();
    var answered := Apply(Apply(s, BOTH_RESUME[0]), BOTH_RESUME[1]);
    assert answered == Asked(EMPTY, EMPTY, map[0 := FetchWaiter("a", 0, 0)], [Made("b", false)], Some(0), [Events(0)]);
    OlderResumes();
  }
}
