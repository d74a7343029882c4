/** What a failed call means for its window: the cached rejection is awaited again and again. */
module SubtitleLoaderFailures {
  import opened Cues
  import opened Options
  import opened SubtitleLoader
  import opened SubtitleLoaderInvariant
  import opened SubtitleLoaderTheorems

  ghost predicate Awaits(s: State, w: nat, url: WindowUrl) {
    w in s.waiters && s.waiters[w].request < |s.requests| && s.requests[s.waiters[w].request].url == url
  }

  /** The call failed, and nobody still awaits an older call for its URL. */
  ghost predicate Failed(s: State, r: nat) {
    && r < |s.requests| && s.requests[r].promise.Rejected?
    && (forall w :: Awaits(s, w, s.requests[r].url) ==> s.waiters[w].request == r)
  }

  /** The controller's window with this start is the one the URL asks for. */
  predicate AsksFor(k: Controller, start: nat, url: WindowUrl) { WithWindow(k.base, start) == url }

  /** While fewer than 200 other calls followed it, the failed call is what a fetch of its URL gets. */
  lemma FailedIsCached(s: State, r: nat)
    requires CacheLaw(s) && r < |s.requests| && |s.requests| - r <= CACHE_LIMIT
    ensures Fetch(s, s.requests[r].url) == (s, r)
  {
    var n := |s.requests|;
    var first := if n > CACHE_LIMIT then n - CACHE_LIMIT else 0;
    LookupFinds(s.cache, s.requests[r].url);
    assert s.cache[r - first] == CacheEntry(s.requests[r].url, r);
    var q := Lookup(s.cache, s.requests[r].url).value;
    var j :| 0 <= j < |s.cache| && s.cache[j] == CacheEntry(s.requests[r].url, q);
    assert s.cache[j].url == s.cache[r - first].url;
  }

  /** `t` has loaded the window of the URL for no controller that had not loaded it in `s`. */
  ghost predicate NothingLoaded(s: State, t: State, url: WindowUrl) {
    forall c, start: nat ::
      0 <= c < |t.controllers| && AsksFor(t.controllers[c], start, url) && start in t.controllers[c].loadedStarts
      ==> c < |s.controllers| && AsksFor(s.controllers[c], start, url) && start in s.controllers[c].loadedStarts
  }

  ghost predicate RequestsKnown(s: State) {
    CacheLaw(s) && forall w :: w in s.waiters ==> s.waiters[w].request < |s.requests|
  }

  lemma KnownRequests(s: State)
    requires Inv(s)
    ensures RequestsKnown(s)
  {
    forall w | w in s.waiters
      ensures s.waiters[w].request < |s.requests|
    {
      assert WaiterOk(s, w);
    }
  }

  /** A fetch up to its await: for the failed window it is the failed call, and nobody starts to await another one. */
  lemma FetchStuck(s: State, url: WindowUrl, r: nat)
    requires RequestsKnown(s) && Failed(s, r) && |s.requests| - r <= CACHE_LIMIT
    ensures var (fetched, q) := Fetch(s, url);
            && Failed(fetched, r) && fetched.requests[r] == s.requests[r] && fetched.waiters == s.waiters
            && q < |fetched.requests| && fetched.requests[q].url == url
            && (url == s.requests[r].url ==> q == r)
  {
    var (fetched, q) := Fetch(s, url);
    FetchKeepsCacheLaw(s, url);
    FailedIsCached(s, r);
    forall w | Awaits(fetched, w, s.requests[r].url)
      ensures s.waiters[w].request == r
    {
      assert Awaits(s, w, s.requests[r].url);
    }
  }

  lemma AwaitStuck(s: State, waiter: Waiter, r: nat)
    requires Failed(s, r) && waiter.request < |s.requests|
    requires s.requests[waiter.request].url == s.requests[r].url ==> waiter.request == r
    ensures Failed(s.(waiters := s.waiters[s.nextWaiter := waiter], nextWaiter := s.nextWaiter + 1), r)
  {
    var t := s.(waiters := s.waiters[s.nextWaiter := waiter], nextWaiter := s.nextWaiter + 1);
    forall w | Awaits(t, w, s.requests[r].url)
      ensures t.waiters[w].request == r
    {
      if w != s.nextWaiter {
        assert Awaits(s, w, s.requests[r].url);
      }
    }
  }

  lemma MarkedStuck(s: State, controllers: seq<Controller>, r: nat)
    requires RequestsKnown(s) && Failed(s, r)
    ensures RequestsKnown(s.(controllers := controllers)) && Failed(s.(controllers := controllers), r)
  {
    forall w | Awaits(s.(controllers := controllers), w, s.requests[r].url)
      ensures s.waiters[w].request == r
    {
      assert Awaits(s, w, s.requests[r].url);
    }
  }

  lemma TickStuck(s: State, c: nat, currentTime: Option<real>, r: nat)
    requires Inv(s) && Failed(s, r) && c < |s.controllers| && |s.requests| - r <= CACHE_LIMIT
    ensures Failed(ApplyTick(s, c, currentTime), r) && ApplyTick(s, c, currentTime).requests[r] == s.requests[r]
  {
    var k := s.controllers[c];
    var start := WindowStartSeconds(currentTime);
    if !k.stopped && start !in k.loadedStarts && start !in k.loadingStarts {
      var marked := s.controllers[c := k.(loadingStarts := k.loadingStarts + {start})];
      var (fetched, q) := Fetch(s.(controllers := marked), WithWindow(k.base, start));
      KnownRequests(s);
      MarkedStuck(s, marked, r);
      FetchStuck(s.(controllers := marked), WithWindow(k.base, start), r);
      AwaitStuck(fetched, LoadWaiter(c, start, q), r);
    }
  }

  lemma TickLoadsNothing(s: State, c: nat, currentTime: Option<real>, url: WindowUrl)
    requires c < |s.controllers|
    ensures NothingLoaded(s, ApplyTick(s, c, currentTime), url)
  {}

  lemma InterceptStuck(s: State, base: string, currentTime: Option<real>, r: nat)
    requires Inv(s) && Failed(s, r) && |s.requests| - r <= CACHE_LIMIT
    ensures var t := ApplyIntercept(s, base, currentTime);
            Failed(t, r) && t.requests[r] == s.requests[r] && NothingLoaded(s, t, s.requests[r].url)
  {
    var start := WindowStartSeconds(currentTime);
    var (fetched, q) := Fetch(s, WithWindow(base, start));
    KnownRequests(s);
    FetchStuck(s, WithWindow(base, start), r);
    AwaitStuck(fetched, FetchWaiter(base, start, q), r);
  }

  lemma FewerWaitersStuck(s: State, t: State, r: nat)
    requires Failed(s, r) && t.requests == s.requests
    requires forall w :: w in t.waiters ==> w in s.waiters && t.waiters[w] == s.waiters[w]
    ensures Failed(t, r)
  {
    forall w | Awaits(t, w, s.requests[r].url)
      ensures t.waiters[w].request == r
    {
      assert Awaits(s, w, s.requests[r].url);
    }
  }

  lemma ResumeLoadStuck(s: State, w: nat, r: nat)
    requires Inv(s) && Failed(s, r) && Enabled(s, Resume(w)) && s.waiters[w].LoadWaiter?
    ensures Failed(ApplyResume(s, w), r) && NothingLoaded(s, ApplyResume(s, w), s.requests[r].url)
  {
    var LoadWaiter(c, start, q) := s.waiters[w];
    assert WaiterOk(s, w);
    FewerWaitersStuck(s, ApplyResume(s, w), r);
    if WithWindow(s.controllers[c].base, start) == s.requests[r].url {
      assert Awaits(s, w, s.requests[r].url);
    }
  }

  lemma CreateLoadsNothing(s: State, base: string, start: nat, body: Body, url: WindowUrl)
    requires WithWindow(base, start) != url
    ensures NothingLoaded(s, CreateController(s, base, start, body), url)
  {}

  lemma ResumeFetchStuck(s: State, w: nat, r: nat)
    requires Inv(s) && Failed(s, r) && Enabled(s, Resume(w)) && s.waiters[w].FetchWaiter?
    ensures Failed(ApplyResume(s, w), r) && NothingLoaded(s, ApplyResume(s, w), s.requests[r].url)
  {
    var FetchWaiter(base, start, q) := s.waiters[w];
    assert WaiterOk(s, w);
    FewerWaitersStuck(s, ApplyResume(s, w), r);
    if s.requests[q].promise.Fulfilled? {
      assert Awaits(s, w, WithWindow(base, start));
      CreateLoadsNothing(s.(waiters := s.waiters - {w}), base, start, s.requests[q].promise.body, s.requests[r].url);
    }
  }

  lemma SettleStuck(s: State, q: nat, outcome: Promise, r: nat)
    requires Failed(s, r) && q < |s.requests| && s.requests[q].promise.Pending?
    ensures Failed(ApplySettle(s, q, outcome), r) && NothingLoaded(s, ApplySettle(s, q, outcome), s.requests[r].url)
  {
    forall v | Awaits(ApplySettle(s, q, outcome), v, s.requests[r].url)
      ensures s.waiters[v].request == r
    {
      assert Awaits(s, v, s.requests[r].url);
    }
  }

  lemma StepStuck(s: State, step: Step, r: nat)
    requires Inv(s) && Failed(s, r) && |Apply(s, step).requests| - r <= CACHE_LIMIT
    ensures Failed(Apply(s, step), r) && NothingLoaded(s, Apply(s, step), s.requests[r].url)
  {
    StepKeeps(s, step);
    if Enabled(s, step) {
      match step
      case Tick(c, currentTime) =>
        TickStuck(s, c, currentTime, r);
        TickLoadsNothing(s, c, currentTime, s.requests[r].url);
      case Intercept(base, currentTime) => InterceptStuck(s, base, currentTime, r);
      case Settle(q, outcome) => SettleStuck(s, q, outcome, r);
      case Resume(w) =>
        if s.waiters[w].LoadWaiter? {
          ResumeLoadStuck(s, w, r);
        } else {
          ResumeFetchStuck(s, w, r);
        }
    }
  }

  /**
   Once a call has failed, then in every continuation, until 200 further calls have been made for
   other windows, polling or fetching its window makes no call, and no controller gets it loaded.
   */
  lemma {:induction false} FailedWindowStaysUnloaded(s: State, steps: seq<Step>, r: nat)
    requires Inv(s) && Failed(s, r) && |Exec(s, steps).requests| - r <= 200
    ensures var t := Exec(s, steps);
            && Failed(t, r) && t.requests[r] == s.requests[r]
            && Fetch(t, s.requests[r].url) == (t, r)
            && NothingLoaded(s, t, s.requests[r].url)
  {
    ContinuationKeeps(s, steps);
    if steps != [] {
      var t := Exec(s, steps[..|steps| - 1]);
      ContinuationKeeps(s, steps[..|steps| - 1]);
      StepKeeps(t, steps[|steps| - 1]);
      FailedWindowStaysUnloaded(s, steps[..|steps| - 1], r);
      StepStuck(t, steps[|steps| - 1], r);
    }
    FailedIsCached(Exec(s, steps), r);
  }

  // ----- A run

  lemma ExecSnoc(s: State, steps: seq<Step>, step: Step)
    ensures Exec(s, steps + [step]) == Apply(Exec(s, steps), step)
  {
    assert (steps + [step])[..|steps|] == steps;
  }

  lemma LastOfAll<T>(first: seq<T>, more: seq<T>)
    requires more != []
    ensures var front, last := more[..|more| - 1], more[|more| - 1];
            more == front + [last] && first + more == first + front + [last]
  {}

  lemma {:induction false} ExecAll(s: State, first: seq<Step>, more: seq<Step>)
    ensures Exec(s, first + more) == Exec(Exec(s, first), more)
  {
    if more == [] {
      assert first + more == first;
    } else {
      var front, last := more[..|more| - 1], more[|more| - 1];
      LastOfAll(first, more);
      ExecAll(s, first, front);
      ExecSnoc(s, first + front, last);
      ExecSnoc(Exec(s, first), front, last);
    }
  }

  /** A viewer starts at 0 s; the first window arrives, without cues. */
  const OPENING: seq<Step> := [Intercept("u", Some(0.0)), Settle(0, Fulfilled(Body(Entries([])))), Resume(0)]

  /** At 25 s the next window is asked for; the call fails. */
  const FAILING: seq<Step> := [Tick(0, Some(25.0)), Settle(1, Rejected), Resume(1)]

  function Opened(): State {
    State([CacheEntry(WithWindow("u", 0), 0)], [Request(WithWindow("u", 0), Fulfilled(Body(Entries([]))))],
      [Loading({})], Some(0), map[], 1, [Events(0)])
  }

  lemma OpeningRuns()
    ensures Exec(INITIAL, OPENING) == Opened()
  {
    ExecThree(INITIAL, OPENING[0], OPENING[1], OPENING[2]);
    assert WindowStartSeconds(Some(0.0)) == 0;
    var s1 := Apply(INITIAL, OPENING[0]);
    assert s1.requests == [Request(WithWindow("u", 0), Pending)] && s1.waiters == map[0 := FetchWaiter("u", 0, 0)];
    var s2 := Apply(s1, OPENING[1]);
    assert s2.requests == Opened().requests;
    assert Keys([]) == {};
    assert Apply(s2, OPENING[2]) == Opened();
  }

  function Loading(starts: set<nat>): Controller {
    Controller("u", 0, [], [], [], {}, {0}, starts, false)
  }

  /** One controller, the second call outstanding or settled, and perhaps one load awaiting it. */
  function Second(promise: Promise, loading: set<nat>, waiting: map<nat, Waiter>, next: nat): State {
    State([CacheEntry(WithWindow("u", 0), 0), CacheEntry(WithWindow("u", 20), 1)],
      [Request(WithWindow("u", 0), Fulfilled(Body(Entries([])))), Request(WithWindow("u", 20), promise)],
      [Loading(loading)],
      Some(0), waiting, next, [Events(0)])
  }

  lemma MarkTwenty()
    ensures [Loading({})][0 := Loading({}).(loadingStarts := Loading({}).loadingStarts + {20})] == [Loading({20})]
  {
    assert {} + {20} == {20};
  }

  lemma UnmarkTwenty()
    ensures [Loading({20})][0 := Loading({20}).(loadingStarts := Loading({20}).loadingStarts - {20})] == [Loading({})]
  {
    assert {20} - {20} == {};
  }

  lemma PollAsks()
    ensures Apply(Opened(), Tick(0, Some(25.0))) == Second(Pending, {20}, map[1 := LoadWaiter(0, 20, 1)], 2)
  {
    assert WindowStartSeconds(Some(25.0)) == 20;
    assert Lookup(Opened().cache[1..], WithWindow("u", 20)) == None;
    var t := Apply(Opened(), Tick(0, Some(25.0)));
    var expected := Second(Pending, {20}, map[1 := LoadWaiter(0, 20, 1)], 2);
    MarkTwenty();
    assert t.controllers == expected.controllers;
    assert t.cache == expected.cache;
    assert t.requests == expected.requests;
    assert t.waiters == expected.waiters;
  }

  lemma CallFails()
    ensures Apply(Second(Pending, {20}, map[1 := LoadWaiter(0, 20, 1)], 2), Settle(1, Rejected))
         == Second(Rejected, {20}, map[1 := LoadWaiter(0, 20, 1)], 2)
  {}

  lemma LoadEnds(w: nat)
    ensures Apply(Second(Rejected, {20}, map[w := LoadWaiter(0, 20, 1)], w + 1), Resume(w)) == Second(Rejected, {}, map[], w + 1)
  {
    var s := Second(Rejected, {20}, map[w := LoadWaiter(0, 20, 1)], w + 1);
    assert s.waiters - {w} == map[];
    UnmarkTwenty();
    assert Apply(s, Resume(w)).controllers == [Loading({})];
  }

  lemma PollMeetsFailure(w: nat)
    ensures Apply(Second(Rejected, {}, map[], w), Tick(0, Some(25.0))) == Second(Rejected, {20}, map[w := LoadWaiter(0, 20, 1)], w + 1)
  {
    var s := Second(Rejected, {}, map[], w);
    assert WindowStartSeconds(Some(25.0)) == 20;
    assert Lookup(s.cache[1..], WithWindow("u", 20)) == Some(1);
    var t := Apply(s, Tick(0, Some(25.0)));
    MarkTwenty();
    assert t.controllers == [Loading({20})];
    assert Lookup(s.cache, WithWindow("u", 20)) == Some(1);
    assert t.waiters == map[w := LoadWaiter(0, 20, 1)];
  }

  lemma FailingRuns()
    ensures Exec(Opened(), FAILING) == Second(Rejected, {}, map[], 2)
  {
    ExecThree(Opened(), FAILING[0], FAILING[1], FAILING[2]);
    PollAsks();
    CallFails();
    LoadEnds(1);
  }

  /**
   The failed window is not asked for again: the next poll at 25 s makes no call, awaits the failed
   one, and leaves the window unloaded; so does every later one until 200 other windows were asked for.
   */
  lemma FailedWindowIsNotRetried()
    ensures var s := Exec(INITIAL, OPENING + FAILING);
            var t := Exec(s, [Tick(0, Some(25.0)), Resume(2)]);
            && Failed(s, 1) && s.requests[1].url == WithWindow("u", 20)
            && t.requests == s.requests
            && |t.controllers| == 1 && 20 !in t.controllers[0].loadedStarts
  {
    ExecAll(INITIAL, OPENING, FAILING);
    OpeningRuns();
    FailingRuns();
    var s := Second(Rejected, {}, map[], 2);
    ExecTwo(s, Tick(0, Some(25.0)), Resume(2));
    PollMeetsFailure(2);
    LoadEnds(2);
  }

  lemma ExecTwo(s: State, a: Step, b: Step)
    ensures Exec(s, [a, b]) == Apply(Apply(s, a), b)
  {
    assert [a, b][..1] == [a] && [a][..0] == [];
    assert Exec(s, [a]) == Apply(s, a);
  }
}
