/** What the loader's runs mean to the page: safety of controllers, coverage, order independence. */
module SubtitleLoaderTheorems {
  import opened Cues
  import opened Options
  import opened Ordering
  import opened SubtitleLoader
  import opened SubtitleLoaderInvariant

  // ----- Stopped controllers

  lemma StoppedStep(s: State, step: Step, c: nat)
    requires c < |s.controllers| && s.controllers[c].stopped
    ensures var t := Apply(s, step);
            c < |t.controllers| && t.controllers[c] == s.controllers[c].(loadingStarts := t.controllers[c].loadingStarts)
  {}

  /** Whatever happens next, a stopped controller stays stopped and its events never change again. */
  lemma {:induction false} StoppedForever(s: State, steps: seq<Step>, c: nat)
    requires c < |s.controllers| && s.controllers[c].stopped
    ensures var t := Exec(s, steps);
            && c < |t.controllers|
            && t.controllers[c].stopped
            && t.controllers[c].events == s.controllers[c].events
            && t.controllers[c].loadedStarts == s.controllers[c].loadedStarts
  {
    if steps != [] {
      StoppedForever(s, steps[..|steps| - 1], c);
      StoppedStep(Exec(s, steps[..|steps| - 1]), steps[|steps| - 1], c);
    }
  }

  /**
   In every reachable state a controller other than the active one is stopped, and the loads a
   controller has in flight correspond one to one to its loading marks, none of them already loaded.
   */
  lemma ControllerSafety(steps: seq<Step>, c: nat)
    requires c < |Exec(INITIAL, steps).controllers|
    ensures var s := Exec(INITIAL, steps);
            && (s.controllers[c].stopped || s.active == Some(c))
            && s.controllers[c].loadingStarts
               == (set w | w in s.waiters && s.waiters[w].LoadWaiter? && s.waiters[w].controller == c :: s.waiters[w].start)
            && (forall v, w, start :: Loads(s, v, c, start) && Loads(s, w, c, start) ==> v == w)
            && s.controllers[c].loadingStarts !! s.controllers[c].loadedStarts
  {
    RunKeeps(steps);
    var s := Exec(INITIAL, steps);
    var flights := set w | w in s.waiters && s.waiters[w].LoadWaiter? && s.waiters[w].controller == c :: s.waiters[w].start;
    forall start: nat
      ensures start in s.controllers[c].loadingStarts <==> start in flights
    {
      if start in s.controllers[c].loadingStarts {
        var w :| Loads(s, w, c, start);
        assert start in flights;
      }
      if start in flights {
        var w :| w in s.waiters && s.waiters[w].LoadWaiter? && s.waiters[w].controller == c && s.waiters[w].start == start;
        assert Loads(s, w, c, start);
      }
    }
    assert ControllerOk(s.requests, s.controllers[c]);
  }

  lemma StepOnlyAdds(s: State, step: Step, c: nat)
    requires c < |s.controllers|
    ensures var t := Apply(s, step);
            && c < |t.controllers|
            && t.controllers[c].base == s.controllers[c].base
            && s.controllers[c].loadedStarts <= t.controllers[c].loadedStarts
            && s.controllers[c].eventKeys <= t.controllers[c].eventKeys
  {}

  lemma {:induction false} RunOnlyAdds(s: State, steps: seq<Step>, c: nat)
    requires c < |s.controllers|
    ensures var t := Exec(s, steps);
            && c < |t.controllers|
            && t.controllers[c].base == s.controllers[c].base
            && s.controllers[c].loadedStarts <= t.controllers[c].loadedStarts
            && s.controllers[c].eventKeys <= t.controllers[c].eventKeys
  {
    if steps != [] {
      RunOnlyAdds(s, steps[..|steps| - 1], c);
      StepOnlyAdds(Exec(s, steps[..|steps| - 1]), steps[|steps| - 1], c);
    }
  }

  /** In every continuation of every run a controller keeps its loaded windows and the keys of its events. */
  lemma LoadedNeverLost(steps: seq<Step>, more: seq<Step>, c: nat)
    requires c < |Exec(INITIAL, steps).controllers|
    ensures var s, t := Exec(INITIAL, steps), Exec(Exec(INITIAL, steps), more);
            && c < |t.controllers|
            && s.controllers[c].loadedStarts <= t.controllers[c].loadedStarts
            && Keys(s.controllers[c].events) <= Keys(t.controllers[c].events)
  {
    var s := Exec(INITIAL, steps);
    RunOnlyAdds(s, more, c);
    RunKeeps(steps);
    ContinuationKeeps(s, more);
    assert ControllerOk(s.requests, s.controllers[c]);
    assert ControllerOk(Exec(s, more).requests, Exec(s, more).controllers[c]);
  }

  /**
   In every reachable state the key set mirrors the events, a key of the initial response keeps
   its initial multiplicity, every other key occurs once, and events are sorted by start if the
   latest merge ran to its end.
   */
  lemma MergeInvariant(steps: seq<Step>, c: nat, key: string)
    requires c < |Exec(INITIAL, steps).controllers|
    ensures var k := Exec(INITIAL, steps).controllers[c];
            && k.eventKeys == Keys(k.events)
            && (key in Keys(k.initial) ==> KeyBag(k.events)[key] == KeyBag(k.initial)[key])
            && (key in Keys(k.events) && key !in Keys(k.initial) ==> KeyBag(k.events)[key] == 1)
            && (k.log != [] && k.log[|k.log| - 1].complete ==>
                  forall i, j :: 0 <= i < j < |k.events| ==> k.events[i].startTicks <= k.events[j].startTicks)
  {
    RunKeeps(steps);
    var s := Exec(INITIAL, steps);
    var k := s.controllers[c];
    assert ControllerOk(s.requests, k);
    ReplayBag(k.initial, k.log, key);
    if k.log != [] && k.log[|k.log| - 1].complete {
      ReplaySorted(k.initial, k.log);
      forall i, j | 0 <= i < j < |k.events|
        ensures k.events[i].startTicks <= k.events[j].startTicks
      {
        assert !EarlierStart(k.events[j], k.events[i]);
      }
    }
  }

  /**
   How a load in flight ends. On a live controller a readable response makes its window loaded and
   brings every key of the response; after a failed call nothing is loaded and the mark is gone. A
   later poll awaits the same failed call for as long as the cache holds it.
   */
  lemma LoadOutcome(steps: seq<Step>, w: nat)
    requires Enabled(Exec(INITIAL, steps), Resume(w)) && Exec(INITIAL, steps).waiters[w].LoadWaiter?
    ensures var s, t := Exec(INITIAL, steps), Apply(Exec(INITIAL, steps), Resume(w));
            var LoadWaiter(c, start, r) := s.waiters[w];
            var promise := s.requests[r].promise;
            var merge := if promise.Fulfilled? then MergeOf(start, promise.body) else None;
            var loaded := !s.controllers[c].stopped && merge.Some? && merge.value.complete;
            && start !in t.controllers[c].loadingStarts
            && (start in t.controllers[c].loadedStarts <==> loaded)
            && (loaded ==> Keys(merge.value.cues) <= Keys(t.controllers[c].events))
            && (merge.None? ==> t.controllers[c].events == s.controllers[c].events)
  {
    RunKeeps(steps);
    var s := Exec(INITIAL, steps);
    var LoadWaiter(c, start, r) := s.waiters[w];
    var k := s.controllers[c];
    assert ControllerOk(s.requests, k);
    assert Loads(s, w, c, start);
    if s.requests[r].promise.Fulfilled? && MergeOf(start, s.requests[r].promise.body).Some? {
      MergeBag(k.events, MergeOf(start, s.requests[r].promise.body).value, "");
    }
  }

  // ----- Network calls

  function Urls(requests: seq<Request>): set<WindowUrl> {
    set i | 0 <= i < |requests| :: requests[i].url
  }

  lemma {:induction false} DistinctUrlsCount(requests: seq<Request>)
    requires forall i, j :: 0 <= i < j < |requests| ==> requests[i].url != requests[j].url
    ensures |Urls(requests)| == |requests|
  {
    if requests != [] {
      var n := |requests| - 1;
      DistinctUrlsCount(requests[..n]);
      assert Urls(requests) == Urls(requests[..n]) + {requests[n].url};
      assert requests[n].url !in Urls(requests[..n]);
    }
  }

  lemma {:induction false} UrlsOfPrefix(requests: seq<Request>, n: nat)
    requires n <= |requests|
    ensures |Urls(requests[..n])| <= |Urls(requests)|
    decreases |requests| - n
  {
    assert Urls(requests[..n]) <= Urls(requests) by {
      forall u | u in Urls(requests[..n])
        ensures u in Urls(requests)
      {
        var i :| 0 <= i < n && requests[..n][i].url == u;
        assert requests[i].url == u;
      }
    }
    SubsetSize(Urls(requests[..n]), Urls(requests));
  }

  lemma {:induction false} SubsetSize<T>(a: set<T>, b: set<T>)
    requires a <= b
    ensures |a| <= |b|
  {
    assert |b| == |a| + |b - a| by {
      assert b == a + (b - a);
    }
  }

  /** A run that touches at most 200 window URLs calls the network at most once for each. */
  lemma AtMostOneCallPerUrl(steps: seq<Step>)
    requires |Urls(Exec(INITIAL, steps).requests)| <= 200
    ensures var requests := Exec(INITIAL, steps).requests;
            forall i, j :: 0 <= i < j < |requests| ==> requests[i].url != requests[j].url
  {
    RunKeeps(steps);
    var requests := Exec(INITIAL, steps).requests;
    if |requests| > CACHE_LIMIT {
      DistinctUrlsCount(requests[..CACHE_LIMIT + 1]);
      UrlsOfPrefix(requests, CACHE_LIMIT + 1);
      assert false;
    }
  }

  /**
   When a fetch calls the network: exactly when none of the last 200 calls was for its URL. A
   failed call counts as well, so polling again does not retry a failed window until 200 other
   windows have pushed it out of the cache.
   */
  lemma CallsNetworkIffNotRecent(steps: seq<Step>, url: WindowUrl)
    ensures var s := Exec(INITIAL, steps);
            var n := |s.requests|;
            |Fetch(s, url).0.requests| == n + 1
            <==> forall i :: 0 <= i < n && n - i <= 200 ==> s.requests[i].url != url
  {
    RunKeeps(steps);
    var s := Exec(INITIAL, steps);
    if Lookup(s.cache, url).Some? {
      CachedIsRecent(s, url);
    } else {
      NotCachedIsNotRecent(s, url);
    }
  }

  lemma CachedIsRecent(s: State, url: WindowUrl)
    requires CacheLaw(s) && Lookup(s.cache, url).Some?
    ensures exists i :: 0 <= i < |s.requests| && |s.requests| - i <= CACHE_LIMIT && s.requests[i].url == url
  {
    var n := |s.requests|;
    var first := if n > CACHE_LIMIT then n - CACHE_LIMIT else 0;
    LookupFinds(s.cache, url);
    var j :| 0 <= j < |s.cache| && s.cache[j] == CacheEntry(url, Lookup(s.cache, url).value);
    assert s.cache[j] == CacheEntry(s.requests[first + j].url, first + j);
  }

  lemma NotCachedIsNotRecent(s: State, url: WindowUrl)
    requires CacheLaw(s) && Lookup(s.cache, url).None?
    ensures forall i :: 0 <= i < |s.requests| && |s.requests| - i <= CACHE_LIMIT ==> s.requests[i].url != url
  {
    var n := |s.requests|;
    LookupFinds(s.cache, url);
    NewCallIsSpreadOut(s, url);
    var grown := s.requests + [Request(url, Pending)];
    forall i | 0 <= i < n && n - i <= CACHE_LIMIT
      ensures s.requests[i].url != url
    {
      assert grown[i].url != grown[n].url;
    }
  }

  // ----- Window loading refines one big fetch

  type Selection = (Cue, int, int) -> bool

  /** The cue is on screen at some moment of [lo, hi). */
  predicate Overlaps(cue: Cue, lo: int, hi: int) {
    cue.startTicks < hi && cue.endTicks > lo
  }

  /** The selection made by the server of this repository for embedded and remote subtitles. */
  predicate StartsWithin(cue: Cue, lo: int, hi: int) {
    lo <= cue.startTicks < hi
  }

  /** The response lists exactly the source cues that the selection picks for the window, in any order. */
  ghost predicate AnswersWindow(body: Body, source: seq<Cue>, pick: Selection, lo: int, hi: int) {
    && body.Body? && body.track.Entries? && AllGood(body.track.entries)
    && forall cue :: cue in GoodPrefix(body.track.entries) <==> cue in source && pick(cue, lo, hi)
  }

  /** Every answer so far was the selection for its window; calls may also have failed or be pending. */
  ghost predicate HonestServer(requests: seq<Request>, source: string -> seq<Cue>, pick: Selection) {
    forall r :: 0 <= r < |requests| && requests[r].promise.Fulfilled? ==>
      AnswersWindow(requests[r].promise.body, source(requests[r].url.base), pick, requests[r].url.startTicks, requests[r].url.endTicks)
  }

  ghost predicate InWindow(cue: Cue, pick: Selection, start: nat) {
    pick(cue, start * TICKS_PER_SECOND, (start + WINDOW_SECONDS) * TICKS_PER_SECOND)
  }

  lemma DeliveredIsHonest(requests: seq<Request>, source: string -> seq<Cue>, pick: Selection, base: string, start: nat, body: Body)
    requires HonestServer(requests, source, pick) && Delivered(requests, WithWindow(base, start), body)
    ensures AnswersWindow(body, source(base), pick, start * TICKS_PER_SECOND, (start + WINDOW_SECONDS) * TICKS_PER_SECOND)
  {
    var r :| 0 <= r < |requests| && requests[r] == Request(WithWindow(base, start), Fulfilled(body));
  }

  /** The keys of a list of cues that is exactly the selection for one window. */
  ghost predicate ListsWindow(cues: seq<Cue>, source: seq<Cue>, pick: Selection, start: nat) {
    forall cue :: cue in cues <==> cue in source && InWindow(cue, pick, start)
  }

  lemma InitialLists(requests: seq<Request>, k: Controller, source: string -> seq<Cue>, pick: Selection)
    requires InitialSourced(requests, k) && HonestServer(requests, source, pick)
    ensures ListsWindow(k.initial, source(k.base), pick, k.initialStart)
  {
    var body :| Delivered(requests, WithWindow(k.base, k.initialStart), body) && InitialEvents(body) == Some(k.initial);
    DeliveredIsHonest(requests, source, pick, k.base, k.initialStart, body);
  }

  lemma MergeLists(requests: seq<Request>, base: string, m: Merge, source: string -> seq<Cue>, pick: Selection)
    requires MergeSourced(requests, base, m) && HonestServer(requests, source, pick)
    ensures m.complete && ListsWindow(m.cues, source(base), pick, m.start)
  {
    var body :| Delivered(requests, WithWindow(base, m.start), body) && MergeOf(m.start, body) == Some(m);
    DeliveredIsHonest(requests, source, pick, base, m.start, body);
  }

  /** Some source cue with this key belongs to a loaded window. */
  ghost predicate Selected(key: string, source: seq<Cue>, pick: Selection, starts: set<nat>) {
    exists cue, start :: cue in source && start in starts && InWindow(cue, pick, start) && EventKey(cue) == key
  }

  lemma EventsAreSelected(requests: seq<Request>, k: Controller, source: string -> seq<Cue>, pick: Selection, key: string)
    requires ControllerOk(requests, k) && HonestServer(requests, source, pick) && key in Keys(k.events)
    ensures Selected(key, source(k.base), pick, k.loadedStarts)
  {
    ReplayBag(k.initial, k.log, key);
    if key in Keys(k.initial) {
      InitialLists(requests, k, source, pick);
      var cue :| cue in k.initial && EventKey(cue) == key;
      assert InWindow(cue, pick, k.initialStart);
    } else {
      LogKeysMembers(k.log, key);
      var i :| 0 <= i < |k.log| && key in Keys(k.log[i].cues);
      MergeLists(requests, k.base, k.log[i], source, pick);
      var cue :| cue in k.log[i].cues && EventKey(cue) == key;
      assert InWindow(cue, pick, k.log[i].start);
      assert k.log[i].start in CompletedStarts(k.log);
    }
  }

  lemma SelectedAreEvents(requests: seq<Request>, k: Controller, source: string -> seq<Cue>, pick: Selection, cue: Cue, start: nat)
    requires ControllerOk(requests, k) && HonestServer(requests, source, pick)
    requires cue in source(k.base) && start in k.loadedStarts && InWindow(cue, pick, start)
    ensures EventKey(cue) in Keys(k.events)
  {
    var key := EventKey(cue);
    ReplayBag(k.initial, k.log, key);
    if start == k.initialStart {
      InitialLists(requests, k, source, pick);
    } else {
      assert start in CompletedStarts(k.log);
      var i :| 0 <= i < |k.log| && k.log[i].start == start;
      MergeLists(requests, k.base, k.log[i], source, pick);
      LogKeysMembers(k.log, key);
    }
  }

  /**
   In every reachable state, with a server that answers each window with its selection of the
   source, the events of a controller have exactly the keys selected for its loaded windows:
   the windows add up to one fetch of their union.
   */
  lemma LoadedKeys(steps: seq<Step>, c: nat, source: string -> seq<Cue>, pick: Selection, key: string)
    requires c < |Exec(INITIAL, steps).controllers|
    requires HonestServer(Exec(INITIAL, steps).requests, source, pick)
    ensures var k := Exec(INITIAL, steps).controllers[c];
            key in Keys(k.events) <==> Selected(key, source(k.base), pick, k.loadedStarts)
  {
    RunKeeps(steps);
    var s := Exec(INITIAL, steps);
    var k := s.controllers[c];
    assert ControllerOk(s.requests, k);
    if key in Keys(k.events) {
      EventsAreSelected(s.requests, k, source, pick, key);
    }
    if Selected(key, source(k.base), pick, k.loadedStarts) {
      var cue, start :| cue in source(k.base) && start in k.loadedStarts && InWindow(cue, pick, start) && EventKey(cue) == key;
      SelectedAreEvents(s.requests, k, source, pick, cue, start);
    }
  }

  /** The cue is on screen between `position` and ten seconds later. */
  ghost predicate NeededAt(cue: Cue, position: real) {
    && cue.startTicks as real <= (position + 10.0) * 10_000_000.0
    && cue.endTicks as real > position * 10_000_000.0
  }

  lemma WindowReachesAhead(position: real)
    requires position >= 0.0
    ensures var w := WindowStartSeconds(Some(position));
            w as real <= position < (w + STEP_SECONDS) as real
  {
    var q := (position / 20.0).Floor;
    assert q as real <= position / 20.0 < (q + 1) as real;
  }

  lemma NeededIsInWindow(cue: Cue, position: real)
    requires position >= 0.0 && NeededAt(cue, position)
    ensures InWindow(cue, Overlaps, WindowStartSeconds(Some(position)))
  {
    var w := WindowStartSeconds(Some(position));
    WindowReachesAhead(position);
    assert (cue.startTicks as real) < ((w + WINDOW_SECONDS) * TICKS_PER_SECOND) as real;
    assert cue.endTicks as real > (w * TICKS_PER_SECOND) as real;
  }

  /** All source cues needed at a position are among the events. */
  ghost predicate Covered(k: Controller, source: seq<Cue>, position: real) {
    forall cue :: cue in source && NeededAt(cue, position) ==> EventKey(cue) in Keys(k.events)
  }

  /** With a server that answers overlapping cues, a loaded window covers every position that maps to it. */
  lemma Coverage(steps: seq<Step>, c: nat, source: string -> seq<Cue>, position: real)
    requires c < |Exec(INITIAL, steps).controllers| && position >= 0.0
    requires HonestServer(Exec(INITIAL, steps).requests, source, Overlaps)
    requires WindowStartSeconds(Some(position)) in Exec(INITIAL, steps).controllers[c].loadedStarts
    ensures var k := Exec(INITIAL, steps).controllers[c]; Covered(k, source(k.base), position)
  {
    var k := Exec(INITIAL, steps).controllers[c];
    forall cue | cue in source(k.base) && NeededAt(cue, position)
      ensures EventKey(cue) in Keys(k.events)
    {
      NeededIsInWindow(cue, position);
      LoadedKeys(steps, c, source, Overlaps, EventKey(cue));
    }
  }

  ghost predicate StartLoaded(cue: Cue, starts: set<nat>) {
    exists start :: start in starts && InWindow(cue, StartsWithin, start)
  }

  /**
   With the server of this repository, which answers the cues that start in the window, a position
   is covered exactly when no cue needed there started outside every loaded window.
   */
  lemma CoverageOfStartingCues(steps: seq<Step>, c: nat, source: string -> seq<Cue>, position: real)
    requires c < |Exec(INITIAL, steps).controllers|
    requires HonestServer(Exec(INITIAL, steps).requests, source, StartsWithin)
    ensures var k := Exec(INITIAL, steps).controllers[c];
            Covered(k, source(k.base), position)
            <==> forall cue :: cue in source(k.base) && NeededAt(cue, position) ==> StartLoaded(cue, k.loadedStarts)
  {
    var k := Exec(INITIAL, steps).controllers[c];
    forall cue | cue in source(k.base)
      ensures EventKey(cue) in Keys(k.events) <==> StartLoaded(cue, k.loadedStarts)
    {
      LoadedKeys(steps, c, source, StartsWithin, EventKey(cue));
      if EventKey(cue) in Keys(k.events) {
        var other, start :| other in source(k.base) && start in k.loadedStarts
                            && InWindow(other, StartsWithin, start) && EventKey(other) == EventKey(cue);
        EventKeyInjective(other, cue);
        assert InWindow(cue, StartsWithin, start);
      }
    }
  }

  lemma ExecThree(s: State, a: Step, b: Step, c: Step)
    ensures Exec(s, [a, b, c]) == Apply(Apply(Apply(s, a), b), c)
  {
    assert [a, b, c][..2] == [a, b] && [a, b][..1] == [a] && [a][..0] == [];
    assert Exec(s, [a]) == Apply(s, a);
    assert Exec(s, [a, b]) == Apply(Exec(s, [a]), b);
  }

  /**
   Such a cue exists: after a seek straight to 45 s, with its window loaded, a cue running from
   38 s to 47 s is on screen but not among the events.
   */
  lemma SeekMissesRunningCue()
    ensures var cue := Cue(380_000_000, 470_000_000, Some("running"), "");
            var source := (base: string) => [cue];
            var steps := [Intercept("u", Some(45.0)), Settle(0, Fulfilled(Body(Entries([])))), Resume(0)];
            var s := Exec(INITIAL, steps);
            && HonestServer(s.requests, source, StartsWithin)
            && |s.controllers| == 1 && WindowStartSeconds(Some(45.0)) in s.controllers[0].loadedStarts
            && !Covered(s.controllers[0], source("u"), 45.0)
  {
    var cue := Cue(380_000_000, 470_000_000, Some("running"), "");
    var answer := Fulfilled(Body(Entries([])));
    var steps := [Intercept("u", Some(45.0)), Settle(0, answer), Resume(0)];
    assert WindowStartSeconds(Some(45.0)) == 40;
    ExecThree(INITIAL, steps[0], steps[1], steps[2]);
    var s1 := Apply(INITIAL, steps[0]);
    assert s1.requests == [Request(WithWindow("u", 40), Pending)] && s1.waiters == map[0 := FetchWaiter("u", 40, 0)];
    var s := Exec(INITIAL, steps);
    assert s == Apply(Apply(s1, steps[1]), steps[2]);
    var k := s.controllers[0];
    assert k.events == [] && k.loadedStarts == {40};
    assert NeededAt(cue, 45.0) && cue in [cue] && EventKey(cue) !in Keys(k.events);
  }

  /** The windows 0, 20, ..., 20 * last. */
  ghost function FirstWindows(last: nat): set<nat> {
    set i | 0 <= i <= last :: i * STEP_SECONDS
  }

  /** Where the first of all windows begins that does not end before the cue starts, in ticks. */
  function FirstWindowFor(cue: Cue): int {
    if cue.startTicks < WINDOW_SECONDS * TICKS_PER_SECOND then 0
    else ((cue.startTicks - WINDOW_SECONDS * TICKS_PER_SECOND) / (STEP_SECONDS * TICKS_PER_SECOND) + 1) * (STEP_SECONDS * TICKS_PER_SECOND)
  }

  /** The cue ends after that window begins. A cue that ends less than 10 seconds before it starts does. */
  predicate Reaches(cue: Cue) { FirstWindowFor(cue) < cue.endTicks }

  lemma UsualCueReaches(cue: Cue)
    requires cue.endTicks > 0 && cue.startTicks < cue.endTicks + (WINDOW_SECONDS - STEP_SECONDS) * TICKS_PER_SECOND
    ensures Reaches(cue)
  {}

  /** Some of the windows 0, 20, ..., 20 * last picks the cue exactly when one fetch of them all does and it reaches. */
  lemma OverlapsUnion(cue: Cue, last: nat)
    ensures (exists start :: start in FirstWindows(last) && InWindow(cue, Overlaps, start)) <==>
            Overlaps(cue, 0, (last * STEP_SECONDS + WINDOW_SECONDS) * TICKS_PER_SECOND) && Reaches(cue)
  {
    var end := (last * STEP_SECONDS + WINDOW_SECONDS) * TICKS_PER_SECOND;
    if start :| start in FirstWindows(last) && InWindow(cue, Overlaps, start) {
      var i :| 0 <= i <= last && start == i * STEP_SECONDS;
      WindowIsLate(cue, i);
    }
    if Overlaps(cue, 0, end) && Reaches(cue) {
      var i := FirstWindowFor(cue) / (STEP_SECONDS * TICKS_PER_SECOND);
      assert i * STEP_SECONDS in FirstWindows(last);
      assert InWindow(cue, Overlaps, i * STEP_SECONDS);
    }
  }

  /** A window that picks the cue begins no earlier than its first one. */
  lemma WindowIsLate(cue: Cue, i: nat)
    requires InWindow(cue, Overlaps, i * STEP_SECONDS)
    ensures FirstWindowFor(cue) <= i * STEP_SECONDS * TICKS_PER_SECOND
  {}

  /**
   After the windows 0, 20, ..., 20k the events have exactly the keys of the source cues in
   [0, 20k + 30) seconds that reach.
   */
  lemma FirstWindowsKeys(steps: seq<Step>, c: nat, source: string -> seq<Cue>, last: nat, key: string)
    requires c < |Exec(INITIAL, steps).controllers|
    requires HonestServer(Exec(INITIAL, steps).requests, source, Overlaps)
    requires Exec(INITIAL, steps).controllers[c].loadedStarts == FirstWindows(last)
    ensures var k := Exec(INITIAL, steps).controllers[c];
            key in Keys(k.events) <==> exists cue :: cue in source(k.base) && InOneFetch(cue, last) && Reaches(cue) && EventKey(cue) == key
  {
    var k := Exec(INITIAL, steps).controllers[c];
    LoadedKeys(steps, c, source, Overlaps, key);
    if key in Keys(k.events) {
      var cue, start :| cue in source(k.base) && start in k.loadedStarts && InWindow(cue, Overlaps, start) && EventKey(cue) == key;
      OverlapsUnion(cue, last);
    }
    if cue :| cue in source(k.base) && InOneFetch(cue, last) && Reaches(cue) && EventKey(cue) == key {
      OverlapsUnion(cue, last);
      var start :| start in FirstWindows(last) && InWindow(cue, Overlaps, start);
    }
  }

  /** One fetch of [0, 20 * last + 30) seconds picks the cue. */
  predicate InOneFetch(cue: Cue, last: nat) {
    Overlaps(cue, 0, (last * STEP_SECONDS + WINDOW_SECONDS) * TICKS_PER_SECOND)
  }

  ghost predicate HoldsOneFetch(k: Controller, source: seq<Cue>, last: nat) {
    forall key :: key in Keys(k.events) <==> exists cue :: cue in source && InOneFetch(cue, last) && EventKey(cue) == key
  }

  /**
   After the windows 0, 20, ..., 20k the events have exactly the keys that one fetch of
   [0, 20k + 30) seconds would have brought, if and only if every source cue in that range reaches;
   all do that end less than 10 seconds before they start.
   */
  lemma FirstWindowsAreOneFetch(steps: seq<Step>, c: nat, source: string -> seq<Cue>, last: nat)
    requires c < |Exec(INITIAL, steps).controllers|
    requires HonestServer(Exec(INITIAL, steps).requests, source, Overlaps)
    requires Exec(INITIAL, steps).controllers[c].loadedStarts == FirstWindows(last)
    ensures var k := Exec(INITIAL, steps).controllers[c];
            HoldsOneFetch(k, source(k.base), last) <==>
            forall cue :: cue in source(k.base) && InOneFetch(cue, last) ==> Reaches(cue)
  {
    var k := Exec(INITIAL, steps).controllers[c];
    forall key: string
      ensures key in Keys(k.events) <==>
              exists cue :: cue in source(k.base) && InOneFetch(cue, last) && Reaches(cue) && EventKey(cue) == key
    {
      FirstWindowsKeys(steps, c, source, last, key);
    }
    if HoldsOneFetch(k, source(k.base), last) {
      forall cue | cue in source(k.base) && InOneFetch(cue, last)
        ensures Reaches(cue)
      {
        assert EventKey(cue) in Keys(k.events);
        var other :| other in source(k.base) && InOneFetch(other, last) && Reaches(other) && EventKey(other) == EventKey(cue);
        SameKeySameReach(other, cue);
      }
    }
  }

  lemma SameKeySameReach(a: Cue, b: Cue)
    requires EventKey(a) == EventKey(b)
    ensures Reaches(a) == Reaches(b)
  {
    EventKeyInjective(a, b);
    assert FieldsOf(a).startTicks == FieldsOf(b).startTicks && FieldsOf(a).endTicks == FieldsOf(b).endTicks;
  }

  // ----- Completion order

  /** Each window has one fixed response, whenever it answers. */
  ghost predicate FixedResponses(requests: seq<Request>, answer: WindowUrl -> Body) {
    forall r :: 0 <= r < |requests| && requests[r].promise.Fulfilled? ==> requests[r].promise.body == answer(requests[r].url)
  }

  function MergedStarts(log: seq<Merge>): set<nat> {
    set m | m in log :: m.start
  }

  lemma MergeIsFixed(requests: seq<Request>, base: string, m: Merge, answer: WindowUrl -> Body)
    requires MergeSourced(requests, base, m) && FixedResponses(requests, answer)
    ensures MergeOf(m.start, answer(WithWindow(base, m.start))) == Some(m)
  {
    var body :| Delivered(requests, WithWindow(base, m.start), body) && MergeOf(m.start, body) == Some(m);
    var r :| 0 <= r < |requests| && requests[r] == Request(WithWindow(base, m.start), Fulfilled(body));
  }

  lemma SameStartsSameKeys(s: seq<Request>, t: seq<Request>, k: Controller, l: Controller, answer: WindowUrl -> Body, key: string)
    requires ControllerOk(s, k) && ControllerOk(t, l) && k.base == l.base
    requires FixedResponses(s, answer) && FixedResponses(t, answer)
    requires MergedStarts(k.log) <= MergedStarts(l.log)
    ensures key in LogKeys(k.log) ==> key in LogKeys(l.log)
  {
    LogKeysMembers(k.log, key);
    LogKeysMembers(l.log, key);
    if key in LogKeys(k.log) {
      var m :| m in k.log && key in Keys(m.cues);
      assert m.start in MergedStarts(l.log);
      var n :| n in l.log && n.start == m.start;
      MergeIsFixed(s, k.base, m, answer);
      MergeIsFixed(t, l.base, n, answer);
      assert n == m;
    }
  }

  lemma SameInitial(requests: seq<Request>, k: Controller, answer: WindowUrl -> Body)
    requires InitialSourced(requests, k) && FixedResponses(requests, answer)
    ensures InitialEvents(answer(WithWindow(k.base, k.initialStart))) == Some(k.initial)
  {
    var body :| Delivered(requests, WithWindow(k.base, k.initialStart), body) && InitialEvents(body) == Some(k.initial);
    var r :| 0 <= r < |requests| && requests[r] == Request(WithWindow(k.base, k.initialStart), Fulfilled(body));
  }

  lemma SameMergesSameEvents(s: seq<Request>, t: seq<Request>, k: Controller, l: Controller, answer: WindowUrl -> Body)
    requires ControllerOk(s, k) && ControllerOk(t, l) && k.base == l.base && k.initialStart == l.initialStart
    requires FixedResponses(s, answer) && FixedResponses(t, answer)
    requires MergedStarts(k.log) == MergedStarts(l.log)
    ensures KeyBag(k.events) == KeyBag(l.events)
    ensures EndsComplete(k.log) && EndsComplete(l.log) ==> Starts(k.events) == Starts(l.events)
  {
    SameInitial(s, k, answer);
    SameInitial(t, l, answer);
    forall key
      ensures key in LogKeys(k.log) <==> key in LogKeys(l.log)
    {
      SameStartsSameKeys(s, t, k, l, answer, key);
      SameStartsSameKeys(t, s, l, k, answer, key);
    }
    SameKeysSameBag(k.initial, k.log, l.log);
    if EndsComplete(k.log) && EndsComplete(l.log) {
      MergeOrderIndependent(k.initial, k.log, l.log);
    }
  }

  /**
   Two runs, each with any interleaving, failures and retries: if a controller of either started
   from the same window and merged the same windows, the two hold the same bag of keys; and if the
   latest merge of both ran to its end, they show the same sequence of start positions.
   */
  lemma CompletionOrderIndependence(
    steps1: seq<Step>, c1: nat, steps2: seq<Step>, c2: nat, answer: WindowUrl -> Body)
    requires c1 < |Exec(INITIAL, steps1).controllers| && c2 < |Exec(INITIAL, steps2).controllers|
    requires FixedResponses(Exec(INITIAL, steps1).requests, answer)
    requires FixedResponses(Exec(INITIAL, steps2).requests, answer)
    requires var k, l := Exec(INITIAL, steps1).controllers[c1], Exec(INITIAL, steps2).controllers[c2];
             && k.base == l.base && k.initialStart == l.initialStart
             && MergedStarts(k.log) == MergedStarts(l.log)
    ensures var k, l := Exec(INITIAL, steps1).controllers[c1], Exec(INITIAL, steps2).controllers[c2];
            && KeyBag(k.events) == KeyBag(l.events)
            && (EndsComplete(k.log) && EndsComplete(l.log) ==> Starts(k.events) == Starts(l.events))
  {
    RunKeeps(steps1);
    RunKeeps(steps2);
    var s, t := Exec(INITIAL, steps1), Exec(INITIAL, steps2);
    SameMergesSameEvents(s.requests, t.requests, s.controllers[c1], t.controllers[c2], answer);
  }
}
