/** What every run of the subtitle loader keeps. */
module SubtitleLoaderInvariant {
  import opened Cues
  import opened Options
  import opened SubtitleLoader

  // ----- Cache law

  function RequestLog(requests: seq<Request>): (log: seq<CacheEntry>)
    ensures |log| == |requests|
  {
    seq(|requests|, i requires 0 <= i < |requests| => CacheEntry(requests[i].url, i))
  }

  function Latest(requests: seq<Request>): seq<CacheEntry> {
    var n := |requests|;
    RequestLog(requests)[if n > CACHE_LIMIT then n - CACHE_LIMIT else 0..]
  }

  ghost predicate DistinctUrls(cache: seq<CacheEntry>) {
    forall i, j :: 0 <= i < j < |cache| ==> cache[i].url != cache[j].url
  }

  /** Between two network calls for one URL there are at least 200 calls for other URLs. */
  ghost predicate SpreadOut(requests: seq<Request>) {
    forall i, j :: 0 <= i < j < |requests| && j - i <= CACHE_LIMIT ==> requests[i].url != requests[j].url
  }

  /** The cache holds exactly the last 200 network calls, oldest first, each URL once. */
  ghost predicate CacheLaw(s: State) {
    s.cache == Latest(s.requests) && DistinctUrls(s.cache) && SpreadOut(s.requests)
  }

  lemma {:induction false} LookupFinds(cache: seq<CacheEntry>, url: WindowUrl)
    ensures Lookup(cache, url).Some? ==> exists i :: 0 <= i < |cache| && cache[i] == CacheEntry(url, Lookup(cache, url).value)
    ensures Lookup(cache, url).None? ==> forall i :: 0 <= i < |cache| ==> cache[i].url != url
  {
    if cache != [] && cache[0].url != url {
      LookupFinds(cache[1..], url);
      if Lookup(cache[1..], url).Some? {
        var i :| 0 <= i < |cache[1..]| && cache[1..][i] == CacheEntry(url, Lookup(cache[1..], url).value);
        assert cache[i + 1] == CacheEntry(url, Lookup(cache, url).value);
      }
    } else if cache != [] {
      assert cache[0] == CacheEntry(url, Lookup(cache, url).value);
    }
  }

  lemma NewCallIsSpreadOut(s: State, url: WindowUrl)
    requires CacheLaw(s)
    requires forall i :: 0 <= i < |s.cache| ==> s.cache[i].url != url
    ensures SpreadOut(s.requests + [Request(url, Pending)])
  {
    var n := |s.requests|;
    forall i | 0 <= i < n && n - i <= CACHE_LIMIT
      ensures s.requests[i].url != url
    {
      var first := if n > CACHE_LIMIT then n - CACHE_LIMIT else 0;
      assert s.cache[i - first] == CacheEntry(s.requests[i].url, i);
    }
  }

  lemma StoreKeepsLatest(requests: seq<Request>, url: WindowUrl)
    ensures var request := Request(url, Pending);
            Latest(requests + [request]) == Store(Latest(requests), CacheEntry(url, |requests|))
  {
    assert RequestLog(requests + [Request(url, Pending)]) == RequestLog(requests) + [CacheEntry(url, |requests|)];
  }

  lemma StoreDistinct(cache: seq<CacheEntry>, entry: CacheEntry)
    requires DistinctUrls(cache) && forall i :: 0 <= i < |cache| ==> cache[i].url != entry.url
    ensures var stored := Store(cache, entry);
            DistinctUrls(stored) && stored != [] && stored[|stored| - 1] == entry
  {}

  lemma NewCallKeepsCacheLaw(s: State, url: WindowUrl)
    requires CacheLaw(s) && Lookup(s.cache, url).None?
    ensures CacheLaw(Fetch(s, url).0)
    ensures Lookup(Fetch(s, url).0.cache, url) == Some(|s.requests|)
  {
    var entry := CacheEntry(url, |s.requests|);
    LookupFinds(s.cache, url);
    StoreKeepsLatest(s.requests, url);
    StoreDistinct(s.cache, entry);
    LookupLast(Store(s.cache, entry));
    NewCallIsSpreadOut(s, url);
  }

  lemma FetchKeepsCacheLaw(s: State, url: WindowUrl)
    requires CacheLaw(s)
    ensures CacheLaw(Fetch(s, url).0)
    ensures Fetch(s, url).1 < |Fetch(s, url).0.requests|
    ensures Fetch(s, url).0.requests[Fetch(s, url).1].url == url
    ensures Lookup(Fetch(s, url).0.cache, url) == Some(Fetch(s, url).1)
  {
    LookupFinds(s.cache, url);
    if Lookup(s.cache, url).None? {
      NewCallKeepsCacheLaw(s, url);
    } else {
      var i :| 0 <= i < |s.cache| && s.cache[i] == CacheEntry(url, Lookup(s.cache, url).value);
      assert i < |Latest(s.requests)|;
    }
  }

  lemma {:induction false} LookupLast(cache: seq<CacheEntry>)
    requires DistinctUrls(cache) && cache != []
    ensures Lookup(cache, cache[|cache| - 1].url) == Some(cache[|cache| - 1].request)
  {
    if |cache| > 1 {
      LookupLast(cache[1..]);
    }
  }

  // ----- Controllers

  /** Some network call for this window answered with `body`. */
  ghost predicate Delivered(requests: seq<Request>, url: WindowUrl, body: Body) {
    exists r :: 0 <= r < |requests| && requests[r] == Request(url, Fulfilled(body))
  }

  ghost predicate InitialSourced(requests: seq<Request>, k: Controller) {
    exists body :: Delivered(requests, WithWindow(k.base, k.initialStart), body) && InitialEvents(body) == Some(k.initial)
  }

  ghost predicate MergeSourced(requests: seq<Request>, base: string, merge: Merge) {
    exists body :: Delivered(requests, WithWindow(base, merge.start), body) && MergeOf(merge.start, body) == Some(merge)
  }

  /** Windows whose merge ran to its end. */
  function CompletedStarts(log: seq<Merge>): set<nat> {
    set m | m in log && m.complete :: m.start
  }

  /**
   The shared events array is exactly the replay of the merged responses; the key set mirrors it;
   the loaded windows are the initial one and those merged to the end.
   */
  ghost predicate ControllerOk(requests: seq<Request>, k: Controller) {
    && k.events == Replay(k.initial, k.log)
    && k.eventKeys == Keys(k.events)
    && k.loadedStarts == {k.initialStart} + CompletedStarts(k.log)
    && k.loadedStarts !! k.loadingStarts
    && InitialSourced(requests, k)
    && (forall i :: 0 <= i < |k.log| ==> MergeSourced(requests, k.base, k.log[i]))
  }

  ghost predicate ControllersOk(s: State) {
    && (forall c :: 0 <= c < |s.controllers| ==> ControllerOk(s.requests, s.controllers[c]))
    && (s.active.Some? ==> s.active.value < |s.controllers|)
  }

  /** A controller that is not the active one is stopped. */
  ghost predicate OthersStopped(s: State) {
    forall c :: 0 <= c < |s.controllers| && s.active != Some(c) ==> s.controllers[c].stopped
  }

  // ----- Awaiting calls

  ghost predicate Loads(s: State, w: nat, c: nat, start: nat) {
    w in s.waiters && s.waiters[w].LoadWaiter? && s.waiters[w].controller == c && s.waiters[w].start == start
  }

  ghost predicate WaiterOk(s: State, w: nat)
    requires w in s.waiters
  {
    && w < s.nextWaiter
    && s.waiters[w].request < |s.requests|
    && match s.waiters[w]
       case LoadWaiter(c, start, r) =>
         c < |s.controllers| && s.requests[r].url == WithWindow(s.controllers[c].base, start)
       case FetchWaiter(base, start, r) =>
         s.requests[r].url == WithWindow(base, start)
  }

  ghost predicate WaitersOk(s: State) {
    forall w :: w in s.waiters ==> WaiterOk(s, w)
  }

  /** The loading marks of a controller and its loads in flight correspond one to one. */
  ghost predicate LoadingMatchesFlights(s: State) {
    && (forall w: nat, c: nat, start: nat :: Loads(s, w, c, start) && c < |s.controllers| ==> start in s.controllers[c].loadingStarts)
    && (forall c, start :: 0 <= c < |s.controllers| && start in s.controllers[c].loadingStarts ==> exists w :: Loads(s, w, c, start))
    && (forall v, w, c, start :: Loads(s, v, c, start) && Loads(s, w, c, start) ==> v == w)
  }

  ghost predicate RepliesOk(s: State) {
    forall i :: 0 <= i < |s.replies| && s.replies[i].Events? ==> s.replies[i].controller < |s.controllers|
  }

  ghost predicate Inv(s: State) {
    CacheLaw(s) && ControllersOk(s) && OthersStopped(s) && WaitersOk(s) && LoadingMatchesFlights(s) && RepliesOk(s)
  }

  // ----- Network calls are only added and settled

  /** `later` has every call of `earlier`, and a settled call keeps its outcome. */
  ghost predicate Grows(earlier: seq<Request>, later: seq<Request>) {
    && |earlier| <= |later|
    && forall r :: 0 <= r < |earlier| ==>
         later[r].url == earlier[r].url && (earlier[r].promise.Pending? || later[r] == earlier[r])
  }

  lemma GrowsKeepsDelivered(earlier: seq<Request>, later: seq<Request>, url: WindowUrl, body: Body)
    requires Grows(earlier, later) && Delivered(earlier, url, body)
    ensures Delivered(later, url, body)
  {
    var r :| 0 <= r < |earlier| && earlier[r] == Request(url, Fulfilled(body));
    assert later[r] == Request(url, Fulfilled(body));
  }

  lemma GrowsKeepsController(earlier: seq<Request>, later: seq<Request>, k: Controller)
    requires Grows(earlier, later) && ControllerOk(earlier, k)
    ensures ControllerOk(later, k)
  {
    var body :| Delivered(earlier, WithWindow(k.base, k.initialStart), body) && InitialEvents(body) == Some(k.initial);
    GrowsKeepsDelivered(earlier, later, WithWindow(k.base, k.initialStart), body);
    forall i | 0 <= i < |k.log|
      ensures MergeSourced(later, k.base, k.log[i])
    {
      assert MergeSourced(earlier, k.base, k.log[i]);
      var answer :| Delivered(earlier, WithWindow(k.base, k.log[i].start), answer) && MergeOf(k.log[i].start, answer) == Some(k.log[i]);
      GrowsKeepsDelivered(earlier, later, WithWindow(k.base, k.log[i].start), answer);
    }
  }

  /** A fetch touches only the cache and the list of network calls. */
  lemma FetchKeeps(s: State, url: WindowUrl)
    requires Inv(s)
    ensures Inv(Fetch(s, url).0)
    ensures Grows(s.requests, Fetch(s, url).0.requests)
  {
    FetchKeepsCacheLaw(s, url);
    var t := Fetch(s, url).0;
    forall c | 0 <= c < |s.controllers|
      ensures ControllerOk(t.requests, t.controllers[c])
    {
      GrowsKeepsController(s.requests, t.requests, s.controllers[c]);
    }
    forall w | w in t.waiters
      ensures WaiterOk(t, w)
    {
      assert WaiterOk(s, w);
    }
    SameFlights(s, t);
  }

  lemma SameFlights(s: State, t: State)
    requires LoadingMatchesFlights(s) && t.waiters == s.waiters && |t.controllers| == |s.controllers|
    requires forall c :: 0 <= c < |s.controllers| ==> t.controllers[c].loadingStarts == s.controllers[c].loadingStarts
    ensures LoadingMatchesFlights(t)
  {
    forall w, c, start
      ensures Loads(t, w, c, start) == Loads(s, w, c, start)
    {}
    forall c, start | 0 <= c < |t.controllers| && start in t.controllers[c].loadingStarts
      ensures exists w :: Loads(t, w, c, start)
    {
      var w :| Loads(s, w, c, start);
      assert Loads(t, w, c, start);
    }
  }

  lemma InterceptKeeps(s: State, base: string, currentTime: Option<real>)
    requires Inv(s)
    ensures Inv(ApplyIntercept(s, base, currentTime))
    ensures Grows(s.requests, ApplyIntercept(s, base, currentTime).requests)
  {
    var start := WindowStartSeconds(currentTime);
    var url := WithWindow(base, start);
    FetchKeeps(s, url);
    FetchKeepsCacheLaw(s, url);
    var f := Fetch(s, url).0;
    var t := ApplyIntercept(s, base, currentTime);
    forall w | w in t.waiters
      ensures WaiterOk(t, w)
    {
      if w != f.nextWaiter {
        assert WaiterOk(f, w);
      }
    }
    OtherFlights(f, t, f.nextWaiter);
  }

  /** Adding or removing a waiter that is no load leaves the correspondence alone. */
  lemma OtherFlights(s: State, t: State, x: nat)
    requires LoadingMatchesFlights(s) && |t.controllers| >= |s.controllers|
    requires forall w :: w != x ==> (w in t.waiters <==> w in s.waiters) && (w in s.waiters ==> t.waiters[w] == s.waiters[w])
    requires x in s.waiters ==> s.waiters[x].FetchWaiter?
    requires x in t.waiters ==> t.waiters[x].FetchWaiter?
    requires forall c :: 0 <= c < |s.controllers| ==> t.controllers[c].loadingStarts == s.controllers[c].loadingStarts
    requires forall c :: |s.controllers| <= c < |t.controllers| ==> t.controllers[c].loadingStarts == {}
    requires forall w :: w in s.waiters && s.waiters[w].LoadWaiter? ==> s.waiters[w].controller < |s.controllers|
    ensures LoadingMatchesFlights(t)
  {
    forall w, c, start
      ensures Loads(t, w, c, start) == Loads(s, w, c, start)
    {}
    forall c, start | 0 <= c < |t.controllers| && start in t.controllers[c].loadingStarts
      ensures exists w :: Loads(t, w, c, start)
    {
      assert c < |s.controllers|;
      var w :| Loads(s, w, c, start);
      assert Loads(t, w, c, start);
    }
  }

  /** A load in flight for a window that its controller neither has nor waits for. */
  function StartFlight(s: State, c: nat, start: nat, r: nat): State
    requires c < |s.controllers|
  {
    var k := s.controllers[c];
    s.(controllers := s.controllers[c := k.(loadingStarts := k.loadingStarts + {start})],
       waiters := s.waiters[s.nextWaiter := LoadWaiter(c, start, r)],
       nextWaiter := s.nextWaiter + 1)
  }

  lemma StartFlightKeeps(s: State, c: nat, start: nat, r: nat)
    requires Inv(s) && c < |s.controllers| && r < |s.requests|
    requires s.requests[r].url == WithWindow(s.controllers[c].base, start)
    requires start !in s.controllers[c].loadedStarts + s.controllers[c].loadingStarts
    ensures Inv(StartFlight(s, c, start, r))
  {
    var t := StartFlight(s, c, start, r);
    forall d | 0 <= d < |t.controllers|
      ensures ControllerOk(t.requests, t.controllers[d])
    {
      assert ControllerOk(s.requests, s.controllers[d]);
    }
    forall w | w in t.waiters
      ensures WaiterOk(t, w)
    {
      if w != s.nextWaiter {
        assert WaiterOk(s, w);
      }
    }
    NewFlight(s, t, c, start);
  }

  /** The mark and the cache are independent: fetch first and mark afterwards. */
  lemma TickIsFetchThenFlight(s: State, c: nat, start: nat)
    requires c < |s.controllers|
    ensures var k := s.controllers[c];
            var url := WithWindow(k.base, start);
            var marked := s.(controllers := s.controllers[c := k.(loadingStarts := k.loadingStarts + {start})]);
            var (g, q) := Fetch(marked, url);
            var (f, r) := Fetch(s, url);
            g.(waiters := g.waiters[g.nextWaiter := LoadWaiter(c, start, q)], nextWaiter := g.nextWaiter + 1)
            == StartFlight(f, c, start, r)
  {}

  lemma FetchThenFlightKeeps(s: State, c: nat, start: nat)
    requires Inv(s) && c < |s.controllers|
    requires start !in s.controllers[c].loadedStarts + s.controllers[c].loadingStarts
    ensures var (f, r) := Fetch(s, WithWindow(s.controllers[c].base, start));
            Inv(StartFlight(f, c, start, r)) && Grows(s.requests, f.requests)
  {
    var url := WithWindow(s.controllers[c].base, start);
    FetchKeeps(s, url);
    FetchKeepsCacheLaw(s, url);
    var (f, r) := Fetch(s, url);
    StartFlightKeeps(f, c, start, r);
  }

  lemma TickKeeps(s: State, c: nat, currentTime: Option<real>)
    requires Inv(s) && c < |s.controllers|
    ensures Inv(ApplyTick(s, c, currentTime))
    ensures Grows(s.requests, ApplyTick(s, c, currentTime).requests)
  {
    var k := s.controllers[c];
    var start := WindowStartSeconds(currentTime);
    if !(k.stopped || start in k.loadedStarts || start in k.loadingStarts) {
      TickStartsFlight(s, c, currentTime);
      FetchThenFlightKeeps(s, c, start);
    }
  }

  lemma TickStartsFlight(s: State, c: nat, currentTime: Option<real>)
    requires c < |s.controllers| && !s.controllers[c].stopped
    requires WindowStartSeconds(currentTime) !in s.controllers[c].loadedStarts + s.controllers[c].loadingStarts
    ensures var start := WindowStartSeconds(currentTime);
            var (f, r) := Fetch(s, WithWindow(s.controllers[c].base, start));
            ApplyTick(s, c, currentTime) == StartFlight(f, c, start, r)
  {
    TickIsFetchThenFlight(s, c, WindowStartSeconds(currentTime));
  }

  lemma NewFlight(s: State, t: State, c: nat, start: nat)
    requires LoadingMatchesFlights(s) && WaitersOk(s) && c < |s.controllers| == |t.controllers|
    requires start !in s.controllers[c].loadingStarts
    requires t.waiters.Keys == s.waiters.Keys + {s.nextWaiter}
    requires forall w :: w in s.waiters ==> t.waiters[w] == s.waiters[w]
    requires Loads(t, s.nextWaiter, c, start)
    requires t.controllers[c].loadingStarts == s.controllers[c].loadingStarts + {start}
    requires forall d :: 0 <= d < |s.controllers| && d != c ==> t.controllers[d].loadingStarts == s.controllers[d].loadingStarts
    ensures LoadingMatchesFlights(t)
  {
    var x := s.nextWaiter;
    assert x in s.waiters ==> WaiterOk(s, x);
    forall w, d, st
      ensures Loads(t, w, d, st) <==> Loads(s, w, d, st) || (w == x && d == c && st == start)
    {}
    forall d, st | 0 <= d < |t.controllers| && st in t.controllers[d].loadingStarts
      ensures exists w :: Loads(t, w, d, st)
    {
      if d == c && st == start {
        assert Loads(t, x, c, start);
      } else {
        assert st in s.controllers[d].loadingStarts;
        var w :| Loads(s, w, d, st);
        assert Loads(t, w, d, st);
      }
    }
  }

  lemma SettleKeeps(s: State, r: nat, outcome: Promise)
    requires Inv(s) && r < |s.requests| && s.requests[r].promise.Pending?
    ensures Inv(ApplySettle(s, r, outcome))
    ensures Grows(s.requests, ApplySettle(s, r, outcome).requests)
  {
    var t := ApplySettle(s, r, outcome);
    assert RequestLog(t.requests) == RequestLog(s.requests);
    forall c | 0 <= c < |s.controllers|
      ensures ControllerOk(t.requests, t.controllers[c])
    {
      GrowsKeepsController(s.requests, t.requests, s.controllers[c]);
    }
    forall w | w in t.waiters
      ensures WaiterOk(t, w)
    {
      assert WaiterOk(s, w);
    }
    SameFlights(s, t);
  }

  lemma CompletedStartsSnoc(log: seq<Merge>, merge: Merge)
    ensures CompletedStarts(log + [merge]) == CompletedStarts(log) + if merge.complete then {merge.start} else {}
  {}

  lemma LogSourcedSnoc(requests: seq<Request>, base: string, log: seq<Merge>, merge: Merge)
    requires forall i :: 0 <= i < |log| ==> MergeSourced(requests, base, log[i])
    requires MergeSourced(requests, base, merge)
    ensures forall i :: 0 <= i < |log + [merge]| ==> MergeSourced(requests, base, (log + [merge])[i])
  {}

  lemma ReplaySnoc(initial: seq<Cue>, log: seq<Merge>, merge: Merge)
    ensures Replay(initial, log + [merge]) == ApplyMerge(Replay(initial, log), merge)
  {
    assert (log + [merge])[..|log|] == log;
  }

  lemma KeysOfMerge(events: seq<Cue>, merge: Merge)
    ensures Keys(ApplyMerge(events, merge)) == Keys(events) + Keys(merge.cues)
  {
    MergeBag(events, merge, "");
  }

  function Merged(k: Controller, merge: Merge): Controller {
    k.(events := ApplyMerge(k.events, merge),
       eventKeys := k.eventKeys + Keys(merge.cues),
       log := k.log + [merge],
       loadedStarts := if merge.complete then k.loadedStarts + {merge.start} else k.loadedStarts,
       loadingStarts := k.loadingStarts - {merge.start})
  }

  lemma MergedOk(requests: seq<Request>, k: Controller, merge: Merge)
    requires ControllerOk(requests, k) && MergeSourced(requests, k.base, merge)
    ensures ControllerOk(requests, Merged(k, merge))
  {
    ReplaySnoc(k.initial, k.log, merge);
    KeysOfMerge(k.events, merge);
    CompletedStartsSnoc(k.log, merge);
    LogSourcedSnoc(requests, k.base, k.log, merge);
  }

  lemma FinishLoadKeeps(requests: seq<Request>, k: Controller, start: nat, r: nat)
    requires ControllerOk(requests, k) && r < |requests|
    requires requests[r].url == WithWindow(k.base, start)
    ensures var done := FinishLoad(k, start, requests[r].promise);
            ControllerOk(requests, done.(loadingStarts := done.loadingStarts - {start}))
  {
    var promise := requests[r].promise;
    if !k.stopped && promise.Fulfilled? && MergeOf(start, promise.body).Some? {
      var merge := MergeOf(start, promise.body).value;
      assert Delivered(requests, WithWindow(k.base, start), promise.body);
      MergedOk(requests, k, merge);
    }
  }

  lemma LoadResumeKeeps(s: State, w: nat)
    requires Inv(s) && Enabled(s, Resume(w)) && s.waiters[w].LoadWaiter?
    ensures Inv(ApplyResume(s, w))
  {
    var LoadWaiter(c, start, r) := s.waiters[w];
    var t := ApplyResume(s, w);
    assert WaiterOk(s, w);
    FinishLoadKeeps(s.requests, s.controllers[c], start, r);
    forall v | v in t.waiters
      ensures WaiterOk(t, v)
    {
      assert WaiterOk(s, v);
    }
    EndedFlight(s, t, w, c, start);
  }

  lemma EndedFlight(s: State, t: State, x: nat, c: nat, start: nat)
    requires LoadingMatchesFlights(s) && c < |s.controllers| == |t.controllers|
    requires Loads(s, x, c, start) && t.waiters == s.waiters - {x}
    requires t.controllers[c].loadingStarts == s.controllers[c].loadingStarts - {start}
    requires forall d :: 0 <= d < |s.controllers| && d != c ==> t.controllers[d].loadingStarts == s.controllers[d].loadingStarts
    ensures LoadingMatchesFlights(t)
  {
    forall w, d, st
      ensures Loads(t, w, d, st) <==> Loads(s, w, d, st) && w != x
    {}
    forall d, st | 0 <= d < |t.controllers| && st in t.controllers[d].loadingStarts
      ensures exists w :: Loads(t, w, d, st)
    {
      var w :| Loads(s, w, d, st);
      assert Loads(t, w, d, st);
    }
  }

  /** Stopping the active controller changes its flag and nothing else. */
  lemma StopActiveKeeps(s: State)
    requires Inv(s)
    ensures var t := StopActive(s);
            && ControllersOk(t) && WaitersOk(t) && LoadingMatchesFlights(t) && |t.controllers| == |s.controllers|
            && (forall c :: 0 <= c < |t.controllers| ==> t.controllers[c].stopped)
  {
    var t := StopActive(s);
    forall c | 0 <= c < |t.controllers|
      ensures ControllerOk(t.requests, t.controllers[c]) && t.controllers[c].stopped
    {
      assert ControllerOk(s.requests, s.controllers[c]);
    }
    forall v | v in t.waiters
      ensures WaiterOk(t, v)
    {
      assert WaiterOk(s, v);
    }
    SameFlights(s, t);
  }

  lemma DropFetchWaiterKeeps(s: State, w: nat)
    requires Inv(s) && w in s.waiters && s.waiters[w].FetchWaiter?
    ensures Inv(s.(waiters := s.waiters - {w}))
  {
    var t := s.(waiters := s.waiters - {w});
    forall v | v in s.waiters
      ensures WaiterOk(s, v) && (v in t.waiters ==> WaiterOk(t, v))
    {}
    OtherFlights(s, t, w);
  }

  lemma NewControllerOk(requests: seq<Request>, base: string, start: nat, body: Body)
    requires Delivered(requests, WithWindow(base, start), body) && InitialEvents(body).Some?
    ensures var events := InitialEvents(body).value;
            ControllerOk(requests, Controller(base, start, events, [], events, Keys(events), {start}, {}, false))
  {
    assert CompletedStarts([]) == {};
  }

  /** Once all controllers are stopped, a new active one may join. */
  lemma JoinKeeps(q: State, k: Controller)
    requires CacheLaw(q) && ControllersOk(q) && WaitersOk(q) && LoadingMatchesFlights(q) && RepliesOk(q)
    requires forall c :: 0 <= c < |q.controllers| ==> q.controllers[c].stopped
    requires ControllerOk(q.requests, k) && k.loadingStarts == {}
    ensures Inv(q.(controllers := q.controllers + [k], active := Some(|q.controllers|),
                   replies := q.replies + [Events(|q.controllers|)]))
  {
    var t := q.(controllers := q.controllers + [k], active := Some(|q.controllers|),
                replies := q.replies + [Events(|q.controllers|)]);
    forall v | v in t.waiters
      ensures WaiterOk(t, v) && WaiterOk(q, v)
    {
      assert WaiterOk(q, v);
    }
    OtherFlights(q, t, q.nextWaiter);
  }

  lemma CreateKeeps(s: State, base: string, start: nat, body: Body)
    requires Inv(s) && Delivered(s.requests, WithWindow(base, start), body)
    ensures Inv(CreateController(s, base, start, body))
  {
    var q := StopActive(s);
    StopActiveKeeps(s);
    match InitialEvents(body) {
      case Some(events) =>
        NewControllerOk(q.requests, base, start, body);
        JoinKeeps(q, Controller(base, start, events, [], events, Keys(events), {start}, {}, false));
      case None =>
        StoppedUnavailable(q);
    }
  }

  lemma StoppedUnavailable(q: State)
    requires CacheLaw(q) && ControllersOk(q) && WaitersOk(q) && LoadingMatchesFlights(q) && RepliesOk(q)
    requires forall c :: 0 <= c < |q.controllers| ==> q.controllers[c].stopped
    ensures Inv(q.(replies := q.replies + [Unavailable]))
  {
    UnavailableKeeps(q);
  }

  lemma UnavailableKeeps(s: State)
    requires Inv(s)
    ensures Inv(s.(replies := s.replies + [Unavailable]))
  {
    var t := s.(replies := s.replies + [Unavailable]);
    forall v | v in t.waiters
      ensures WaiterOk(t, v)
    {
      assert WaiterOk(s, v);
    }
    SameFlights(s, t);
  }

  lemma FetchResumeKeeps(s: State, w: nat)
    requires Inv(s) && Enabled(s, Resume(w)) && s.waiters[w].FetchWaiter?
    ensures Inv(ApplyResume(s, w))
  {
    var FetchWaiter(base, start, r) := s.waiters[w];
    var promise := s.requests[r].promise;
    var rest := s.(waiters := s.waiters - {w});
    assert WaiterOk(s, w);
    DropFetchWaiterKeeps(s, w);
    if promise.Fulfilled? {
      assert s.requests[r] == Request(WithWindow(base, start), Fulfilled(promise.body));
      CreateKeeps(rest, base, start, promise.body);
    } else {
      UnavailableKeeps(rest);
    }
  }

  lemma StepKeeps(s: State, step: Step)
    requires Inv(s)
    ensures Inv(Apply(s, step))
    ensures Grows(s.requests, Apply(s, step).requests)
  {
    if Enabled(s, step) {
      match step
      case Tick(c, currentTime) => TickKeeps(s, c, currentTime);
      case Intercept(base, currentTime) => InterceptKeeps(s, base, currentTime);
      case Settle(r, outcome) => SettleKeeps(s, r, outcome);
      case Resume(w) =>
        if s.waiters[w].LoadWaiter? {
          LoadResumeKeeps(s, w);
        } else {
          FetchResumeKeeps(s, w);
        }
    }
  }

  lemma {:induction false} ContinuationKeeps(s: State, steps: seq<Step>)
    requires Inv(s)
    ensures Inv(Exec(s, steps)) && Grows(s.requests, Exec(s, steps).requests)
  {
    if steps != [] {
      var t := Exec(s, steps[..|steps| - 1]);
      ContinuationKeeps(s, steps[..|steps| - 1]);
      StepKeeps(t, steps[|steps| - 1]);
      GrowsOn(s.requests, t.requests, Exec(s, steps).requests);
    }
  }

  lemma GrowsOn(a: seq<Request>, b: seq<Request>, c: seq<Request>)
    requires Grows(a, b) && Grows(b, c)
    ensures Grows(a, c)
  {}

  /** Every state of every run satisfies the invariant. */
  lemma {:induction false} RunKeeps(steps: seq<Step>)
    ensures Inv(Exec(INITIAL, steps))
  {
    if steps == [] {
      assert RequestLog([]) == [];
    } else {
      RunKeeps(steps[..|steps| - 1]);
      StepKeeps(Exec(INITIAL, steps[..|steps| - 1]), steps[|steps| - 1]);
    }
  }
}
