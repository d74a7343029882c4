/**
 What each step of the loader does to a reachable state, told from the outside: in terms of the
 response's entries, positions and literal constants, not of the definitions the steps are built from.
 */
module SubtitleLoaderEffects {
  import opened Cues
  import opened Options
  import opened Ordering
  import opened SubtitleLoader
  import opened SubtitleLoaderInvariant

  // ----- Windows

  /** The window of a position: the multiple of 20 seconds at or below it, and 0 for no position or a negative one. */
  lemma WindowStartExact(currentTime: Option<real>)
    ensures currentTime.None? ==> WindowStartSeconds(currentTime) == 0
    ensures currentTime.Some? && currentTime.value < 0.0 ==> WindowStartSeconds(currentTime) == 0
    ensures currentTime.Some? && currentTime.value >= 0.0 ==>
              var w := WindowStartSeconds(currentTime);
              w % 20 == 0 && w as real <= currentTime.value < (w + 20) as real
  {
    var seconds := if currentTime.Some? && currentTime.value > 0.0 then currentTime.value else 0.0;
    var n := (seconds / 20.0).Floor;
    assert n as real <= seconds / 20.0 < (n + 1) as real;
    assert (n * 20) as real == n as real * 20.0;
    MultipleOfTwenty(n);
  }

  lemma MultipleOfTwenty(n: int)
    ensures (n * 20) % 20 == 0
  {}

  /** The request for a window: 30 seconds from its start, in ticks of a ten-millionth of a second. */
  function WindowRequest(base: string, start: nat): WindowUrl {
    WindowUrl(base, start * 10_000_000, (start + 30) * 10_000_000)
  }

  ghost predicate OnGrid(starts: set<nat>) { forall start :: start in starts ==> start % 20 == 0 }

  ghost predicate UrlOnGrid(url: WindowUrl) { exists start: nat :: start % 20 == 0 && url == WindowRequest(url.base, start) }

  ghost predicate ControllerOnGrid(k: Controller) { OnGrid(k.loadedStarts) && OnGrid(k.loadingStarts) }

  /** Everything the script asks for, awaits, loads or has loaded lies on the 20-second grid. */
  ghost predicate GridState(s: State) {
    && (forall r :: 0 <= r < |s.requests| ==> UrlOnGrid(s.requests[r].url))
    && (forall c :: 0 <= c < |s.controllers| ==> ControllerOnGrid(s.controllers[c]))
    && (forall w :: w in s.waiters ==> s.waiters[w].start % 20 == 0)
  }

  lemma FetchOnGrid(s: State, base: string, start: nat)
    requires GridState(s) && start % 20 == 0
    ensures GridState(Fetch(s, WithWindow(base, start)).0)
  {
    assert WithWindow(base, start) == WindowRequest(base, start);
    assert UrlOnGrid(WithWindow(base, start));
  }

  lemma MarkOnGrid(s: State, c: nat, start: nat)
    requires GridState(s) && start % 20 == 0 && c < |s.controllers|
    ensures GridState(s.(controllers := s.controllers[c := s.controllers[c].(loadingStarts := s.controllers[c].loadingStarts + {start})]))
  {
    assert ControllerOnGrid(s.controllers[c]);
  }

  lemma AwaitOnGrid(s: State, waiter: Waiter)
    requires GridState(s) && waiter.start % 20 == 0
    ensures GridState(s.(waiters := s.waiters[s.nextWaiter := waiter], nextWaiter := s.nextWaiter + 1))
  {
    var t := s.(waiters := s.waiters[s.nextWaiter := waiter], nextWaiter := s.nextWaiter + 1);
    forall w | w in t.waiters
      ensures t.waiters[w].start % 20 == 0
    {
      if w != s.nextWaiter {
        assert w in s.waiters;
      }
    }
  }

  lemma TickOnGrid(s: State, c: nat, currentTime: Option<real>)
    requires GridState(s) && c < |s.controllers|
    ensures GridState(ApplyTick(s, c, currentTime))
  {
    var k := s.controllers[c];
    var start := WindowStartSeconds(currentTime);
    WindowStartExact(currentTime);
    if !k.stopped && start !in k.loadedStarts && start !in k.loadingStarts {
      var marked := s.(controllers := s.controllers[c := k.(loadingStarts := k.loadingStarts + {start})]);
      MarkOnGrid(s, c, start);
      FetchOnGrid(marked, k.base, start);
      var (fetched, request) := Fetch(marked, WithWindow(k.base, start));
      AwaitOnGrid(fetched, LoadWaiter(c, start, request));
    }
  }

  lemma InterceptOnGrid(s: State, base: string, currentTime: Option<real>)
    requires GridState(s)
    ensures GridState(ApplyIntercept(s, base, currentTime))
  {
    var start := WindowStartSeconds(currentTime);
    WindowStartExact(currentTime);
    FetchOnGrid(s, base, start);
    var (fetched, request) := Fetch(s, WithWindow(base, start));
    AwaitOnGrid(fetched, FetchWaiter(base, start, request));
  }

  lemma SettleOnGrid(s: State, r: nat, outcome: Promise)
    requires GridState(s) && r < |s.requests|
    ensures GridState(ApplySettle(s, r, outcome))
  {
    var t := ApplySettle(s, r, outcome);
    forall q | 0 <= q < |t.requests|
      ensures UrlOnGrid(t.requests[q].url)
    {
      assert t.requests[q].url == s.requests[q].url;
    }
  }

  lemma FinishOnGrid(k: Controller, start: nat, promise: Promise)
    requires ControllerOnGrid(k) && start % 20 == 0
    ensures var m := FinishLoad(k, start, promise); ControllerOnGrid(m.(loadingStarts := m.loadingStarts - {start}))
  {}

  lemma ResumeOnGrid(s: State, w: nat)
    requires GridState(s) && Enabled(s, Resume(w))
    ensures GridState(ApplyResume(s, w))
  {
    var t := ApplyResume(s, w);
    var start, promise := s.waiters[w].start, s.requests[s.waiters[w].request].promise;
    forall c | 0 <= c < |t.controllers|
      ensures ControllerOnGrid(t.controllers[c])
    {
      if c < |s.controllers| {
        assert ControllerOnGrid(s.controllers[c]);
        FinishOnGrid(s.controllers[c], start, promise);
      }
    }
    forall v | v in t.waiters
      ensures t.waiters[v].start % 20 == 0
    {
      assert v in s.waiters && t.waiters[v] == s.waiters[v];
    }
    forall r | 0 <= r < |t.requests|
      ensures UrlOnGrid(t.requests[r].url)
    {
      assert t.requests == s.requests;
    }
  }

  /** So it is in every reachable state. */
  lemma {:induction false} RunsOnGrid(steps: seq<Step>)
    ensures GridState(Exec(INITIAL, steps))
  {
    if steps != [] {
      var s, step := Exec(INITIAL, steps[..|steps| - 1]), steps[|steps| - 1];
      RunsOnGrid(steps[..|steps| - 1]);
      if Enabled(s, step) {
        match step
        case Tick(c, currentTime) => TickOnGrid(s, c, currentTime);
        case Intercept(base, currentTime) => InterceptOnGrid(s, base, currentTime);
        case Settle(r, outcome) => SettleOnGrid(s, r, outcome);
        case Resume(w) => ResumeOnGrid(s, w);
      }
    }
  }

  // ----- Which cues a merge adds, and where

  /** Same start, same end, and the same text, a missing text counting as empty. */
  predicate Same(a: Cue, b: Cue) {
    a.startTicks == b.startTicks && a.endTicks == b.endTicks
    && (if a.text.Some? then a.text.value else "") == (if b.text.Some? then b.text.value else "")
  }

  predicate Has(cues: seq<Cue>, cue: Cue) { exists i :: 0 <= i < |cues| && Same(cues[i], cue) }

  /** The cues that no event and no earlier cue equals, in order. */
  ghost function NewCues(events: seq<Cue>, cues: seq<Cue>): seq<Cue> {
    if cues == [] then []
    else
      var front, last := cues[..|cues| - 1], cues[|cues| - 1];
      NewCues(events, front) + if Has(events, last) || Has(front, last) then [] else [last]
  }

  lemma HasKey(cues: seq<Cue>, cue: Cue)
    ensures Has(cues, cue) <==> EventKey(cue) in Keys(cues)
  {
    forall i | 0 <= i < |cues|
      ensures Same(cues[i], cue) <==> EventKey(cues[i]) == EventKey(cue)
    {
      EventKeyInjective(cues[i], cue);
    }
  }

  lemma {:induction false} NewCuesAreAdded(events: seq<Cue>, cues: seq<Cue>)
    ensures Added(Keys(events), cues) == NewCues(events, cues)
  {
    if cues != [] {
      var front, last := cues[..|cues| - 1], cues[|cues| - 1];
      NewCuesAreAdded(events, front);
      AddedSnoc(Keys(events), front, last);
      HasKey(events, last);
      HasKey(front, last);
      assert cues == front + [last];
    }
  }

  function StartsAt(ticks: int): Cue -> bool { (cue: Cue) => cue.startTicks == ticks }

  /** By start; among cues with one start, those there before and then the new ones, each in their order. */
  ghost predicate MergedInto(before: seq<Cue>, added: seq<Cue>, after: seq<Cue>) {
    && (forall i, j :: 0 <= i < j < |after| ==> after[i].startTicks <= after[j].startTicks)
    && (forall ticks :: Filter(StartsAt(ticks), after) == Filter(StartsAt(ticks), before) + Filter(StartsAt(ticks), added))
  }

  lemma SortMerges(before: seq<Cue>, added: seq<Cue>)
    ensures MergedInto(before, added, Sort(EarlierStart, before + added))
  {
    var after := Sort(EarlierStart, before + added);
    EarlierStartIsWeakOrder();
    SortSorts(EarlierStart, before + added);
    forall i, j | 0 <= i < j < |after|
      ensures after[i].startTicks <= after[j].startTicks
    {
      assert !EarlierStart(after[j], after[i]);
    }
    forall ticks
      ensures Filter(StartsAt(ticks), after) == Filter(StartsAt(ticks), before) + Filter(StartsAt(ticks), added)
    {
      SortStable(EarlierStart, StartsAt(ticks), before + added);
      FilterConcat(StartsAt(ticks), before, added);
    }
  }

  /** `cues` are the entries in front of the first null, or all of them. */
  ghost predicate Readable(entries: seq<Option<Cue>>, cues: seq<Cue>) {
    && |cues| <= |entries|
    && (forall i :: 0 <= i < |cues| ==> entries[i] == Some(cues[i]))
    && (|cues| < |entries| ==> entries[|cues|] == None)
  }

  lemma {:induction false} ReadableIsPrefix(entries: seq<Option<Cue>>, cues: seq<Cue>)
    requires Readable(entries, cues)
    ensures GoodPrefix(entries) == cues
    ensures AllGood(entries) <==> |cues| == |entries|
  {
    if cues != [] {
      assert entries[0] == Some(cues[0]);
      forall i | 0 <= i < |cues[1..]|
        ensures entries[1..][i] == Some(cues[1..][i])
      {
        assert entries[i + 1] == Some(cues[i + 1]);
      }
      ReadableIsPrefix(entries[1..], cues[1..]);
      assert AllGood(entries) <==> AllGood(entries[1..]) by {
        assert forall i :: 0 < i < |entries| ==> entries[1..][i - 1] == entries[i];
      }
    }
  }

  // ----- A load ends

  /** The step ends the load: its waiter and its mark go; nothing outside its controller changes. */
  ghost predicate OnlyEndsLoad(s: State, t: State, w: nat) {
    && w in s.waiters && s.waiters[w].LoadWaiter? && s.waiters[w].controller < |s.controllers| == |t.controllers|
    && t.waiters == s.waiters - {w} && t.nextWaiter == s.nextWaiter
    && t.requests == s.requests && t.cache == s.cache && t.active == s.active && t.replies == s.replies
    && (forall d :: 0 <= d < |s.controllers| && d != s.waiters[w].controller ==> t.controllers[d] == s.controllers[d])
    && SameOrigin(s.controllers[s.waiters[w].controller], t.controllers[s.waiters[w].controller])
    && t.controllers[s.waiters[w].controller].loadingStarts
       == s.controllers[s.waiters[w].controller].loadingStarts - {s.waiters[w].start}
  }

  ghost predicate SameOrigin(k: Controller, m: Controller) {
    m.base == k.base && m.initialStart == k.initialStart && m.initial == k.initial && m.stopped == k.stopped
  }

  /** Neither the events nor the loaded windows change. */
  ghost predicate LoadsNothing(k: Controller, m: Controller) {
    m.events == k.events && m.eventKeys == k.eventKeys && m.loadedStarts == k.loadedStarts && m.log == k.log
  }

  lemma EndOfLoad(s: State, w: nat)
    requires Enabled(s, Resume(w)) && s.waiters[w].LoadWaiter?
    ensures OnlyEndsLoad(s, Apply(s, Resume(w)), w)
  {}

  /**
   A load that ends on a stopped controller, after a failed call, or with a response that is null or
   whose list cannot be walked, loads nothing.
   */
  lemma LoadFails(s: State, w: nat)
    requires Enabled(s, Resume(w)) && s.waiters[w].LoadWaiter?
    requires var promise := s.requests[s.waiters[w].request].promise;
             s.controllers[s.waiters[w].controller].stopped || promise == Rejected
             || promise == Fulfilled(NullBody) || promise == Fulfilled(Body(NotIterable))
    ensures var c := s.waiters[w].controller;
            LoadsNothing(s.controllers[c], Apply(s, Resume(w)).controllers[c])
  {}

  /**
   A load that ends on a live controller with a list of entries: the window is loaded exactly if no
   entry is null; the cues in front of the first null are added as far as they are new; and they are
   merged in by start exactly if no entry is null, and otherwise just appended.
   */
  lemma LoadSucceeds(steps: seq<Step>, w: nat, entries: seq<Option<Cue>>, cues: seq<Cue>)
    requires Enabled(Exec(INITIAL, steps), Resume(w)) && Exec(INITIAL, steps).waiters[w].LoadWaiter?
    requires var s := Exec(INITIAL, steps);
             !s.controllers[s.waiters[w].controller].stopped
             && s.requests[s.waiters[w].request].promise == Fulfilled(Body(Entries(entries)))
    requires Readable(entries, cues)
    ensures var s := Exec(INITIAL, steps);
            var LoadWaiter(c, start, _) := s.waiters[w];
            var k, m := s.controllers[c], Apply(s, Resume(w)).controllers[c];
            var all := forall i :: 0 <= i < |entries| ==> entries[i].Some?;
            && start !in k.loadedStarts
            && m.loadedStarts == (if all then k.loadedStarts + {start} else k.loadedStarts)
            && (if all then MergedInto(k.events, NewCues(k.events, cues), m.events) else m.events == k.events + NewCues(k.events, cues))
            && m.eventKeys == Keys(m.events)
            && m.log == k.log + [Merge(start, cues, all)]
  {
    RunKeeps(steps);
    var s := Exec(INITIAL, steps);
    var start := s.waiters[w].start;
    LoadingIsNotLoaded(s, w);
    NothingNull(entries, cues);
    MergeOfEntries(start, entries, cues);
    LiveLoad(s, w, Merge(start, cues, |cues| == |entries|));
  }

  lemma LoadingIsNotLoaded(s: State, w: nat)
    requires Inv(s) && Enabled(s, Resume(w)) && s.waiters[w].LoadWaiter?
    ensures s.waiters[w].start !in s.controllers[s.waiters[w].controller].loadedStarts
  {
    var LoadWaiter(c, start, r) := s.waiters[w];
    assert Loads(s, w, c, start);
    assert ControllerOk(s.requests, s.controllers[c]);
  }

  lemma MergeOfEntries(start: nat, entries: seq<Option<Cue>>, cues: seq<Cue>)
    requires Readable(entries, cues)
    ensures MergeOf(start, Body(Entries(entries))) == Some(Merge(start, cues, |cues| == |entries|))
  {
    ReadableIsPrefix(entries, cues);
  }

  lemma NothingNull(entries: seq<Option<Cue>>, cues: seq<Cue>)
    requires Readable(entries, cues)
    ensures |cues| == |entries| <==> forall i :: 0 <= i < |entries| ==> entries[i].Some?
  {
    assert |cues| < |entries| ==> entries[|cues|].None?;
  }

  lemma LiveLoad(s: State, w: nat, merge: Merge)
    requires Inv(s) && Enabled(s, Resume(w)) && s.waiters[w].LoadWaiter?
    requires !s.controllers[s.waiters[w].controller].stopped
    requires s.requests[s.waiters[w].request].promise.Fulfilled?
    requires MergeOf(s.waiters[w].start, s.requests[s.waiters[w].request].promise.body) == Some(merge)
    requires merge.start == s.waiters[w].start
    ensures var c := s.waiters[w].controller;
            var k, m := s.controllers[c], Apply(s, Resume(w)).controllers[c];
            && m.loadedStarts == (if merge.complete then k.loadedStarts + {merge.start} else k.loadedStarts)
            && (if merge.complete then MergedInto(k.events, NewCues(k.events, merge.cues), m.events)
                else m.events == k.events + NewCues(k.events, merge.cues))
            && m.eventKeys == Keys(m.events) && m.log == k.log + [merge]
  {
    var k := s.controllers[s.waiters[w].controller];
    assert ControllerOk(s.requests, k);
    NewCuesAreAdded(k.events, merge.cues);
    SortMerges(k.events, NewCues(k.events, merge.cues));
    KeysOfMerge(k.events, merge);
  }

  /** A response without a list loads the window and adds nothing. */
  lemma EmptyLoadSucceeds(steps: seq<Step>, w: nat)
    requires Enabled(Exec(INITIAL, steps), Resume(w)) && Exec(INITIAL, steps).waiters[w].LoadWaiter?
    requires var s := Exec(INITIAL, steps);
             !s.controllers[s.waiters[w].controller].stopped
             && s.requests[s.waiters[w].request].promise == Fulfilled(Body(Missing))
    ensures var s := Exec(INITIAL, steps);
            var LoadWaiter(c, start, _) := s.waiters[w];
            var k, m := s.controllers[c], Apply(s, Resume(w)).controllers[c];
            m.loadedStarts == k.loadedStarts + {start} && MergedInto(k.events, [], m.events)
  {
    RunKeeps(steps);
    var s := Exec(INITIAL, steps);
    var start := s.waiters[w].start;
    LiveLoad(s, w, Merge(start, [], true));
  }

  // ----- A fetch ends

  /** The list of the response in its own order; a response without a list gives no cues. */
  ghost predicate Listing(body: Body, cues: seq<Cue>) {
    match body
    case NullBody => false
    case Body(Entries(entries)) => |entries| == |cues| && forall i :: 0 <= i < |cues| ==> entries[i] == Some(cues[i])
    case Body(_) => cues == []
  }

  ghost predicate Unreadable(body: Body) {
    body.NullBody? || (body.track.Entries? && exists i :: 0 <= i < |body.track.entries| && body.track.entries[i].None?)
  }

  lemma ListedAsIs(body: Body, cues: seq<Cue>)
    requires Listing(body, cues)
    ensures InitialEvents(body) == Some(cues)
  {
    if body.track.Entries? {
      ReadableIsPrefix(body.track.entries, cues);
    }
  }

  ghost predicate StopsActive(before: seq<Controller>, active: Option<nat>, after: seq<Controller>) {
    |after| == |before| && forall c :: 0 <= c < |before| ==>
      after[c] == if active == Some(c) then before[c].(stopped := true) else before[c]
  }

  /** A successful fetch: the page gets a new live controller with the response's cues in the given order. */
  lemma FetchSucceeds(s: State, w: nat, cues: seq<Cue>)
    requires Enabled(s, Resume(w)) && s.waiters[w].FetchWaiter?
    requires s.active.Some? ==> s.active.value < |s.controllers|
    requires var promise := s.requests[s.waiters[w].request].promise;
             promise.Fulfilled? && Listing(promise.body, cues)
    ensures var t := Apply(s, Resume(w));
            var n := |s.controllers|;
            var FetchWaiter(base, start, _) := s.waiters[w];
            && |t.controllers| == n + 1
            && StopsActive(s.controllers, s.active, t.controllers[..n])
            && t.controllers[n].base == base && t.controllers[n].initialStart == start
            && t.controllers[n].initial == cues && t.controllers[n].events == cues && t.controllers[n].log == []
            && t.controllers[n].eventKeys == Keys(cues)
            && t.controllers[n].loadedStarts == {start} && t.controllers[n].loadingStarts == {} && !t.controllers[n].stopped
            && t.active == Some(n) && t.replies == s.replies + [Events(n)]
            && t.waiters == s.waiters - {w} && t.requests == s.requests && t.cache == s.cache
  {
    ListedAsIs(s.requests[s.waiters[w].request].promise.body, cues);
  }

  /** A fetch that fails: a 503; after an unreadable response the active controller is stopped all the same. */
  lemma FetchFails(s: State, w: nat)
    requires Enabled(s, Resume(w)) && s.waiters[w].FetchWaiter?
    requires s.active.Some? ==> s.active.value < |s.controllers|
    requires var promise := s.requests[s.waiters[w].request].promise;
             promise.Rejected? || (promise.Fulfilled? && Unreadable(promise.body))
    ensures var t := Apply(s, Resume(w));
            var stops := s.requests[s.waiters[w].request].promise.Fulfilled?;
            && StopsActive(s.controllers, if stops then s.active else None, t.controllers)
            && t.active == s.active && t.replies == s.replies + [Unavailable]
            && t.waiters == s.waiters - {w} && t.requests == s.requests && t.cache == s.cache
  {}

  /** Until its first merge a controller shows its window's first response, cue by cue. */
  lemma UntouchedOrder(steps: seq<Step>, c: nat) returns (r: nat)
    requires c < |Exec(INITIAL, steps).controllers| && Exec(INITIAL, steps).controllers[c].log == []
    ensures var s := Exec(INITIAL, steps);
            var k := s.controllers[c];
            r < |s.requests| && s.requests[r].url == WindowRequest(k.base, k.initialStart)
            && s.requests[r].promise.Fulfilled? && Listing(s.requests[r].promise.body, k.events)
  {
    RunKeeps(steps);
    var s := Exec(INITIAL, steps);
    var k := s.controllers[c];
    assert ControllerOk(s.requests, k);
    var body :| Delivered(s.requests, WithWindow(k.base, k.initialStart), body) && InitialEvents(body) == Some(k.initial);
    r :| 0 <= r < |s.requests| && s.requests[r] == Request(WithWindow(k.base, k.initialStart), Fulfilled(body));
    InitialIsListing(body, k.initial);
  }

  lemma InitialIsListing(body: Body, cues: seq<Cue>)
    requires InitialEvents(body) == Some(cues)
    ensures Listing(body, cues)
  {
    if body.track.Entries? {
      GoodIsListing(body.track.entries);
    }
  }

  lemma {:induction false} GoodIsListing(entries: seq<Option<Cue>>)
    requires AllGood(entries)
    ensures |GoodPrefix(entries)| == |entries|
    ensures forall i :: 0 <= i < |entries| ==> entries[i] == Some(GoodPrefix(entries)[i])
  {
    if entries != [] {
      GoodIsListing(entries[1..]);
      forall i | 0 <= i < |entries|
        ensures |GoodPrefix(entries)| == |entries| && entries[i] == Some(GoodPrefix(entries)[i])
      {
        assert i > 0 ==> entries[i] == entries[1..][i - 1];
      }
    }
  }

  // ----- A load or a fetch begins

  /** One of the last 200 calls was for the URL. */
  ghost predicate RecentCall(requests: seq<Request>, url: WindowUrl, r: nat) {
    r < |requests| && |requests| - r <= 200 && requests[r].url == url
  }

  /** From `s` to `t` the URL is called unless it was recently; `q` is the call to await. */
  ghost predicate CallsUnlessRecent(s: State, t: State, url: WindowUrl, q: nat) {
    if exists r :: RecentCall(s.requests, url, r) then t.requests == s.requests && RecentCall(s.requests, url, q)
    else t.requests == s.requests + [Request(url, Pending)] && q == |s.requests|
  }

  lemma FetchCalls(s: State, url: WindowUrl)
    requires CacheLaw(s)
    ensures var (t, q) := Fetch(s, url);
            CallsUnlessRecent(s, t, url, q) && t == s.(requests := t.requests, cache := t.cache)
  {
    var n := |s.requests|;
    var first := if n > 200 then n - 200 else 0;
    LookupFinds(s.cache, url);
    if Lookup(s.cache, url).Some? {
      var q := Lookup(s.cache, url).value;
      var j :| 0 <= j < |s.cache| && s.cache[j] == CacheEntry(url, q);
      assert s.cache[j] == CacheEntry(s.requests[first + j].url, first + j);
      assert RecentCall(s.requests, url, q);
    } else {
      forall r: nat | r < n && n - r <= 200
        ensures s.requests[r].url != url
      {
        assert s.cache[r - first] == CacheEntry(s.requests[r].url, r);
      }
    }
  }

  /** A poll, seek or resume: nothing if stopped, loaded or loading; otherwise the window is marked, called if need be, and awaited. */
  lemma TickEffect(steps: seq<Step>, c: nat, currentTime: Option<real>) returns (q: nat)
    requires c < |Exec(INITIAL, steps).controllers|
    ensures var s := Exec(INITIAL, steps);
            var t := Apply(s, Tick(c, currentTime));
            var k, start := s.controllers[c], WindowStartSeconds(currentTime);
            if k.stopped || start in k.loadedStarts || start in k.loadingStarts then t == s
            else
              && CallsUnlessRecent(s, t, WindowRequest(k.base, start), q)
              && t.controllers == s.controllers[c := k.(loadingStarts := k.loadingStarts + {start})]
              && s.nextWaiter !in s.waiters
              && t.waiters == s.waiters[s.nextWaiter := LoadWaiter(c, start, q)] && t.nextWaiter == s.nextWaiter + 1
              && t.active == s.active && t.replies == s.replies
  {
    RunKeeps(steps);
    var s := Exec(INITIAL, steps);
    var k, start := s.controllers[c], WindowStartSeconds(currentTime);
    q := 0;
    NextIsFree(s);
    if !(k.stopped || start in k.loadedStarts || start in k.loadingStarts) {
      q := Fetch(s, WithWindow(k.base, start)).1;
      FetchCalls(s, WithWindow(k.base, start));
      TickStartsFlight(s, c, currentTime);
    }
  }

  lemma NextIsFree(s: State)
    requires Inv(s)
    ensures s.nextWaiter !in s.waiters
  {
    assert s.nextWaiter in s.waiters ==> WaiterOk(s, s.nextWaiter);
  }

  /** An intercepted fetch: its window is called if need be, and awaited. */
  lemma InterceptEffect(steps: seq<Step>, base: string, currentTime: Option<real>) returns (q: nat)
    ensures var s := Exec(INITIAL, steps);
            var t := Apply(s, Intercept(base, currentTime));
            var start := WindowStartSeconds(currentTime);
            && CallsUnlessRecent(s, t, WindowRequest(base, start), q)
            && s.nextWaiter !in s.waiters
            && t.waiters == s.waiters[s.nextWaiter := FetchWaiter(base, start, q)] && t.nextWaiter == s.nextWaiter + 1
            && t.controllers == s.controllers && t.active == s.active && t.replies == s.replies
  {
    RunKeeps(steps);
    var s := Exec(INITIAL, steps);
    var start := WindowStartSeconds(currentTime);
    q := Fetch(s, WithWindow(base, start)).1;
    NextIsFree(s);
    FetchCalls(s, WithWindow(base, start));
  }

  /** A call settles once; nothing else changes with it. */
  lemma SettleEffect(s: State, r: nat, outcome: Promise)
    ensures var t := Apply(s, Settle(r, outcome));
            if r < |s.requests| && s.requests[r].promise == Pending && outcome != Pending
            then t == s.(requests := s.requests[..r] + [Request(s.requests[r].url, outcome)] + s.requests[r + 1..])
            else t == s
  {}

  /** A suspended call can resume exactly when the call it awaits has settled. */
  lemma ResumableIff(steps: seq<Step>, w: nat)
    ensures var s := Exec(INITIAL, steps);
            Enabled(s, Resume(w)) <==> w in s.waiters && s.waiters[w].request < |s.requests| && s.requests[s.waiters[w].request].promise != Pending
    ensures var s := Exec(INITIAL, steps); !Enabled(s, Resume(w)) ==> Apply(s, Resume(w)) == s
  {
    RunKeeps(steps);
    var s := Exec(INITIAL, steps);
    if w in s.waiters {
      assert WaiterOk(s, w);
    }
  }
}
