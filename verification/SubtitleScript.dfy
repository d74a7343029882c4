/**
 The script itself, on the heap: response arrays, controllers and the arrays handed to the page are
 objects that are updated in place. Every method is proved to take exactly one transition of the
 state machine, and no transition ever writes to a response array.
 */
module SubtitleScript {
  import opened Cues
  import opened Options
  import opened Ordering
  import opened SubtitleLoader

  /** A JavaScript array of TrackEvents entries; a null entry is None. */
  class TrackArray {
    var items: seq<Option<Cue>>

    constructor (items: seq<Option<Cue>>)
      ensures this.items == items
    {
      this.items := items;
    }

    method Push(cue: Cue)
      requires AllGood(items)
      modifies this
      ensures AllGood(items) && GoodPrefix(items) == old(GoodPrefix(items)) + [cue]
    {
      GoodPrefixSnoc(items, cue);
      items := items + [Some(cue)];
    }
  }

  datatype JsTrack = JsMissing | JsNotIterable | JsArray(list: TrackArray)

  datatype JsBody = JsNull | JsObject(track: JsTrack)

  datatype JsPromise = JsPending | JsFulfilled(body: JsBody) | JsRejected

  datatype JsRequest = JsRequest(url: WindowUrl, promise: JsPromise)

  /** What jellyrinFetch resolved to: `events` is the very array of the controller. */
  datatype JsReply = JsEvents(controller: nat, events: TrackArray) | JsUnavailable

  function Present(cues: seq<Cue>): (items: seq<Option<Cue>>)
    ensures |items| == |cues|
    ensures AllGood(items) && GoodPrefix(items) == cues
  {
    if cues == [] then [] else [Some(cues[0])] + Present(cues[1..])
  }

  lemma {:induction false} GoodPrefixSnoc(items: seq<Option<Cue>>, cue: Cue)
    requires AllGood(items)
    ensures GoodPrefix(items + [Some(cue)]) == GoodPrefix(items) + [cue]
  {
    if items == [] {
      assert items + [Some(cue)] == [Some(cue)];
    } else {
      GoodPrefixSnoc(items[1..], cue);
      assert (items + [Some(cue)])[1..] == items[1..] + [Some(cue)];
    }
  }

  lemma {:induction false} GoodPrefixStops(items: seq<Option<Cue>>, i: nat)
    requires i < |items| && AllGood(items[..i]) && items[i].None?
    ensures GoodPrefix(items) == GoodPrefix(items[..i]) && !AllGood(items)
  {
    if i > 0 {
      assert items[0] == items[..i][0];
      assert items[1..][..i - 1] == items[..i][1..];
      GoodPrefixStops(items[1..], i - 1);
    }
  }

  lemma KeysSnoc(cues: seq<Cue>, cue: Cue)
    ensures Keys(cues + [cue]) == Keys(cues) + {EventKey(cue)}
  {}

  lemma AppendAssociates(xs: seq<Cue>, ys: seq<Cue>, cue: Cue)
    ensures xs + ys + [cue] == xs + (ys + [cue])
  {}

  class ScriptController {
    const base: string
    const events: TrackArray
    var eventKeys: set<string>
    var loadedStarts: set<nat>
    var loadingStarts: set<nat>
    var stopped: bool
    ghost const initialStart: nat
    ghost const initial: seq<Cue>
    ghost var log: seq<Merge>

    ghost predicate Valid()
      reads this, events
    {
      AllGood(events.items) && eventKeys == Keys(GoodPrefix(events.items))
    }

    ghost function Model(): SubtitleLoader.Controller
      reads this, events
    {
      SubtitleLoader.Controller(base, initialStart, initial, log, GoodPrefix(events.items), eventKeys,
                                loadedStarts, loadingStarts, stopped)
    }

    /** createController: `initialData.TrackEvents.slice()` makes the array its own. */
    constructor (base: string, initialEvents: seq<Option<Cue>>, initialStart: nat)
      requires AllGood(initialEvents)
      ensures Valid() && fresh(events)
      ensures Model() == SubtitleLoader.Controller(base, initialStart, GoodPrefix(initialEvents), [],
                           GoodPrefix(initialEvents), Keys(GoodPrefix(initialEvents)), {initialStart}, {}, false)
    {
      this.base := base;
      this.events := new TrackArray(initialEvents);
      this.initialStart := initialStart;
      this.initial := GoodPrefix(initialEvents);
      this.log := [];
      this.eventKeys := Keys(GoodPrefix(initialEvents));
      this.loadedStarts := {initialStart};
      this.loadingStarts := {};
      this.stopped := false;
    }

    /**
     The merge loop. It pushes new cues to the shared array and ends early at an entry that cannot
     be read.
     */
    method Absorb(entries: TrackArray) returns (added: seq<Cue>, complete: bool)
      requires Valid() && entries != events
      modifies events, this`eventKeys
      ensures Valid()
      ensures added == Added(old(eventKeys), GoodPrefix(entries.items))
      ensures GoodPrefix(events.items) == old(GoodPrefix(events.items)) + added
      ensures complete == AllGood(entries.items)
    {
      ghost var cues := GoodPrefix(events.items);
      ghost var known := eventKeys;
      added := [];
      var i := 0;
      while i < |entries.items|
        invariant i <= |entries.items|
        invariant Valid() && AllGood(entries.items[..i])
        invariant added == Added(known, GoodPrefix(entries.items[..i]))
        invariant GoodPrefix(events.items) == cues + added
      {
        if entries.items[i].None? {
          GoodPrefixStops(entries.items, i);
          return added, false;
        }
        var event := entries.items[i].value;
        AddedBag(known, cues, entries.items[..i]);
        AbsorbOne(known, entries.items, i);
        if EventKey(event) !in eventKeys {
          AppendAssociates(cues, added, event);
          KeysSnoc(cues + added, event);
          eventKeys := eventKeys + {EventKey(event)};
          events.Push(event);
          added := added + [event];
        }
        i := i + 1;
      }
      assert entries.items[..i] == entries.items;
      complete := true;
    }

    static lemma AbsorbOne(known: set<string>, items: seq<Option<Cue>>, i: nat)
      requires i < |items| && AllGood(items[..i]) && items[i].Some?
      ensures AllGood(items[..i + 1])
      ensures var key, before := EventKey(items[i].value), GoodPrefix(items[..i]);
              && Added(known, GoodPrefix(items[..i + 1]))
                 == Added(known, before) + if key in known + Keys(before) then [] else [items[i].value]
    {
      assert items[..i + 1] == items[..i] + [Some(items[i].value)];
      GoodPrefixSnoc(items[..i], items[i].value);
      AddedSnoc(known, GoodPrefix(items[..i]), items[i].value);
    }

    static lemma AddedBag(known: set<string>, cues: seq<Cue>, items: seq<Option<Cue>>)
      requires known == Keys(cues)
      ensures Keys(cues + Added(known, GoodPrefix(items))) == known + Keys(GoodPrefix(items))
    {
      AddedKeys(known, GoodPrefix(items));
      BagOfConcat(cues, Added(known, GoodPrefix(items)));
    }

    /**
     `events.sort(...)`: the same cues in place, by start, those with the same start in their old
     order. By StableSortIsSort these three fix the result.
     */
    method SortEvents()
      requires Valid()
      modifies events
      ensures Valid()
      ensures Sorted(EarlierStart, GoodPrefix(events.items))
      ensures multiset(GoodPrefix(events.items)) == multiset(old(GoodPrefix(events.items)))
      ensures KeepsTies(EarlierStart, old(GoodPrefix(events.items)), GoodPrefix(events.items))
    {
      var cues := GoodPrefix(events.items);
      EarlierStartIsWeakOrder();
      SortSorts(EarlierStart, cues);
      SortBag(EarlierStart, cues);
      SortKeepsTies(EarlierStart, cues);
      SortKeepsBag(cues);
      events.items := Present(Sort(EarlierStart, cues));
    }

    static lemma SortedEvents(before: seq<Cue>, after: seq<Cue>)
      requires Sorted(EarlierStart, after) && KeepsTies(EarlierStart, before, after)
      ensures after == Sort(EarlierStart, before)
    {
      EarlierStartIsWeakOrder();
      StableSortIsSort(EarlierStart, before, after);
    }

    /**
     One readable response: the merge loop, then the sort unless the loop ended early. `passed` is
     what the native text track receives, nothing after an early end.
     */
    method MergeResponse(start: nat, track: JsTrack) returns (passed: seq<Cue>)
      requires Valid() && !track.JsNotIterable?
      requires track.JsArray? ==> track.list != events
      modifies events, this`eventKeys, this`loadedStarts, this`log
      ensures Valid()
      ensures var merge := if track.JsMissing? then Merge(start, [], true)
                           else Merge(start, GoodPrefix(track.list.items), AllGood(track.list.items));
              && log == old(log) + [merge]
              && GoodPrefix(events.items) == ApplyMerge(old(GoodPrefix(events.items)), merge)
              && loadedStarts == (if merge.complete then old(loadedStarts) + {start} else old(loadedStarts))
              && passed == if merge.complete then Added(old(eventKeys), merge.cues) else []
    {
      passed := [];
      var added := [];
      var complete := true;
      ghost var cues := [];
      if track.JsArray? {
        cues := GoodPrefix(track.list.items);
        added, complete := Absorb(track.list);
      }
      assert GoodPrefix(events.items) == old(GoodPrefix(events.items)) + added;
      ghost var merged := GoodPrefix(events.items);
      if complete {
        SortEvents();
        SortedEvents(merged, GoodPrefix(events.items));
        passed := added;
        loadedStarts := loadedStarts + {start};
      }
      log := log + [Merge(start, cues, complete)];
    }

    /** loadCurrentWindow after its await. */
    method FinishLoad(start: nat, promise: JsPromise) returns (passed: seq<Cue>)
      requires Valid() && !promise.JsPending? && events !in ArraysOf(promise)
      modifies this, events
      ensures Valid()
      ensures Model() == old(var k := SubtitleLoader.FinishLoad(Model(), start, PromiseModel(promise));
                             k.(loadingStarts := k.loadingStarts - {start}))
      ensures passed == PassedOn(old(Model()), Model())
      ensures NoDuplicates(Map(EventKey, passed)) && Keys(passed) !! old(eventKeys)
    {
      passed := [];
      ghost var before := Model();
      ghost var answer := PromiseModel(promise);
      if !stopped && promise.JsFulfilled? && promise.body.JsObject? && !promise.body.track.JsNotIterable? {
        passed := MergeResponse(start, promise.body.track);
        ghost var merge := log[|log| - 1];
        assert MergeOf(start, answer.body) == Some(merge);
        MergeBag(before.events, merge, "");
        AddedKeys(before.eventKeys, merge.cues);
      }
      assert Model() == SubtitleLoader.FinishLoad(before, start, answer);
      loadingStarts := loadingStarts - {start};
    }
  }

  function ArraysOf(promise: JsPromise): set<TrackArray> {
    match promise
    case JsFulfilled(JsObject(JsArray(a))) => {a}
    case _ => {}
  }

  ghost function PromiseModel(promise: JsPromise): Promise
    reads ArraysOf(promise)
  {
    match promise
    case JsPending => Pending
    case JsRejected => Rejected
    case JsFulfilled(JsNull) => Fulfilled(NullBody)
    case JsFulfilled(JsObject(JsMissing)) => Fulfilled(Body(Missing))
    case JsFulfilled(JsObject(JsNotIterable)) => Fulfilled(Body(NotIterable))
    case JsFulfilled(JsObject(JsArray(a))) => Fulfilled(Body(Entries(a.items)))
  }

  ghost function CallModel(call: JsRequest): Request
    reads ArraysOf(call.promise)
  {
    Request(call.url, PromiseModel(call.promise))
  }

  function ResponseArrays(calls: seq<JsRequest>): set<TrackArray> {
    set i, a | 0 <= i < |calls| && a in ArraysOf(calls[i].promise) :: a
  }

  ghost function CallsModel(calls: seq<JsRequest>): (model: seq<Request>)
    reads ResponseArrays(calls)
    ensures |model| == |calls|
    ensures forall i :: 0 <= i < |calls| ==> model[i] == CallModel(calls[i])
  {
    seq(|calls|, i requires 0 <= i < |calls| reads ResponseArrays(calls) => CallModel(calls[i]))
  }

  function EventArrays(controllers: seq<ScriptController>): set<TrackArray> {
    set k | k in controllers :: k.events
  }

  ghost function ControllersModel(controllers: seq<ScriptController>): (model: seq<SubtitleLoader.Controller>)
    reads controllers, EventArrays(controllers)
    ensures |model| == |controllers|
    ensures forall c :: 0 <= c < |controllers| ==> model[c] == controllers[c].Model()
  {
    seq(|controllers|, c requires 0 <= c < |controllers| reads controllers, EventArrays(controllers) => controllers[c].Model())
  }

  function ReplyModel(reply: JsReply): Reply {
    match reply
    case JsEvents(c, _) => Events(c)
    case JsUnavailable => Unavailable
  }

  class Script {
    var responseCache: seq<CacheEntry>
    var activeController: Option<nat>
    var calls: seq<JsRequest>
    var controllers: seq<ScriptController>
    var waiters: map<nat, Waiter>
    var nextWaiter: nat
    var replies: seq<JsReply>

    /**
     Controllers and their arrays are distinct objects, no controller's array is a response array,
     a page that was handed events holds its controller's own array, and the active controller exists.
     */
    ghost predicate Valid()
      reads this, controllers, EventArrays(controllers)
    {
      && (forall c :: 0 <= c < |controllers| ==> controllers[c].Valid() && controllers[c].events !in ResponseArrays(calls))
      && (forall c, d :: 0 <= c < d < |controllers| ==>
           controllers[c] != controllers[d] && controllers[c].events != controllers[d].events)
      && (forall i :: 0 <= i < |replies| && replies[i].JsEvents? ==>
           replies[i].controller < |controllers| && replies[i].events == controllers[replies[i].controller].events)
      && (activeController.Some? ==> activeController.value < |controllers|)
    }

    ghost function Model(): State
      reads this, controllers, EventArrays(controllers), ResponseArrays(calls)
    {
      State(responseCache, CallsModel(calls), ControllersModel(controllers), activeController,
            waiters, nextWaiter, Map(ReplyModel, replies))
    }

    constructor ()
      ensures Valid() && Model() == INITIAL
    {
      responseCache, activeController, calls, controllers := [], None, [], [];
      waiters, nextWaiter, replies := map[], 0, [];
    }

    /** fetchWindow up to its await: reuse the cached promise, or call the network and evict the oldest. */
    method FetchWindow(windowUrl: WindowUrl) returns (request: nat)
      requires Valid()
      modifies this`responseCache, this`calls
      ensures controllers == old(controllers)
      ensures Valid() && (Model(), request) == old(Fetch(Model(), windowUrl))
      ensures ResponseArrays(calls) == old(ResponseArrays(calls))
    {
      var cached := Lookup(responseCache, windowUrl);
      if cached.Some? {
        return cached.value;
      }
      request := |calls|;
      ghost var model := Model();
      ghost var before := calls;
      calls := calls + [JsRequest(windowUrl, JsPending)];
      SameArrays(before, JsRequest(windowUrl, JsPending));
      responseCache := responseCache + [CacheEntry(windowUrl, request)];
      if |responseCache| > CACHE_LIMIT {
        responseCache := responseCache[1..];
      }
      assert CallsModel(calls) == model.requests + [Request(windowUrl, Pending)];
      assert Model() == model.(requests := CallsModel(calls), cache := Store(model.cache, CacheEntry(windowUrl, request)));
    }

    static lemma SameArrays(calls: seq<JsRequest>, call: JsRequest)
      requires ArraysOf(call.promise) == {}
      ensures ResponseArrays(calls + [call]) == ResponseArrays(calls)
    {
      forall i | 0 <= i < |calls|
        ensures (calls + [call])[i] == calls[i]
      {}
      forall a | a in ResponseArrays(calls)
        ensures a in ResponseArrays(calls + [call])
      {
        var i :| 0 <= i < |calls| && a in ArraysOf(calls[i].promise);
        assert a in ArraysOf((calls + [call])[i].promise);
      }
    }

    method MarkLoading(c: nat, start: nat)
      requires Valid() && c < |controllers|
      modifies controllers[c]
      ensures Valid()
      ensures var m, k := old(Model()), old(Model()).controllers[c];
              Model() == m.(controllers := m.controllers[c := k.(loadingStarts := k.loadingStarts + {start})])
    {
      ghost var before := Model();
      controllers[c].loadingStarts := controllers[c].loadingStarts + {start};
      ghost var k := before.controllers[c];
      assert ControllersModel(controllers) == before.controllers[c := k.(loadingStarts := k.loadingStarts + {start})];
    }

    method Await(waiter: Waiter)
      requires Valid()
      modifies this`waiters, this`nextWaiter
      ensures Valid()
      ensures var m := old(Model());
              Model() == m.(waiters := m.waiters[m.nextWaiter := waiter], nextWaiter := m.nextWaiter + 1)
    {
      waiters := waiters[nextWaiter := waiter];
      nextWaiter := nextWaiter + 1;
    }

    /** A poll, seek or resume: loadCurrentWindow up to its await. */
    method LoadCurrentWindow(c: nat, currentTime: Option<real>)
      requires Valid() && c < |controllers|
      modifies this, controllers[c]
      ensures Valid() && Model() == Apply(old(Model()), Tick(c, currentTime))
    {
      var k := controllers[c];
      var start := WindowStartSeconds(currentTime);
      if k.stopped || start in k.loadedStarts || start in k.loadingStarts {
        return;
      }
      MarkLoading(c, start);
      var request := FetchWindow(WithWindow(k.base, start));
      Await(LoadWaiter(c, start, request));
    }

    /** jellyrinFetch up to its await. */
    method JellyrinFetch(base: string, currentTime: Option<real>)
      requires Valid()
      modifies this
      ensures Valid() && Model() == Apply(old(Model()), Intercept(base, currentTime))
    {
      var start := WindowStartSeconds(currentTime);
      var request := FetchWindow(WithWindow(base, start));
      Await(FetchWaiter(base, start, request));
    }

    /** The network settles a promise; a parsed response is a new array. */
    method NetworkSettles(r: nat, outcome: Promise)
      requires Valid() && Enabled(Model(), Settle(r, outcome))
      modifies this
      ensures Valid() && Model() == Apply(old(Model()), Settle(r, outcome))
    {
      ghost var before := Model();
      var promise := JsRejected;
      match outcome {
        case Fulfilled(NullBody) => promise := JsFulfilled(JsNull);
        case Fulfilled(Body(Missing)) => promise := JsFulfilled(JsObject(JsMissing));
        case Fulfilled(Body(NotIterable)) => promise := JsFulfilled(JsObject(JsNotIterable));
        case Fulfilled(Body(Entries(entries))) =>
          var list := new TrackArray(entries);
          promise := JsFulfilled(JsObject(JsArray(list)));
        case _ =>
      }
      assert PromiseModel(promise) == outcome;
      calls := calls[r := calls[r].(promise := promise)];
      assert CallsModel(calls) == before.requests[r := before.requests[r].(promise := outcome)];
    }

    /**
     loadCurrentWindow after its await. It may write to the controller and the controller's array;
     by `Valid` no response array is among them, so no merge changes a cached response.
     */
    method ResumeLoad(w: nat) returns (passed: seq<Cue>)
      requires Valid() && Enabled(Model(), Resume(w)) && waiters[w].LoadWaiter?
      modifies this`waiters, controllers[waiters[w].controller], controllers[waiters[w].controller].events
      ensures Valid() && Model() == Apply(old(Model()), Resume(w))
      ensures var c := old(waiters[w].controller); passed == PassedOn(old(Model()).controllers[c], Model().controllers[c])
      ensures NoDuplicates(Map(EventKey, passed)) && Keys(passed) !! old(controllers[waiters[w].controller].eventKeys)
    {
      var LoadWaiter(c, start, request) := waiters[w];
      LoadTransition(Model(), w);
      Stop(w);
      passed := FinishControllerLoad(c, start, request);
    }

    /** The call no longer awaits anything. */
    method Stop(w: nat)
      requires Valid()
      modifies this`waiters
      ensures Valid() && waiters == old(waiters) - {w}
      ensures Model() == old(Model()).(waiters := old(Model()).waiters - {w})
    {
      waiters := waiters - {w};
    }

    static lemma LoadTransition(s: State, w: nat)
      requires Enabled(s, Resume(w)) && s.waiters[w].LoadWaiter?
      ensures var rest, c, start := s.(waiters := s.waiters - {w}), s.waiters[w].controller, s.waiters[w].start;
              var k := SubtitleLoader.FinishLoad(s.controllers[c], start, s.requests[s.waiters[w].request].promise);
              Apply(s, Resume(w)) == rest.(controllers := s.controllers[c := k.(loadingStarts := k.loadingStarts - {start})])
    {}

    method FinishControllerLoad(c: nat, start: nat, request: nat) returns (passed: seq<Cue>)
      requires Valid() && c < |controllers| && request < |calls| && !calls[request].promise.JsPending?
      modifies controllers[c], controllers[c].events
      ensures Valid()
      ensures var m := old(Model());
              var k := SubtitleLoader.FinishLoad(m.controllers[c], start, m.requests[request].promise);
              Model() == m.(controllers := m.controllers[c := k.(loadingStarts := k.loadingStarts - {start})])
      ensures passed == PassedOn(old(Model()).controllers[c], Model().controllers[c])
      ensures NoDuplicates(Map(EventKey, passed)) && Keys(passed) !! old(controllers[c].eventKeys)
    {
      var k := controllers[c];
      ghost var before := Model();
      assert before.requests[request] == CallModel(calls[request]);
      assert k.events !in ResponseArrays(calls);
      passed := k.FinishLoad(start, calls[request].promise);
      assert unchanged(ResponseArrays(calls));
      assert CallsModel(calls) == before.requests;
      assert ControllersModel(controllers) == before.controllers[c := k.Model()];
    }

    /** jellyrinFetch after its await. */
    method ResumeFetch(w: nat)
      requires Valid() && Enabled(Model(), Resume(w)) && waiters[w].FetchWaiter?
      modifies this, if activeController.Some? then {controllers[activeController.value]} else {}
      ensures Valid() && Model() == Apply(old(Model()), Resume(w))
    {
      var FetchWaiter(base, start, request) := waiters[w];
      ghost var answer := Model().requests[request].promise;
      assert answer == PromiseModel(calls[request].promise);
      ghost var before := Model();
      FetchTransition(before, w);
      Stop(w);
      if calls[request].promise.JsFulfilled? {
        CreateController(base, start, request);
      } else {
        AnswerUnavailable();
      }
    }

    static lemma FetchTransition(s: State, w: nat)
      requires Enabled(s, Resume(w)) && s.waiters[w].FetchWaiter?
      ensures var rest, promise := s.(waiters := s.waiters - {w}), s.requests[s.waiters[w].request].promise;
              Apply(s, Resume(w)) ==
              if promise.Fulfilled? then SubtitleLoader.CreateController(rest, s.waiters[w].base, s.waiters[w].start, promise.body)
              else rest.(replies := rest.replies + [Unavailable])
    {}

    /** The active controller is stopped before the response is read, so even an unreadable one ends it. */
    method CreateController(base: string, start: nat, request: nat)
      requires Valid() && request < |calls| && calls[request].promise.JsFulfilled?
      modifies this`activeController, this`controllers, this`replies
      modifies if activeController.Some? then {controllers[activeController.value]} else {}
      ensures Valid()
      ensures Model() == old(SubtitleLoader.CreateController(Model(), base, start, PromiseModel(calls[request].promise).body))
    {
      var body := calls[request].promise.body;
      ghost var answer := PromiseModel(calls[request].promise).body;
      assert calls[request].promise == JsFulfilled(body);
      StopActiveController();
      assert PromiseModel(calls[request].promise).body == answer;
      if body.JsNull? {
        AnswerUnavailable();
      } else if body.track.JsArray? {
        if AllGood(body.track.list.items) {
          AddController(base, body.track.list.items, start);
        } else {
          AnswerUnavailable();
        }
      } else {
        AddController(base, [], start);
      }
    }

    method AddController(base: string, initialEvents: seq<Option<Cue>>, start: nat)
      requires Valid() && AllGood(initialEvents)
      modifies this`activeController, this`controllers, this`replies
      ensures Valid()
      ensures var m, cues := old(Model()), GoodPrefix(initialEvents);
              var k := SubtitleLoader.Controller(base, start, cues, [], cues, Keys(cues), {start}, {}, false);
              Model() == m.(controllers := m.controllers + [k], active := Some(|m.controllers|),
                            replies := m.replies + [Events(|m.controllers|)])
    {
      ghost var before := Model();
      var k := new ScriptController(base, initialEvents, start);
      ghost var model := k.Model();
      assert CallsModel(calls) == before.requests && ControllersModel(controllers) == before.controllers;
      Register(k);
      ghost var registered := Model();
      assert registered == before.(controllers := before.controllers + [model], active := Some(|before.controllers|));
      AnswerEvents(|controllers| - 1);
      assert Model() == registered.(replies := registered.replies + [Events(|before.controllers|)]);
    }

    method Register(k: ScriptController)
      requires Valid() && k.Valid() && k !in controllers
      requires k.events !in EventArrays(controllers) + ResponseArrays(calls)
      modifies this`activeController, this`controllers
      ensures Valid() && controllers == old(controllers) + [k]
      ensures var m := old(Model());
              Model() == m.(controllers := m.controllers + [k.Model()], active := Some(|m.controllers|))
    {
      ghost var before := Model();
      activeController := Some(|controllers|);
      controllers := controllers + [k];
      assert ControllersModel(controllers) == before.controllers + [k.Model()];
    }

    /** The page receives the array of the controller, not a copy. */
    method AnswerEvents(c: nat)
      requires Valid() && c < |controllers|
      modifies this`replies
      ensures Valid() && Model() == old(Model()).(replies := old(Model()).replies + [Events(c)])
    {
      replies := replies + [JsEvents(c, controllers[c].events)];
      assert Map(ReplyModel, replies) == old(Map(ReplyModel, replies)) + [Events(c)];
    }

    method AnswerUnavailable()
      requires Valid()
      modifies this`replies
      ensures Valid() && Model() == old(Model()).(replies := old(Model()).replies + [Unavailable])
    {
      replies := replies + [JsUnavailable];
      assert Map(ReplyModel, replies) == old(Map(ReplyModel, replies)) + [Unavailable];
    }

    method StopActiveController()
      requires Valid()
      modifies if activeController.Some? then {controllers[activeController.value]} else {}
      ensures Valid() && Model() == StopActive(old(Model()))
    {
      if activeController.Some? {
        ghost var before := Model();
        var a := activeController.value;
        controllers[a].stopped := true;
        assert ControllersModel(controllers) == before.controllers[a := before.controllers[a].(stopped := true)];
      }
    }
  }
}
