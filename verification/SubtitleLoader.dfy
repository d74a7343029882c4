/**
 The segmented subtitle loader as a state machine.

 JavaScript runs to completion between awaits, so one transition is the code from one await to
 the next: a poll, seek or resume starting a load, an intercepted fetch, the network settling a
 promise, and the continuation of one awaiting call. Any order of transitions is a run.
 */
module SubtitleLoader {
  import opened Cues
  import opened Options

  const TICKS_PER_SECOND := 10_000_000
  const WINDOW_SECONDS := 30
  const STEP_SECONDS := 20
  const CACHE_LIMIT := 200

  /** `base` is the request URL without its two window parameters. */
  datatype WindowUrl = WindowUrl(base: string, startTicks: int, endTicks: int)

  /** None: there is no video, or its position is not finite. */
  function WindowStartSeconds(currentTime: Option<real>): nat {
    var seconds := if currentTime.Some? && currentTime.value > 0.0 then currentTime.value else 0.0;
    (seconds / 20.0).Floor * STEP_SECONDS
  }

  function WithWindow(base: string, startSeconds: nat): WindowUrl {
    WindowUrl(base, startSeconds * TICKS_PER_SECOND, (startSeconds + WINDOW_SECONDS) * TICKS_PER_SECOND)
  }

  /** TrackEvents of a response: absent or falsy, truthy but no list, or a list with null entries as None. */
  datatype Track = Missing | NotIterable | Entries(entries: seq<Option<Cue>>)

  /** A parsed JSON response. */
  datatype Body = NullBody | Body(track: Track)

  datatype Promise = Pending | Fulfilled(body: Body) | Rejected

  /** One call of the network; its promise settles at most once. */
  datatype Request = Request(url: WindowUrl, promise: Promise)

  datatype CacheEntry = CacheEntry(url: WindowUrl, request: nat)

  /**
   One controller. `initialStart`, `initial` and `log` are history: the window and the events it
   was created from and the responses merged since.
   */
  datatype Controller = Controller(
    base: string,
    initialStart: nat,
    initial: seq<Cue>,
    log: seq<Merge>,
    events: seq<Cue>,
    eventKeys: set<string>,
    loadedStarts: set<nat>,
    loadingStarts: set<nat>,
    stopped: bool)

  /** A call suspended at its await. */
  datatype Waiter =
    | LoadWaiter(controller: nat, start: nat, request: nat)
    | FetchWaiter(base: string, start: nat, request: nat)

  /** What the page's fetch received: the events of a controller, or a 503 without events. */
  datatype Reply = Events(controller: nat) | Unavailable

  datatype State = State(
    cache: seq<CacheEntry>,
    requests: seq<Request>,
    controllers: seq<Controller>,
    active: Option<nat>,
    waiters: map<nat, Waiter>,
    nextWaiter: nat,
    replies: seq<Reply>)

  const INITIAL := State([], [], [], None, map[], 0, [])

  datatype Step =
    | Tick(controller: nat, currentTime: Option<real>)
    | Intercept(base: string, currentTime: Option<real>)
    | Settle(request: nat, outcome: Promise)
    | Resume(waiter: nat)

  // ----- Reading a response

  function GoodPrefix(entries: seq<Option<Cue>>): seq<Cue> {
    if entries == [] || entries[0].None? then [] else [entries[0].value] + GoodPrefix(entries[1..])
  }

  predicate AllGood(entries: seq<Option<Cue>>) {
    forall i :: 0 <= i < |entries| ==> entries[i].Some?
  }

  /** The events a controller starts from; None when reading them throws. */
  function InitialEvents(body: Body): Option<seq<Cue>> {
    match body
    case NullBody => None
    case Body(Entries(entries)) => if AllGood(entries) then Some(GoodPrefix(entries)) else None
    case Body(_) => Some([])
  }

  /** The merge a later response causes; None when the loop over it cannot start. */
  function MergeOf(start: nat, body: Body): Option<Merge> {
    match body
    case NullBody => None
    case Body(Missing) => Some(Merge(start, [], true))
    case Body(NotIterable) => None
    case Body(Entries(entries)) => Some(Merge(start, GoodPrefix(entries), AllGood(entries)))
  }

  // ----- The response cache

  function Lookup(cache: seq<CacheEntry>, url: WindowUrl): Option<nat> {
    if cache == [] then None
    else if cache[0].url == url then Some(cache[0].request)
    else Lookup(cache[1..], url)
  }

  function Store(cache: seq<CacheEntry>, entry: CacheEntry): seq<CacheEntry> {
    var grown := cache + [entry];
    if |grown| > CACHE_LIMIT then grown[1..] else grown
  }

  /** fetchWindow up to its await: the request whose promise the caller waits for. */
  function Fetch(s: State, url: WindowUrl): (State, nat) {
    match Lookup(s.cache, url)
    case Some(request) => (s, request)
    case None =>
      var request := |s.requests|;
      (s.(requests := s.requests + [Request(url, Pending)],
          cache := Store(s.cache, CacheEntry(url, request))), request)
  }

  // ----- Transitions

  function ApplyTick(s: State, c: nat, currentTime: Option<real>): State
    requires c < |s.controllers|
  {
    var k := s.controllers[c];
    var start := WindowStartSeconds(currentTime);
    if k.stopped || start in k.loadedStarts || start in k.loadingStarts then s
    else
      var marked := s.(controllers := s.controllers[c := k.(loadingStarts := k.loadingStarts + {start})]);
      var (fetched, request) := Fetch(marked, WithWindow(k.base, start));
      fetched.(waiters := fetched.waiters[fetched.nextWaiter := LoadWaiter(c, start, request)],
               nextWaiter := fetched.nextWaiter + 1)
  }

  function ApplyIntercept(s: State, base: string, currentTime: Option<real>): State {
    var start := WindowStartSeconds(currentTime);
    var (fetched, request) := Fetch(s, WithWindow(base, start));
    fetched.(waiters := fetched.waiters[fetched.nextWaiter := FetchWaiter(base, start, request)],
             nextWaiter := fetched.nextWaiter + 1)
  }

  function ApplySettle(s: State, r: nat, outcome: Promise): State
    requires r < |s.requests|
  {
    s.(requests := s.requests[r := s.requests[r].(promise := outcome)])
  }

  /** loadCurrentWindow after its await, without the final removal of the loading mark. */
  function FinishLoad(k: Controller, start: nat, promise: Promise): Controller {
    if k.stopped || !promise.Fulfilled? then k
    else
      match MergeOf(start, promise.body)
      case None => k
      case Some(merge) =>
        var events := ApplyMerge(k.events, merge);
        k.(events := events,
           eventKeys := k.eventKeys + Keys(merge.cues),
           log := k.log + [merge],
           loadedStarts := if merge.complete then k.loadedStarts + {start} else k.loadedStarts)
  }

  /** A merge was recorded, and it ran to its end. */
  predicate RanToEnd(before: Controller, after: Controller) {
    |after.log| > |before.log| && after.log[|after.log| - 1].complete
  }

  /** What the end of a load hands to the native text track: the cues its merge added, if the merge ran to its end. */
  function PassedOn(before: Controller, after: Controller): seq<Cue> {
    if RanToEnd(before, after) then Added(before.eventKeys, after.log[|after.log| - 1].cues) else []
  }

  function StopActive(s: State): State {
    match s.active
    case None => s
    case Some(a) =>
      if a < |s.controllers| then s.(controllers := s.controllers[a := s.controllers[a].(stopped := true)]) else s
  }

  /** createController; the previous controller is stopped even when reading the response throws. */
  function CreateController(s: State, base: string, start: nat, body: Body): State {
    var quiet := StopActive(s);
    match InitialEvents(body)
    case None => quiet.(replies := quiet.replies + [Unavailable])
    case Some(events) =>
      var c := |quiet.controllers|;
      var k := Controller(base, start, events, [], events, Keys(events), {start}, {}, false);
      quiet.(controllers := quiet.controllers + [k], active := Some(c), replies := quiet.replies + [Events(c)])
  }

  function ApplyResume(s: State, w: nat): State
    requires w in s.waiters && s.waiters[w].request < |s.requests|
    requires s.waiters[w].LoadWaiter? ==> s.waiters[w].controller < |s.controllers|
  {
    var rest := s.(waiters := s.waiters - {w});
    var promise := s.requests[s.waiters[w].request].promise;
    match s.waiters[w]
    case LoadWaiter(c, start, _) =>
      var k := FinishLoad(s.controllers[c], start, promise);
      rest.(controllers := s.controllers[c := k.(loadingStarts := k.loadingStarts - {start})])
    case FetchWaiter(base, start, _) =>
      if promise.Fulfilled? then CreateController(rest, base, start, promise.body)
      else rest.(replies := rest.replies + [Unavailable])
  }

  predicate Enabled(s: State, step: Step) {
    match step
    case Tick(c, _) => c < |s.controllers|
    case Intercept(_, _) => true
    case Settle(r, outcome) => r < |s.requests| && s.requests[r].promise.Pending? && !outcome.Pending?
    case Resume(w) =>
      && w in s.waiters
      && s.waiters[w].request < |s.requests|
      && !s.requests[s.waiters[w].request].promise.Pending?
      && (s.waiters[w].LoadWaiter? ==> s.waiters[w].controller < |s.controllers|)
  }

  /** A step that is not possible in a state changes nothing. */
  function Apply(s: State, step: Step): State {
    if !Enabled(s, step) then s
    else
      match step
      case Tick(c, currentTime) => ApplyTick(s, c, currentTime)
      case Intercept(base, currentTime) => ApplyIntercept(s, base, currentTime)
      case Settle(r, outcome) => ApplySettle(s, r, outcome)
      case Resume(w) => ApplyResume(s, w)
  }

  function Exec(s: State, steps: seq<Step>): State {
    if steps == [] then s else Apply(Exec(s, steps[..|steps| - 1]), steps[|steps| - 1])
  }
}
