/**
 Mirroring merged cues into the browser's native text track.

 The script compares cues by ticks but the track stores seconds, so every comparison goes through a
 floating-point division, a multiplication and a rounding. Times are reals here; the two operations
 are arbitrary functions that round at most once, as in section 4.3 of IEEE 754-2008, where the
 script applies them to ticks.
 */
module NativeCues {
  import opened Cues
  import opened Decimal
  import opened Dedup
  import opened Options
  import opened Ordering

  datatype Arithmetic = Arithmetic(divide: (real, real) -> real, multiply: (real, real) -> real)

  /** 2 to the power -53. */
  const UNIT_ROUNDOFF: real := 1.0 / 9007199254740992.0

  /** 2 to the power 50: more than three years in ticks. */
  const MAX_TICKS := 0x4_0000_0000_0000

  function Abs(x: real): real { if x < 0.0 then -x else x }

  /** Math.round: halves go up. */
  function Round(x: real): int { (x + 0.5).Floor }

  function ToSeconds(fp: Arithmetic, ticks: int): real {
    fp.divide(ticks as real, 10_000_000.0)
  }

  function ToTicks(fp: Arithmetic, seconds: real): int {
    Round(fp.multiply(seconds, 10_000_000.0))
  }

  predicate WithinRoundoff(result: real, exact: real) {
    Abs(result - exact) <= UNIT_ROUNDOFF * Abs(exact)
  }

  /** The two operations on a number of ticks, and no others, have a relative error of at most one rounding. */
  ghost predicate Accurate(fp: Arithmetic) {
    forall ticks: int :: 0 <= ticks <= MAX_TICKS ==>
      && WithinRoundoff(ToSeconds(fp, ticks), ticks as real / 10_000_000.0)
      && WithinRoundoff(fp.multiply(ToSeconds(fp, ticks), 10_000_000.0), ToSeconds(fp, ticks) * 10_000_000.0)
  }

  /** Zero, or far from underflow and overflow: binary64 is normal from 2^-1022 to 2^1024. */
  predicate Ordinary(x: real) {
    x == 0.0 || 0.00000000000000000001 <= Abs(x) <= 100000000000000000000.0
  }

  predicate CloseQuotient(fp: Arithmetic, x: real, y: real) {
    y != 0.0 && Ordinary(x / y) ==> WithinRoundoff(fp.divide(x, y), x / y)
  }

  predicate CloseProduct(fp: Arithmetic, x: real, y: real) {
    Ordinary(x * y) ==> WithinRoundoff(fp.multiply(x, y), x * y)
  }

  ghost predicate AccurateWhereOrdinary(fp: Arithmetic) {
    forall x, y :: CloseQuotient(fp, x, y) && CloseProduct(fp, x, y)
  }

  /**
   What section 4.3 of IEEE 754-2008 promises of results that neither underflow nor overflow is
   enough: whatever the arithmetic does to other results, flushing them to zero included.
   */
  lemma OrdinaryIsEnough(fp: Arithmetic)
    requires AccurateWhereOrdinary(fp)
    ensures Accurate(fp)
  {
    forall ticks: int | 0 <= ticks <= MAX_TICKS
      ensures WithinRoundoff(ToSeconds(fp, ticks), ticks as real / 10_000_000.0)
      ensures WithinRoundoff(fp.multiply(ToSeconds(fp, ticks), 10_000_000.0), ToSeconds(fp, ticks) * 10_000_000.0)
    {
      assert CloseQuotient(fp, ticks as real, 10_000_000.0);
      TicksAreOrdinary(ticks);
      assert CloseProduct(fp, ToSeconds(fp, ticks), 10_000_000.0);
      SecondsAreOrdinary(ticks, ToSeconds(fp, ticks));
    }
  }

  lemma TicksAreOrdinary(ticks: int)
    requires 0 <= ticks <= MAX_TICKS
    ensures Ordinary(ticks as real / 10_000_000.0)
  {}

  lemma SecondsAreOrdinary(ticks: int, q: real)
    requires 0 <= ticks <= MAX_TICKS && WithinRoundoff(q, ticks as real / 10_000_000.0)
    ensures Ordinary(q * 10_000_000.0)
  {
    Rounding(ticks as real / 10_000_000.0);
  }

  lemma ExactIsWithin(x: real)
    ensures WithinRoundoff(x, x)
  {
    Rounding(Abs(x));
  }

  /** Exact where the result is ordinary; anything else becomes zero. */
  function FlushQuotient(x: real, y: real): real { if y != 0.0 && Ordinary(x / y) then x / y else 0.0 }

  function FlushProduct(x: real, y: real): real { if Ordinary(x * y) then x * y else 0.0 }

  const FLUSHING := Arithmetic(FlushQuotient, FlushProduct)

  lemma FlushedQuotient(x: real, y: real)
    ensures CloseQuotient(FLUSHING, x, y)
  {
    if y != 0.0 && Ordinary(x / y) {
      assert FLUSHING.divide(x, y) == x / y;
      ExactIsWithin(x / y);
    }
  }

  lemma FlushedProduct(x: real, y: real)
    ensures CloseProduct(FLUSHING, x, y)
  {
    if Ordinary(x * y) {
      assert FLUSHING.multiply(x, y) == x * y;
      ExactIsWithin(x * y);
    }
  }

  /** An arithmetic that flushes small results to zero is accurate in this sense. */
  lemma UnderflowIsAllowed()
    ensures Accurate(FLUSHING)
  {
    forall x, y
      ensures CloseQuotient(FLUSHING, x, y) && CloseProduct(FLUSHING, x, y)
    {
      FlushedQuotient(x, y);
      FlushedProduct(x, y);
    }
    OrdinaryIsEnough(FLUSHING);
  }

  lemma Rounding(x: real)
    ensures UNIT_ROUNDOFF * x == x / 9007199254740992.0
  {}

  /** The quotient, scaled back exactly, is off by the relative error of one operation. */
  lemma QuotientError(n: real, q: real)
    requires n >= 0.0 && Abs(q - n / 10_000_000.0) <= (n / 10_000_000.0) / 9007199254740992.0
    ensures Abs(q * 10_000_000.0 - n) <= n / 9007199254740992.0
  {}

  lemma ProductError(n: real, m: real, p: real)
    requires 0.0 <= n <= 1125899906842624.0 && Abs(m - n) <= n / 9007199254740992.0
    requires Abs(p - m) <= Abs(m) / 9007199254740992.0
    ensures Abs(p - n) < 0.5
  {}

  /** Ticks survive the trip through floating-point seconds exactly. */
  lemma TicksRoundTrip(fp: Arithmetic, ticks: int)
    requires Accurate(fp) && 0 <= ticks <= MAX_TICKS
    ensures ToTicks(fp, ToSeconds(fp, ticks)) == ticks
  {
    var n := ticks as real;
    var q := fp.divide(n, 10_000_000.0);
    var p := fp.multiply(q, 10_000_000.0);
    assert q == ToSeconds(fp, ticks);
    Rounding(Abs(n / 10_000_000.0));
    QuotientError(n, q);
    Rounding(Abs(q * 10_000_000.0));
    ProductError(n, q * 10_000_000.0, p);
    RoundNear(p, ticks);
  }

  lemma RoundNear(x: real, n: int)
    requires Abs(x - n as real) < 0.5
    ensures Round(x) == n
  {}

  datatype NativeCue = NativeCue(startTime: real, endTime: real, text: string)

  function ToNative(fp: Arithmetic, event: Cue): NativeCue {
    NativeCue(ToSeconds(fp, event.startTicks), ToSeconds(fp, event.endTicks), TextOrEmpty(event))
  }

  function NativeKey(fp: Arithmetic, cue: NativeCue): string {
    RenderInt(ToTicks(fp, cue.startTime)) + ":" + RenderInt(ToTicks(fp, cue.endTime)) + ":" + cue.text
  }

  predicate InRange(event: Cue) {
    0 <= event.startTicks <= MAX_TICKS && 0 <= event.endTicks <= MAX_TICKS
  }

  lemma NativeKeyOfEvent(fp: Arithmetic, event: Cue)
    requires Accurate(fp) && InRange(event)
    ensures NativeKey(fp, ToNative(fp, event)) == EventKey(event)
  {
    TicksRoundTrip(fp, event.startTicks);
    TicksRoundTrip(fp, event.endTicks);
  }

  /** A native cue runs from the event's start to its end, in seconds up to one rounding, with the event's text. */
  lemma NativeTimes(fp: Arithmetic, event: Cue)
    requires Accurate(fp) && InRange(event)
    ensures var cue := ToNative(fp, event);
            && WithinRoundoff(cue.startTime, event.startTicks as real / 10_000_000.0)
            && WithinRoundoff(cue.endTime, event.endTicks as real / 10_000_000.0)
            && (if event.text.Some? then event.text == Some(cue.text) else cue.text == "")
  {}

  /** Math.round: the nearest integer, and of two the greater. */
  lemma RoundNearest(x: real)
    ensures Round(x) as real - 0.5 <= x < Round(x) as real + 0.5
  {}

  function NativeKeys(fp: Arithmetic, cues: seq<NativeCue>): set<string> {
    set cue | cue in cues :: NativeKey(fp, cue)
  }

  function NativeBag(fp: Arithmetic, cues: seq<NativeCue>): multiset<string> {
    multiset(Map(cue => NativeKey(fp, cue), cues))
  }

  /** What one event adds: `existing` is computed once, before the loop. */
  function Addition(fp: Arithmetic, existing: set<string>, accepts: Cue -> bool): Cue -> seq<NativeCue> {
    (event: Cue) => if EventKey(event) !in existing && accepts(event) then [ToNative(fp, event)] else []
  }

  /** What one call appends. */
  function Appended(fp: Arithmetic, existing: set<string>, events: seq<Cue>, accepts: Cue -> bool): seq<NativeCue> {
    FlatMap(Addition(fp, existing, accepts), events)
  }

  /**
   One call of addNativeCues. `accepts` says for which events constructing and adding the native cue
   does not throw; with a custom renderer mounted, or no track showing, the call does nothing.
   */
  datatype Call = Call(events: seq<Cue>, accepts: Cue -> bool, customRenderer: bool)

  function AfterCall(fp: Arithmetic, cues: seq<NativeCue>, call: Call): seq<NativeCue> {
    cues + if call.customRenderer then [] else Appended(fp, NativeKeys(fp, cues), call.events, call.accepts)
  }

  /** The native cues of the accepted events whose key was not in the track before the call, in the order of the events. */
  lemma CallAppends(fp: Arithmetic, cues: seq<NativeCue>, call: Call)
    ensures call.customRenderer ==> AfterCall(fp, cues, call) == cues
    ensures var wanted := (event: Cue) => call.accepts(event) && EventKey(event) !in NativeKeys(fp, cues);
            !call.customRenderer ==>
              AfterCall(fp, cues, call) == cues + Map((event: Cue) => ToNative(fp, event), Filter(wanted, call.events))
  {
    AdditionsAre(fp, NativeKeys(fp, cues), call.events, call.accepts);
  }

  lemma {:induction false} AdditionsAre(fp: Arithmetic, existing: set<string>, events: seq<Cue>, accepts: Cue -> bool)
    ensures Appended(fp, existing, events, accepts) ==
            Map((event: Cue) => ToNative(fp, event), Filter((event: Cue) => accepts(event) && EventKey(event) !in existing, events))
  {
    if events != [] {
      var wanted := (event: Cue) => accepts(event) && EventKey(event) !in existing;
      var native := (event: Cue) => ToNative(fp, event);
      AdditionsAre(fp, existing, events[1..], accepts);
      MapConcat(native, if wanted(events[0]) then [events[0]] else [], Filter(wanted, events[1..]));
    }
  }

  class TextTrack {
    var cues: seq<NativeCue>

    /** One turn of the loop. */
    method Consider(fp: Arithmetic, existing: set<string>, accepts: Cue -> bool, event: Cue)
      modifies this
      ensures cues == old(cues) + Addition(fp, existing, accepts)(event)
    {
      if EventKey(event) !in existing && accepts(event) {
        cues := cues + [ToNative(fp, event)];
      }
    }

    method AddNativeCues(fp: Arithmetic, call: Call)
      modifies this
      ensures cues == AfterCall(fp, old(cues), call)
    {
      if call.customRenderer {
        return;
      }
      var existing := NativeKeys(fp, cues);
      ghost var before := cues;
      ghost var adds := Addition(fp, existing, call.accepts);
      var i := 0;
      while i < |call.events|
        invariant i <= |call.events|
        invariant cues == before + FlatMap(adds, call.events[..i])
      {
        FlatMapNext(adds, call.events, i);
        Consider(fp, existing, call.accepts, call.events[i]);
        i := i + 1;
      }
      WholePrefix(call.events, i);
    }
  }

  lemma NativeBagConcat(fp: Arithmetic, xs: seq<NativeCue>, ys: seq<NativeCue>)
    ensures NativeBag(fp, xs + ys) == NativeBag(fp, xs) + NativeBag(fp, ys)
    ensures NativeKeys(fp, xs + ys) == NativeKeys(fp, xs) + NativeKeys(fp, ys)
  {
    MapConcat(cue => NativeKey(fp, cue), xs, ys);
  }

  lemma HeadBag(fp: Arithmetic, existing: set<string>, head: Cue, accepts: Cue -> bool, key: string)
    requires Accurate(fp) && InRange(head)
    ensures var first := if EventKey(head) !in existing && accepts(head) then [ToNative(fp, head)] else [];
            var kept := if accepts(head) then [head] else [];
            NativeBag(fp, first)[key] == if key in existing then 0 else KeyBag(kept)[key]
  {
    NativeKeyOfEvent(fp, head);
    assert Map(cue => NativeKey(fp, cue), [ToNative(fp, head)]) == [EventKey(head)];
    assert Map(EventKey, [head]) == [EventKey(head)];
  }

  /**
   What one call does to the track, key by key: a key already there gains nothing, a missing key
   gains as many cues as the list has accepted events with it.
   */
  lemma {:induction false} AppendedBag(fp: Arithmetic, existing: set<string>, events: seq<Cue>, accepts: Cue -> bool, key: string)
    requires Accurate(fp) && forall e :: e in events ==> InRange(e)
    ensures NativeBag(fp, Appended(fp, existing, events, accepts))[key]
         == if key in existing then 0 else KeyBag(Filter(accepts, events))[key]
  {
    if events != [] {
      var head, rest := events[0], Appended(fp, existing, events[1..], accepts);
      AppendedBag(fp, existing, events[1..], accepts, key);
      HeadBag(fp, existing, head, accepts, key);
      NativeBagConcat(fp, Addition(fp, existing, accepts)(head), rest);
      var kept := if accepts(head) then [head] else [];
      BagOfConcat(kept, Filter(accepts, events[1..]));
      assert Filter(accepts, events) == kept + Filter(accepts, events[1..]);
    }
  }

  /**
   Native cues never duplicate. On a list with distinct keys, which is what a merge passes, every
   missing accepted key is added exactly once and no key present before gains a cue.
   */
  lemma NativeCuesNeverDuplicate(fp: Arithmetic, before: seq<NativeCue>, events: seq<Cue>, accepts: Cue -> bool, key: string)
    requires Accurate(fp) && forall e :: e in events ==> InRange(e)
    requires NoDuplicates(Map(EventKey, events))
    ensures var after := before + Appended(fp, NativeKeys(fp, before), events, accepts);
            NativeBag(fp, after)[key]
            == if key in NativeKeys(fp, before) then NativeBag(fp, before)[key]
               else if key in Keys(Filter(accepts, events)) then 1 else 0
  {
    var existing := NativeKeys(fp, before);
    AppendedBag(fp, existing, events, accepts, key);
    NativeBagConcat(fp, before, Appended(fp, existing, events, accepts));
    FilteredKeysDistinct(accepts, events);
    CountNoDuplicates(Map(EventKey, Filter(accepts, events)), key);
    BagMembers(Filter(accepts, events), key);
    var keys := Map(cue => NativeKey(fp, cue), before);
    assert key in keys <==> key in multiset(keys);
    if key in keys {
      var i :| 0 <= i < |keys| && keys[i] == key;
      assert NativeKey(fp, before[i]) == key;
    }
  }

  lemma FilteredKeys(accepts: Cue -> bool, events: seq<Cue>, key: string)
    requires key !in Keys(events)
    ensures key !in Keys(Filter(accepts, events))
  {
    FilterMembers(accepts, events);
  }

  lemma {:induction false} FilteredKeysDistinct(accepts: Cue -> bool, events: seq<Cue>)
    requires NoDuplicates(Map(EventKey, events))
    ensures NoDuplicates(Map(EventKey, Filter(accepts, events)))
  {
    if events != [] {
      var rest := Filter(accepts, events[1..]);
      HeadKeyIsNew(events);
      FilteredKeysDistinct(accepts, events[1..]);
      if accepts(events[0]) {
        FilteredKeys(accepts, events[1..], EventKey(events[0]));
        KeysAre(rest);
        DistinctCons(EventKey, events[0], rest);
        assert Filter(accepts, events) == [events[0]] + rest;
      } else {
        assert Filter(accepts, events) == rest;
      }
    }
  }

  lemma HeadKeyIsNew(events: seq<Cue>)
    requires events != [] && NoDuplicates(Map(EventKey, events))
    ensures EventKey(events[0]) !in Keys(events[1..]) && NoDuplicates(Map(EventKey, events[1..]))
  {
    var keys := Map(EventKey, events);
    assert Map(EventKey, events[1..]) == keys[1..];
    forall i | 0 <= i < |events[1..]|
      ensures EventKey(events[1..][i]) != EventKey(events[0])
    {
      assert keys[i + 1] != keys[0];
    }
  }

  /** Calling again with the same list changes nothing, even when some cues were refused. */
  lemma SecondCallAddsNothing(fp: Arithmetic, before: seq<NativeCue>, events: seq<Cue>, accepts: Cue -> bool)
    requires Accurate(fp) && forall e :: e in events ==> InRange(e)
    ensures var after := before + Appended(fp, NativeKeys(fp, before), events, accepts);
            Appended(fp, NativeKeys(fp, after), events, accepts) == []
  {
    var existing := NativeKeys(fp, before);
    var added := Appended(fp, existing, events, accepts);
    NativeBagConcat(fp, before, added);
    forall e | e in events && accepts(e)
      ensures EventKey(e) in existing + NativeKeys(fp, added)
    {
      if EventKey(e) !in existing {
        AppendedHas(fp, existing, events, accepts, e);
        NativeKeyOfEvent(fp, e);
        assert ToNative(fp, e) in added;
      }
    }
    AppendedNothing(fp, existing + NativeKeys(fp, added), events, accepts);
  }

  lemma {:induction false} AppendedHas(fp: Arithmetic, existing: set<string>, events: seq<Cue>, accepts: Cue -> bool, e: Cue)
    requires e in events && accepts(e) && EventKey(e) !in existing
    ensures ToNative(fp, e) in Appended(fp, existing, events, accepts)
  {
    if e != events[0] {
      AppendedHas(fp, existing, events[1..], accepts, e);
    }
  }

  lemma {:induction false} AppendedNothing(fp: Arithmetic, existing: set<string>, events: seq<Cue>, accepts: Cue -> bool)
    requires forall e :: e in events && accepts(e) ==> EventKey(e) in existing
    ensures Appended(fp, existing, events, accepts) == []
  {
    if events != [] {
      AppendedNothing(fp, existing, events[1..], accepts);
    }
  }

  // ----- All calls of one controller

  function Track(fp: Arithmetic, before: seq<NativeCue>, calls: seq<Call>): seq<NativeCue> {
    if calls == [] then before else AfterCall(fp, Track(fp, before, calls[..|calls| - 1]), calls[|calls| - 1])
  }

  /** A list with distinct keys and positions in range. */
  ghost predicate ProperCall(call: Call) {
    NoDuplicates(Map(EventKey, call.events)) && forall e :: e in call.events ==> InRange(e)
  }

  /** The call adds the key unless it is there. */
  predicate Offers(call: Call, key: string) {
    !call.customRenderer && key in Keys(Filter(call.accepts, call.events))
  }

  predicate AnyOffers(calls: seq<Call>, key: string) { Any((call: Call) => Offers(call, key), calls) }

  predicate Any<T(!new)>(p: T -> bool, xs: seq<T>) { exists i :: 0 <= i < |xs| && p(xs[i]) }

  lemma AnySnoc<T(!new)>(p: T -> bool, xs: seq<T>)
    requires xs != []
    ensures Any(p, xs) <==> Any(p, xs[..|xs| - 1]) || p(xs[|xs| - 1])
  {
    var n := |xs| - 1;
    if Any(p, xs) && !p(xs[n]) {
      var i :| 0 <= i < |xs| && p(xs[i]);
      assert xs[..n][i] == xs[i];
    }
    if Any(p, xs[..n]) {
      var i :| 0 <= i < n && p(xs[..n][i]);
      assert xs[..n][i] == xs[i];
    }
  }

  lemma BagOfKeys(fp: Arithmetic, cues: seq<NativeCue>, key: string)
    ensures key in NativeKeys(fp, cues) <==> NativeBag(fp, cues)[key] > 0
  {
    var keys := Map(cue => NativeKey(fp, cue), cues);
    assert key in keys <==> key in multiset(keys);
    if key in NativeKeys(fp, cues) {
      var i :| 0 <= i < |cues| && NativeKey(fp, cues[i]) == key;
      assert keys[i] == key;
    }
  }

  lemma CallEffect(fp: Arithmetic, cues: seq<NativeCue>, call: Call, key: string)
    requires Accurate(fp) && ProperCall(call)
    ensures NativeBag(fp, AfterCall(fp, cues, call))[key]
         == if NativeBag(fp, cues)[key] > 0 then NativeBag(fp, cues)[key] else if Offers(call, key) then 1 else 0
  {
    BagOfKeys(fp, cues, key);
    if call.customRenderer {
      assert AfterCall(fp, cues, call) == cues;
    } else {
      NativeCuesNeverDuplicate(fp, cues, call.events, call.accepts, key);
    }
  }

  /**
   Over any sequence of calls, a key that was in the track keeps its multiplicity, and every other key
   ends up once if some call offers it and not at all otherwise.
   */
  lemma {:induction false} TrackNeverDuplicates(fp: Arithmetic, before: seq<NativeCue>, calls: seq<Call>, key: string)
    requires Accurate(fp) && forall i :: 0 <= i < |calls| ==> ProperCall(calls[i])
    ensures NativeBag(fp, Track(fp, before, calls))[key]
         == if NativeBag(fp, before)[key] > 0 then NativeBag(fp, before)[key]
            else if AnyOffers(calls, key) then 1 else 0
  {
    if calls != [] {
      var n := |calls| - 1;
      TrackNeverDuplicates(fp, before, calls[..n], key);
      CallEffect(fp, Track(fp, before, calls[..n]), calls[n], key);
      AnySnoc((call: Call) => Offers(call, key), calls);
    }
  }

  /** What the page does with the n-th merge: which native cues it accepts, and whether it renders itself. */
  type Browser = nat -> (Cue -> bool, bool)

  /** The calls a controller makes: every merge that runs to its end passes the cues it added. */
  function NativeCalls(initial: seq<Cue>, log: seq<Merge>, browser: Browser): seq<Call> {
    if log == [] then []
    else
      var n := |log| - 1;
      NativeCalls(initial, log[..n], browser)
      + if log[n].complete
        then [Call(Added(Keys(Replay(initial, log[..n])), log[n].cues), browser(n).0, browser(n).1)]
        else []
  }

  lemma {:induction false} NativeCallsProper(initial: seq<Cue>, log: seq<Merge>, browser: Browser)
    requires forall m, cue :: m in log && cue in m.cues ==> InRange(cue)
    ensures forall i :: 0 <= i < |NativeCalls(initial, log, browser)| ==> ProperCall(NativeCalls(initial, log, browser)[i])
  {
    if log != [] {
      var n := |log| - 1;
      var known := Keys(Replay(initial, log[..n]));
      NativeCallsProper(initial, log[..n], browser);
      assert log[n] in log;
      NewOnesMembers(EventKey, known, log[n].cues);
      AddedKeys(known, log[n].cues);
    }
  }

  /** Over all merges of one controller, in any order, no key enters the track twice. */
  lemma ControllerNeverDuplicates(fp: Arithmetic, before: seq<NativeCue>, initial: seq<Cue>, log: seq<Merge>, browser: Browser, key: string)
    requires Accurate(fp) && forall m, cue :: m in log && cue in m.cues ==> InRange(cue)
    ensures var calls := NativeCalls(initial, log, browser);
            NativeBag(fp, Track(fp, before, calls))[key]
            == if NativeBag(fp, before)[key] > 0 then NativeBag(fp, before)[key]
               else if AnyOffers(calls, key) then 1 else 0
  {
    NativeCallsProper(initial, log, browser);
    TrackNeverDuplicates(fp, before, NativeCalls(initial, log, browser), key);
  }
}
