/**
 Subtitle cues, their merge keys, and the effect of merging window responses into the events of
 one controller.
 */
module Cues {
  import opened Decimal
  import opened Dedup
  import opened Options
  import opened Ordering
  import opened Text

  /**
   One entry of TrackEvents. `text` is None where the JSON has no Text (or null); `extra` stands
   for every field that the merge key does not read.
   */
  datatype Cue = Cue(startTicks: int, endTicks: int, text: Option<string>, extra: string)

  function TextOrEmpty(cue: Cue): string {
    match cue.text
    case None => ""
    case Some(text) => text
  }

  function EventKey(cue: Cue): string {
    RenderInt(cue.startTicks) + ":" + RenderInt(cue.endTicks) + ":" + TextOrEmpty(cue)
  }

  /** What a merge key says about a cue. */
  datatype Fields = Fields(startTicks: int, endTicks: int, text: string)

  function FieldsOf(cue: Cue): Fields {
    Fields(cue.startTicks, cue.endTicks, TextOrEmpty(cue))
  }

  /** Reads a merge key from the left: two numerals end at a colon, the rest is the text. */
  function KeyFields(key: string): Fields {
    var i := FirstOf(key, ':');
    var rest := key[if i < |key| then i + 1 else i..];
    var j := FirstOf(rest, ':');
    Fields(ParseInt(key[..i]), ParseInt(rest[..j]), rest[if j < |rest| then j + 1 else j..])
  }

  lemma ReadKey(start: string, end: string, text: string)
    requires ':' !in start && ':' !in end
    ensures KeyFields(start + ":" + end + ":" + text) == Fields(ParseInt(start), ParseInt(end), text)
  {
    var rest := end + ":" + text;
    var key := start + ":" + end + ":" + text;
    assert key == start + ":" + rest;
    assert key[..|start|] == start && key[|start| + 1..] == rest;
    FirstOfIs(key, ':', |start|);
    assert rest[..|end|] == end && rest[|end| + 1..] == text;
    FirstOfIs(rest, ':', |end|);
  }

  /**
   A merge key determines start, end and text, whatever colons the text contains. Hence
   deduplication by key never identifies two different cues.
   */
  lemma KeyRoundTrip(cue: Cue)
    ensures KeyFields(EventKey(cue)) == FieldsOf(cue)
  {
    IntRoundTrip(cue.startTicks);
    IntRoundTrip(cue.endTicks);
    ReadKey(RenderInt(cue.startTicks), RenderInt(cue.endTicks), TextOrEmpty(cue));
  }

  lemma EventKeyInjective(a: Cue, b: Cue)
    ensures EventKey(a) == EventKey(b) <==> FieldsOf(a) == FieldsOf(b)
  {
    KeyRoundTrip(a);
    KeyRoundTrip(b);
  }

  function Keys(cues: seq<Cue>): set<string> {
    set cue | cue in cues :: EventKey(cue)
  }

  /** How often each key occurs. */
  function KeyBag(cues: seq<Cue>): multiset<string> {
    multiset(Map(EventKey, cues))
  }

  predicate EarlierStart(left: Cue, right: Cue) {
    left.startTicks < right.startTicks
  }

  function Starts(cues: seq<Cue>): seq<int> {
    Map((cue: Cue) => cue.startTicks, cues)
  }

  /** The cues a merge appends, in response order: those whose key is new. */
  function Added(keys: set<string>, cues: seq<Cue>): seq<Cue> {
    NewOnes(EventKey, keys, cues)
  }

  lemma KeysAre(cues: seq<Cue>)
    ensures Keys(cues) == KeySet(EventKey, cues)
  {}

  lemma AddedKeys(keys: set<string>, cues: seq<Cue>)
    ensures Keys(Added(keys, cues)) == Keys(cues) - keys
    ensures NoDuplicates(Map(EventKey, Added(keys, cues)))
  {
    NewOnesKeys(EventKey, keys, cues);
    KeysAre(cues);
    KeysAre(Added(keys, cues));
  }

  /** Adding up to the last cue, then the last cue on its own. */
  lemma AddedSnoc(keys: set<string>, cues: seq<Cue>, cue: Cue)
    ensures Added(keys, cues + [cue])
         == Added(keys, cues) + if EventKey(cue) in keys + Keys(cues) then [] else [cue]
  {
    NewOnesSnoc(EventKey, keys, cues, cue);
    KeysAre(cues);
  }

  /**
   One response reaching a controller. An entry that cannot be read ends the merge early: the
   cues in front of it stay, but the events are not sorted (`complete` is false).
   */
  datatype Merge = Merge(start: nat, cues: seq<Cue>, complete: bool)

  function ApplyMerge(events: seq<Cue>, merge: Merge): seq<Cue> {
    var extended := events + Added(Keys(events), merge.cues);
    if merge.complete then Sort(EarlierStart, extended) else extended
  }

  /** The events of a controller that started from `initial` and merged `log` in this order. */
  function Replay(initial: seq<Cue>, log: seq<Merge>): seq<Cue> {
    if log == [] then initial
    else ApplyMerge(Replay(initial, log[..|log| - 1]), log[|log| - 1])
  }

  function MergeKeys(merge: Merge): set<string> { Keys(merge.cues) }

  function LogKeys(log: seq<Merge>): set<string> { Union(MergeKeys, log) }

  lemma LogKeysMembers(log: seq<Merge>, key: string)
    ensures key in LogKeys(log) <==> exists m :: m in log && key in Keys(m.cues)
  {
    UnionMembers(MergeKeys, log, key);
    assert forall m :: MergeKeys(m) == Keys(m.cues);
  }

  lemma SortKeepsBag(cues: seq<Cue>)
    ensures KeyBag(Sort(EarlierStart, cues)) == KeyBag(cues)
    ensures Keys(Sort(EarlierStart, cues)) == Keys(cues)
  {
    SortBag(EarlierStart, cues);
    MapMultiset(EventKey, Sort(EarlierStart, cues), cues);
    SameMembers(Sort(EarlierStart, cues), cues);
  }

  lemma BagOfConcat(xs: seq<Cue>, ys: seq<Cue>)
    ensures KeyBag(xs + ys) == KeyBag(xs) + KeyBag(ys)
    ensures Keys(xs + ys) == Keys(xs) + Keys(ys)
  {
    MapConcat(EventKey, xs, ys);
    KeySetConcat(EventKey, xs, ys);
    KeysAre(xs);
    KeysAre(ys);
    KeysAre(xs + ys);
  }

  lemma BagMembers(cues: seq<Cue>, key: string)
    ensures key in KeyBag(cues) <==> key in Keys(cues)
  {
    MapMembers(EventKey, cues, key);
    KeysAre(cues);
    assert key in Map(EventKey, cues) <==> key in multiset(Map(EventKey, cues));
  }

  lemma MergeBag(events: seq<Cue>, merge: Merge, key: string)
    ensures Keys(ApplyMerge(events, merge)) == Keys(events) + Keys(merge.cues)
    ensures KeyBag(ApplyMerge(events, merge))[key]
         == if key in Keys(events) then KeyBag(events)[key] else if key in Keys(merge.cues) then 1 else 0
  {
    var added := Added(Keys(events), merge.cues);
    AddedKeys(Keys(events), merge.cues);
    SortKeepsBag(events + added);
    BagOfConcat(events, added);
    CountNoDuplicates(Map(EventKey, added), key);
    BagMembers(added, key);
    BagMembers(events, key);
  }

  /**
   What merging does to multiplicities, over any log: a key present initially keeps its initial
   multiplicity, every other merged key occurs exactly once, and no other key occurs.
   */
  lemma {:induction false} ReplayBag(initial: seq<Cue>, log: seq<Merge>, key: string)
    ensures Keys(Replay(initial, log)) == Keys(initial) + LogKeys(log)
    ensures KeyBag(Replay(initial, log))[key]
         == if key in Keys(initial) then KeyBag(initial)[key] else if key in LogKeys(log) then 1 else 0
  {
    if log == [] {
      BagMembers(initial, key);
    } else {
      var n := |log| - 1;
      ReplayBag(initial, log[..n], key);
      MergeBag(Replay(initial, log[..n]), log[n], key);
    }
  }

  lemma EarlierStartIsWeakOrder()
    ensures StrictWeakOrder(EarlierStart)
  {}

  lemma ReplaySorted(initial: seq<Cue>, log: seq<Merge>)
    requires log != [] && log[|log| - 1].complete
    ensures Sorted(EarlierStart, Replay(initial, log))
  {
    EarlierStartIsWeakOrder();
    SortSorts(EarlierStart, Replay(initial, log[..|log| - 1]) + Added(Keys(Replay(initial, log[..|log| - 1])), log[|log| - 1].cues));
  }

  /** Sorted events with the same keys present the same sequence of start positions. */
  lemma SameBagSameStarts(xs: seq<Cue>, ys: seq<Cue>)
    requires KeyBag(xs) == KeyBag(ys)
    requires Sorted(EarlierStart, xs) && Sorted(EarlierStart, ys)
    ensures Starts(xs) == Starts(ys)
  {
    var startOfKey := (key: string) => KeyFields(key).startTicks;
    forall cues: seq<Cue>
      ensures Map(startOfKey, Map(EventKey, cues)) == Starts(cues)
    {
      forall i | 0 <= i < |cues|
        ensures startOfKey(EventKey(cues[i])) == cues[i].startTicks
      {
        KeyRoundTrip(cues[i]);
      }
    }
    MapMultiset(startOfKey, Map(EventKey, xs), Map(EventKey, ys));
    var less := (a: int, b: int) => a < b;
    SortedIsUnique(less, Starts(xs), Starts(ys));
  }

  /** The latest merge ran to its end. */
  predicate EndsComplete(log: seq<Merge>) { log != [] && log[|log| - 1].complete }

  /** Logs that merged the same keys leave the same bag of keys. */
  lemma SameKeysSameBag(initial: seq<Cue>, log1: seq<Merge>, log2: seq<Merge>)
    requires LogKeys(log1) == LogKeys(log2)
    ensures KeyBag(Replay(initial, log1)) == KeyBag(Replay(initial, log2))
  {
    forall key
      ensures KeyBag(Replay(initial, log1))[key] == KeyBag(Replay(initial, log2))[key]
    {
      ReplayBag(initial, log1, key);
      ReplayBag(initial, log2, key);
    }
  }

  /**
   Completion order does not matter: two logs that merged the same keys, each ending in a
   completed merge, leave the same bag of keys and the same sequence of start positions.
   */
  lemma MergeOrderIndependent(initial: seq<Cue>, log1: seq<Merge>, log2: seq<Merge>)
    requires EndsComplete(log1) && EndsComplete(log2) && LogKeys(log1) == LogKeys(log2)
    ensures KeyBag(Replay(initial, log1)) == KeyBag(Replay(initial, log2))
    ensures Starts(Replay(initial, log1)) == Starts(Replay(initial, log2))
  {
    SameKeysSameBag(initial, log1, log2);
    ReplaySorted(initial, log1);
    ReplaySorted(initial, log2);
    SameBagSameStarts(Replay(initial, log1), Replay(initial, log2));
  }
}
