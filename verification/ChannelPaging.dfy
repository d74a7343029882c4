/** Reading a tuner's channels page by page. */
module ChannelPaging {
  import opened Options
  import opened Ordering

  /** A listed channel; `tunerHostId` is None where the item has no such string. */
  datatype Item = Item(tunerHostId: Option<string>, channel: string)

  /** A response: `items` is None unless an array, `total` unless an integer. */
  datatype Response = Response(items: Option<seq<Item>>, total: Option<int>)

  function PageItems(response: Response): seq<Item> {
    if response.items.Some? then response.items.value else []
  }

  function IntegerOrZero(value: Option<int>): nat {
    if value.Some? && value.value >= 0 then value.value else 0
  }

  function Total(response: Response): nat { IntegerOrZero(response.total) }

  function OfTuner(id: string): Item -> bool { (item: Item) => item.tunerHostId == Some(id) }

  /** The next page is asked for. */
  predicate Continues(response: Response, start: nat) {
    PageItems(response) != [] && start + |PageItems(response)| < Total(response)
  }

  /** The start index of the k-th request, counting from 0. */
  ghost function Index(server: nat -> Response, k: nat): nat {
    if k == 0 then 0 else Index(server, k - 1) + |PageItems(server(Index(server, k - 1)))|
  }

  /** The answers to the first k requests, one after the other. */
  ghost function Received(server: nat -> Response, k: nat): seq<Item> {
    if k == 0 then [] else Received(server, k - 1) + PageItems(server(Index(server, k - 1)))
  }

  /** The loop asks again after the k-th request. */
  ghost predicate AsksAgain(server: nat -> Response, k: nat) { Continues(server(Index(server, k)), Index(server, k)) }

  /** The loop stops after its `requests`-th request. */
  ghost predicate StopsAfter(server: nat -> Response, requests: nat) {
    requests > 0 && !AsksAgain(server, requests - 1) && forall k: nat :: k < requests - 1 ==> AsksAgain(server, k)
  }

  /** What one answer says: items, where it has an array of them, and a total, where it has a natural number. */
  ghost predicate Answers(response: Response, items: seq<Item>, total: nat) {
    && (match response.items case Some(listed) => items == listed case None => items == [])
    && (match response.total case Some(n) => total == (if n < 0 then 0 else n) case None => total == 0)
  }

  /**
   A request starts where the items received so far end; its items are received behind them; and there
   is another request exactly if it brought an item and its total lies beyond all that was received.
   */
  lemma OneRequest(server: nat -> Response, k: nat, items: seq<Item>, total: nat)
    requires Answers(server(Index(server, k)), items, total)
    ensures Total(server(Index(server, k))) == total
    ensures Index(server, k) == |Received(server, k)|
    ensures Received(server, k + 1) == Received(server, k) + items
    ensures AsksAgain(server, k) <==> items != [] && total > |Received(server, k + 1)|
  {
    IndexIsReceived(server, k);
  }

  lemma {:induction false} IndexIsReceived(server: nat -> Response, k: nat)
    ensures Index(server, k) == |Received(server, k)|
  {
    if k > 0 {
      IndexIsReceived(server, k - 1);
    }
  }

  /** An item is kept exactly if its tuner is the one asked for, in the order received. */
  lemma KeptItems(items: seq<Item>, item: Item, id: string)
    ensures Filter(OfTuner(id), []) == []
    ensures Filter(OfTuner(id), items + [item]) ==
            Filter(OfTuner(id), items) + (if item.tunerHostId.Some? && item.tunerHostId.value == id then [item] else [])
  {
    FilterConcat(OfTuner(id), items, [item]);
    assert [item][1..] == [];
  }

  lemma StopsOnce(server: nat -> Response, m: nat, n: nat)
    requires StopsAfter(server, m) && StopsAfter(server, n)
    ensures m == n
  {}

  /** The loop; `last` only says that it ends at some request, which it does exactly if one is the last. */
  method ReadChannels(server: nat -> Response, tunerId: string, ghost last: nat)
    returns (tunerChannels: seq<Item>, requests: nat)
    requires !AsksAgain(server, last)
    ensures StopsAfter(server, requests)
    ensures tunerChannels == Filter(OfTuner(tunerId), Received(server, requests))
  {
    tunerChannels, requests := [], 0;
    var channelStartIndex: nat := 0;
    var more := true;
    while more
      invariant channelStartIndex == Index(server, requests)
      invariant tunerChannels == Filter(OfTuner(tunerId), Received(server, requests))
      invariant if more then forall k: nat :: k < requests ==> AsksAgain(server, k) else StopsAfter(server, requests)
      decreases more, last - requests
    {
      assert requests <= last;
      var channels := server(channelStartIndex);
      var pageItems := PageItems(channels);
      FilterConcat(OfTuner(tunerId), Received(server, requests), pageItems);
      tunerChannels := tunerChannels + Filter(OfTuner(tunerId), pageItems);
      var totalChannelCount := Total(channels);
      channelStartIndex := channelStartIndex + |pageItems|;
      more := pageItems != [] && channelStartIndex < totalChannelCount;
      assert more == AsksAgain(server, requests);
      requests := requests + 1;
    }
  }

  /** Announced totals that stay below some bound are enough for the loop to end. */
  lemma {:induction false} BoundedTotalsEnd(server: nat -> Response, bound: nat, k: nat) returns (last: nat)
    requires forall start: nat :: Total(server(start)) <= bound
    ensures !AsksAgain(server, last)
    decreases if Index(server, k) < bound then bound - Index(server, k) else 0
  {
    if AsksAgain(server, k) {
      last := BoundedTotalsEnd(server, bound, k + 1);
    } else {
      last := k;
    }
  }

  // ----- Servers that page through a fixed list

  /** Every answer is a page of the list from the asked index on, empty only past its end. */
  ghost predicate Pages(server: nat -> Response, list: seq<Item>) {
    forall start: nat ::
      var page := PageItems(server(start));
      |page| <= 500
      && (if start < |list|
          then page != [] && start + |page| <= |list| && page == list[start..start + |page|]
          else page == [])
  }

  ghost predicate TrueTotals(server: nat -> Response, list: seq<Item>) {
    forall start: nat :: server(start).total == Some(|list|)
  }

  /** A page asked for at the end of a first part of the list extends it to a longer first part. */
  lemma PageExtends(server: nat -> Response, list: seq<Item>, start: nat)
    requires Pages(server, list) && start <= |list|
    ensures var page := PageItems(server(start)); start + |page| <= |list| && list[..start] + page == list[..start + |page|]
  {
    var page := PageItems(server(start));
    if start < |list| {
      assert page == list[start..start + |page|];
    }
  }

  /** Whatever totals are announced, what arrives is a first part of the list without gaps or repetitions. */
  lemma {:induction false} ReceivedIsPrefix(server: nat -> Response, list: seq<Item>, k: nat)
    requires Pages(server, list)
    ensures Index(server, k) <= |list| && Received(server, k) == list[..Index(server, k)]
  {
    if k > 0 {
      ReceivedIsPrefix(server, list, k - 1);
      PageExtends(server, list, Index(server, k - 1));
    }
  }

  /** An answer that announces no more than it ends at, though the list goes on. */
  ghost predicate Understated(server: nat -> Response, list: seq<Item>, index: nat) {
    var next := index + |PageItems(server(index))|;
    next < |list| && Total(server(index)) <= next
  }

  /** Everything has arrived when the loop stops exactly if no answer to a request understated the total. */
  lemma CompleteIff(server: nat -> Response, list: seq<Item>, requests: nat)
    requires Pages(server, list) && StopsAfter(server, requests)
    ensures Received(server, requests) == list <==>
            forall k: nat :: k < requests ==> !Understated(server, list, Index(server, k))
  {
    ReceivedIsPrefix(server, list, requests);
    ReceivedIsPrefix(server, list, requests - 1);
    assert Received(server, requests) == list <==> Index(server, requests) == |list|;
    assert Index(server, requests) == Index(server, requests - 1) + |PageItems(server(Index(server, requests - 1)))|;
    assert Understated(server, list, Index(server, requests - 1)) <==> Index(server, requests) < |list|;
    forall k: nat | k < requests - 1
      ensures !Understated(server, list, Index(server, k))
    {
      assert AsksAgain(server, k);
    }
  }

  /** With true totals, the next page is asked for exactly while the list goes on. */
  lemma NextPage(server: nat -> Response, list: seq<Item>, k: nat)
    requires Pages(server, list) && TrueTotals(server, list)
    ensures AsksAgain(server, k) <==> Index(server, k + 1) < |list|
    ensures Index(server, k) < |list| ==> Index(server, k) < Index(server, k + 1)
  {
    ReceivedIsPrefix(server, list, k);
  }

  lemma {:induction false} IndexGrows(server: nat -> Response, list: seq<Item>, k: nat)
    requires Pages(server, list) && TrueTotals(server, list) && (k > 0 ==> Index(server, k - 1) < |list|)
    ensures k <= Index(server, k)
  {
    if k > 0 {
      NextPage(server, list, k - 1);
      ReceivedIsPrefix(server, list, k - 1);
      if k > 1 {
        IndexStep(server, list, k - 2);
      }
      IndexGrows(server, list, k - 1);
    }
  }

  lemma IndexStep(server: nat -> Response, list: seq<Item>, k: nat)
    requires Pages(server, list)
    ensures Index(server, k) <= Index(server, k + 1)
  {}

  /** With true totals everything arrives, within one request for each channel and at least one. */
  lemma TrueTotalsComplete(server: nat -> Response, list: seq<Item>, requests: nat)
    requires Pages(server, list) && TrueTotals(server, list) && StopsAfter(server, requests)
    ensures Received(server, requests) == list
    ensures 1 <= requests <= if list == [] then 1 else |list|
  {
    forall k: nat | k < requests
      ensures !Understated(server, list, Index(server, k))
    {
      assert server(Index(server, k)).total == Some(|list|);
    }
    CompleteIff(server, list, requests);
    if requests > 1 {
      assert AsksAgain(server, requests - 2);
      NextPage(server, list, requests - 2);
      NextPage(server, list, requests - 1);
      IndexGrows(server, list, requests);
      ReceivedIsPrefix(server, list, requests);
    }
  }

  /** Against such a server the loop collects exactly the tuner's channels, in order, within max(1, n) requests. */
  method ReadAllChannels(server: nat -> Response, tunerId: string, ghost list: seq<Item>)
    returns (tunerChannels: seq<Item>, requests: nat)
    requires Pages(server, list) && TrueTotals(server, list)
    ensures tunerChannels == Filter(OfTuner(tunerId), list)
    ensures 1 <= requests <= if list == [] then 1 else |list|
  {
    assert forall start: nat :: server(start).total == Some(|list|);
    ghost var last := BoundedTotalsEnd(server, |list|, 0);
    tunerChannels, requests := ReadChannels(server, tunerId, last);
    TrueTotalsComplete(server, list, requests);
  }

  lemma {:induction false} FullPageIndex(server: nat -> Response, list: seq<Item>, k: nat)
    requires Pages(server, list)
    requires forall i: nat :: i < |list| ==> |PageItems(server(i))| == if |list| - i < 500 then |list| - i else 500
    ensures Index(server, k) == if 500 * k < |list| then 500 * k else |list|
  {
    if k > 0 {
      FullPageIndex(server, list, k - 1);
    }
  }

  /** Full pages of 500 take one request for each 500 channels begun. */
  lemma FullPagesRequests(server: nat -> Response, list: seq<Item>, requests: nat)
    requires Pages(server, list) && TrueTotals(server, list) && StopsAfter(server, requests)
    requires forall i: nat :: i < |list| ==> |PageItems(server(i))| == if |list| - i < 500 then |list| - i else 500
    ensures requests == if list == [] then 1 else (|list| + 499) / 500
  {
    NextPage(server, list, requests - 1);
    FullPageIndex(server, list, requests);
    FullPageIndex(server, list, requests - 1);
    if requests > 1 {
      assert AsksAgain(server, requests - 2);
      NextPage(server, list, requests - 2);
    }
  }
}
