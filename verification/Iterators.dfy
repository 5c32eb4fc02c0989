/** The paged query iterators of fabric_shim/iterators.py. */
module Iterators {
  import opened Wrappers

  /** A parsed record. */
  type Item = string

  /** A QueryResponse. */
  datatype Page = Page(id: string, results: seq<Item>, hasMore: bool)

  /** The fields of an iterator. */
  datatype It = It(buffer: seq<Item>, id: Option<string>, hasMore: bool, closed: bool)

  /** How a segment of __anext__ ends: with an item, with the end of the iteration (after a
      QueryStateClose with this id, if any), or waiting for the next page. */
  datatype Action = Yield(item: Item) | Stop(sentClose: Option<string>) | FetchNext(id: string)

  function Consume(it: It, page: Page): It {
    it.(buffer := it.buffer + page.results, id := Some(page.id), hasMore := page.hasMore)
  }

  /** The iterator for a first response, or for none. */
  function Init(first: Option<Page>): It {
    var it := It([], None, false, false);
    if first.None? then it else Consume(it, first.value)
  }

  /** _close: the id of the close message it sends. The latch is set before the send suspends. */
  function Close(it: It): (It, Option<string>) {
    (it.(closed := true), if it.closed then None else it.id)
  }

  function StopAfterClose(it: It): (It, Action) {
    var (it', sent) := Close(it);
    (it', Stop(sent))
  }

  function Pop(it: It): (It, Action)
    requires it.buffer != []
  {
    (it.(buffer := it.buffer[1..]), Yield(it.buffer[0]))
  }

  /** __anext__ up to its first suspension. */
  function AnextStart(it: It): (It, Action) {
    if it.buffer != [] then Pop(it)
    else if !it.hasMore || it.id.None? then StopAfterClose(it)
    else (it, FetchNext(it.id.value))
  }

  /** __anext__ once the next page is there. */
  function AnextResume(it: It, page: Page): (It, Action) {
    var it' := Consume(it, page);
    if it'.buffer != [] then Pop(it') else StopAfterClose(it')
  }

  class QueryIterator {
    var buffer: seq<Item>
    var id: Option<string>
    var hasMore: bool
    var closed: bool

    ghost function View(): It
      reads this
    {
      It(buffer, id, hasMore, closed)
    }

    constructor (first: Option<Page>)
      ensures View() == Init(first)
      ensures !closed
      ensures first.None? ==> buffer == [] && id.None? && !hasMore
      ensures first.Some? ==> buffer == first.value.results
      ensures first.Some? ==> id == Some(first.value.id) && hasMore == first.value.hasMore
    {
      buffer, id, hasMore, closed := [], None, false, false;
      new;
      if first.Some? {
        ConsumePage(first.value);
      }
    }

    method ConsumePage(page: Page)
      modifies this
      ensures View() == Consume(old(View()), page)
      ensures buffer == old(buffer) + page.results
      ensures id == Some(page.id) && hasMore == page.hasMore && closed == old(closed)
    {
      id := Some(page.id);
      ghost var before := buffer;
      for i := 0 to |page.results|
        invariant buffer == before + page.results[..i]
        invariant id == Some(page.id) && hasMore == old(hasMore) && closed == old(closed)
      {
        buffer := buffer + [page.results[i]];
      }
      hasMore := page.hasMore;
    }

    method SendClose() returns (sent: Option<string>)
      modifies this
      ensures (View(), sent) == Close(old(View()))
      ensures closed && buffer == old(buffer) && id == old(id) && hasMore == old(hasMore)
      ensures sent == if old(closed) then None else old(id)
    {
      if closed || id.None? {
        closed := true;
        return None;
      }
      closed := true;
      return id;
    }

    method PopItem() returns (a: Action)
      requires buffer != []
      modifies this
      ensures (View(), a) == Pop(old(View()))
      ensures a.Yield? && [a.item] + buffer == old(buffer)
      ensures id == old(id) && hasMore == old(hasMore) && closed == old(closed)
    {
      a := Yield(buffer[0]);
      buffer := buffer[1..];
    }

    method Anext() returns (a: Action)
      modifies this
      ensures (View(), a) == AnextStart(old(View()))
    {
      if buffer != [] {
        a := PopItem();
      } else if !hasMore || id.None? {
        var sent := SendClose();
        a := Stop(sent);
      } else {
        a := FetchNext(id.value);
      }
    }

    method PageArrived(page: Page) returns (a: Action)
      modifies this
      ensures (View(), a) == AnextResume(old(View()), page)
    {
      ConsumePage(page);
      if buffer != [] {
        a := PopItem();
      } else {
        var sent := SendClose();
        a := Stop(sent);
      }
    }
  }
}
