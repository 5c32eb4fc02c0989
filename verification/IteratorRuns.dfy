/** Any number of iterators over one peer, in any interleaving. */
module IteratorRuns {
  import opened Wrappers
  import opened Iterators

  // ----- What an iteration should yield -----

  /** The later pages up to the first empty one. */
  function UpToEmpty(pages: seq<seq<Item>>): seq<Item> {
    if pages == [] || pages[0] == [] then [] else pages[0] + UpToEmpty(pages[1..])
  }

  /** The first page, then the later pages up to the first empty one. */
  function Expected(pages: seq<seq<Item>>): seq<Item> {
    if pages == [] then [] else pages[0] + UpToEmpty(pages[1..])
  }

  function Concat(pages: seq<seq<Item>>): seq<Item> {
    if pages == [] then [] else pages[0] + Concat(pages[1..])
  }

  /** No page after the first empty one has a record. */
  predicate NothingAfterEmpty(pages: seq<seq<Item>>) {
    pages == [] || if pages[0] == [] then Concat(pages) == [] else NothingAfterEmpty(pages[1..])
  }

  lemma {:induction false} FullLaterPages(pages: seq<seq<Item>>)
    ensures UpToEmpty(pages) == Concat(pages) <==> NothingAfterEmpty(pages)
  {
    if pages != [] && pages[0] != [] {
      FullLaterPages(pages[1..]);
      assert UpToEmpty(pages[1..]) == UpToEmpty(pages)[|pages[0]|..];
      assert Concat(pages[1..]) == Concat(pages)[|pages[0]|..];
    }
  }

  /** The whole result set comes out exactly when no record follows the first empty page among
      the later ones. */
  lemma FullResultExactlyWhen(pages: seq<seq<Item>>)
    requires pages != []
    ensures Expected(pages) == Concat(pages) <==> NothingAfterEmpty(pages[1..])
  {
    FullLaterPages(pages[1..]);
    assert UpToEmpty(pages[1..]) == Expected(pages)[|pages[0]|..];
    assert Concat(pages[1..]) == Concat(pages)[|pages[0]|..];
  }

  /** The first empty page among these is not the last of them, so that the iteration ends while
      the peer has announced more. */
  predicate EndsEarly(pages: seq<seq<Item>>) {
    pages != [] && if pages[0] == [] then |pages| > 1 else EndsEarly(pages[1..])
  }

  function Later(pages: seq<seq<Item>>): seq<seq<Item>> {
    if pages == [] then [] else pages[1..]
  }

  // ----- Iterators and the peer -----

  datatype Query = Query(id: string, pages: seq<seq<Item>>)

  datatype Call = Next(id: string) | CloseQuery(id: string)

  /** A page on its way was cut from the peer's remaining pages when it was asked for. A closed
      query gets no further page. */
  datatype Fetch = Idle | Arriving(page: Page) | Unanswered

  /** An iterator, what its consumer got, whether the iteration has ended, whether the consumer
      asked again after that, and whether aclose was called. */
  datatype Slot = Slot(it: It, fetch: Fetch, out: seq<Item>, stopped: bool, again: bool, aclosed: bool)

  /** All iterators, the pages that the peer still has for each query, and what was sent. */
  datatype Sys = Sys(slots: seq<Slot>, rest: map<string, seq<seq<Item>>>, log: seq<Call>)

  datatype Event = Advance(j: nat) | Deliver(j: nat) | Aclose(j: nat)

  /** Queries have a first page and different ids. */
  ghost predicate Distinct(qs: seq<Query>) {
    && (forall j | 0 <= j < |qs| :: qs[j].pages != [])
    && (forall i, j | 0 <= i < j < |qs| :: qs[i].id != qs[j].id)
  }

  function FirstSlot(q: Query): Slot
    requires q.pages != []
  {
    Slot(Init(Some(Page(q.id, q.pages[0], |q.pages| > 1))), Idle, [], false, false, false)
  }

  function Remainder(qs: seq<Query>): map<string, seq<seq<Item>>>
    requires forall j | 0 <= j < |qs| :: qs[j].pages != []
  {
    if qs == [] then map[] else Remainder(qs[..|qs| - 1])[qs[|qs| - 1].id := qs[|qs| - 1].pages[1..]]
  }

  ghost function StartSys(qs: seq<Query>): Sys
    requires Distinct(qs)
  {
    Sys(seq(|qs|, j requires 0 <= j < |qs| => FirstSlot(qs[j])), Remainder(qs), [])
  }

  /** Slot j is replaced; a close message, if one is sent, makes the peer forget the query. */
  function Put(s: Sys, j: nat, slot: Slot, sent: Option<string>): Sys
    requires j < |s.slots|
  {
    var s' := s.(slots := s.slots[j := slot]);
    if sent.None? then s' else s'.(rest := s.rest[sent.value := []], log := s.log + [CloseQuery(sent.value)])
  }

  /** The consumer sees how a segment of __anext__ ended. */
  function Settle(s: Sys, j: nat, slot: Slot, it: It, a: Action): Sys
    requires j < |s.slots| && !a.FetchNext?
  {
    match a
    case Yield(x) => Put(s, j, slot.(it := it, fetch := Idle, out := slot.out + [x]), None)
    case Stop(sent) => Put(s, j, slot.(it := it, fetch := Idle, stopped := true), sent)
  }

  function AskPeer(s: Sys, j: nat, slot: Slot, id: string): Sys
    requires j < |s.slots|
  {
    var s' := s.(log := s.log + [Next(id)]);
    if id in s.rest && s.rest[id] != [] then
      var page := Page(id, s.rest[id][0], |s.rest[id]| > 1);
      s'.(slots := s.slots[j := slot.(fetch := Arriving(page))], rest := s.rest[id := s.rest[id][1..]])
    else s'.(slots := s.slots[j := slot.(fetch := Unanswered)])
  }

  /** One segment; an event that cannot happen changes nothing. Calls of __anext__ on one
      iterator do not overlap. */
  function Step(s: Sys, e: Event): Sys {
    if e.j >= |s.slots| then s
    else
      var slot := s.slots[e.j];
      match e
      case Advance(j) =>
        if !slot.fetch.Idle? then s
        else
          var (it, a) := AnextStart(slot.it);
          var slot1 := slot.(again := slot.again || slot.stopped);
          if a.FetchNext? then AskPeer(s, j, slot1, a.id) else Settle(s, j, slot1, it, a)
      case Deliver(j) =>
        if !slot.fetch.Arriving? then s
        else
          var (it, a) := AnextResume(slot.it, slot.fetch.page);
          Settle(s, j, slot, it, a)
      case Aclose(j) =>
        var (it, sent) := Close(slot.it);
        Put(s, j, slot.(it := it, aclosed := true), sent)
  }

  function Run(s: Sys, es: seq<Event>): Sys {
    if es == [] then s else Step(Run(s, es[..|es| - 1]), es[|es| - 1])
  }

  // ----- The invariant of one iterator -----

  /** What the consumer would still get. */
  function Remaining(slot: Slot, rest: seq<seq<Item>>): seq<Item> {
    match slot.fetch
    case Idle => slot.it.buffer + (if slot.it.hasMore then UpToEmpty(rest) else [])
    case Arriving(p) => if p.results == [] then [] else p.results + (if p.hasMore then UpToEmpty(rest) else [])
    case Unanswered => []
  }

  predicate More(slot: Slot) {
    if slot.fetch.Arriving? then slot.fetch.page.hasMore else slot.it.hasMore
  }

  /** The iteration will end early, or has done so. */
  predicate EarlyEnd(slot: Slot, rest: seq<seq<Item>>) {
    if slot.stopped then slot.it.hasMore
    else if slot.fetch.Arriving? && slot.fetch.page.results == [] then slot.fetch.page.hasMore
    else EndsEarly(rest)
  }

  ghost predicate AtMostOnce(log: seq<Call>, c: Call) {
    forall a, b | 0 <= a < b < |log| :: !(log[a] == c && log[b] == c)
  }

  ghost predicate NeverAfter(log: seq<Call>, c: Call, d: Call) {
    forall a, b | 0 <= a < b < |log| :: log[a] == c ==> log[b] != d
  }

  ghost predicate Yields(slot: Slot, rest: seq<seq<Item>>, q: Query) {
    && slot.out + Remaining(slot, rest) <= Expected(q.pages)
    && (!slot.aclosed ==> slot.out + Remaining(slot, rest) == Expected(q.pages))
    && (slot.stopped && !slot.aclosed ==> Remaining(slot, rest) == [])
    && (!slot.aclosed ==> (EarlyEnd(slot, rest) <==> EndsEarly(Later(q.pages))))
  }

  ghost predicate Consistent(slot: Slot, rest: seq<seq<Item>>, q: Query) {
    && slot.it.id == Some(q.id)
    && (!slot.fetch.Idle? ==> slot.it.buffer == [] && slot.it.hasMore)
    && (slot.fetch.Arriving? ==> slot.fetch.page.id == q.id)
    && (if slot.it.closed then rest == [] else !slot.fetch.Unanswered? && (More(slot) <==> rest != []))
    && (slot.stopped || slot.aclosed <==> slot.it.closed)
    && (slot.again ==> slot.stopped)
    && (slot.stopped && !slot.aclosed ==>
          !slot.fetch.Arriving? && (slot.fetch.Unanswered? <==> slot.again && slot.it.hasMore))
  }

  ghost predicate Closes(slot: Slot, log: seq<Call>, q: Query) {
    && AtMostOnce(log, CloseQuery(q.id))
    && (CloseQuery(q.id) in log <==> slot.it.closed)
    && (!slot.aclosed ==> (NeverAfter(log, CloseQuery(q.id), Next(q.id)) <==> !(slot.again && slot.it.hasMore)))
  }

  ghost predicate SlotInv(s: Sys, j: nat, q: Query)
    requires j < |s.slots|
  {
    && q.id in s.rest
    && Consistent(s.slots[j], s.rest[q.id], q)
    && Yields(s.slots[j], s.rest[q.id], q)
    && Closes(s.slots[j], s.log, q)
  }

  lemma AppendCall(log: seq<Call>, c: Call, id: string)
    ensures CloseQuery(id) in log + [c] <==> CloseQuery(id) in log || c == CloseQuery(id)
    ensures AtMostOnce(log + [c], CloseQuery(id)) <==>
            AtMostOnce(log, CloseQuery(id)) && !(c == CloseQuery(id) && c in log)
    ensures NeverAfter(log + [c], CloseQuery(id), Next(id)) <==>
            NeverAfter(log, CloseQuery(id), Next(id)) && !(c == Next(id) && CloseQuery(id) in log)
  {
    var log' := log + [c];
    assert log'[|log|] == c;
    assert forall i | 0 <= i < |log| :: log'[i] == log[i];
  }

  lemma PutCloses(s: Sys, j: nat, slot: Slot, sent: Option<string>, q: Query)
    requires j < |s.slots| && Closes(s.slots[j], s.log, q)
    requires sent == (if s.slots[j].it.closed then None else if slot.it.closed then Some(q.id) else None)
    requires s.slots[j].it.closed ==> slot.it.closed
    requires s.slots[j].aclosed ==> slot.aclosed
    requires !slot.aclosed ==> (slot.again && slot.it.hasMore <==> s.slots[j].again && s.slots[j].it.hasMore)
    ensures Closes(slot, Put(s, j, slot, sent).log, q)
  {
    AppendCall(s.log, CloseQuery(q.id), q.id);
  }

  /** The end of a segment of __anext__ that started from this slot. */
  ghost predicate SegmentEnds(slot: Slot, it: It, a: Action) {
    || (slot.fetch.Idle? && (it, a) == AnextStart(slot.it) && !a.FetchNext?)
    || (slot.fetch.Arriving? && (it, a) == AnextResume(slot.it, slot.fetch.page))
  }

  lemma YieldKeepsOwn(slot: Slot, rest: seq<seq<Item>>, it: It, x: Item, q: Query)
    requires Consistent(slot, rest, q) && Yields(slot, rest, q) && SegmentEnds(slot, it, Yield(x))
    ensures var slot' := slot.(it := it, fetch := Idle, out := slot.out + [x]);
            Consistent(slot', rest, q) && Yields(slot', rest, q) && it.closed == slot.it.closed
  {
    var slot' := slot.(it := it, fetch := Idle, out := slot.out + [x]);
    var before := if slot.fetch.Idle? then slot.it.buffer else slot.fetch.page.results;
    var later := if it.hasMore then UpToEmpty(rest) else [];
    assert before == [x] + it.buffer by {
      assert slot.it.buffer + before == before || slot.fetch.Idle?;
    }
    assert Remaining(slot, rest) == before + later;
    MoveItem(slot.out, x, it.buffer, later);
  }

  lemma MoveItem(out: seq<Item>, x: Item, buffer: seq<Item>, later: seq<Item>)
    ensures (out + [x]) + (buffer + later) == out + (([x] + buffer) + later)
  {
  }

  lemma StopKeepsOwn(slot: Slot, rest: seq<seq<Item>>, it: It, sent: Option<string>, q: Query)
    requires Consistent(slot, rest, q) && Yields(slot, rest, q) && SegmentEnds(slot, it, Stop(sent))
    ensures var slot' := slot.(it := it, fetch := Idle, stopped := true);
            Consistent(slot', [], q) && Yields(slot', [], q)
    ensures sent == if slot.it.closed then None else Some(q.id)
  {
    assert Remaining(slot, rest) == [];
    assert Remaining(slot.(it := it, fetch := Idle, stopped := true), []) == [];
  }

  lemma SettleKeepsOwn(s: Sys, j: nat, slot: Slot, it: It, a: Action, q: Query)
    requires j < |s.slots| && SlotInv(s, j, q)
    requires slot == s.slots[j] || slot == s.slots[j].(again := s.slots[j].again || s.slots[j].stopped)
    requires SegmentEnds(slot, it, a)
    ensures SlotInv(Settle(s, j, slot, it, a), j, q)
  {
    var rest := s.rest[q.id];
    match a
    case Yield(x) =>
      YieldKeepsOwn(slot, rest, it, x, q);
      PutCloses(s, j, slot.(it := it, fetch := Idle, out := slot.out + [x]), None, q);
    case Stop(sent) =>
      StopKeepsOwn(slot, rest, it, sent, q);
      PutCloses(s, j, slot.(it := it, fetch := Idle, stopped := true), sent, q);
  }

  lemma AskKeepsOwn(s: Sys, j: nat, slot: Slot, q: Query)
    requires j < |s.slots| && SlotInv(s, j, q)
    requires slot == s.slots[j].(again := s.slots[j].again || s.slots[j].stopped)
    requires slot.fetch.Idle? && AnextStart(slot.it).1 == FetchNext(q.id)
    ensures SlotInv(AskPeer(s, j, slot, q.id), j, q)
  {
    var s' := AskPeer(s, j, slot, q.id);
    var rest := s.rest[q.id];
    if rest != [] {
      assert UpToEmpty([]) == [] && slot.it.buffer + UpToEmpty(rest) == UpToEmpty(rest);
      assert |rest| == 1 ==> rest[1..] == [];
      assert Remaining(s'.slots[j], s'.rest[q.id]) == Remaining(s.slots[j], rest);
    }
    AppendCall(s.log, Next(q.id), q.id);
  }

  lemma AcloseKeepsOwn(s: Sys, j: nat, q: Query)
    requires j < |s.slots| && SlotInv(s, j, q)
    ensures SlotInv(Step(s, Aclose(j)), j, q)
  {
    var slot := s.slots[j];
    var (it, sent) := Close(slot.it);
    var slot' := slot.(it := it, aclosed := true);
    PutCloses(s, j, slot', sent, q);
    var rest' := if sent.Some? then [] else s.rest[q.id];
    assert Remaining(slot', rest') <= Remaining(slot, s.rest[q.id]);
  }

  lemma StepKeepsOwn(s: Sys, e: Event, q: Query)
    requires e.j < |s.slots| && SlotInv(s, e.j, q)
    ensures SlotInv(Step(s, e), e.j, q)
  {
    var slot := s.slots[e.j];
    match e
    case Advance(j) =>
      if slot.fetch.Idle? {
        var (it, a) := AnextStart(slot.it);
        var slot1 := slot.(again := slot.again || slot.stopped);
        if a.FetchNext? {
          AskKeepsOwn(s, j, slot1, q);
        } else {
          SettleKeepsOwn(s, j, slot1, it, a, q);
        }
      }
    case Deliver(j) =>
      if slot.fetch.Arriving? {
        var (it, a) := AnextResume(slot.it, slot.fetch.page);
        SettleKeepsOwn(s, j, slot, it, a, q);
      }
    case Aclose(j) => AcloseKeepsOwn(s, j, q);
  }

  /** Only slot j and query id changed, by at most one message about that query. */
  ghost predicate OnlyTouches(s: Sys, s': Sys, j: nat, id: string) {
    && |s'.slots| == |s.slots| && (forall i | 0 <= i < |s.slots| && i != j :: s'.slots[i] == s.slots[i])
    && s'.rest.Keys == s.rest.Keys && (forall k | k in s.rest && k != id :: s'.rest[k] == s.rest[k])
    && (s'.log == s.log || s'.log == s.log + [Next(id)] || s'.log == s.log + [CloseQuery(id)])
  }

  lemma PutFrame(s: Sys, j: nat, slot: Slot, sent: Option<string>, id: string)
    requires j < |s.slots| && id in s.rest && (sent == None || sent == Some(id))
    ensures OnlyTouches(s, Put(s, j, slot, sent), j, id)
  {
  }

  lemma SettleFrame(s: Sys, j: nat, slot: Slot, it: It, a: Action, id: string)
    requires j < |s.slots| && id in s.rest && !a.FetchNext?
    requires a.Stop? ==> a.sentClose == None || a.sentClose == Some(id)
    ensures OnlyTouches(s, Settle(s, j, slot, it, a), j, id)
  {
    match a
    case Yield(x) => PutFrame(s, j, slot.(it := it, fetch := Idle, out := slot.out + [x]), None, id);
    case Stop(sent) => PutFrame(s, j, slot.(it := it, fetch := Idle, stopped := true), sent, id);
  }

  lemma AskFrame(s: Sys, j: nat, slot: Slot, id: string)
    requires j < |s.slots| && id in s.rest
    ensures OnlyTouches(s, AskPeer(s, j, slot, id), j, id)
  {
  }

  lemma StepFrame(s: Sys, e: Event, q: Query)
    requires e.j < |s.slots| && SlotInv(s, e.j, q)
    ensures OnlyTouches(s, Step(s, e), e.j, q.id)
  {
    var slot := s.slots[e.j];
    match e
    case Advance(j) =>
      if slot.fetch.Idle? {
        var (it, a) := AnextStart(slot.it);
        var slot1 := slot.(again := slot.again || slot.stopped);
        if a.FetchNext? {
          AskFrame(s, j, slot1, q.id);
        } else {
          SettleFrame(s, j, slot1, it, a, q.id);
        }
      }
    case Deliver(j) =>
      if slot.fetch.Arriving? {
        var (it, a) := AnextResume(slot.it, slot.fetch.page);
        SettleFrame(s, j, slot, it, a, q.id);
      }
    case Aclose(j) =>
      var (it, sent) := Close(slot.it);
      PutFrame(s, j, slot.(it := it, aclosed := true), sent, q.id);
  }

  lemma ForeignCall(slot: Slot, log: seq<Call>, c: Call, q: Query)
    requires Closes(slot, log, q) && c.id != q.id
    ensures Closes(slot, log + [c], q)
  {
    AppendCall(log, c, q.id);
  }

  lemma StepKeepsOther(s: Sys, e: Event, q: Query, j: nat, q': Query)
    requires e.j < |s.slots| && SlotInv(s, e.j, q)
    requires j < |s.slots| && SlotInv(s, j, q') && j != e.j && q.id != q'.id
    ensures |Step(s, e).slots| == |s.slots| && SlotInv(Step(s, e), j, q')
  {
    StepFrame(s, e, q);
    ForeignCall(s.slots[j], s.log, Next(q.id), q');
    ForeignCall(s.slots[j], s.log, CloseQuery(q.id), q');
  }

  // ----- Whole runs -----

  lemma {:induction false} RemainderOf(qs: seq<Query>, j: nat)
    requires Distinct(qs) && j < |qs|
    ensures qs[j].id in Remainder(qs) && Remainder(qs)[qs[j].id] == qs[j].pages[1..]
  {
    if j < |qs| - 1 {
      RemainderOf(qs[..|qs| - 1], j);
    }
  }

  lemma StartInv(qs: seq<Query>, j: nat)
    requires Distinct(qs) && j < |qs|
    ensures SlotInv(StartSys(qs), j, qs[j])
  {
    RemainderOf(qs, j);
    var pages := qs[j].pages;
    assert |pages| == 1 ==> UpToEmpty(pages[1..]) == [];
    var none: seq<Item> := [];
    assert none + pages[0] == pages[0];
  }

  ghost predicate AllInv(qs: seq<Query>, s: Sys) {
    |s.slots| == |qs| && forall j | 0 <= j < |qs| :: SlotInv(s, j, qs[j])
  }

  lemma StepKeepsAll(qs: seq<Query>, s: Sys, e: Event)
    requires Distinct(qs) && AllInv(qs, s)
    ensures AllInv(qs, Step(s, e))
  {
    if e.j >= |qs| {
      assert Step(s, e) == s;
    } else {
      StepFrame(s, e, qs[e.j]);
      forall j | 0 <= j < |qs| ensures SlotInv(Step(s, e), j, qs[j]) {
        if j == e.j {
          StepKeepsOwn(s, e, qs[j]);
        } else {
          StepKeepsOther(s, e, qs[e.j], j, qs[j]);
        }
      }
    }
  }

  lemma {:induction false} RunKeepsAll(qs: seq<Query>, s: Sys, es: seq<Event>)
    requires Distinct(qs) && AllInv(qs, s)
    ensures AllInv(qs, Run(s, es))
  {
    if es == [] {
    } else {
      RunKeepsAll(qs, s, es[..|es| - 1]);
      StepKeepsAll(qs, Run(s, es[..|es| - 1]), es[|es| - 1]);
    }
  }

  lemma RunInv(qs: seq<Query>, es: seq<Event>)
    requires Distinct(qs)
    ensures AllInv(qs, Run(StartSys(qs), es))
  {
    forall j | 0 <= j < |qs| ensures SlotInv(StartSys(qs), j, qs[j]) {
      StartInv(qs, j);
    }
    RunKeepsAll(qs, StartSys(qs), es);
  }

  /** However the iterators, their pages and their closing are interleaved, each consumer gets
      its own records in order, none twice; when its iteration ends without an explicit aclose
      it has had the first page and the later pages up to the first empty one, all of them. */
  lemma IteratorEqualsItsPages(qs: seq<Query>, es: seq<Event>, j: nat)
    requires Distinct(qs) && j < |qs|
    ensures var s := Run(StartSys(qs), es);
            && |s.slots| == |qs|
            && s.slots[j].out <= Expected(qs[j].pages)
            && (s.slots[j].stopped && !s.slots[j].aclosed ==> s.slots[j].out == Expected(qs[j].pages))
  {
    RunInv(qs, es);
    var s := Run(StartSys(qs), es);
    assert SlotInv(s, j, qs[j]);
  }

  /** A query is closed at most once whatever the consumer calls, and it has been closed as soon
      as its iteration ended or aclose was called. Without aclose, a page of the closed query is
      asked for exactly when the consumer goes on after an iteration that ended early. */
  lemma CloseDiscipline(qs: seq<Query>, es: seq<Event>, j: nat)
    requires Distinct(qs) && j < |qs|
    ensures var s := Run(StartSys(qs), es);
            && |s.slots| == |qs|
            && AtMostOnce(s.log, CloseQuery(qs[j].id))
            && (CloseQuery(qs[j].id) in s.log <==> s.slots[j].stopped || s.slots[j].aclosed)
            && (!s.slots[j].aclosed ==>
                  (NeverAfter(s.log, CloseQuery(qs[j].id), Next(qs[j].id)) <==>
                   !(s.slots[j].again && EndsEarly(Later(qs[j].pages)))))
  {
    RunInv(qs, es);
    var s := Run(StartSys(qs), es);
    assert SlotInv(s, j, qs[j]);
  }

  /** The close latch does not stop __anext__: the first call after the end of an iteration asks
      for a page of the closed query exactly when the iteration ended early. */
  lemma AskingAgainAfterTheEnd(qs: seq<Query>, es: seq<Event>, j: nat)
    requires Distinct(qs) && j < |qs|
    ensures var s := Run(StartSys(qs), es);
            && |s.slots| == |qs|
            && (s.slots[j].stopped && !s.slots[j].aclosed && !s.slots[j].again ==>
                  Step(s, Advance(j)).log == if EndsEarly(Later(qs[j].pages)) then s.log + [Next(qs[j].id)] else s.log)
  {
    RunInv(qs, es);
    var s := Run(StartSys(qs), es);
    assert SlotInv(s, j, qs[j]);
  }

  /** An iterator without a first response never yields a record nor sends a message. */
  lemma WithoutQueryNothing()
    ensures var it := Init(None);
            && AnextStart(it).1 == Stop(None) && Close(it).1 == None
            && AnextStart(AnextStart(it).0) == AnextStart(it) && AnextStart(Close(it).0) == AnextStart(it)
            && Close(AnextStart(it).0).1 == None
  {
  }

  // ----- A closed query, however it came to be closed -----

  /** The calls of __anext__ that begin in a run. */
  function Asks(s: Sys, es: seq<Event>, j: nat): nat {
    if es == [] then 0
    else
      var n := |es| - 1;
      Asks(s, es[..n], j) + (if Begins(Run(s, es[..n]), es[n], j) then 1 else 0)
  }

  predicate Begins(s: Sys, e: Event, j: nat) {
    e == Advance(j) && j < |s.slots| && s.slots[j].fetch.Idle?
  }

  /** The calls of __anext__ that can still begin before a page has to be asked for. */
  function Held(slot: Slot): nat {
    match slot.fetch
    case Idle => |slot.it.buffer|
    case Arriving(p) => if p.results == [] then 0 else |p.results| - 1
    case Unanswered => 0
  }

  /** State s after n calls that began since the query was closed, when its slot was first. */
  ghost predicate Since(first: Slot, before: nat, s: Sys, j: nat, n: nat, id: string)
    requires j < |s.slots|
  {
    var slot := s.slots[j];
    && before <= |s.log| && slot.it.closed
    && (if n > Held(first) && More(first)
        then n == Held(first) + 1 && slot.fetch.Unanswered? && Next(id) in s.log[before..]
        else && Next(id) !in s.log[before..] && (More(slot) <==> More(first))
             && Held(slot) == if n <= Held(first) then Held(first) - n else 0)
  }

  lemma AppendSince(log: seq<Call>, before: nat, c: Call, d: Call)
    requires before <= |log|
    ensures d in (log + [c])[before..] <==> d in log[before..] || d == c
  {
    assert (log + [c])[before..] == log[before..] + [c];
  }

  lemma OwnStepSince(first: Slot, before: nat, s: Sys, j: nat, n: nat, q: Query, e: Event)
    requires j < |s.slots| && SlotInv(s, j, q) && e.j == j && Since(first, before, s, j, n, q.id)
    ensures |Step(s, e).slots| == |s.slots|
    ensures Since(first, before, Step(s, e), j, if Begins(s, e, j) then n + 1 else n, q.id)
  {
    AppendSince(s.log, before, Next(q.id), Next(q.id));
  }

  lemma OtherStepSince(first: Slot, before: nat, s: Sys, j: nat, n: nat, q: Query, e: Event, q': Query)
    requires j < |s.slots| && e.j < |s.slots| && e.j != j && q.id != q'.id && SlotInv(s, e.j, q')
    requires Since(first, before, s, j, n, q.id)
    ensures |Step(s, e).slots| == |s.slots| && Since(first, before, Step(s, e), j, n, q.id)
  {
    StepFrame(s, e, q');
    AppendSince(s.log, before, Next(q'.id), Next(q.id));
    AppendSince(s.log, before, CloseQuery(q'.id), Next(q.id));
  }

  lemma {:induction false} RunAppend(s: Sys, a: seq<Event>, b: seq<Event>)
    ensures Run(s, a + b) == Run(Run(s, a), b)
  {
    if b == [] {
      assert a + b == a;
    } else {
      var n := |b| - 1;
      assert (a + b)[..|a + b| - 1] == a + b[..n];
      RunAppend(s, a, b[..n]);
    }
  }

  lemma StepSince(qs: seq<Query>, first: Slot, before: nat, s: Sys, j: nat, n: nat, e: Event)
    requires Distinct(qs) && AllInv(qs, s) && j < |qs| && Since(first, before, s, j, n, qs[j].id)
    ensures |Step(s, e).slots| == |qs|
    ensures Since(first, before, Step(s, e), j, if Begins(s, e, j) then n + 1 else n, qs[j].id)
  {
    if e.j >= |qs| {
      assert Step(s, e) == s;
    } else if e.j == j {
      OwnStepSince(first, before, s, j, n, qs[j], e);
    } else {
      OtherStepSince(first, before, s, j, n, qs[j], e, qs[e.j]);
    }
  }

  lemma {:induction false} RunSince(qs: seq<Query>, c: Sys, later: seq<Event>, j: nat)
    requires Distinct(qs) && AllInv(qs, c) && j < |qs| && c.slots[j].it.closed
    ensures j < |Run(c, later).slots| && Since(c.slots[j], |c.log|, Run(c, later), j, Asks(c, later, j), qs[j].id)
  {
    if later == [] {
      assert SlotInv(c, j, qs[j]);
    } else {
      var before := later[..|later| - 1];
      RunSince(qs, c, before, j);
      RunKeepsAll(qs, c, before);
      StepSince(qs, c.slots[j], |c.log|, Run(c, before), j, Asks(c, before, j), later[|later| - 1]);
    }
  }

  /** From any point at which a query is closed, by its iteration or by aclose: a page of it is
      asked for later on if and only if the consumer calls __anext__ more often than it holds
      records, and the last page it has or awaits announced more. */
  lemma PageAskedAfterCloseExactlyWhen(qs: seq<Query>, es: seq<Event>, later: seq<Event>, j: nat)
    requires Distinct(qs) && j < |qs|
    requires var c := Run(StartSys(qs), es); j < |c.slots| && c.slots[j].it.closed
    ensures var c := Run(StartSys(qs), es);
            var s := Run(StartSys(qs), es + later);
            && |c.log| <= |s.log|
            && (Next(qs[j].id) in s.log[|c.log|..] <==> Asks(c, later, j) > Held(c.slots[j]) && More(c.slots[j]))
  {
    RunInv(qs, es);
    RunAppend(StartSys(qs), es, later);
    RunSince(qs, Run(StartSys(qs), es), later, j);
  }

  // ----- One consumer that runs to the end -----

  /** What an async for loop over one iterator gets, the pages it asks for and the close
      messages it sends, with a peer that has these pages left. */
  function Drive(it: It, rest: seq<seq<Item>>): (r: (seq<Item>, nat, nat))
    requires it.id.Some? && (it.hasMore <==> rest != [])
    decreases |rest|, |it.buffer|
  {
    var (it', a) := AnextStart(it);
    match a
    case Yield(x) =>
      var (out, nexts, closes) := Drive(it', rest);
      ([x] + out, nexts, closes)
    case Stop(sent) => ([], 0, if sent.Some? then 1 else 0)
    case FetchNext(id) =>
      var (it2, a2) := AnextResume(it', Page(id, rest[0], |rest| > 1));
      if a2.Yield? then
        var (out, nexts, closes) := Drive(it2, rest[1..]);
        ([a2.item] + out, nexts + 1, closes)
      else ([], 1, if a2.sentClose.Some? then 1 else 0)
  }

  /** Over finitely many pages the loop ends, with every record up to the first empty later
      page, one request for each page but the first, and exactly one close message. */
  lemma {:induction false} LoopEndsWithOneClose(it: It, rest: seq<seq<Item>>)
    requires it.id.Some? && !it.closed && (it.hasMore <==> rest != [])
    ensures var (out, nexts, closes) := Drive(it, rest);
            && out == it.buffer + UpToEmpty(rest)
            && nexts == PagesRead(rest)
            && closes == 1
    decreases |rest|, |it.buffer|
  {
    if it.buffer != [] {
      LoopEndsWithOneClose(it.(buffer := it.buffer[1..]), rest);
      HeadFirst(it.buffer, UpToEmpty(rest));
    } else if rest != [] {
      assert it.buffer + rest[0] == rest[0];
      if rest[0] != [] {
        var it2 := AnextResume(it, Page(it.id.value, rest[0], |rest| > 1)).0;
        LoopEndsWithOneClose(it2, rest[1..]);
        HeadFirst(rest[0], UpToEmpty(rest[1..]));
      }
    }
  }

  lemma HeadFirst(items: seq<Item>, later: seq<Item>)
    requires items != []
    ensures [items[0]] + (items[1..] + later) == items + later
  {
  }

  /** The later pages that are read: up to and including the first empty one. */
  function PagesRead(rest: seq<seq<Item>>): nat {
    if rest == [] then 0 else if rest[0] == [] then 1 else 1 + PagesRead(rest[1..])
  }
}
