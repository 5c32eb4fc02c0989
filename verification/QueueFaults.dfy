/** Where the queue stops serving a key, and which transactions share a queue. */
module QueueFaults {
  import opened MsgQueue
  import opened QueueRuns

  lemma {:induction false} ExecAppend(peer: Peer, w: World, a: seq<Event>, b: seq<Event>)
    requires Wf(w.q)
    ensures Exec(peer, w, a + b) == Exec(peer, Exec(peer, w, a), b)
  {
    if b == [] {
      assert a + b == a;
    } else {
      var n := |b| - 1;
      assert (a + b)[..|a + b| - 1] == a + b[..n];
      ExecAppend(peer, w, a, b[..n]);
    }
  }

  // ----- A done future at the head blocks its queue -----

  /** Request i is queued although its future is done. */
  ghost predicate DoneInQueue(w: World, i: nat)
    requires Wf(w.q) && Numbered(w)
  {
    i < |w.asked| && Queued(w, i) && !w.q.futures[i].Pending?
  }

  lemma AskKeepsDone(peer: Peer, w: World, req: Request, i: nat)
    requires Wf(w.q) && Numbered(w) && DoneInQueue(w, i)
    ensures var w' := Next(peer, w, Ask(req));
            i < |w'.asked| && w'.asked[i] == w.asked[i] && Queued(w', i) && w'.q.futures[i] == w.q.futures[i]
  {
    AskQueues(peer, w, req);
    QueuingEnqueues(w, Next(peer, w, Ask(req)), Msg(req, |w.q.futures|));
  }

  lemma AnswerKeepsDone(peer: Peer, w: World, j: nat, i: nat)
    requires Wf(w.q) && Numbered(w) && Fifo(w) && DoneInQueue(w, i) && Enabled(w, PeerAnswers(j)) && IsHead(w, j)
    ensures var w' := Next(peer, w, PeerAnswers(j));
            i < |w'.asked| && w'.asked[i] == w.asked[i] && Queued(w', i) && w'.q.futures[i] == w.q.futures[i]
  {
    if w.q.futures[w.q.wire[j].fut].Pending? {
      AnswerPops(peer, w, j);
      PoppedDequeues(w, Next(peer, w, PeerAnswers(j)), j, Answer(peer, w.q.wire[..j + 1]));
    } else {
      AnswerIgnored(peer, w, j);
    }
  }

  lemma DoneStaysQueuedStep(peer: Peer, w: World, e: Event, i: nat)
    requires Inv(peer, w) && DoneInQueue(w, i)
    ensures var w' := Next(peer, w, e);
            && Inv(peer, w') && i < |w'.asked| && w'.asked[i] == w.asked[i]
            && Queued(w', i) && w'.q.futures[i] == w.q.futures[i]
  {
    StepKeepsInv(peer, w, e);
    match e
    case Ask(req) => AskKeepsDone(peer, w, req, i);
    case PeerAnswers(j) =>
      if Enabled(w, e) {
        AnswerKeepsDone(peer, w, j, i);
      }
    case _ =>
  }

  /** A request whose future was failed or cancelled while queued never leaves its queue. */
  lemma {:induction false} DoneStaysQueued(peer: Peer, w: World, es: seq<Event>, i: nat)
    requires Inv(peer, w)
    requires i < |w.asked| && Queued(w, i) && !w.q.futures[i].Pending?
    ensures var w' := Exec(peer, w, es);
            && Inv(peer, w') && i < |w'.asked| && w'.asked[i] == w.asked[i]
            && Queued(w', i) && w'.q.futures[i] == w.q.futures[i]
  {
    if es == [] {
    } else {
      DoneStaysQueued(peer, w, es[..|es| - 1], i);
      DoneStaysQueuedStep(peer, Exec(peer, w, es[..|es| - 1]), es[|es| - 1], i);
    }
  }

  ghost predicate AllPending(w: World, k: string)
    requires Wf(w.q)
  {
    forall x | 0 <= x < |QueueOf(w.q.queues, k)| :: w.q.futures[w.q.queues[k][x].fut].Pending?
  }

  /** The answer to the head of k, which the peer owes. */
  lemma HeadAnswer(peer: Peer, w: World, k: string) returns (j: nat)
    requires Inv(peer, w) && k in w.q.queues && AllPending(w, k)
    ensures Enabled(w, PeerAnswers(j)) && IsHead(w, j) && KeyOf(w.q.wire[j]) == k
  {
    assert Ordered(w, k) && HeadInFlight(w, k);
    j :| InFlightAt(w, k, j);
    assert IsHead(w, j);
  }

  lemma HeadAnswerPops(peer: Peer, w: World, k: string, j: nat)
    requires Wf(w.q) && Increasing(QueueOf(w.q.queues, k)) && AllPending(w, k)
    requires Enabled(w, PeerAnswers(j)) && IsHead(w, j) && KeyOf(w.q.wire[j]) == k
    ensures var w' := Next(peer, w, PeerAnswers(j));
            QueueOf(w'.q.queues, k) == w.q.queues[k][1..] && AllPending(w', k)
  {
    var w' := Next(peer, w, PeerAnswers(j));
    var q := w.q.queues[k];
    AnswerPops(peer, w, j);
    assert QueueOf(w'.q.queues, k) == q[1..];
  }

  /** Answers alone empty a queue whose requests are all still waited for. */
  lemma {:induction false} DrainKey(peer: Peer, w: World, k: string) returns (es: seq<Event>)
    requires Inv(peer, w) && AllPending(w, k)
    ensures k !in Exec(peer, w, es).q.queues
    decreases |QueueOf(w.q.queues, k)|
  {
    if k !in w.q.queues {
      return [];
    }
    assert Ordered(w, k) && Increasing(QueueOf(w.q.queues, k));
    var j := HeadAnswer(peer, w, k);
    var w' := Next(peer, w, PeerAnswers(j));
    HeadAnswerPops(peer, w, k, j);
    StepKeepsInv(peer, w, PeerAnswers(j));
    var rest := DrainKey(peer, w', k);
    es := [PeerAnswers(j)] + rest;
    assert [PeerAnswers(j)][..0] == [];
    assert Exec(peer, w, [PeerAnswers(j)]) == w';
    ExecAppend(peer, w, [PeerAnswers(j)], rest);
  }

  /** The queue of a key can still be emptied if and only if none of its requests was failed
      by its write or abandoned by its caller: one such request blocks the key for good. */
  lemma ServedExactlyWhenAllPending(peer: Peer, w: World, k: string)
    requires Inv(peer, w) && k in w.q.queues
    ensures (exists es :: k !in Exec(peer, w, es).q.queues) <==> AllPending(w, k)
  {
    if AllPending(w, k) {
      var es := DrainKey(peer, w, k);
    } else {
      var x :| 0 <= x < |w.q.queues[k]| && !w.q.futures[w.q.queues[k][x].fut].Pending?;
      var m := w.q.queues[k][x];
      assert w.asked[m.fut] == m;
      forall es ensures k in Exec(peer, w, es).q.queues {
        DoneStaysQueued(peer, w, es, m.fut);
      }
    }
  }

  lemma OneAsk(peer: Peer, r: Request)
    ensures Exec(peer, START, [Ask(r)]) ==
            World(State(map[Key(r.channel, r.txid) := [Msg(r, 0)]], [Pending], [Msg(r, 0)], {0}), [Msg(r, 0)], {})
  {
    var none: seq<Msg> := [];
    assert none + [Msg(r, 0)] == [Msg(r, 0)];
    var es := [Ask(r)];
    assert es[..0] == [];
  }

  lemma TwoAsks(peer: Peer, r1: Request, r2: Request)
    requires Key(r1.channel, r1.txid) == Key(r2.channel, r2.txid)
    ensures Exec(peer, START, [Ask(r1), Ask(r2)]) ==
            World(State(map[Key(r1.channel, r1.txid) := [Msg(r1, 0), Msg(r2, 1)]],
                        [Pending, Pending], [Msg(r1, 0)], {0}),
                  [Msg(r1, 0), Msg(r2, 1)], {})
  {
    OneAsk(peer, r1);
    var es := [Ask(r1), Ask(r2)];
    assert es[..1] == [Ask(r1)];
    assert [Msg(r1, 0)] + [Msg(r2, 1)] == [Msg(r1, 0), Msg(r2, 1)];
  }

  /** A failed first write is such a case: the second request is never even written. */
  lemma FailedWriteBlocks(peer: Peer, r1: Request, r2: Request, es: seq<Event>)
    requires r1.channel == r2.channel && r1.txid == r2.txid
    ensures var w := Exec(peer, Exec(peer, START, [Ask(r1), Ask(r2), WriteDone(0, false)]), es);
            && |w.q.futures| >= 2 && |w.asked| == |w.q.futures| && w.asked[1] == Msg(r2, 1)
            && w.q.futures[0] == Exception && !w.q.futures[1].Result?
  {
    var k := Key(r1.channel, r1.txid);
    var start := [Ask(r1), Ask(r2), WriteDone(0, false)];
    assert start[..2] == [Ask(r1), Ask(r2)];
    TwoAsks(peer, r1, r2);
    var w0 := Exec(peer, START, start);
    RunKeepsInv(peer, START, start);
    assert w0.q.queues == map[k := [Msg(r1, 0), Msg(r2, 1)]];
    assert w0.q.futures == [Exception, Pending];
    DoneStaysQueued(peer, w0, es, 0);
    KeepsHistory(peer, w0, es, 1);
    var w := Exec(peer, w0, es);
    assert w.asked[0] == Msg(r1, 0) && Queued(w, 0);
    assert Queued(w, 0) ==> Queued(w, 1);
  }

  lemma {:induction false} KeepsHistory(peer: Peer, w: World, es: seq<Event>, i: nat)
    requires Inv(peer, w) && i < |w.asked|
    ensures var w' := Exec(peer, w, es); Inv(peer, w') && i < |w'.asked| && w'.asked[i] == w.asked[i]
  {
    if es == [] {
    } else {
      KeepsHistory(peer, w, es[..|es| - 1], i);
      StepKeepsInv(peer, Exec(peer, w, es[..|es| - 1]), es[|es| - 1]);
    }
  }

  // ----- Isolation of transactions -----

  /** The message an enabled event is about. */
  function Subject(w: World, e: Event): Request
    requires Wf(w.q) && |w.asked| == |w.q.futures| && Enabled(w, e)
  {
    match e
    case Ask(req) => req
    case WriteDone(fut, _) => w.asked[fut].req
    case PeerAnswers(j) => w.q.wire[j].req
    case Abandon(fut) => w.asked[fut].req
  }

  /** The second transaction is the first with some characters moved across the border between
      channel and transaction id. */
  ghost predicate Shifted(c1: string, t1: string, c2: string, t2: string) {
    exists d {:trigger c1 + d} :: d != "" && c2 == c1 + d && t1 == d + t2
  }

  /** Two different transactions share a queue key if and only if one is the other shifted. */
  lemma KeysCollideExactlyWhen(c1: string, t1: string, c2: string, t2: string)
    ensures Key(c1, t1) == Key(c2, t2) && (c1, t1) != (c2, t2) <==> Shifted(c1, t1, c2, t2) || Shifted(c2, t2, c1, t1)
  {
    ShiftedExactlyWhen(c1, t1, c2, t2);
    ShiftedExactlyWhen(c2, t2, c1, t1);
    if Key(c1, t1) == Key(c2, t2) && |c1| == |c2| {
      assert c1 == Key(c1, t1)[..|c1|] && t1 == Key(c1, t1)[|c1|..];
      assert c2 == Key(c2, t2)[..|c2|] && t2 == Key(c2, t2)[|c2|..];
    }
  }

  lemma ShiftedExactlyWhen(c1: string, t1: string, c2: string, t2: string)
    ensures Shifted(c1, t1, c2, t2) <==> Key(c1, t1) == Key(c2, t2) && |c1| < |c2|
  {
    if d :| d != "" && c2 == c1 + d && t1 == d + t2 {
      assert Key(c1, t1) == c1 + d + t2;
    }
    if Key(c1, t1) == Key(c2, t2) && |c1| < |c2| {
      var k, d := Key(c1, t1), c2[|c1|..];
      assert c1 == k[..|c1|] && c2 == k[..|c2|];
      assert c2 == c1 + d;
      assert t1 == k[|c1|..] && t2 == k[|c2|..] && d == k[|c1|..|c2|];
      assert t1 == d + t2;
    }
  }

  /** So for transaction ids of the same length the queue key determines the transaction. */
  lemma KeyIsInjective(c1: string, t1: string, c2: string, t2: string)
    requires |t1| == |t2|
    ensures Key(c1, t1) == Key(c2, t2) <==> c1 == c2 && t1 == t2
  {
    KeysCollideExactlyWhen(c1, t1, c2, t2);
  }

  /** The queue, the written messages, the futures and the writes under way of another key are
      left as they were. */
  ghost predicate Untouched(w: World, w': World, k: string) {
    && QueueOf(w'.q.queues, k) == QueueOf(w.q.queues, k)
    && ForKey(w'.q.wire, k) == ForKey(w.q.wire, k)
    && |w'.q.futures| >= |w.q.futures| == |w.asked|
    && (forall i | 0 <= i < |w.asked| && KeyOf(w.asked[i]) == k ::
          w'.q.futures[i] == w.q.futures[i] && (i in w'.q.writing <==> i in w.q.writing))
  }

  lemma PoppedUntouched(w: World, w': World, j: nat, resp: Response, k: string)
    requires Wf(w.q) && Numbered(w) && j < |w.q.wire| && Popped(w, w', j, resp) && KeyOf(w.q.wire[j]) != k
    ensures Untouched(w, w', k)
  {
    var m := w.q.wire[j];
    var q := QueueOf(w.q.queues, KeyOf(m));
    assert w.asked[m.fut] == m;
    assert |q| > 1 ==> w.asked[q[1].fut] == q[1];
    if |q| > 1 {
      ForKeyAppend(w.q.wire, q[1], k);
    }
  }

  lemma QueuingUntouched(w: World, w': World, m: Msg, k: string)
    requires Wf(w.q) && Numbered(w) && Queuing(w, w', m) && KeyOf(m) != k
    ensures Untouched(w, w', k)
  {
    ForKeyAppend(w.q.wire, m, k);
  }

  /** A step leaves every other queue key untouched. */
  lemma OtherKeyUntouched(peer: Peer, w: World, e: Event, k: string)
    requires Wf(w.q) && Numbered(w) && AllHeads(w) && Enabled(w, e)
    requires var r := Subject(w, e); Key(r.channel, r.txid) != k
    ensures Untouched(w, Next(peer, w, e), k)
  {
    match e
    case Ask(req) =>
      AskQueues(peer, w, req);
      QueuingUntouched(w, Next(peer, w, e), Msg(req, |w.q.futures|), k);
    case PeerAnswers(j) =>
      assert IsHead(w, j);
      if w.q.futures[w.q.wire[j].fut].Pending? {
        AnswerPops(peer, w, j);
        PoppedUntouched(w, Next(peer, w, e), j, Answer(peer, w.q.wire[..j + 1]), k);
      } else {
        AnswerIgnored(peer, w, j);
      }
    case _ =>
  }

  /** A step of one transaction leaves every other transaction untouched, unless one is the
      other shifted; for transaction ids of the same length that cannot be. */
  lemma Isolation(peer: Peer, w: World, e: Event, ch: string, tx: string)
    requires Inv(peer, w) && Enabled(w, e)
    requires var r := Subject(w, e);
             && !(r.channel == ch && r.txid == tx)
             && !Shifted(r.channel, r.txid, ch, tx) && !Shifted(ch, tx, r.channel, r.txid)
    ensures Untouched(w, Next(peer, w, e), Key(ch, tx))
  {
    var r := Subject(w, e);
    KeysCollideExactlyWhen(r.channel, r.txid, ch, tx);
    OtherKeyUntouched(peer, w, e, Key(ch, tx));
  }

  /** The condition is exact: when two different transactions make their first requests one after
      the other, that of the second stays unwritten, behind that of the first, if and only if one
      is the other shifted. */
  lemma QueueSharedExactlyWhen(peer: Peer, r1: Request, r2: Request)
    requires (r1.channel, r1.txid) != (r2.channel, r2.txid)
    ensures var w := Exec(peer, START, [Ask(r1), Ask(r2)]);
            var shared := Shifted(r1.channel, r1.txid, r2.channel, r2.txid) ||
                          Shifted(r2.channel, r2.txid, r1.channel, r1.txid);
            w.q.wire == (if shared then [Msg(r1, 0)] else [Msg(r1, 0), Msg(r2, 1)])
  {
    KeysCollideExactlyWhen(r1.channel, r1.txid, r2.channel, r2.txid);
    OneAsk(peer, r1);
    var es := [Ask(r1), Ask(r2)];
    assert es[..1] == [Ask(r1)];
  }

  /** It does occur. */
  lemma SharedQueue(peer: Peer)
    ensures var r1, r2 := Request("ch1", "0tx", "a"), Request("ch", "10tx", "b");
            var w := Exec(peer, START, [Ask(r1), Ask(r2)]);
            && (r1.channel, r1.txid) != (r2.channel, r2.txid)
            && QueueOf(w.q.queues, Key(r2.channel, r2.txid)) == [Msg(r1, 0), Msg(r2, 1)]
            && w.q.wire == [Msg(r1, 0)]
  {
    var r1, r2 := Request("ch1", "0tx", "a"), Request("ch", "10tx", "b");
    assert "ch1" + "0tx" == "ch" + "10tx";
    TwoAsks(peer, r1, r2);
  }
}
