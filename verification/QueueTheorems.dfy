/** What the request queue is for: every run looks, to each transaction, like plain
    synchronous calls to the peer. */
module QueueTheorems {
  import opened MsgQueue
  import opened QueueRuns

  /** The futures of one transaction's requests among the first n requests, in order. */
  function Replies(w: World, n: nat, ch: string, tx: string): seq<Future>
    requires n <= |w.asked| && |w.asked| == |w.q.futures|
  {
    if n == 0 then []
    else
      var rest := Replies(w, n - 1, ch, tx);
      var r := w.asked[n - 1].req;
      if r.channel == ch && r.txid == tx then rest + [w.q.futures[n - 1]] else rest
  }

  /** No write fails and no waiter is cancelled. */
  ghost predicate NoFailure(es: seq<Event>) {
    forall e | e in es :: !e.Abandon? && (e.WriteDone? ==> e.ok)
  }

  ghost predicate Healthy(w: World) {
    forall f | f in w.q.futures :: f.Pending? || f.Result?
  }

  lemma StepIsHealthy(peer: Peer, w: World, e: Event)
    requires Wf(w.q) && Healthy(w) && !e.Abandon? && (e.WriteDone? ==> e.ok)
    ensures Healthy(Next(peer, w, e))
  {
    var fs, fs' := w.q.futures, Next(peer, w, e).q.futures;
    forall f | f in fs' ensures f.Pending? || f.Result? {
      var i :| 0 <= i < |fs'| && fs'[i] == f;
      assert i < |fs| ==> fs[i] in fs;
    }
  }

  lemma {:induction false} NoFailureIsHealthy(peer: Peer, w: World, es: seq<Event>)
    requires Wf(w.q) && Healthy(w) && NoFailure(es)
    ensures Healthy(Exec(peer, w, es))
  {
    if es == [] {
    } else {
      NoFailureIsHealthy(peer, w, es[..|es| - 1]);
      StepIsHealthy(peer, Exec(peer, w, es[..|es| - 1]), es[|es| - 1]);
    }
  }

  /** Every run from the start, failures included, keeps the queue invariant. */
  lemma RunInv(peer: Peer, es: seq<Event>)
    ensures Inv(peer, Exec(peer, START, es))
  {
    RunKeepsInv(peer, START, es);
  }

  // ----- Refinement of synchronous calls -----

  /** Request i is number x of its transaction and its future is entry x of the replies. */
  lemma {:induction false} ReplyPosition(w: World, n: nat, ch: string, tx: string, x: nat) returns (i: nat)
    requires n <= |w.asked| && |w.asked| == |w.q.futures|
    requires x < |Replies(w, n, ch, tx)|
    ensures i < n && w.asked[i].req.channel == ch && w.asked[i].req.txid == tx
    ensures Replies(w, n, ch, tx)[x] == w.q.futures[i]
  {
    if x < |Replies(w, n - 1, ch, tx)| {
      i := ReplyPosition(w, n - 1, ch, tx, x);
    } else {
      i := n - 1;
    }
  }

  /** One more request in a synchronous session. */
  lemma SyncAppend(peer: Peer, ch: string, tx: string, payloads: seq<string>, p: string)
    ensures SyncSession(peer, ch, tx, payloads + [p]) ==
            SyncSession(peer, ch, tx, payloads) + [Response(ch, tx, peer(ch, tx, payloads + [p]))]
  {
    assert (payloads + [p])[..|payloads|] == payloads;
  }

  lemma PayloadsAppend(asked: seq<Msg>, n: nat, ch: string, tx: string)
    requires 0 < n <= |asked|
    ensures var r := asked[n - 1].req;
            var before := Payloads(asked[..n - 1], ch, tx);
            Payloads(asked[..n], ch, tx) == if r.channel == ch && r.txid == tx then before + [r.payload] else before
  {
    assert asked[..n][..n - 1] == asked[..n - 1];
  }

  /** Where there is a result it is that of the synchronous session. */
  ghost predicate Match(replies: seq<Future>, sync: seq<Response>) {
    |replies| == |sync| && forall x | 0 <= x < |sync| :: replies[x].Result? ==> replies[x].response == sync[x]
  }

  lemma MatchOneMore(replies: seq<Future>, sync: seq<Response>, f: Future, r: Response)
    requires Match(replies, sync) && (f.Result? ==> f.response == r)
    ensures Match(replies + [f], sync + [r])
  {
  }

  /** The result of request n, if it is there. */
  lemma NextResult(peer: Peer, w: World, n: nat)
    requires Wf(w.q) && Numbered(w) && Correct(peer, w) && n < |w.asked| && w.q.futures[n].Result?
    ensures var r := w.asked[n].req;
            w.q.futures[n].response ==
            Response(r.channel, r.txid, peer(r.channel, r.txid, Payloads(w.asked[..n + 1], r.channel, r.txid)))
  {
    assert w.asked[..n + 1][n] == w.asked[n];
    assert w.q.futures[n].response == Expected(peer, w.asked, n);
  }

  /** The results are the synchronous ones, whatever else has failed. */
  lemma {:induction false} ResultsAreSynchronous(peer: Peer, w: World, n: nat, ch: string, tx: string)
    requires Wf(w.q) && Numbered(w) && Correct(peer, w) && n <= |w.asked|
    ensures Match(Replies(w, n, ch, tx), SyncSession(peer, ch, tx, Payloads(w.asked[..n], ch, tx)))
  {
    if n == 0 {
    } else {
      ResultsAreSynchronous(peer, w, n - 1, ch, tx);
      PayloadsAppend(w.asked, n, ch, tx);
      var payloads, r := Payloads(w.asked[..n - 1], ch, tx), w.asked[n - 1].req;
      if r.channel == ch && r.txid == tx {
        SyncAppend(peer, ch, tx, payloads, r.payload);
        if w.q.futures[n - 1].Result? {
          NextResult(peer, w, n - 1);
        }
        MatchOneMore(Replies(w, n - 1, ch, tx), SyncSession(peer, ch, tx, payloads), w.q.futures[n - 1],
                     Response(ch, tx, peer(ch, tx, payloads + [r.payload])));
      }
    }
  }

  /** No reply overtakes one to an earlier request of the same transaction. */
  lemma NoOvertaking(peer: Peer, w: World, n: nat, ch: string, tx: string, x: nat)
    requires Wf(w.q) && Numbered(w) && Fifo(w) && Correct(peer, w) && n < |w.asked|
    requires w.asked[n].req.channel == ch && w.asked[n].req.txid == tx && w.q.futures[n].Result?
    requires x < |Replies(w, n, ch, tx)|
    ensures !Replies(w, n, ch, tx)[x].Pending?
  {
    var i := ReplyPosition(w, n, ch, tx, x);
    assert !Queued(w, n) && KeyOf(w.asked[i]) == KeyOf(w.asked[n]);
  }

  /** The first replies are there, the others are still waited for. */
  predicate AnsweredUpTo(replies: seq<Future>, done: nat) {
    && done <= |replies|
    && (forall x | 0 <= x < done :: replies[x].Result?)
    && (forall x | done <= x < |replies| :: replies[x].Pending?)
  }

  lemma OneMoreReply(replies: seq<Future>, done: nat, f: Future)
    requires AnsweredUpTo(replies, done)
    requires f.Pending? || (f.Result? && (done < |replies| ==> !replies[done].Pending?))
    ensures AnsweredUpTo(replies + [f], if f.Result? then done + 1 else done)
  {
  }

  lemma OneMoreRequest(peer: Peer, w: World, n: nat, ch: string, tx: string, done: nat) returns (done': nat)
    requires Wf(w.q) && Numbered(w) && Fifo(w) && Correct(peer, w) && Healthy(w) && n < |w.asked|
    requires AnsweredUpTo(Replies(w, n, ch, tx), done)
    ensures AnsweredUpTo(Replies(w, n + 1, ch, tx), done')
  {
    var before, f, r := Replies(w, n, ch, tx), w.q.futures[n], w.asked[n].req;
    if r.channel != ch || r.txid != tx {
      return done;
    }
    assert f.Pending? || f.Result? by {
      assert f in w.q.futures;
    }
    if f.Result? && done < |before| {
      NoOvertaking(peer, w, n, ch, tx, done);
    }
    OneMoreReply(before, done, f);
    done' := if f.Result? then done + 1 else done;
  }

  /** Replies come back in the order of the requests. */
  lemma {:induction false} AnsweredFirst(peer: Peer, w: World, n: nat, ch: string, tx: string) returns (done: nat)
    requires Wf(w.q) && Numbered(w) && Fifo(w) && Correct(peer, w) && Healthy(w) && n <= |w.asked|
    ensures AnsweredUpTo(Replies(w, n, ch, tx), done)
  {
    if n == 0 {
      done := 0;
    } else {
      done := AnsweredFirst(peer, w, n - 1, ch, tx);
      done := OneMoreRequest(peer, w, n - 1, ch, tx, done);
    }
  }

  /** RPC refinement. For every run in which no write fails and no waiter is cancelled, the
      replies of each transaction are those of a synchronous session with the same requests,
      cut at the first request that still waits. */
  lemma RpcRefinement(peer: Peer, es: seq<Event>, ch: string, tx: string) returns (done: nat)
    requires NoFailure(es)
    ensures var w := Exec(peer, START, es);
            var sync := SyncSession(peer, ch, tx, Payloads(w.asked, ch, tx));
            && |w.asked| == |w.q.futures|
            && (var replies := Replies(w, |w.asked|, ch, tx);
                && |replies| == |sync| && done <= |sync|
                && (forall x | 0 <= x < done :: replies[x] == Future.Result(sync[x]))
                && (forall x | done <= x < |sync| :: replies[x] == Pending))
  {
    var w := Exec(peer, START, es);
    RunInv(peer, es);
    NoFailureIsHealthy(peer, START, es);
    assert w.asked[..|w.asked|] == w.asked;
    ResultsAreSynchronous(peer, w, |w.asked|, ch, tx);
    done := AnsweredFirst(peer, w, |w.asked|, ch, tx);
  }

  /** Even with failed writes and cancelled waiters no request ever gets a wrong reply. */
  lemma NeverAWrongReply(peer: Peer, es: seq<Event>, ch: string, tx: string)
    ensures var w := Exec(peer, START, es);
            var sync := SyncSession(peer, ch, tx, Payloads(w.asked, ch, tx));
            && |w.asked| == |w.q.futures|
            && (var replies := Replies(w, |w.asked|, ch, tx);
                |replies| == |sync| &&
                forall x | 0 <= x < |sync| :: replies[x].Result? ==> replies[x].response == sync[x])
  {
    var w := Exec(peer, START, es);
    RunInv(peer, es);
    assert w.asked[..|w.asked|] == w.asked;
    ResultsAreSynchronous(peer, w, |w.asked|, ch, tx);
  }

  /** At every suspension point: no stored queue is empty; what was written for a key is what
      was asked up to the head of its queue; nothing but the head is unanswered, and only once;
      and a head that is still waited for is in flight. */
  lemma QueueInvariant(peer: Peer, es: seq<Event>, k: string)
    ensures var w := Exec(peer, START, es);
            && (k in w.q.queues ==> w.q.queues[k] != [])
            && InOrder(ForKey(w.asked, k), ForKey(w.q.wire, k), QueueOf(w.q.queues, k))
            && (forall j | 0 <= j < |w.q.wire| && j !in w.answered && KeyOf(w.q.wire[j]) == k ::
                  k in w.q.queues && w.q.wire[j] == w.q.queues[k][0])
            && (forall i, j | 0 <= i < |w.q.wire| && i !in w.answered && KeyOf(w.q.wire[i]) == k
                  && 0 <= j < |w.q.wire| && j !in w.answered && KeyOf(w.q.wire[j]) == k :: i == j)
            && (k in w.q.queues && w.q.futures[w.q.queues[k][0].fut].Pending? ==> exists j: nat :: InFlightAt(w, k, j))
  {
    RunInv(peer, es);
    var w := Exec(peer, START, es);
    assert Ordered(w, k) && HeadInFlight(w, k);
    forall i, j | 0 <= i < |w.q.wire| && i !in w.answered && KeyOf(w.q.wire[i]) == k
               && 0 <= j < |w.q.wire| && j !in w.answered && KeyOf(w.q.wire[j]) == k
      ensures i == j
    {
      assert IsHead(w, i) && IsHead(w, j);
      OneInFlight(w, i, j);
    }
  }

  // ----- Draining -----

  function PendingCount(fs: seq<Future>): nat {
    if fs == [] then 0 else PendingCount(fs[..|fs| - 1]) + (if fs[|fs| - 1].Pending? then 1 else 0)
  }

  /** A run of peer answers, each of them enabled when it comes. */
  ghost predicate AnswersOnly(peer: Peer, w: World, es: seq<Event>)
    requires Wf(w.q)
  {
    es != [] ==>
      && AnswersOnly(peer, w, es[..|es| - 1])
      && es[|es| - 1].PeerAnswers? && Enabled(Exec(peer, w, es[..|es| - 1]), es[|es| - 1])
  }

  lemma {:induction false} ResolveOne(fs: seq<Future>, i: nat, f: Future)
    requires i < |fs| && fs[i].Pending? && !f.Pending?
    ensures PendingCount(fs[i := f]) == PendingCount(fs) - 1
  {
    var n := |fs| - 1;
    if i < n {
      assert fs[i := f][..n] == fs[..n][i := f];
      ResolveOne(fs[..n], i, f);
    } else {
      assert fs[i := f][..n] == fs[..n];
    }
  }

  lemma {:induction false} PendingExists(fs: seq<Future>) returns (i: nat)
    requires PendingCount(fs) > 0
    ensures i < |fs| && fs[i].Pending?
  {
    if fs[|fs| - 1].Pending? {
      i := |fs| - 1;
    } else {
      i := PendingExists(fs[..|fs| - 1]);
    }
  }

  lemma {:induction false} CountsPending(fs: seq<Future>, i: nat)
    requires i < |fs| && fs[i].Pending?
    ensures PendingCount(fs) > 0
  {
    if i < |fs| - 1 {
      CountsPending(fs[..|fs| - 1], i);
    }
  }

  lemma {:induction false} NonePending(fs: seq<Future>)
    requires PendingCount(fs) == 0
    ensures forall f | f in fs :: !f.Pending?
  {
    if fs == [] {
    } else {
      NonePending(fs[..|fs| - 1]);
    }
  }

  /** No queue behind a pending head is ever stuck: the peer owes it an answer. */
  lemma NoDeadlock(peer: Peer, w: World) returns (j: nat)
    requires Inv(peer, w) && Healthy(w) && PendingCount(w.q.futures) > 0
    ensures Enabled(w, PeerAnswers(j))
  {
    var i := PendingExists(w.q.futures);
    assert Queued(w, i);
    var k := KeyOf(w.asked[i]);
    assert HeadInFlight(w, k) && Ordered(w, k);
    var head := w.q.queues[k][0];
    assert w.asked[head.fut] == head && Queued(w, head.fut);
    j :| InFlightAt(w, k, j);
  }

  lemma HeadIsResolved(peer: Peer, w: World, j: nat)
    requires Wf(w.q) && Enabled(w, PeerAnswers(j)) && IsHead(w, j) && w.q.futures[w.q.wire[j].fut].Pending?
    ensures Next(peer, w, PeerAnswers(j)).q.futures ==
            w.q.futures[w.q.wire[j].fut := Future.Result(Answer(peer, w.q.wire[..j + 1]))]
  {
    AnswerPops(peer, w, j);
  }

  lemma AnswerResolvesOne(peer: Peer, w: World, j: nat)
    requires Inv(peer, w) && Healthy(w) && Enabled(w, PeerAnswers(j))
    ensures var w' := Next(peer, w, PeerAnswers(j));
            Healthy(w') && PendingCount(w'.q.futures) == PendingCount(w.q.futures) - 1
  {
    assert IsHead(w, j);
    var m := w.q.wire[j];
    assert w.asked[m.fut] == m && Queued(w, m.fut);
    assert w.q.futures[m.fut] in w.q.futures;
    HeadIsResolved(peer, w, j);
    ResolveOne(w.q.futures, m.fut, Future.Result(Answer(peer, w.q.wire[..j + 1])));
  }

  lemma {:induction false} AnswersCountDown(peer: Peer, w: World, es: seq<Event>)
    requires Inv(peer, w) && Healthy(w) && AnswersOnly(peer, w, es)
    ensures var w' := Exec(peer, w, es);
            Inv(peer, w') && Healthy(w') && PendingCount(w'.q.futures) + |es| == PendingCount(w.q.futures)
  {
    if es == [] {
    } else {
      var before := es[..|es| - 1];
      AnswersCountDown(peer, w, before);
      AnswerResolvesOne(peer, Exec(peer, w, before), es[|es| - 1].j);
      StepKeepsInv(peer, Exec(peer, w, before), es[|es| - 1]);
    }
  }

  /** As many answers as there are queued requests resolve every future and leave no queue,
      whichever of the pending answers comes first at each point; more never happen. */
  lemma DrainedByAnswers(peer: Peer, w: World, es: seq<Event>)
    requires Inv(peer, w) && Healthy(w) && AnswersOnly(peer, w, es)
    ensures |es| <= PendingCount(w.q.futures)
    ensures |es| == PendingCount(w.q.futures) ==>
              && Exec(peer, w, es).q.queues == map[]
              && (forall f | f in Exec(peer, w, es).q.futures :: f.Result?)
  {
    AnswersCountDown(peer, w, es);
    var w' := Exec(peer, w, es);
    if PendingCount(w'.q.futures) == 0 {
      NonePending(w'.q.futures);
      forall k | k in w'.q.queues ensures false {
        assert Ordered(w', k);
        var head := w'.q.queues[k][0];
        assert w'.asked[head.fut] == head && Queued(w', head.fut);
      }
    }
  }

  lemma OneMoreAnswer(peer: Peer, w: World, es: seq<Event>, j: nat)
    requires Wf(w.q) && AnswersOnly(peer, w, es) && Enabled(Exec(peer, w, es), PeerAnswers(j))
    ensures AnswersOnly(peer, w, es + [PeerAnswers(j)])
  {
    assert (es + [PeerAnswers(j)])[..|es|] == es;
  }

  /** Such a run of answers exists from every healthy state. */
  lemma CanDrain(peer: Peer, w: World) returns (es: seq<Event>)
    requires Inv(peer, w) && Healthy(w)
    ensures AnswersOnly(peer, w, es) && |es| == PendingCount(w.q.futures)
  {
    es := [];
    while |es| < PendingCount(w.q.futures)
      invariant AnswersOnly(peer, w, es) && |es| <= PendingCount(w.q.futures)
    {
      AnswersCountDown(peer, w, es);
      var j := NoDeadlock(peer, Exec(peer, w, es));
      OneMoreAnswer(peer, w, es, j);
      es := es + [PeerAnswers(j)];
    }
  }

  /** When everything is answered a transaction has exactly its synchronous session, so how
      the requests of different transactions were interleaved leaves no trace. */
  lemma DrainedSession(peer: Peer, es: seq<Event>, ch: string, tx: string)
    requires NoFailure(es)
    requires PendingCount(Exec(peer, START, es).q.futures) == 0
    ensures var w := Exec(peer, START, es);
            var sync := SyncSession(peer, ch, tx, Payloads(w.asked, ch, tx));
            && |w.asked| == |w.q.futures|
            && Replies(w, |w.asked|, ch, tx) == seq(|sync|, x requires 0 <= x < |sync| => Future.Result(sync[x]))
  {
    var w := Exec(peer, START, es);
    var done := RpcRefinement(peer, es, ch, tx);
    NonePending(w.q.futures);
    if done < |Replies(w, |w.asked|, ch, tx)| {
      var i := ReplyPosition(w, |w.asked|, ch, tx, done);
    }
  }
}
