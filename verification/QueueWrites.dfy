/** The writes under way: whatever is written ends, and its failure is reported to whom it
    concerns, however many other writes are under way. */
module QueueWrites {
  import opened MsgQueue
  import opened QueueRuns
  import opened QueueTheorems

  /** The write of the request with future f has been started, as number j. */
  predicate WrittenAt(w: World, f: nat, j: nat) {
    j < |w.q.wire| && w.q.wire[j].fut == f
  }

  ghost predicate Written(w: World, f: nat) {
    exists j :: WrittenAt(w, f, j)
  }

  /** In the course of the run the write of the request with future f has ended. */
  ghost predicate Ended(peer: Peer, es: seq<Event>, f: nat) {
    es != [] &&
    var before, e := es[..|es| - 1], es[|es| - 1];
    Ended(peer, before, f) || (e.WriteDone? && e.fut == f && Enabled(Exec(peer, START, before), e))
  }

  // ----- Every request is written at most once -----

  lemma {:induction false} IsForKey(ms: seq<Msg>, j: nat)
    requires j < |ms|
    ensures ms[j] in ForKey(ms, KeyOf(ms[j]))
  {
    if j < |ms| - 1 {
      IsForKey(ms[..|ms| - 1], j);
    }
  }

  /** What was asked for a key is in the order of the futures, so nothing occurs twice in it. */
  lemma {:induction false} ForKeyIncreases(asked: seq<Msg>, k: string, x: nat, y: nat)
    requires forall i | 0 <= i < |asked| :: asked[i].fut == i
    requires x < y < |ForKey(asked, k)|
    ensures ForKey(asked, k)[x].fut < ForKey(asked, k)[y].fut < |asked|
  {
    var n := |asked| - 1;
    var rest := ForKey(asked[..n], k);
    if y < |rest| {
      ForKeyIncreases(asked[..n], k, x, y);
    } else {
      ForKeyMembers(asked[..n], k);
      assert rest[x] in asked[..n];
    }
  }

  lemma WrittenWasAsked(peer: Peer, w: World, j: nat)
    requires Inv(peer, w) && j < |w.q.wire|
    ensures w.q.wire[j].fut < |w.asked| && w.asked[w.q.wire[j].fut] == w.q.wire[j]
  {
    var k := KeyOf(w.q.wire[j]);
    assert Ordered(w, k);
    IsForKey(w.q.wire, j);
    assert w.q.wire[j] in ForKey(w.asked, k);
    ForKeyMembers(w.asked, k);
  }

  /** The request behind the head of a queue has not been written yet. */
  lemma SecondIsUnwritten(peer: Peer, w: World, k: string)
    requires Inv(peer, w) && |QueueOf(w.q.queues, k)| > 1
    ensures !Written(w, w.q.queues[k][1].fut)
  {
    var m, q, written := w.q.queues[k][1], w.q.queues[k], ForKey(w.q.wire, k);
    assert Ordered(w, k);
    assert ForKey(w.asked, k) == written + q[1..] && (written + q[1..])[|written|] == m;
    if j: nat :| WrittenAt(w, m.fut, j) {
      WrittenWasAsked(peer, w, j);
      assert w.q.wire[j] == m;
      IsForKey(w.q.wire, j);
      var x: nat :| x < |written| && written[x] == m;
      ForKeyIncreases(w.asked, k, x, |written|);
    }
  }

  // ----- Steps -----

  /** A step starts the write of m and no other, and ends none. */
  ghost predicate Starts(w: World, w': World, m: Msg) {
    w'.q.wire == w.q.wire + [m] && w'.q.writing == w.q.writing + {m.fut} && !Written(w, m.fut)
  }

  lemma AskStarts(peer: Peer, w: World, req: Request)
    requires Inv(peer, w)
    ensures var w' := Next(peer, w, Ask(req));
            || (w'.q.wire == w.q.wire && w'.q.writing == w.q.writing)
            || exists m :: Starts(w, w', m)
  {
    var w', m := Next(peer, w, Ask(req)), Msg(req, |w.q.futures|);
    AskQueues(peer, w, req);
    if j: nat :| WrittenAt(w, m.fut, j) {
      WrittenWasAsked(peer, w, j);
    }
    assert w'.q.wire != w.q.wire ==> Starts(w, w', m);
  }

  lemma AnswerStarts(peer: Peer, w: World, j: nat)
    requires Inv(peer, w)
    ensures var w' := Next(peer, w, PeerAnswers(j));
            || (w'.q.wire == w.q.wire && w'.q.writing == w.q.writing)
            || exists m :: Starts(w, w', m)
  {
    if Enabled(w, PeerAnswers(j)) {
      assert IsHead(w, j);
      var w', k := Next(peer, w, PeerAnswers(j)), KeyOf(w.q.wire[j]);
      if w.q.futures[w.q.wire[j].fut].Pending? {
        AnswerPops(peer, w, j);
        if |QueueOf(w.q.queues, k)| > 1 {
          SecondIsUnwritten(peer, w, k);
          assert Starts(w, w', w.q.queues[k][1]);
        }
      } else {
        AnswerIgnored(peer, w, j);
      }
    }
  }

  lemma StartedIsWritten(w: World, w': World, m: Msg, f: nat)
    requires Starts(w, w', m)
    ensures Written(w', f) <==> Written(w, f) || f == m.fut
  {
    if j: nat :| WrittenAt(w, f, j) {
      assert WrittenAt(w', f, j);
    }
    assert WrittenAt(w', m.fut, |w.q.wire|);
    if j: nat :| WrittenAt(w', f, j) {
      assert j < |w.q.wire| ==> WrittenAt(w, f, j);
    }
  }

  lemma SameWires(w: World, w': World, f: nat)
    requires w'.q.wire == w.q.wire
    ensures Written(w', f) <==> Written(w, f)
  {
    if j: nat :| WrittenAt(w, f, j) {
      assert WrittenAt(w', f, j);
    }
    if j: nat :| WrittenAt(w', f, j) {
      assert WrittenAt(w, f, j);
    }
  }

  // ----- Theorems -----

  /** At every point of every run the writes under way are exactly those that were started and
      have not ended; one that has ended was started. */
  lemma {:induction false} WritesUnderWay(peer: Peer, es: seq<Event>, f: nat)
    ensures var w := Exec(peer, START, es);
            && (f in w.q.writing <==> Written(w, f) && !Ended(peer, es, f))
            && (Ended(peer, es, f) ==> Written(w, f))
  {
    if es == [] {
    } else {
      var before, e := es[..|es| - 1], es[|es| - 1];
      WritesUnderWay(peer, before, f);
      RunInv(peer, before);
      var w, w' := Exec(peer, START, before), Exec(peer, START, es);
      match e
      case Ask(req) =>
        AskStarts(peer, w, req);
        OneStep(peer, w, w', f);
      case PeerAnswers(j) =>
        AnswerStarts(peer, w, j);
        OneStep(peer, w, w', f);
      case _ =>
        FailureWithdraws(peer, w, e);
        SameWires(w, w', f);
    }
  }

  lemma OneStep(peer: Peer, w: World, w': World, f: nat)
    requires (w'.q.wire == w.q.wire && w'.q.writing == w.q.writing) || exists m :: Starts(w, w', m)
    ensures Written(w, f) ==> Written(w', f) && (f in w'.q.writing <==> f in w.q.writing)
    ensures !Written(w, f) ==> (f in w'.q.writing <==> Written(w', f) || f in w.q.writing)
  {
    if m :| Starts(w, w', m) {
      StartedIsWritten(w, w', m, f);
    } else {
      SameWires(w, w', f);
    }
  }

  /** So a failed write is always reported, whatever other writes are under way: the future of a
      request whose write has been started and has not ended fails with the write, unless it was
      done before. */
  lemma FailedWriteIsReported(peer: Peer, es: seq<Event>, f: nat)
    requires Written(Exec(peer, START, es), f) && !Ended(peer, es, f)
    ensures var w, w' := Exec(peer, START, es), Exec(peer, START, es + [WriteDone(f, false)]);
            && f < |w.q.futures| == |w'.q.futures|
            && w'.q.futures == w.q.futures[f := if w.q.futures[f].Pending? then Exception else w.q.futures[f]]
            && f !in w'.q.writing
  {
    WritesUnderWay(peer, es, f);
    assert (es + [WriteDone(f, false)])[..|es|] == es;
  }

  /** And one that succeeds changes no future. */
  lemma SuccessfulWriteIsSilent(peer: Peer, es: seq<Event>, f: nat)
    ensures Exec(peer, START, es + [WriteDone(f, true)]).q.futures == Exec(peer, START, es).q.futures
  {
    assert (es + [WriteDone(f, true)])[..|es|] == es;
  }

  /** Cancelling a waiter cancels its future, unless that is done, and does nothing else. */
  lemma AbandonedIsCancelled(peer: Peer, es: seq<Event>, f: nat)
    requires f < |Exec(peer, START, es).q.futures|
    ensures var w, w' := Exec(peer, START, es), Exec(peer, START, es + [Abandon(f)]);
            w' == w.(q := w.q.(futures := w.q.futures[
                                  f := if w.q.futures[f].Pending? then Cancelled else w.q.futures[f]]))
  {
    assert (es + [Abandon(f)])[..|es|] == es;
  }

  /** Every request is written at most once. */
  lemma {:induction false} WrittenOnce(peer: Peer, es: seq<Event>, i: nat, j: nat)
    requires i < j < |Exec(peer, START, es).q.wire|
    ensures Exec(peer, START, es).q.wire[i].fut != Exec(peer, START, es).q.wire[j].fut
  {
    var before, e := es[..|es| - 1], es[|es| - 1];
    RunInv(peer, before);
    var w, w' := Exec(peer, START, before), Exec(peer, START, es);
    match e {
      case Ask(req) => AskStarts(peer, w, req);
      case PeerAnswers(n) => AnswerStarts(peer, w, n);
      case _ => FailureWithdraws(peer, w, e);
    }
    if j < |w.q.wire| {
      WrittenOnce(peer, before, i, j);
      assert w'.q.wire[i] == w.q.wire[i] && w'.q.wire[j] == w.q.wire[j];
    } else {
      var m :| Starts(w, w', m);
      assert w'.q.wire[i] == w.q.wire[i] && w'.q.wire[j] == m;
      assert WrittenAt(w, w.q.wire[i].fut, i);
    }
  }
}
