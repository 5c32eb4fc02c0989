/** Every call is answered: what a call does when it is its turn, and that every call that returns
    when it is run alone can be brought to its answer. */
module SessionAnswers {
  import opened Wrappers
  import MsgQueue
  import QueueRuns
  import QueueTheorems
  import Handler
  import HandlerRuns
  import opened Sessions

  // ----- One turn of a call -----

  /** With event e it is the turn of call i: it begins after the handshake, or the reply that it
      waits for has come. */
  ghost predicate Turn(g: Setting, s: Session, e: Event, i: nat, replies: seq<string>)
    requires MsgQueue.Wf(s.world.q)
  {
    && i < |g.msgs|
    && match e
       case Begin(k, stubBuilds, _) =>
         && k == i && stubBuilds && replies == [] && i !in s.conn.tasks && HandlerRuns.CallsChaincode(g.msgs[i].ty)
         && HandlerRuns.HandshakeBefore(g.msgs, s.conn, |s.conn.started|)
       case Resume(k, _) =>
         && k == i && i in s.calls && !s.calls[i].lost && s.calls[i].awaits < |s.world.q.futures|
         && (s.calls[i].writes ==> s.calls[i].awaits !in s.world.q.writing)
         && s.world.q.futures[s.calls[i].awaits].Result?
         && replies == s.calls[i].replies + [s.world.q.futures[s.calls[i].awaits].response.payload]
       case Queue(_) => false
  }

  /** The call has made its next request and waits for the reply; it also waits for the end of
      the write if there was no earlier request in the queue. */
  ghost predicate Asked(g: Setting, s: Session, s': Session, i: nat, replies: seq<string>, payload: string)
    requires i < |g.msgs|
  {
    var req := MsgQueue.Request(g.msgs[i].channel, g.msgs[i].txid, payload);
    && s'.conn.log == s.conn.log
    && i in s'.conn.tasks && s'.conn.tasks[i].InChaincode?
    && s'.world.asked == s.world.asked + [MsgQueue.Msg(req, |s.world.asked|)]
    && i in s'.calls
    && s'.calls[i] == Call(replies, |s.world.asked|,
                           MsgQueue.QueueOf(s.world.q.queues, MsgQueue.Key(req.channel, req.txid)) == [], false)
  }

  /** The call has ended with this response, which was written if the write succeeded. */
  ghost predicate Answered(g: Setting, s: Session, s': Session, i: nat, resp: Option<Handler.Resp>, writeOk: bool)
    requires i < |g.msgs|
  {
    && i !in s'.calls && s'.world == s.world
    && (if writeOk
        then Ended(s', i, Handler.CompletedWritten)
             && s'.conn.log == s.conn.log
                               + [Handler.Completed(i, g.msgs[i].channel, g.msgs[i].txid, Handler.Normalised(resp))]
        else Ended(s', i, Handler.Died) && s'.conn.log == s.conn.log)
  }

  ghost predicate Ended(s: Session, i: nat, t: Handler.Task) {
    i in s.conn.tasks && s.conn.tasks[i] == t
  }

  /** What comes of the turn: the call asks, is answered by exactly one message with the response
      that it returns, or dies because it raises. */
  ghost predicate Taken(g: Setting, s: Session, s': Session, i: nat, replies: seq<string>, writeOk: bool)
    requires i < |g.msgs|
  {
    match g.program(i, replies)
    case Ask(payload) => Asked(g, s, s', i, replies, payload)
    case Return(resp) => Answered(g, s, s', i, resp, writeOk)
    case Raise => i !in s'.calls && s'.world == s.world && Ended(s', i, Handler.Died) && s'.conn.log == s.conn.log
  }

  lemma AskTurn(g: Setting, s: Session, i: nat, replies: seq<string>, writeOk: bool)
    requires Running(g, s, i, replies) && g.program(i, replies).Ask?
    ensures Asked(g, s, Proceed(g, s, i, replies, writeOk), i, replies, g.program(i, replies).payload)
  {
    var req := MsgQueue.Request(g.msgs[i].channel, g.msgs[i].txid, g.program(i, replies).payload);
    var m := MsgQueue.Msg(req, |s.world.q.futures|);
    QueueRuns.AskQueues(g.peer, s.world, req);
    assert m.fut !in s.world.q.writing;
  }

  lemma EndTurn(g: Setting, s: Session, i: nat, replies: seq<string>, writeOk: bool)
    requires Running(g, s, i, replies) && !g.program(i, replies).Ask?
    ensures Taken(g, s, Proceed(g, s, i, replies, writeOk), i, replies, writeOk)
  {
  }

  /** In every run, when it is the turn of a call it does what its program says after these
      replies, which are the ones that it would get alone. */
  lemma TurnOfCall(g: Setting, es: seq<Event>, e: Event, i: nat, replies: seq<string>)
    requires OneCallEach(g.msgs) && Turn(g, Exec(g, es), e, i, replies)
    ensures Synchronous(g.peer, g.program, i, g.msgs[i], replies)
    ensures Taken(g, Exec(g, es), Exec(g, es + [e]), i, replies, e.writeOk)
  {
    RunInv(g, es);
    assert (es + [e])[..|es|] == es;
    TurnTaken(g, Exec(g, es), e, i, replies);
  }

  lemma ProceedTaken(g: Setting, s: Session, i: nat, replies: seq<string>, writeOk: bool)
    requires Running(g, s, i, replies)
    ensures Taken(g, s, Proceed(g, s, i, replies, writeOk), i, replies, writeOk)
  {
    if g.program(i, replies).Ask? {
      AskTurn(g, s, i, replies, writeOk);
    } else {
      EndTurn(g, s, i, replies, writeOk);
    }
  }

  /** The session in which the call runs on: in that of a call that begins, its task has begun. */
  lemma FirstTurn(g: Setting, s: Session, i: nat, writeOk: bool) returns (begun: Session)
    requires Inv(g, s) && Turn(g, s, Begin(i, true, writeOk), i, [])
    ensures Running(g, begun, i, []) && Next(g, s, Begin(i, true, writeOk)) == Proceed(g, begun, i, [], writeOk)
    ensures begun.world == s.world && begun.conn.log == s.conn.log
  {
    var conn := HandlerRuns.Next(g.msgs, s.conn, HandlerRuns.Begin(i, true, writeOk));
    HandlerRuns.CallStarts(g.msgs, s.conn, i, writeOk);
    HandlerRuns.StepKeepsInv(g.msgs, s.conn, HandlerRuns.Begin(i, true, writeOk));
    assert i !in s.calls && s.calls - {i} == s.calls;
    BegunIsRunning(g, s, conn, i);
    begun := s.(conn := conn);
  }

  lemma TurnTaken(g: Setting, s: Session, e: Event, i: nat, replies: seq<string>)
    requires OneCallEach(g.msgs) && Inv(g, s) && Turn(g, s, e, i, replies)
    ensures Enabled(g, s, e) && Inv(g, Next(g, s, e))
    ensures Synchronous(g.peer, g.program, i, g.msgs[i], replies) && Taken(g, s, Next(g, s, e), i, replies, e.writeOk)
  {
    StepKeepsInv(g, s, e);
    if e.Begin? {
      var begun := FirstTurn(g, s, i, e.writeOk);
      ProceedTaken(g, begun, i, replies, e.writeOk);
      SameOutcome(g, begun, s, Next(g, s, e), i, replies, e.writeOk);
    } else {
      ResumedIsRunning(g, s, i);
      ProceedTaken(g, s, i, replies, e.writeOk);
    }
  }

  lemma SameOutcome(g: Setting, s1: Session, s2: Session, s': Session, i: nat, replies: seq<string>, writeOk: bool)
    requires i < |g.msgs| && Taken(g, s1, s', i, replies, writeOk)
    requires s1.world == s2.world && s1.conn.log == s2.conn.log
    ensures Taken(g, s2, s', i, replies, writeOk)
  {
  }

  /** A call whose future failed or was cancelled, or whose own write has failed, dies when it goes
      on, and no message is written for it. */
  lemma LostCallDies(g: Setting, s: Session, i: nat, writeOk: bool)
    requires Inv(g, s) && Enabled(g, s, Resume(i, writeOk))
    requires s.calls[i].lost || !s.world.q.futures[s.calls[i].awaits].Result?
    ensures var s' := Next(g, s, Resume(i, writeOk));
            i !in s'.calls && s'.world == s.world && Ended(s', i, Handler.Died) && s'.conn.log == s.conn.log
  {
  }

  /** The failure of a write loses exactly the call that waits for it. */
  lemma FailedWriteLoses(g: Setting, s: Session, f: nat, ok: bool, i: nat)
    requires Enabled(g, s, Queue(QueueRuns.WriteDone(f, ok))) && MsgQueue.Wf(s.world.q) && i in s.calls
    ensures var s', c := Next(g, s, Queue(QueueRuns.WriteDone(f, ok))), s.calls[i];
            i in s'.calls && s'.calls[i] == c.(lost := c.lost || (!ok && c.writes && c.awaits == f))
  {
    assert Next(g, s, Queue(QueueRuns.WriteDone(f, ok))).calls == Withdraw(s.calls, QueueRuns.WriteDone(f, ok));
  }

  // ----- Every call that returns can be answered -----

  /** A run in which every event can happen when it comes. */
  ghost predicate EachEnabled(g: Setting, s: Session, es: seq<Event>)
    requires MsgQueue.Wf(s.world.q)
  {
    es != [] ==>
      EachEnabled(g, s, es[..|es| - 1]) && Enabled(g, Run(g, s, es[..|es| - 1]), es[|es| - 1])
  }

  lemma {:induction false} Concatenate(g: Setting, s: Session, a: seq<Event>, b: seq<Event>)
    requires MsgQueue.Wf(s.world.q) && EachEnabled(g, s, a) && EachEnabled(g, Run(g, s, a), b)
    ensures EachEnabled(g, s, a + b) && Run(g, s, a + b) == Run(g, Run(g, s, a), b)
  {
    if b == [] {
      assert a + b == a;
    } else {
      var n := |b| - 1;
      assert (a + b)[..|a + b| - 1] == a + b[..n];
      Concatenate(g, s, a, b[..n]);
    }
  }

  lemma OneEvent(g: Setting, s: Session, e: Event)
    requires MsgQueue.Wf(s.world.q) && Enabled(g, s, e)
    ensures EachEnabled(g, s, [e]) && Run(g, s, [e]) == Next(g, s, e)
  {
    assert [e][..0] == [];
  }

  /** Answers of the peer as events of the session. */
  function Lift(qs: seq<QueueRuns.Event>): (es: seq<Event>)
    ensures |es| == |qs|
  {
    if qs == [] then [] else Lift(qs[..|qs| - 1]) + [Queue(qs[|qs| - 1])]
  }

  lemma {:induction false} LiftedRun(g: Setting, s: Session, qs: seq<QueueRuns.Event>)
    requires MsgQueue.Wf(s.world.q) && QueueTheorems.AnswersOnly(g.peer, s.world, qs)
    ensures EachEnabled(g, s, Lift(qs)) && Run(g, s, Lift(qs)) == s.(world := QueueRuns.Exec(g.peer, s.world, qs))
  {
    if qs == [] {
    } else {
      var before, e := qs[..|qs| - 1], qs[|qs| - 1];
      LiftedRun(g, s, before);
      assert Lift(qs)[..|qs| - 1] == Lift(before);
      assert Withdraw(s.calls, e) == s.calls;
    }
  }

  lemma {:induction false} EachKeepsInv(g: Setting, s: Session, es: seq<Event>)
    requires OneCallEach(g.msgs) && Inv(g, s)
    ensures Inv(g, Run(g, s, es))
  {
    if es == [] {
    } else {
      EachKeepsInv(g, s, es[..|es| - 1]);
      StepKeepsInv(g, Run(g, s, es[..|es| - 1]), es[|es| - 1]);
    }
  }

  /** The peer answers all requests. */
  lemma ReachReplies(g: Setting, s: Session) returns (es: seq<Event>)
    requires OneCallEach(g.msgs) && Inv(g, s) && QueueTheorems.Healthy(s.world)
    ensures var s' := Run(g, s, es);
            && EachEnabled(g, s, es) && Inv(g, s') && QueueTheorems.Healthy(s'.world)
            && s'.conn == s.conn && s'.calls == s.calls
            && (forall f | f in s'.world.q.futures :: f.Result?)
  {
    var qs := QueueTheorems.CanDrain(g.peer, s.world);
    LiftedRun(g, s, qs);
    QueueTheorems.DrainedByAnswers(g.peer, s.world, qs);
    QueueTheorems.AnswersCountDown(g.peer, s.world, qs);
    es := Lift(qs);
    EachKeepsInv(g, s, es);
  }

  /** A write ends without failure. */
  lemma EndWrite(g: Setting, s: Session, f: nat)
    requires OneCallEach(g.msgs) && Inv(g, s) && QueueTheorems.Healthy(s.world) && f in s.world.q.writing
    ensures var e := Queue(QueueRuns.WriteDone(f, true));
            var s' := Next(g, s, e);
            && Enabled(g, s, e) && Inv(g, s') && QueueTheorems.Healthy(s'.world)
            && s'.conn == s.conn && s'.calls == s.calls
            && s'.world.q.futures == s.world.q.futures && f !in s'.world.q.writing
  {
    var e := QueueRuns.WriteDone(f, true);
    assert Withdraw(s.calls, e) == s.calls;
    QueueTheorems.StepIsHealthy(g.peer, s.world, e);
    StepKeepsInv(g, s, Queue(e));
  }

  /** The peer answers, and the write of the call ends, so that it is the turn of call i. */
  lemma ReachTurn(g: Setting, s: Session, i: nat) returns (es: seq<Event>)
    requires OneCallEach(g.msgs) && Inv(g, s) && QueueTheorems.Healthy(s.world) && i in s.calls
    ensures var s' := Run(g, s, es);
            && EachEnabled(g, s, es) && Inv(g, s') && QueueTheorems.Healthy(s'.world)
            && s'.conn == s.conn && s'.calls == s.calls
            && s.calls[i].awaits < |s'.world.q.futures| && s'.world.q.futures[s.calls[i].awaits].Result?
            && s.calls[i].awaits !in s'.world.q.writing
  {
    var f := s.calls[i].awaits;
    es := ReachReplies(g, s);
    var s1 := Run(g, s, es);
    assert Waiting(g, s1.world.asked, i, s1.calls[i]);
    if f in s1.world.q.writing {
      var e := Queue(QueueRuns.WriteDone(f, true));
      EndWrite(g, s1, f);
      OneEvent(g, s1, e);
      Concatenate(g, s, es, [e]);
      es := es + [e];
    }
  }

  /** A waiting call that would return after the replies rs has got fewer of them. */
  lemma FewerReplies(g: Setting, i: nat, rs: seq<string>, replies: seq<string>)
    requires i < |g.msgs| && Synchronous(g.peer, g.program, i, g.msgs[i], rs) && g.program(i, rs).Return?
    requires Synchronous(g.peer, g.program, i, g.msgs[i], replies) && g.program(i, replies).Ask?
    ensures |replies| < |rs|
  {
    if |replies| == |rs| {
      SynchronousAgree(g.peer, g.program, i, g.msgs[i], rs, replies);
    } else if |replies| > |rs| {
      SynchronousPrefix(g.peer, g.program, i, g.msgs[i], replies, |rs|);
      SynchronousAgree(g.peer, g.program, i, g.msgs[i], rs, replies[..|rs|]);
    }
  }

  /** And with no more than these replies it asks, or has got them all. */
  lemma AsksOrHasAll(g: Setting, i: nat, rs: seq<string>, replies: seq<string>)
    requires i < |g.msgs| && Synchronous(g.peer, g.program, i, g.msgs[i], rs) && g.program(i, rs).Return?
    requires Synchronous(g.peer, g.program, i, g.msgs[i], replies) && |replies| <= |rs|
    ensures g.program(i, replies).Ask? || replies == rs
  {
    SynchronousPrefix(g.peer, g.program, i, g.msgs[i], rs, |replies|);
    SynchronousAgree(g.peer, g.program, i, g.msgs[i], replies, rs[..|replies|]);
    assert rs[..|rs|] == rs;
  }

  lemma AskIsHealthy(g: Setting, s: Session, s': Session, i: nat, replies: seq<string>)
    requires Inv(g, s) && QueueTheorems.Healthy(s.world) && i < |g.msgs| && g.program(i, replies).Ask?
    requires s'.world == QueueRuns.Next(g.peer, s.world, QueueRuns.Ask(MsgQueue.Request(
                           g.msgs[i].channel, g.msgs[i].txid, g.program(i, replies).payload)))
    ensures QueueTheorems.Healthy(s'.world)
  {
    QueueTheorems.StepIsHealthy(g.peer, s.world, QueueRuns.Ask(MsgQueue.Request(
      g.msgs[i].channel, g.msgs[i].txid, g.program(i, replies).payload)));
  }

  /** From every session in which nothing has failed, a call that is waiting, and that returns resp
      when it is run alone, can be brought to its answer. */
  lemma {:induction false} BringToAnswer(g: Setting, s: Session, i: nat, rs: seq<string>) returns (es: seq<Event>)
    requires OneCallEach(g.msgs) && Inv(g, s) && QueueTheorems.Healthy(s.world) && i in s.calls && !s.calls[i].lost
    requires i < |g.msgs| && Synchronous(g.peer, g.program, i, g.msgs[i], rs) && g.program(i, rs).Return?
    ensures EachEnabled(g, s, es)
    ensures Handler.Completed(i, g.msgs[i].channel, g.msgs[i].txid, Handler.Normalised(g.program(i, rs).resp))
            in Run(g, s, es).conn.log
    decreases |rs| - |s.calls[i].replies|
  {
    assert Waiting(g, s.world.asked, i, s.calls[i]);
    FewerReplies(g, i, rs, s.calls[i].replies);
    es := ReachTurn(g, s, i);
    var s1 := Run(g, s, es);
    var e := Resume(i, true);
    var replies := s1.calls[i].replies + [s1.world.q.futures[s1.calls[i].awaits].response.payload];
    TurnTaken(g, s1, e, i, replies);
    AsksOrHasAll(g, i, rs, replies);
    OneEvent(g, s1, e);
    Concatenate(g, s, es, [e]);
    es := es + [e];
    if g.program(i, replies).Ask? {
      var s2 := Next(g, s1, e);
      AskIsHealthy(g, s1, s2, i, replies);
      var rest := BringToAnswer(g, s2, i, rs);
      Concatenate(g, s, es, rest);
      es := es + rest;
    }
  }

  /** Every call that has begun, has lost nothing and returns resp when it is run alone can still
      be answered: from every reachable session in which nothing has failed there is a run of
      events, each possible when it comes, after which the message with resp has been written. */
  lemma CallCanBeAnswered(g: Setting, es: seq<Event>, i: nat, resp: Option<Handler.Resp>) returns (more: seq<Event>)
    requires OneCallEach(g.msgs) && QueueTheorems.Healthy(Exec(g, es).world) && i < |g.msgs|
    requires var s := Exec(g, es);
             i in s.conn.tasks && s.conn.tasks[i].InChaincode? && (i in s.calls ==> !s.calls[i].lost)
    requires Returns(g.peer, g.program, i, g.msgs[i], resp)
    ensures EachEnabled(g, Exec(g, es), more)
    ensures Handler.Completed(i, g.msgs[i].channel, g.msgs[i].txid, Handler.Normalised(resp))
            in Run(g, Exec(g, es), more).conn.log
  {
    RunInv(g, es);
    var rs :| Synchronous(g.peer, g.program, i, g.msgs[i], rs) && g.program(i, rs) == Return(resp);
    more := BringToAnswer(g, Exec(g, es), i, rs);
  }
}
