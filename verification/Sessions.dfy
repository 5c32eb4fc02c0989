/** A connection as a whole: the handler, the request queue and the chaincode that runs in
    between, every call of it a coroutine that asks the peer and waits for the reply. */
module Sessions {
  import opened Wrappers
  import MsgQueue
  import QueueRuns
  import QueueTheorems
  import Handler
  import HandlerRuns

  // ----- Chaincode -----

  /** What a call of the chaincode does next. */
  datatype Action = Ask(payload: string) | Return(resp: Option<Handler.Resp>) | Raise

  /** The chaincode: what the call for message i does after these replies to its requests. */
  type Program = (nat, seq<string>) -> Action

  /** The requests that a call has made when it has got these replies. */
  function Requests(program: Program, i: nat, replies: seq<string>): seq<string> {
    if replies == [] then []
    else
      var n := |replies| - 1;
      Requests(program, i, replies[..n]) +
      match program(i, replies[..n])
      case Ask(payload) => [payload]
      case _ => []
  }

  /** The reference: these are the replies that the call gets when it is run alone, one plain
      synchronous request after the other, against the peer. */
  predicate Synchronous(peer: QueueRuns.Peer, program: Program, i: nat, msg: Handler.Message, replies: seq<string>) {
    replies != [] ==>
      var before, last := replies[..|replies| - 1], replies[|replies| - 1];
      && Synchronous(peer, program, i, msg, before)
      && program(i, before).Ask?
      && last == peer(msg.channel, msg.txid, Requests(program, i, before) + [program(i, before).payload])
  }

  /** The call, run alone, returns resp. */
  ghost predicate Returns(peer: QueueRuns.Peer, program: Program, i: nat, msg: Handler.Message,
                          resp: Option<Handler.Resp>)
  {
    exists replies :: Synchronous(peer, program, i, msg, replies) && program(i, replies) == Return(resp)
  }

  lemma {:induction false} SynchronousPrefix(peer: QueueRuns.Peer, program: Program, i: nat, msg: Handler.Message,
                                             replies: seq<string>, n: nat)
    requires Synchronous(peer, program, i, msg, replies) && n <= |replies|
    ensures Synchronous(peer, program, i, msg, replies[..n])
    ensures n < |replies| ==> program(i, replies[..n]).Ask?
    decreases |replies|
  {
    if n == |replies| {
      assert replies[..n] == replies;
    } else {
      var before := replies[..|replies| - 1];
      SynchronousPrefix(peer, program, i, msg, before, n);
      assert before[..n] == replies[..n];
    }
  }

  lemma {:induction false} SynchronousAgree(peer: QueueRuns.Peer, program: Program, i: nat, msg: Handler.Message,
                                            a: seq<string>, b: seq<string>)
    requires Synchronous(peer, program, i, msg, a) && Synchronous(peer, program, i, msg, b) && |a| == |b|
    ensures a == b
  {
    if a == [] {
    } else {
      var n := |a| - 1;
      SynchronousAgree(peer, program, i, msg, a[..n], b[..n]);
      assert a == a[..n] + [a[n]] && b == b[..n] + [b[n]];
    }
  }

  /** A call run alone returns at most one response. */
  lemma ReturnsOnce(peer: QueueRuns.Peer, program: Program, i: nat, msg: Handler.Message,
                    r1: Option<Handler.Resp>, r2: Option<Handler.Resp>)
    requires Returns(peer, program, i, msg, r1) && Returns(peer, program, i, msg, r2)
    ensures r1 == r2
  {
    var a :| Synchronous(peer, program, i, msg, a) && program(i, a) == Return(r1);
    var b :| Synchronous(peer, program, i, msg, b) && program(i, b) == Return(r2);
    if |a| <= |b| {
      SynchronousPrefix(peer, program, i, msg, b, |a|);
      SynchronousAgree(peer, program, i, msg, a, b[..|a|]);
      assert b[..|b|] == b;
    } else {
      SynchronousPrefix(peer, program, i, msg, a, |b|);
      SynchronousAgree(peer, program, i, msg, a[..|b|], b);
    }
  }

  // ----- Runs of a connection -----

  /** A call that waits: the replies it has got, the future of its last request, whether it also
      waits for the write of that request, which it does if it started the write itself, and
      whether that write has failed. */
  datatype Call = Call(replies: seq<string>, awaits: nat, writes: bool, lost: bool)

  datatype Session = Session(conn: Handler.Conn, world: QueueRuns.World, calls: map<nat, Call>)

  /** A task begins, a call goes on after its future is done, or something happens to the queue:
      a write ends, the peer answers, a waiter is cancelled. */
  datatype Event =
    | Begin(i: nat, stubBuilds: bool, writeOk: bool)
    | Resume(i: nat, writeOk: bool)
    | Queue(e: QueueRuns.Event)

  /** What does not change in the course of a run. The messages are those that are not replies
      of the peer; replies come as events of the queue. */
  datatype Setting = Setting(peer: QueueRuns.Peer, program: Program, msgs: seq<Handler.Message>)

  const START := Session(Handler.CONNECTED, QueueRuns.START, map[])

  function End(g: Setting, s: Session, i: nat, outcome: Handler.Outcome, writeOk: bool): Session {
    s.(conn := HandlerRuns.Next(g.msgs, s.conn, HandlerRuns.Finish(i, outcome, writeOk)), calls := s.calls - {i})
  }

  /** Call i runs until it waits again or ends. */
  function Proceed(g: Setting, s: Session, i: nat, replies: seq<string>, writeOk: bool): (r: Session)
    requires MsgQueue.Wf(s.world.q) && i < |g.msgs|
    ensures MsgQueue.Wf(r.world.q)
  {
    match g.program(i, replies)
    case Ask(payload) =>
      var req := MsgQueue.Request(g.msgs[i].channel, g.msgs[i].txid, payload);
      var fut, world := |s.world.q.futures|, QueueRuns.Next(g.peer, s.world, QueueRuns.Ask(req));
      s.(world := world, calls := s.calls[i := Call(replies, fut, fut in world.q.writing, false)])
    case Return(resp) => End(g, s, i, Handler.Returned(resp), writeOk)
    case Raise => End(g, s, i, Handler.Raised, writeOk)
  }

  /** A call goes on once its future is done and the write that it waits for, if any, has ended. */
  predicate Enabled(g: Setting, s: Session, e: Event) {
    match e
    case Begin(i, stubBuilds, writeOk) => HandlerRuns.Enabled(g.msgs, s.conn, HandlerRuns.Begin(i, stubBuilds, writeOk))
    case Resume(i, _) =>
      && i in s.calls && i < |g.msgs| && s.calls[i].awaits < |s.world.q.futures|
      && (s.calls[i].writes ==> s.calls[i].awaits !in s.world.q.writing)
      && !s.world.q.futures[s.calls[i].awaits].Pending?
    case Queue(e) => !e.Ask? && QueueRuns.Enabled(s.world, e)
  }

  /** A write ends. One that fails raises in the call that waits for it: by way of the future or,
      when the reply has come before, at once. */
  function Withdraw(calls: map<nat, Call>, e: QueueRuns.Event): map<nat, Call> {
    map i | i in calls ::
      if e.WriteDone? && !e.ok && calls[i].writes && calls[i].awaits == e.fut then calls[i].(lost := true) else calls[i]
  }

  /** A call dies of a future that failed or was cancelled and of the failure of its own write. */
  function Next(g: Setting, s: Session, e: Event): (r: Session)
    requires MsgQueue.Wf(s.world.q)
    ensures MsgQueue.Wf(r.world.q)
  {
    if !Enabled(g, s, e) then s
    else
      match e
      case Begin(i, stubBuilds, writeOk) =>
        var s' := s.(conn := HandlerRuns.Next(g.msgs, s.conn, HandlerRuns.Begin(i, stubBuilds, writeOk)));
        if i in s'.conn.tasks && s'.conn.tasks[i].InChaincode? then Proceed(g, s', i, [], writeOk) else s'
      case Resume(i, writeOk) =>
        var f := s.world.q.futures[s.calls[i].awaits];
        if f.Result? && !s.calls[i].lost then Proceed(g, s, i, s.calls[i].replies + [f.response.payload], writeOk)
        else End(g, s, i, Handler.Raised, writeOk)
      case Queue(e) => s.(world := QueueRuns.Next(g.peer, s.world, e), calls := Withdraw(s.calls, e))
  }

  function Run(g: Setting, s: Session, es: seq<Event>): (r: Session)
    requires MsgQueue.Wf(s.world.q)
    ensures MsgQueue.Wf(r.world.q)
  {
    if es == [] then s else Next(g, Run(g, s, es[..|es| - 1]), es[|es| - 1])
  }

  function Exec(g: Setting, es: seq<Event>): (r: Session)
    ensures MsgQueue.Wf(r.world.q)
  {
    Run(g, START, es)
  }

  /** The peer starts one call for each transaction, and its replies are not among the messages. */
  ghost predicate OneCallEach(msgs: seq<Handler.Message>) {
    && (forall i | 0 <= i < |msgs| :: !HandlerRuns.Replies(msgs[i].ty))
    && (forall i, j | 0 <= i < j < |msgs|
                      && HandlerRuns.CallsChaincode(msgs[i].ty) && HandlerRuns.CallsChaincode(msgs[j].ty) ::
          (msgs[i].channel, msgs[i].txid) != (msgs[j].channel, msgs[j].txid))
  }

  // ----- The invariant -----

  /** What has been asked in the transaction of message i. */
  function AskedFor(g: Setting, asked: seq<MsgQueue.Msg>, i: nat): seq<string>
    requires i < |g.msgs|
  {
    QueueRuns.Payloads(asked, g.msgs[i].channel, g.msgs[i].txid)
  }

  /** A waiting call has so far run as it would alone, and waits for the last request of its
      transaction. */
  ghost predicate Waiting(g: Setting, asked: seq<MsgQueue.Msg>, i: nat, c: Call) {
    && i < |g.msgs| && HandlerRuns.CallsChaincode(g.msgs[i].ty)
    && Synchronous(g.peer, g.program, i, g.msgs[i], c.replies)
    && g.program(i, c.replies).Ask?
    && c.awaits < |asked|
    && asked[c.awaits].req == MsgQueue.Request(g.msgs[i].channel, g.msgs[i].txid, g.program(i, c.replies).payload)
    && AskedFor(g, asked[..c.awaits + 1], i) == AskedFor(g, asked, i)
    && AskedFor(g, asked, i) == Requests(g.program, i, c.replies) + [g.program(i, c.replies).payload]
  }

  ghost predicate CallsWait(g: Setting, tasks: map<nat, Handler.Task>, asked: seq<MsgQueue.Msg>,
                            calls: map<nat, Call>)
  {
    forall i | i in calls :: Waiting(g, asked, i, calls[i]) && i in tasks && tasks[i].InChaincode?
  }

  /** Every call that is in the chaincode is one of these. */
  ghost predicate CallsKnown(tasks: map<nat, Handler.Task>, calls: set<nat>) {
    forall i | i in tasks && tasks[i].InChaincode? :: i in calls
  }

  /** Nothing has been asked yet for a call that has not begun. */
  ghost predicate FreshCalls(g: Setting, tasks: map<nat, Handler.Task>, asked: seq<MsgQueue.Msg>) {
    forall i | 0 <= i < |g.msgs| && HandlerRuns.CallsChaincode(g.msgs[i].ty) && i !in tasks ::
      AskedFor(g, asked, i) == []
  }

  /** The response in a COMPLETED message is what the call returns when it is run alone. */
  ghost predicate RightAnswer(g: Setting, out: Handler.Out) {
    out.Completed? ==>
      && out.origin < |g.msgs|
      && exists resp ::
         Returns(g.peer, g.program, out.origin, g.msgs[out.origin], resp) && out.resp == Handler.Normalised(resp)
  }

  ghost predicate RightLog(g: Setting, log: seq<Handler.Out>) {
    forall out | out in log :: RightAnswer(g, out)
  }

  ghost predicate Inv(g: Setting, s: Session) {
    && HandlerRuns.Inv(g.msgs, s.conn) && QueueRuns.Inv(g.peer, s.world)
    && CallsWait(g, s.conn.tasks, s.world.asked, s.calls) && CallsKnown(s.conn.tasks, s.calls.Keys)
    && FreshCalls(g, s.conn.tasks, s.world.asked) && RightLog(g, s.conn.log)
  }

  /** The rest of the invariant when call i is about to run, after these replies. */
  ghost predicate Running(g: Setting, s: Session, i: nat, replies: seq<string>) {
    && HandlerRuns.Inv(g.msgs, s.conn) && QueueRuns.Inv(g.peer, s.world)
    && CallsWait(g, s.conn.tasks, s.world.asked, s.calls - {i}) && CallsKnown(s.conn.tasks, s.calls.Keys + {i})
    && FreshCalls(g, s.conn.tasks, s.world.asked) && RightLog(g, s.conn.log)
    && i < |g.msgs| && HandlerRuns.CallsChaincode(g.msgs[i].ty) && i in s.conn.tasks && s.conn.tasks[i].InChaincode?
    && Synchronous(g.peer, g.program, i, g.msgs[i], replies)
    && AskedFor(g, s.world.asked, i) == Requests(g.program, i, replies)
  }

  lemma AppendPayload(asked: seq<MsgQueue.Msg>, m: MsgQueue.Msg, ch: string, tx: string)
    ensures QueueRuns.Payloads(asked + [m], ch, tx) ==
            var before := QueueRuns.Payloads(asked, ch, tx);
            if m.req.channel == ch && m.req.txid == tx then before + [m.req.payload] else before
  {
    assert (asked + [m])[..|asked|] == asked;
  }

  /** A request of another transaction does not concern a waiting call. */
  lemma StillWaiting(g: Setting, asked: seq<MsgQueue.Msg>, m: MsgQueue.Msg, i: nat, c: Call)
    requires Waiting(g, asked, i, c) && (m.req.channel, m.req.txid) != (g.msgs[i].channel, g.msgs[i].txid)
    ensures Waiting(g, asked + [m], i, c)
  {
    AppendPayload(asked, m, g.msgs[i].channel, g.msgs[i].txid);
    assert (asked + [m])[..c.awaits + 1] == asked[..c.awaits + 1];
  }

  lemma NowWaiting(g: Setting, asked: seq<MsgQueue.Msg>, m: MsgQueue.Msg, i: nat, replies: seq<string>)
    requires i < |g.msgs| && HandlerRuns.CallsChaincode(g.msgs[i].ty)
    requires Synchronous(g.peer, g.program, i, g.msgs[i], replies) && g.program(i, replies).Ask?
    requires AskedFor(g, asked, i) == Requests(g.program, i, replies)
    requires m.req == MsgQueue.Request(g.msgs[i].channel, g.msgs[i].txid, g.program(i, replies).payload)
    ensures forall writes :: Waiting(g, asked + [m], i, Call(replies, |asked|, writes, false))
  {
    AppendPayload(asked, m, g.msgs[i].channel, g.msgs[i].txid);
    assert (asked + [m])[..|asked| + 1] == asked + [m];
  }

  /** Call i asks for m and waits for it; the others go on waiting. */
  lemma AskedCallsWait(g: Setting, tasks: map<nat, Handler.Task>, asked: seq<MsgQueue.Msg>, calls: map<nat, Call>,
                       m: MsgQueue.Msg, i: nat, c: Call)
    requires OneCallEach(g.msgs) && i < |g.msgs| && HandlerRuns.CallsChaincode(g.msgs[i].ty)
    requires CallsWait(g, tasks, asked, calls - {i}) && i in tasks && tasks[i].InChaincode?
    requires Waiting(g, asked + [m], i, c)
    requires (m.req.channel, m.req.txid) == (g.msgs[i].channel, g.msgs[i].txid)
    ensures CallsWait(g, tasks, asked + [m], calls[i := c])
  {
    forall k | k in calls && k != i
      ensures Waiting(g, asked + [m], k, calls[k]) && k in tasks && tasks[k].InChaincode?
    {
      assert k in calls - {i} && (calls - {i})[k] == calls[k];
      StillWaiting(g, asked, m, k, calls[k]);
    }
  }

  lemma AskedFresh(g: Setting, tasks: map<nat, Handler.Task>, asked: seq<MsgQueue.Msg>, m: MsgQueue.Msg, i: nat)
    requires OneCallEach(g.msgs) && i < |g.msgs| && HandlerRuns.CallsChaincode(g.msgs[i].ty) && i in tasks
    requires FreshCalls(g, tasks, asked) && (m.req.channel, m.req.txid) == (g.msgs[i].channel, g.msgs[i].txid)
    ensures FreshCalls(g, tasks, asked + [m])
  {
    forall k | 0 <= k < |g.msgs| && HandlerRuns.CallsChaincode(g.msgs[k].ty) && k !in tasks
      ensures AskedFor(g, asked + [m], k) == []
    {
      AppendPayload(asked, m, g.msgs[k].channel, g.msgs[k].txid);
    }
  }

  lemma AskKeepsInv(g: Setting, s: Session, i: nat, replies: seq<string>, writeOk: bool)
    requires OneCallEach(g.msgs) && Running(g, s, i, replies) && g.program(i, replies).Ask?
    ensures Inv(g, Proceed(g, s, i, replies, writeOk))
  {
    var req := MsgQueue.Request(g.msgs[i].channel, g.msgs[i].txid, g.program(i, replies).payload);
    var m := MsgQueue.Msg(req, |s.world.q.futures|);
    var fut := |s.world.q.futures|;
    var c := Call(replies, fut, fut in QueueRuns.Next(g.peer, s.world, QueueRuns.Ask(req)).q.writing, false);
    QueueRuns.AskKeepsInv(g.peer, s.world, req);
    NowWaiting(g, s.world.asked, m, i, replies);
    AskedCallsWait(g, s.conn.tasks, s.world.asked, s.calls, m, i, c);
    AskedFresh(g, s.conn.tasks, s.world.asked, m, i);
    var s' := Proceed(g, s, i, replies, writeOk);
    assert s'.conn == s.conn && s'.world.asked == s.world.asked + [m] && s'.calls == s.calls[i := c];
  }

  lemma EndKeepsInv(g: Setting, s: Session, i: nat, outcome: Handler.Outcome, writeOk: bool)
    requires HandlerRuns.Inv(g.msgs, s.conn) && QueueRuns.Inv(g.peer, s.world)
    requires CallsWait(g, s.conn.tasks, s.world.asked, s.calls - {i})
             && CallsKnown(s.conn.tasks, s.calls.Keys + {i})
             && FreshCalls(g, s.conn.tasks, s.world.asked) && RightLog(g, s.conn.log)
    requires i < |g.msgs| && i in s.conn.tasks && s.conn.tasks[i].InChaincode?
    requires outcome.Returned? ==> Returns(g.peer, g.program, i, g.msgs[i], outcome.resp)
    ensures Inv(g, End(g, s, i, outcome, writeOk))
  {
    HandlerRuns.StepKeepsInv(g.msgs, s.conn, HandlerRuns.Finish(i, outcome, writeOk));
  }

  lemma ProceedKeepsInv(g: Setting, s: Session, i: nat, replies: seq<string>, writeOk: bool)
    requires OneCallEach(g.msgs) && Running(g, s, i, replies)
    ensures Inv(g, Proceed(g, s, i, replies, writeOk))
  {
    match g.program(i, replies)
    case Ask(_) => AskKeepsInv(g, s, i, replies, writeOk);
    case Return(resp) => EndKeepsInv(g, s, i, Handler.Returned(resp), writeOk);
    case Raise => EndKeepsInv(g, s, i, Handler.Raised, writeOk);
  }

  /** What the begin of a task does to the handler. */
  lemma BeginEffect(msgs: seq<Handler.Message>, c: Handler.Conn, i: nat, stubBuilds: bool, writeOk: bool)
    requires HandlerRuns.Enabled(msgs, c, HandlerRuns.Begin(i, stubBuilds, writeOk))
    ensures var c' := HandlerRuns.Next(msgs, c, HandlerRuns.Begin(i, stubBuilds, writeOk));
            && (forall k :: k in c'.tasks <==> k in c.tasks || k == i)
            && (forall k | k in c.tasks :: c'.tasks[k] == c.tasks[k])
            && (c'.tasks[i].InChaincode? ==> HandlerRuns.CallsChaincode(msgs[i].ty))
            && (forall out | out in c'.log :: out in c.log || out.ErrorReply?)
  {
  }

  lemma BeginKeepsInv(g: Setting, s: Session, i: nat, stubBuilds: bool, writeOk: bool)
    requires OneCallEach(g.msgs) && Inv(g, s) && Enabled(g, s, Begin(i, stubBuilds, writeOk))
    ensures Inv(g, Next(g, s, Begin(i, stubBuilds, writeOk)))
  {
    var conn := HandlerRuns.Next(g.msgs, s.conn, HandlerRuns.Begin(i, stubBuilds, writeOk));
    BeginEffect(g.msgs, s.conn, i, stubBuilds, writeOk);
    HandlerRuns.StepKeepsInv(g.msgs, s.conn, HandlerRuns.Begin(i, stubBuilds, writeOk));
    assert i !in s.calls && s.calls - {i} == s.calls;
    BegunKeepsInv(g, s, conn, i, writeOk);
  }

  /** Call i has begun. */
  lemma BegunIsRunning(g: Setting, s: Session, conn: Handler.Conn, i: nat)
    requires Inv(g, s) && HandlerRuns.Inv(g.msgs, conn)
    requires i < |g.msgs| && i !in s.conn.tasks && s.calls - {i} == s.calls
    requires forall k :: k in conn.tasks <==> k in s.conn.tasks || k == i
    requires forall k | k in s.conn.tasks :: conn.tasks[k] == s.conn.tasks[k]
    requires HandlerRuns.CallsChaincode(g.msgs[i].ty) && conn.tasks[i].InChaincode?
    requires forall out | out in conn.log :: out in s.conn.log || out.ErrorReply?
    ensures Running(g, s.(conn := conn), i, [])
  {
  }

  lemma BegunKeepsInv(g: Setting, s: Session, conn: Handler.Conn, i: nat, writeOk: bool)
    requires OneCallEach(g.msgs) && Inv(g, s) && HandlerRuns.Inv(g.msgs, conn)
    requires i < |g.msgs| && i !in s.conn.tasks && s.calls - {i} == s.calls
    requires forall k :: k in conn.tasks <==> k in s.conn.tasks || k == i
    requires forall k | k in s.conn.tasks :: conn.tasks[k] == s.conn.tasks[k]
    requires conn.tasks[i].InChaincode? ==> HandlerRuns.CallsChaincode(g.msgs[i].ty)
    requires forall out | out in conn.log :: out in s.conn.log || out.ErrorReply?
    ensures var s' := s.(conn := conn);
            Inv(g, if conn.tasks[i].InChaincode? then Proceed(g, s', i, [], writeOk) else s')
  {
    if conn.tasks[i].InChaincode? {
      BegunIsRunning(g, s, conn, i);
      ProceedKeepsInv(g, s.(conn := conn), i, [], writeOk);
    }
  }

  /** The reply in a future is the one that the peer gives after all that the transaction has
      asked. */
  lemma ReplyInFuture(g: Setting, w: QueueRuns.World, i: nat, c: Call)
    requires QueueRuns.Inv(g.peer, w) && Waiting(g, w.asked, i, c) && w.q.futures[c.awaits].Result?
    ensures w.q.futures[c.awaits].response.payload == g.peer(g.msgs[i].channel, g.msgs[i].txid, AskedFor(g, w.asked, i))
  {
    var upTo := w.asked[..c.awaits + 1];
    assert upTo[|upTo| - 1] == w.asked[c.awaits];
    assert w.q.futures[c.awaits].response == QueueRuns.Expected(g.peer, w.asked, c.awaits);
  }

  lemma ReplyIsSynchronous(g: Setting, asked: seq<MsgQueue.Msg>, i: nat, c: Call, reply: string)
    requires Waiting(g, asked, i, c) && reply == g.peer(g.msgs[i].channel, g.msgs[i].txid, AskedFor(g, asked, i))
    ensures Synchronous(g.peer, g.program, i, g.msgs[i], c.replies + [reply])
    ensures AskedFor(g, asked, i) == Requests(g.program, i, c.replies + [reply])
  {
    var replies := c.replies + [reply];
    assert replies[..|replies| - 1] == c.replies;
  }

  /** A call whose reply has come is about to go on with it. */
  lemma ResumedIsRunning(g: Setting, s: Session, i: nat)
    requires Inv(g, s) && i in s.calls && s.calls[i].awaits < |s.world.q.futures|
    requires s.world.q.futures[s.calls[i].awaits].Result?
    ensures Running(g, s, i, s.calls[i].replies + [s.world.q.futures[s.calls[i].awaits].response.payload])
  {
    var c := s.calls[i];
    assert forall k | k in s.calls - {i} :: k in s.calls && (s.calls - {i})[k] == s.calls[k];
    ReplyInFuture(g, s.world, i, c);
    ReplyIsSynchronous(g, s.world.asked, i, c, s.world.q.futures[c.awaits].response.payload);
  }

  lemma ResumeKeepsInv(g: Setting, s: Session, i: nat, writeOk: bool)
    requires OneCallEach(g.msgs) && Inv(g, s) && Enabled(g, s, Resume(i, writeOk))
    ensures Inv(g, Next(g, s, Resume(i, writeOk)))
  {
    var c := s.calls[i];
    if s.world.q.futures[c.awaits].Result? && !c.lost {
      ResumedIsRunning(g, s, i);
      ProceedKeepsInv(g, s, i, c.replies + [s.world.q.futures[c.awaits].response.payload], writeOk);
    } else {
      assert forall k | k in s.calls - {i} :: k in s.calls && (s.calls - {i})[k] == s.calls[k];
      EndKeepsInv(g, s, i, Handler.Raised, writeOk);
    }
  }

  lemma StillAllWaiting(g: Setting, tasks: map<nat, Handler.Task>, asked: seq<MsgQueue.Msg>, calls: map<nat, Call>,
                        e: QueueRuns.Event)
    requires CallsWait(g, tasks, asked, calls)
    ensures CallsWait(g, tasks, asked, Withdraw(calls, e))
  {
    forall i | i in calls ensures Waiting(g, asked, i, Withdraw(calls, e)[i]) {
      assert Waiting(g, asked, i, calls[i]);
    }
  }

  lemma QueueKeepsInv(g: Setting, s: Session, e: QueueRuns.Event)
    requires Inv(g, s) && !e.Ask?
    ensures Inv(g, s.(world := QueueRuns.Next(g.peer, s.world, e), calls := Withdraw(s.calls, e)))
  {
    QueueRuns.StepKeepsInv(g.peer, s.world, e);
    assert QueueRuns.Next(g.peer, s.world, e).asked == s.world.asked;
    StillAllWaiting(g, s.conn.tasks, s.world.asked, s.calls, e);
  }

  lemma StepKeepsInv(g: Setting, s: Session, e: Event)
    requires OneCallEach(g.msgs) && Inv(g, s)
    ensures Inv(g, Next(g, s, e))
  {
    if Enabled(g, s, e) {
      match e
      case Begin(i, stubBuilds, writeOk) => BeginKeepsInv(g, s, i, stubBuilds, writeOk);
      case Resume(i, writeOk) => ResumeKeepsInv(g, s, i, writeOk);
      case Queue(e) => QueueKeepsInv(g, s, e);
    }
  }

  lemma {:induction false} RunInv(g: Setting, es: seq<Event>)
    requires OneCallEach(g.msgs)
    ensures Inv(g, Exec(g, es))
  {
    if es == [] {
      HandlerRuns.RunInv(g.msgs, []);
      QueueTheorems.RunInv(g.peer, []);
    } else {
      RunInv(g, es[..|es| - 1]);
      StepKeepsInv(g, Exec(g, es[..|es| - 1]), es[|es| - 1]);
    }
  }

  // ----- Theorems -----

  /** However calls, writes and replies of all transactions are interleaved, failures included:
      a COMPLETED message is the only message for its call, and carries its channel, its
      transaction id and the response that the call returns when it is run alone. */
  lemma CompletedAsIfAlone(g: Setting, es: seq<Event>, k: nat)
    requires OneCallEach(g.msgs)
    requires k < |Exec(g, es).conn.log| && Exec(g, es).conn.log[k].Completed?
    ensures var log := Exec(g, es).conn.log;
            var i := log[k].origin;
            && i < |g.msgs| && log[k].channel == g.msgs[i].channel && log[k].txid == g.msgs[i].txid
            && (forall j | 0 <= j < |log| && log[j].origin == i :: j == k)
            && (exists resp ::
                  Returns(g.peer, g.program, i, g.msgs[i], resp) && log[k].resp == Handler.Normalised(resp))
  {
    RunInv(g, es);
    var s := Exec(g, es);
    var i := s.conn.log[k].origin;
    assert RightAnswer(g, s.conn.log[k]);
    assert HandlerRuns.LogMatches(g.msgs, s.conn, i);
  }

  /** So the answer to a call does not depend on the run: in any two runs it is the same. */
  lemma InterleavingDoesNotMatter(g: Setting, es: seq<Event>, k: nat, es': seq<Event>, k': nat)
    requires OneCallEach(g.msgs)
    requires k < |Exec(g, es).conn.log| && Exec(g, es).conn.log[k].Completed?
    requires k' < |Exec(g, es').conn.log| && Exec(g, es').conn.log[k'].Completed?
    requires Exec(g, es).conn.log[k].origin == Exec(g, es').conn.log[k'].origin
    ensures Exec(g, es).conn.log[k] == Exec(g, es').conn.log[k']
  {
    CompletedAsIfAlone(g, es, k);
    CompletedAsIfAlone(g, es', k');
    var i := Exec(g, es).conn.log[k].origin;
    var r1 :| Returns(g.peer, g.program, i, g.msgs[i], r1) && Exec(g, es).conn.log[k].resp == Handler.Normalised(r1);
    var r2 :| Returns(g.peer, g.program, i, g.msgs[i], r2) && Exec(g, es').conn.log[k'].resp == Handler.Normalised(r2);
    ReturnsOnce(g.peer, g.program, i, g.msgs[i], r1, r2);
  }

  /** While no write has failed and no waiter was cancelled, no call is stuck: it can go on, its
      write has yet to end, or the peer owes an answer. */
  lemma CallsGoOn(g: Setting, es: seq<Event>, i: nat) returns (e: Event)
    requires OneCallEach(g.msgs) && i in Exec(g, es).calls && QueueTheorems.Healthy(Exec(g, es).world)
    ensures Enabled(g, Exec(g, es), e)
    ensures e == Resume(i, true) ||
            (e.Queue? && (e.e == QueueRuns.WriteDone(Exec(g, es).calls[i].awaits, true) || e.e.PeerAnswers?))
  {
    RunInv(g, es);
    var s := Exec(g, es);
    var f := s.calls[i].awaits;
    if s.calls[i].writes && f in s.world.q.writing {
      return Queue(QueueRuns.WriteDone(f, true));
    }
    if s.world.q.futures[f].Pending? {
      QueueTheorems.CountsPending(s.world.q.futures, f);
      var j := QueueTheorems.NoDeadlock(g.peer, s.world);
      return Queue(QueueRuns.PeerAnswers(j));
    }
    return Resume(i, true);
  }
}
