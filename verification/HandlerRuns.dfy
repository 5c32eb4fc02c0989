/** Runs of one connection, in any order in which its tasks get to run. */
module HandlerRuns {
  import opened Wrappers
  import opened Handler

  datatype Event =
    | Begin(i: nat, stubBuilds: bool, writeOk: bool)
    | Finish(i: nat, outcome: Outcome, writeOk: bool)

  /** A task begins once; it finishes after its call of the chaincode has begun. */
  predicate Enabled(msgs: seq<Message>, c: Conn, e: Event) {
    && e.i < |msgs|
    && (match e
        case Begin(i, _, _) => i !in c.tasks
        case Finish(i, _, _) => i in c.tasks && c.tasks[i].InChaincode?)
  }

  function Next(msgs: seq<Message>, c: Conn, e: Event): Conn {
    if !Enabled(msgs, c, e) then c
    else
      match e
      case Begin(i, stubBuilds, writeOk) => StartTask(c, i, msgs[i], stubBuilds, writeOk)
      case Finish(i, outcome, writeOk) => FinishTask(c, i, msgs[i], outcome, writeOk)
  }

  function Exec(msgs: seq<Message>, es: seq<Event>): Conn {
    if es == [] then CONNECTED else Next(msgs, Exec(msgs, es[..|es| - 1]), es[|es| - 1])
  }

  function Rank(p: Phase): nat {
    match p
    case Created => 0
    case Established => 1
    case Ready => 2
  }

  // ----- The invariant -----

  ghost predicate Handled(msgs: seq<Message>, c: Conn, ty: MsgType, p: nat)
    requires p < |c.started|
  {
    c.started[p] < |msgs| && msgs[c.started[p]].ty == ty
  }

  /** One of the first n tasks that started handled REGISTERED. */
  ghost predicate RegisteredBefore(msgs: seq<Message>, c: Conn, n: nat)
    requires n <= |c.started|
  {
    exists a | 0 <= a < n :: Handled(msgs, c, REGISTERED, a)
  }

  /** Among the first n tasks that started, one handled REGISTERED and a later one READY. */
  ghost predicate HandshakeBefore(msgs: seq<Message>, c: Conn, n: nat)
    requires n <= |c.started|
  {
    exists b | 0 <= b < n :: Handled(msgs, c, READY, b) && RegisteredBefore(msgs, c, b)
  }

  ghost predicate PhaseEarned(msgs: seq<Message>, c: Conn) {
    && (c.phase != Created <==> RegisteredBefore(msgs, c, |c.started|))
    && (c.phase == Ready <==> HandshakeBefore(msgs, c, |c.started|))
  }

  /** The task has called, or is calling, the chaincode. */
  predicate CalledChaincode(t: Task) {
    t.InChaincode? || t.CompletedWritten?
  }

  predicate CallsChaincode(ty: MsgType) {
    ty == INIT || ty == TRANSACTION
  }

  predicate Replies(ty: MsgType) {
    ty == RESPONSE || ty == ERROR
  }

  /** The type of message that moves the state on after the first n tasks. */
  ghost predicate Awaited(msgs: seq<Message>, c: Conn, n: nat, ty: MsgType)
    requires n <= |c.started|
  {
    || (ty == REGISTERED && !RegisteredBefore(msgs, c, n))
    || (ty == READY && RegisteredBefore(msgs, c, n) && !HandshakeBefore(msgs, c, n))
  }

  ghost predicate TaskEarned(msgs: seq<Message>, c: Conn, p: nat)
    requires p < |c.started|
  {
    var i := c.started[p];
    && i < |msgs| && i in c.tasks
    && (CalledChaincode(c.tasks[i]) ==> CallsChaincode(msgs[i].ty) && HandshakeBefore(msgs, c, p))
    && (CallsChaincode(msgs[i].ty) && HandshakeBefore(msgs, c, p) ==> CalledChaincode(c.tasks[i]) || c.tasks[i].Died?)
    && (c.tasks[i].PassedToQueue? <==> Replies(msgs[i].ty) && HandshakeBefore(msgs, c, p))
    && (c.tasks[i].Ignored? <==> msgs[i].ty == KEEPALIVE)
    && (c.tasks[i].PhaseChanged? <==> Awaited(msgs, c, p, msgs[i].ty))
    && (c.tasks[i].InChaincode? ==> c.tasks[i].isInit == (msgs[i].ty == INIT))
  }

  /** Message i has been answered by entry k of the log and by no other. */
  ghost predicate AnsweredAt(msgs: seq<Message>, c: Conn, i: nat, k: nat)
    requires i in c.tasks && i < |msgs|
  {
    && k < |c.log| && c.log[k].origin == i
    && (forall j | 0 <= j < |c.log| && c.log[j].origin == i :: j == k)
    && c.log[k].txid == msgs[i].txid
    && (c.tasks[i].ErrorWritten? <==> c.log[k].ErrorReply?)
    && (c.log[k].Completed? ==> c.log[k].channel == msgs[i].channel && c.log[k].resp.status != 0)
  }

  ghost predicate LogMatches(msgs: seq<Message>, c: Conn, i: nat)
    requires i < |msgs|
  {
    if i in c.tasks && (c.tasks[i].ErrorWritten? || c.tasks[i].CompletedWritten?)
    then exists k :: AnsweredAt(msgs, c, i, k)
    else forall j | 0 <= j < |c.log| :: c.log[j].origin != i
  }

  ghost predicate Inv(msgs: seq<Message>, c: Conn) {
    && PhaseEarned(msgs, c)
    && (forall p | 0 <= p < |c.started| :: TaskEarned(msgs, c, p))
    && (forall p, q | 0 <= p < q < |c.started| :: c.started[p] != c.started[q])
    && (forall i :: i in c.tasks <==> i in c.started)
    && (forall i | 0 <= i < |msgs| :: LogMatches(msgs, c, i))
  }

  /** What was started before is not changed by what is started later. */
  lemma SameHandshake(msgs: seq<Message>, c: Conn, c': Conn, n: nat)
    requires n <= |c.started| <= |c'.started| && c'.started[..|c.started|] == c.started
    ensures RegisteredBefore(msgs, c, n) <==> RegisteredBefore(msgs, c', n)
    ensures HandshakeBefore(msgs, c, n) <==> HandshakeBefore(msgs, c', n)
  {
    assert forall p | 0 <= p < |c.started| :: c'.started[p] == c'.started[..|c.started|][p];
    assert forall p, ty | 0 <= p < |c.started| :: Handled(msgs, c, ty, p) <==> Handled(msgs, c', ty, p);
    assert forall b: nat | b <= n :: RegisteredBefore(msgs, c, b) <==> RegisteredBefore(msgs, c', b);
  }

  /** Counting in one more task. */
  lemma OneMoreStarted(msgs: seq<Message>, c: Conn, n: nat, m: nat)
    requires n < |c.started| && m == n + 1
    ensures RegisteredBefore(msgs, c, m) <==> Handled(msgs, c, REGISTERED, n) || RegisteredBefore(msgs, c, n)
    ensures HandshakeBefore(msgs, c, m) <==>
            HandshakeBefore(msgs, c, n) || (Handled(msgs, c, READY, n) && RegisteredBefore(msgs, c, n))
  {
  }

  lemma BeginKeepsPhase(msgs: seq<Message>, c: Conn, e: Event)
    requires Inv(msgs, c) && e.Begin? && Enabled(msgs, c, e)
    ensures PhaseEarned(msgs, Next(msgs, c, e))
  {
    var c' := Next(msgs, c, e);
    assert c'.started == c.started + [e.i];
    SameHandshake(msgs, c, c', |c.started|);
    OneMoreStarted(msgs, c', |c.started|, |c'.started|);
  }

  /** The task that begins finds the handshake complete exactly when the state is ready. */
  lemma BegunTask(msgs: seq<Message>, c: Conn, e: Event)
    requires PhaseEarned(msgs, c) && e.Begin? && Enabled(msgs, c, e)
    ensures TaskEarned(msgs, Next(msgs, c, e), |c.started|)
  {
    var c' := Next(msgs, c, e);
    assert c'.started == c.started + [e.i];
    SameHandshake(msgs, c, c', |c.started|);
  }

  lemma EarlierTask(msgs: seq<Message>, c: Conn, e: Event, p: nat)
    requires e.Begin? && Enabled(msgs, c, e) && p < |c.started| && TaskEarned(msgs, c, p)
    ensures TaskEarned(msgs, Next(msgs, c, e), p)
  {
    var c' := Next(msgs, c, e);
    assert c'.started == c.started + [e.i];
    SameHandshake(msgs, c, c', p);
  }

  /** What a step adds to the log, at most one message, answers the message of its task. */
  lemma LogEffect(msgs: seq<Message>, c: Conn, e: Event)
    requires Enabled(msgs, c, e)
    ensures var c' := Next(msgs, c, e);
            && |c.log| <= |c'.log| <= |c.log| + 1 && c'.log[..|c.log|] == c.log
            && (|c'.log| > |c.log| ==> c'.log[|c.log|].origin == e.i)
            && (forall i | i != e.i :: i in c'.tasks <==> i in c.tasks)
            && (forall i | i in c.tasks && i != e.i :: c'.tasks[i] == c.tasks[i])
  {
  }

  lemma StepKeepsOtherLog(msgs: seq<Message>, c: Conn, e: Event, i: nat)
    requires Enabled(msgs, c, e) && i < |msgs| && i != e.i && LogMatches(msgs, c, i)
    ensures LogMatches(msgs, Next(msgs, c, e), i)
  {
    var c' := Next(msgs, c, e);
    LogEffect(msgs, c, e);
    assert forall j | 0 <= j < |c.log| :: c'.log[j] == c'.log[..|c.log|][j];
    if k: nat :| i in c.tasks && AnsweredAt(msgs, c, i, k) {
      assert AnsweredAt(msgs, c', i, k);
    }
  }

  lemma StepKeepsOwnLog(msgs: seq<Message>, c: Conn, e: Event)
    requires Enabled(msgs, c, e) && LogMatches(msgs, c, e.i)
    ensures LogMatches(msgs, Next(msgs, c, e), e.i)
  {
    var c' := Next(msgs, c, e);
    if |c'.log| > |c.log| {
      assert AnsweredAt(msgs, c', e.i, |c.log|);
    }
  }

  lemma StepKeepsLog(msgs: seq<Message>, c: Conn, e: Event, i: nat)
    requires Enabled(msgs, c, e) && i < |msgs| && LogMatches(msgs, c, i)
    ensures LogMatches(msgs, Next(msgs, c, e), i)
  {
    if i == e.i {
      StepKeepsOwnLog(msgs, c, e);
    } else {
      StepKeepsOtherLog(msgs, c, e, i);
    }
  }

  lemma FinishKeepsTasks(msgs: seq<Message>, c: Conn, e: Event, p: nat)
    requires Inv(msgs, c) && e.Finish? && Enabled(msgs, c, e) && p < |c.started|
    ensures TaskEarned(msgs, Next(msgs, c, e), p)
  {
    assert TaskEarned(msgs, c, p);
    SameHandshake(msgs, c, Next(msgs, c, e), p);
  }

  lemma BeginKeepsIndex(msgs: seq<Message>, c: Conn, e: Event)
    requires e.Begin? && Enabled(msgs, c, e)
    requires forall p, q | 0 <= p < q < |c.started| :: c.started[p] != c.started[q]
    requires forall i :: i in c.tasks <==> i in c.started
    ensures var c' := Next(msgs, c, e);
            && (forall p, q | 0 <= p < q < |c'.started| :: c'.started[p] != c'.started[q])
            && (forall i :: i in c'.tasks <==> i in c'.started)
  {
    var c' := Next(msgs, c, e);
    assert c'.started == c.started + [e.i] && e.i !in c.started;
    assert forall i :: i in c'.started <==> i in c.started || i == e.i;
  }

  lemma BeginKeepsInv(msgs: seq<Message>, c: Conn, e: Event)
    requires Inv(msgs, c) && e.Begin? && Enabled(msgs, c, e)
    ensures Inv(msgs, Next(msgs, c, e))
  {
    var c' := Next(msgs, c, e);
    BeginKeepsPhase(msgs, c, e);
    BeginKeepsIndex(msgs, c, e);
    assert |c'.started| == |c.started| + 1;
    forall p | 0 <= p < |c'.started| ensures TaskEarned(msgs, c', p) {
      if p < |c.started| {
        EarlierTask(msgs, c, e, p);
      } else {
        BegunTask(msgs, c, e);
      }
    }
    forall i | 0 <= i < |msgs| ensures LogMatches(msgs, c', i) {
      StepKeepsLog(msgs, c, e, i);
    }
  }

  lemma FinishKeepsPhase(msgs: seq<Message>, c: Conn, e: Event)
    requires Inv(msgs, c) && e.Finish? && Enabled(msgs, c, e)
    ensures PhaseEarned(msgs, Next(msgs, c, e))
  {
    SameHandshake(msgs, c, Next(msgs, c, e), |c.started|);
  }

  lemma FinishKeepsInv(msgs: seq<Message>, c: Conn, e: Event)
    requires Inv(msgs, c) && e.Finish? && Enabled(msgs, c, e)
    ensures Inv(msgs, Next(msgs, c, e))
  {
    var c' := Next(msgs, c, e);
    FinishKeepsPhase(msgs, c, e);
    forall p | 0 <= p < |c'.started| ensures TaskEarned(msgs, c', p) {
      FinishKeepsTasks(msgs, c, e, p);
    }
    forall i | 0 <= i < |msgs| ensures LogMatches(msgs, c', i) {
      StepKeepsLog(msgs, c, e, i);
    }
  }

  lemma StepKeepsInv(msgs: seq<Message>, c: Conn, e: Event)
    requires Inv(msgs, c)
    ensures Inv(msgs, Next(msgs, c, e))
  {
    if Enabled(msgs, c, e) {
      if e.Begin? {
        BeginKeepsInv(msgs, c, e);
      } else {
        FinishKeepsInv(msgs, c, e);
      }
    }
  }

  lemma {:induction false} RunInv(msgs: seq<Message>, es: seq<Event>)
    ensures Inv(msgs, Exec(msgs, es))
  {
    if es == [] {
    } else {
      RunInv(msgs, es[..|es| - 1]);
      StepKeepsInv(msgs, Exec(msgs, es[..|es| - 1]), es[|es| - 1]);
    }
  }

  // ----- Theorems -----

  /** The state at any point of a run follows from the messages handled so far. */
  lemma PhaseFollowsHandshake(msgs: seq<Message>, es: seq<Event>)
    ensures var c := Exec(msgs, es);
            && (c.phase != Created <==> RegisteredBefore(msgs, c, |c.started|))
            && (c.phase == Ready <==> HandshakeBefore(msgs, c, |c.started|))
  {
    RunInv(msgs, es);
  }

  /** In the further course of a run the state never goes back, and it passes through every state
      in between. */
  lemma {:induction false} PhaseMovesForward(msgs: seq<Message>, es: seq<Event>, later: seq<Event>)
    ensures Rank(Exec(msgs, es).phase) <= Rank(Exec(msgs, es + later).phase)
    ensures forall p | Rank(Exec(msgs, es).phase) <= Rank(p) <= Rank(Exec(msgs, es + later).phase) ::
      exists n | 0 <= n <= |later| :: Exec(msgs, es + later[..n]).phase == p
  {
    assert later[..|later|] == later;
    if later == [] {
      assert es + later == es;
    } else {
      var n := |later| - 1;
      assert (es + later)[..|es + later| - 1] == es + later[..n];
      PhaseMovesForward(msgs, es, later[..n]);
      forall p | Rank(Exec(msgs, es).phase) <= Rank(p) <= Rank(Exec(msgs, es + later).phase)
        ensures exists k | 0 <= k <= |later| :: Exec(msgs, es + later[..k]).phase == p
      {
        if Exec(msgs, es + later[..|later|]).phase != p {
          var k :| 0 <= k <= n && Exec(msgs, es + later[..n][..k]).phase == p;
          assert later[..n][..k] == later[..k];
        }
      }
    }
  }

  /** Chaincode is called only for INIT and TRANSACTION messages, by init for the former, and
      only after a REGISTERED and then a READY message have been handled. */
  lemma CalledOnlyAfterHandshake(msgs: seq<Message>, es: seq<Event>, p: nat)
    requires p < |Exec(msgs, es).started|
    ensures var c := Exec(msgs, es);
            var i := c.started[p];
            && i < |msgs| && i in c.tasks
            && (CalledChaincode(c.tasks[i]) ==> CallsChaincode(msgs[i].ty) && HandshakeBefore(msgs, c, p))
            && (c.tasks[i].InChaincode? ==> c.tasks[i].isInit == (msgs[i].ty == INIT))
  {
    RunInv(msgs, es);
    assert TaskEarned(msgs, Exec(msgs, es), p);
  }

  /** Every message is answered at most once over the whole run. One that has reached the end
      of a call of the chaincode is answered exactly once, by a COMPLETED message with its
      transaction id and channel; one that was not expected exactly once, by an ERROR message
      with its transaction id; any other not at all. */
  lemma AnsweredExactlyOnce(msgs: seq<Message>, es: seq<Event>, i: nat)
    requires i < |msgs|
    ensures var c := Exec(msgs, es);
            var mine := (k: int) => 0 <= k < |c.log| && c.log[k].origin == i;
            && (forall j, k :: mine(j) && mine(k) ==> j == k)
            && ((exists k :: mine(k) && c.log[k].Completed?) <==> i in c.tasks && c.tasks[i] == CompletedWritten)
            && ((exists k :: mine(k) && c.log[k].ErrorReply?) <==> i in c.tasks && c.tasks[i] == ErrorWritten)
            && (forall k :: mine(k) ==> c.log[k].txid == msgs[i].txid)
            && (forall k :: mine(k) && c.log[k].Completed? ==> c.log[k].channel == msgs[i].channel)
  {
    RunInv(msgs, es);
    assert LogMatches(msgs, Exec(msgs, es), i);
  }

  lemma {:induction false} LogGrows(msgs: seq<Message>, es: seq<Event>, later: seq<Event>)
    ensures Exec(msgs, es).log <= Exec(msgs, es + later).log
  {
    if later == [] {
      assert es + later == es;
    } else {
      var n := |later| - 1;
      assert (es + later)[..|es + later| - 1] == es + later[..n];
      LogGrows(msgs, es, later[..n]);
    }
  }

  /** The only message ever written for message i. */
  ghost predicate OnlyAnswer(c: Conn, i: nat, out: Out) {
    out in c.log && out.origin == i && forall o | o in c.log && o.origin == i :: o == out
  }

  lemma ExecLast(msgs: seq<Message>, es: seq<Event>, e: Event)
    ensures Exec(msgs, es + [e]) == Next(msgs, Exec(msgs, es), e)
  {
    assert (es + [e])[..|es|] == es;
  }

  lemma OneAnswerInLog(msgs: seq<Message>, c: Conn, i: nat, n: nat, out: Out)
    requires i < |msgs| && LogMatches(msgs, c, i) && n < |c.log| && c.log[n] == out && out.origin == i
    ensures OnlyAnswer(c, i, out)
  {
    var k: nat :| AnsweredAt(msgs, c, i, k);
  }

  lemma WrittenOnceForGood(msgs: seq<Message>, es: seq<Event>, e: Event, later: seq<Event>, out: Out)
    requires e.i < |msgs| && Next(msgs, Exec(msgs, es), e).log == Exec(msgs, es).log + [out] && out.origin == e.i
    ensures OnlyAnswer(Exec(msgs, es + [e] + later), e.i, out)
  {
    var n, c := |Exec(msgs, es).log|, Exec(msgs, es + [e] + later);
    ExecLast(msgs, es, e);
    LogGrows(msgs, es + [e], later);
    assert n < |c.log| && c.log[n] == out;
    RunInv(msgs, es + [e] + later);
    OneAnswerInLog(msgs, c, e.i, n, out);
  }

  /** When a call of the chaincode returns and the write succeeds, the message that started the
      call is answered, now and for good, by one COMPLETED message that carries its channel and
      transaction id and the response, if that has a status, or else an error response. */
  lemma CompletedExactlyOnce(msgs: seq<Message>, es: seq<Event>, i: nat, resp: Option<Resp>, later: seq<Event>)
    returns (r: Resp)
    requires i < |msgs| && i in Exec(msgs, es).tasks && Exec(msgs, es).tasks[i].InChaincode?
    ensures OnlyAnswer(Exec(msgs, es + [Finish(i, Returned(resp), true)] + later), i,
                       Completed(i, msgs[i].channel, msgs[i].txid, r))
    ensures if resp.Some? && resp.value.status != 0 then r == resp.value else r.status == 500
  {
    r := Normalised(resp);
    WrittenOnceForGood(msgs, es, Finish(i, Returned(resp), true), later,
                       Completed(i, msgs[i].channel, msgs[i].txid, r));
  }

  /** A message that the state does not expect, KEEPALIVE apart, is answered for good by one
      ERROR message with its transaction id, if the write succeeds. */
  lemma UnexpectedGetsOneError(msgs: seq<Message>, es: seq<Event>, i: nat, stubBuilds: bool, later: seq<Event>)
    requires i < |msgs| && i !in Exec(msgs, es).tasks
    requires msgs[i].ty != KEEPALIVE && !Expected(Exec(msgs, es).phase, msgs[i].ty)
    ensures OnlyAnswer(Exec(msgs, es + [Begin(i, stubBuilds, true)] + later), i, ErrorReply(i, msgs[i].txid))
  {
    WrittenOnceForGood(msgs, es, Begin(i, stubBuilds, true), later, ErrorReply(i, msgs[i].txid));
  }

  /** What has become of each task of a run follows from the type of its message and the messages
      handled before: KEEPALIVE is ignored, the awaited message moves the state on, after the
      handshake replies go to the request queue and INIT and TRANSACTION are calls, and all other
      messages are answered by an ERROR message. Of the last two kinds some may have died. */
  lemma FateOfMessage(msgs: seq<Message>, es: seq<Event>, p: nat)
    requires p < |Exec(msgs, es).started|
    ensures var c := Exec(msgs, es);
            var i := c.started[p];
            && i < |msgs| && i in c.tasks
            && (var t, ty := c.tasks[i], msgs[i].ty;
                if ty == KEEPALIVE then t == Ignored
                else if Awaited(msgs, c, p, ty) then t == PhaseChanged
                else if Replies(ty) && HandshakeBefore(msgs, c, p) then t == PassedToQueue
                else if CallsChaincode(ty) && HandshakeBefore(msgs, c, p) then
                  t == InChaincode(ty == INIT) || t == CompletedWritten || t == Died
                else t == ErrorWritten || t == Died)
  {
    RunInv(msgs, es);
    assert TaskEarned(msgs, Exec(msgs, es), p);
  }

  lemma CallStarts(msgs: seq<Message>, c: Conn, i: nat, writeOk: bool)
    requires PhaseEarned(msgs, c) && i < |msgs| && i !in c.tasks && CallsChaincode(msgs[i].ty)
    requires HandshakeBefore(msgs, c, |c.started|)
    ensures var c' := Next(msgs, c, Begin(i, true, writeOk));
            c'.tasks == c.tasks[i := InChaincode(msgs[i].ty == INIT)] && c'.log == c.log
  {
  }

  /** After the handshake every INIT and TRANSACTION message starts a call of the chaincode, by
      init or by invoke, if its stub can be built. */
  lemma CallBegins(msgs: seq<Message>, es: seq<Event>, i: nat, writeOk: bool)
    requires i < |msgs| && i !in Exec(msgs, es).tasks && CallsChaincode(msgs[i].ty)
    requires HandshakeBefore(msgs, Exec(msgs, es), |Exec(msgs, es).started|)
    ensures var c := Exec(msgs, es + [Begin(i, true, writeOk)]);
            i in c.tasks && c.tasks[i] == InChaincode(msgs[i].ty == INIT)
  {
    RunInv(msgs, es);
    ExecLast(msgs, es, Begin(i, true, writeOk));
    CallStarts(msgs, Exec(msgs, es), i, writeOk);
  }

  /** What kills a task: a stub that cannot be built, chaincode that raises, a write that fails. */
  ghost predicate Fatal(msgs: seq<Message>, c: Conn, e: Event)
    requires e.i < |msgs|
  {
    match e
    case Finish(_, outcome, writeOk) => outcome.Raised? || !writeOk
    case Begin(i, stubBuilds, writeOk) =>
      var ty, n := msgs[i].ty, |c.started|;
      if ty == KEEPALIVE || Awaited(msgs, c, n, ty) then false
      else if HandshakeBefore(msgs, c, n) && CallsChaincode(ty) then !stubBuilds
      else if HandshakeBefore(msgs, c, n) && Replies(ty) then false
      else !writeOk
  }

  /** In the course of the run the task of message i was killed. */
  ghost predicate Killed(msgs: seq<Message>, es: seq<Event>, i: nat) {
    es != [] &&
    var before, e := es[..|es| - 1], es[|es| - 1];
    || Killed(msgs, before, i)
    || (e.i == i && Enabled(msgs, Exec(msgs, before), e) && Fatal(msgs, Exec(msgs, before), e))
  }

  /** A task has died if and only if one of these happened to it; so no other call is lost. */
  lemma {:induction false} DiedExactlyWhenKilled(msgs: seq<Message>, es: seq<Event>, i: nat)
    ensures var c := Exec(msgs, es); i in c.tasks && c.tasks[i] == Died <==> Killed(msgs, es, i)
  {
    if es == [] {
    } else {
      var before, e := es[..|es| - 1], es[|es| - 1];
      DiedExactlyWhenKilled(msgs, before, i);
      RunInv(msgs, before);
      var c := Exec(msgs, before);
      if Enabled(msgs, c, e) {
        LogEffect(msgs, c, e);
        StepIsFatalExactlyWhen(msgs, c, e);
      }
    }
  }

  lemma StepIsFatalExactlyWhen(msgs: seq<Message>, c: Conn, e: Event)
    requires Enabled(msgs, c, e) && PhaseEarned(msgs, c)
    ensures Next(msgs, c, e).tasks[e.i] == Died <==> Fatal(msgs, c, e)
  {
  }

  /** In every run, a message is handed to the request queue exactly when it is a reply of the
      peer and the handshake was complete before it; and an INIT or TRANSACTION message that
      comes after the handshake is a call, unless its task dies. */
  lemma ReadyMessages(msgs: seq<Message>, es: seq<Event>, p: nat)
    requires p < |Exec(msgs, es).started|
    ensures var c := Exec(msgs, es);
            var i := c.started[p];
            && i < |msgs| && i in c.tasks
            && (c.tasks[i].PassedToQueue? <==> Replies(msgs[i].ty) && HandshakeBefore(msgs, c, p))
            && (CallsChaincode(msgs[i].ty) && HandshakeBefore(msgs, c, p) ==>
                  CalledChaincode(c.tasks[i]) || c.tasks[i].Died?)
  {
    RunInv(msgs, es);
    assert TaskEarned(msgs, Exec(msgs, es), p);
  }
}
