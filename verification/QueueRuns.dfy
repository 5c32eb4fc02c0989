/** Runs of the request queue against a peer, over any number of transactions and any
    interleaving of requests, write completions, peer answers and cancellations. */
module QueueRuns {
  import opened MsgQueue

  /** What the peer answers to the last of the payloads it has received for a transaction. */
  type Peer = (string, string, seq<string>) -> string

  datatype Event =
    | Ask(req: Request)
    | WriteDone(fut: nat, ok: bool)
    | PeerAnswers(j: nat)
    | Abandon(fut: nat)

  /** The queue, the history of requests (number i awaits future i) and the positions on the
      wire that the peer has answered. */
  datatype World = World(q: State, asked: seq<Msg>, answered: set<nat>)

  const START := World(State(map[], [], [], {}), [], {})

  // ----- The peer -----

  /** The payloads of one transaction, in order. */
  function Payloads(ms: seq<Msg>, ch: string, tx: string): seq<string> {
    if ms == [] then []
    else
      var rest := Payloads(ms[..|ms| - 1], ch, tx);
      var r := ms[|ms| - 1].req;
      if r.channel == ch && r.txid == tx then rest + [r.payload] else rest
  }

  /** The reply of the peer to the last of these messages. */
  function Answer(peer: Peer, ms: seq<Msg>): Response
    requires ms != []
  {
    var r := ms[|ms| - 1].req;
    Response(r.channel, r.txid, peer(r.channel, r.txid, Payloads(ms, r.channel, r.txid)))
  }

  /** The reference: the replies that plain synchronous calls get, one after the other. */
  function SyncSession(peer: Peer, ch: string, tx: string, payloads: seq<string>): (rs: seq<Response>)
    ensures |rs| == |payloads|
  {
    if payloads == [] then []
    else SyncSession(peer, ch, tx, payloads[..|payloads| - 1]) + [Response(ch, tx, peer(ch, tx, payloads))]
  }

  // ----- Steps and runs -----

  /** The peer answers a written message once, in any order and at any time; a write ends once. */
  predicate Enabled(w: World, e: Event) {
    match e
    case Ask(_) => true
    case WriteDone(fut, _) => fut in w.q.writing
    case PeerAnswers(j) => j < |w.q.wire| && j !in w.answered
    case Abandon(fut) => fut < |w.q.futures|
  }

  /** One event; an event that is not enabled changes nothing. */
  function Next(peer: Peer, w: World, e: Event): (r: World)
    requires Wf(w.q)
    ensures Wf(r.q)
  {
    if !Enabled(w, e) then w
    else
      match e
      case Ask(req) => w.(q := Enqueue(w.q, req), asked := w.asked + [Msg(req, |w.q.futures|)])
      case WriteDone(fut, ok) => w.(q := FinishWrite(w.q, fut, ok))
      case PeerAnswers(j) =>
        w.(q := HandleResponse(w.q, Answer(peer, w.q.wire[..j + 1])), answered := w.answered + {j})
      case Abandon(fut) => w.(q := CancelWaiter(w.q, fut))
  }

  function Exec(peer: Peer, w: World, es: seq<Event>): (r: World)
    requires Wf(w.q)
    ensures Wf(r.q)
  {
    if es == [] then w else Next(peer, Exec(peer, w, es[..|es| - 1]), es[|es| - 1])
  }

  // ----- The invariant at every suspension point -----

  function ForKey(ms: seq<Msg>, k: string): seq<Msg> {
    if ms == [] then []
    else
      var rest := ForKey(ms[..|ms| - 1], k);
      if KeyOf(ms[|ms| - 1]) == k then rest + [ms[|ms| - 1]] else rest
  }

  /** The reply that a synchronous peer gives to request i. */
  ghost function Expected(peer: Peer, asked: seq<Msg>, i: nat): Response
    requires i < |asked|
  {
    Answer(peer, asked[..i + 1])
  }

  ghost predicate Numbered(w: World)
    requires Wf(w.q)
  {
    && |w.asked| == |w.q.futures|
    && (forall i | 0 <= i < |w.asked| :: w.asked[i].fut == i)
    && (forall k, i | k in w.q.queues && 0 <= i < |w.q.queues[k]| ::
          w.asked[w.q.queues[k][i].fut] == w.q.queues[k][i])
  }

  /** A queue holds the latest requests of its key, oldest first. */
  ghost predicate Fifo(w: World)
    requires Wf(w.q) && Numbered(w)
  {
    && (forall k :: Increasing(QueueOf(w.q.queues, k)))
    && (forall i, j | 0 <= i < j < |w.asked| :: KeyOf(w.asked[i]) == KeyOf(w.asked[j]) && Queued(w, i) ==> Queued(w, j))
  }

  ghost predicate Increasing(q: seq<Msg>) {
    forall i, j | 0 <= i < j < |q| :: q[i].fut < q[j].fut
  }

  ghost predicate Queued(w: World, i: nat)
    requires i < |w.asked|
  {
    w.asked[i] in QueueOf(w.q.queues, KeyOf(w.asked[i]))
  }

  /** What was written for a key is what was asked for it up to and including the head of its
      queue: nothing lost, repeated or overtaken. */
  predicate InOrder(asked: seq<Msg>, written: seq<Msg>, q: seq<Msg>) {
    && asked == written + (if q == [] then [] else q[1..])
    && (q != [] ==> written != [] && written[|written| - 1] == q[0])
  }

  /** No stored queue is empty, and the messages of each key are in order. */
  ghost predicate Ordered(w: World, k: string) {
    && (k in w.q.queues ==> w.q.queues[k] != [])
    && InOrder(ForKey(w.asked, k), ForKey(w.q.wire, k), QueueOf(w.q.queues, k))
  }

  /** An unanswered message on the wire is the head of its queue and the last one written for
      its key. */
  ghost predicate IsHead(w: World, j: nat)
    requires j < |w.q.wire|
  {
    var k := KeyOf(w.q.wire[j]);
    && QueueOf(w.q.queues, k) != [] && w.q.queues[k][0] == w.q.wire[j]
    && ForKey(w.q.wire[..j + 1], k) == ForKey(w.q.wire, k)
  }

  /** The head of the queue of k is on the wire, at position j, and has no answer yet. */
  ghost predicate InFlightAt(w: World, k: string, j: nat) {
    && j < |w.q.wire| && j !in w.answered
    && QueueOf(w.q.queues, k) != [] && w.q.wire[j] == w.q.queues[k][0]
  }

  ghost predicate HeadInFlight(w: World, k: string)
    requires Wf(w.q)
  {
    QueueOf(w.q.queues, k) != [] && w.q.futures[w.q.queues[k][0].fut].Pending? ==> exists j :: InFlightAt(w, k, j)
  }

  /** A request that has its result is no longer queued, and the result is the synchronous
      one; a request that still waits is queued. */
  ghost predicate Correct(peer: Peer, w: World)
    requires Wf(w.q) && Numbered(w)
  {
    forall i | 0 <= i < |w.asked| ::
      match w.q.futures[i]
      case Result(r) => r == Expected(peer, w.asked, i) && !Queued(w, i)
      case Pending => Queued(w, i)
      case _ => true
  }

  ghost predicate Inv(peer: Peer, w: World) {
    Wf(w.q) && Numbered(w) && Fifo(w) && Correct(peer, w) && AllOrdered(w) && AllHeads(w)
  }

  ghost predicate AllOrdered(w: World)
    requires Wf(w.q)
  {
    forall k :: Ordered(w, k) && HeadInFlight(w, k)
  }

  ghost predicate AllHeads(w: World) {
    && (forall j | 0 <= j < |w.q.wire| && j !in w.answered :: IsHead(w, j))
    && (forall j | j in w.answered :: j < |w.q.wire|)
  }

  // ----- Filters -----

  lemma ForKeyAppend(ms: seq<Msg>, m: Msg, k: string)
    ensures ForKey(ms + [m], k) == if KeyOf(m) == k then ForKey(ms, k) + [m] else ForKey(ms, k)
  {
    assert (ms + [m])[..|ms|] == ms;
  }

  lemma {:induction false} PayloadsOfKey(ms: seq<Msg>, ch: string, tx: string)
    ensures Payloads(ms, ch, tx) == Payloads(ForKey(ms, Key(ch, tx)), ch, tx)
  {
    if ms == [] {
    } else {
      var rest := ms[..|ms| - 1];
      PayloadsOfKey(rest, ch, tx);
      var kept := ForKey(rest, Key(ch, tx));
      assert (kept + [ms[|ms| - 1]])[..|kept|] == kept;
    }
  }

  lemma {:induction false} ForKeyMembers(ms: seq<Msg>, k: string)
    ensures forall m | m in ForKey(ms, k) :: m in ms && KeyOf(m) == k
  {
    if ms == [] {
    } else {
      ForKeyMembers(ms[..|ms| - 1], k);
    }
  }

  /** Requests are distinct, so what was asked up to one of them is read off its position. */
  lemma {:induction false} PrefixUpTo(asked: seq<Msg>, k: string, a: seq<Msg>, b: seq<Msg>, i: nat)
    requires forall x | 0 <= x < |asked| :: asked[x].fut == x
    requires ForKey(asked, k) == a + b && a != []
    requires i < |asked| && a[|a| - 1] == asked[i]
    ensures ForKey(asked[..i + 1], k) == a
  {
    var n := |asked| - 1;
    var before := asked[..n];
    var rest := ForKey(before, k);
    ForKeyMembers(before, k);
    assert forall m | m in rest :: m.fut < n;
    if i == n {
      assert asked[..i + 1] == asked;
      assert (rest + [asked[n]])[|a| - 1].fut == n;
      assert |a| - 1 == |rest|;
      assert a + b == a;
    } else {
      assert before[..i + 1] == asked[..i + 1];
      if KeyOf(asked[n]) == k {
        assert (a + b)[|a| - 1].fut != (a + b)[|a + b| - 1].fut;
        assert rest == (a + b)[..|a + b| - 1] == a + b[..|b| - 1];
        PrefixUpTo(before, k, a, b[..|b| - 1], i);
      } else {
        PrefixUpTo(before, k, a, b, i);
      }
    }
  }

  // ----- The invariant is kept by every step -----

  lemma InOrderAsk(asked: seq<Msg>, written: seq<Msg>, q: seq<Msg>, m: Msg)
    requires InOrder(asked, written, q)
    ensures InOrder(asked + [m], if q == [] then written + [m] else written, q + [m])
  {
    if q != [] {
      assert (q + [m])[1..] == q[1..] + [m];
    }
  }

  lemma InOrderPop(asked: seq<Msg>, written: seq<Msg>, q: seq<Msg>)
    requires InOrder(asked, written, q) && q != []
    ensures InOrder(asked, if |q| == 1 then written else written + [q[1]], q[1..])
  {
    if |q| > 1 {
      assert q[1..] == [q[1]] + q[1..][1..];
    }
  }

  /** w' is w after request m was queued. */
  ghost predicate Queuing(w: World, w': World, m: Msg) {
    var q := QueueOf(w.q.queues, KeyOf(m));
    && w'.asked == w.asked + [m] && w'.answered == w.answered
    && w'.q.futures == w.q.futures + [Pending] && m.fut == |w.q.futures|
    && (if q == [] then w'.q.wire == w.q.wire + [m] && w'.q.writing == w.q.writing + {m.fut}
        else w'.q.wire == w.q.wire && w'.q.writing == w.q.writing)
    && (forall k :: QueueOf(w'.q.queues, k) == if k == KeyOf(m) then q + [m] else QueueOf(w.q.queues, k))
    && (forall k :: k in w'.q.queues <==> k in w.q.queues || k == KeyOf(m))
  }

  lemma AskQueues(peer: Peer, w: World, req: Request)
    requires Wf(w.q)
    ensures Queuing(w, Next(peer, w, Ask(req)), Msg(req, |w.q.futures|))
  {
  }

  lemma QueuingOrdered(w: World, w': World, m: Msg, k: string)
    requires Queuing(w, w', m) && Ordered(w, k)
    ensures Ordered(w', k)
  {
    var q := QueueOf(w.q.queues, k);
    ForKeyAppend(w.asked, m, k);
    ForKeyAppend(w.q.wire, m, k);
    if k == KeyOf(m) {
      InOrderAsk(ForKey(w.asked, k), ForKey(w.q.wire, k), q, m);
      assert QueueOf(w'.q.queues, k) == q + [m];
    } else {
      assert QueueOf(w'.q.queues, k) == q;
    }
  }

  lemma QueuingHeadInFlight(w: World, w': World, m: Msg, k: string)
    requires Wf(w.q) && Wf(w'.q) && Queuing(w, w', m) && HeadInFlight(w, k)
    requires forall j | j in w.answered :: j < |w.q.wire|
    ensures HeadInFlight(w', k)
  {
    var q := QueueOf(w.q.queues, k);
    assert QueueOf(w'.q.queues, k) == if k == KeyOf(m) then q + [m] else q;
    if k == KeyOf(m) && q == [] {
      assert InFlightAt(w', k, |w.q.wire|);
    } else if j: nat :| InFlightAt(w, k, j) {
      assert InFlightAt(w', k, j);
    }
  }

  lemma QueuingKeepsHead(w: World, w': World, m: Msg, j: nat)
    requires Queuing(w, w', m) && j < |w.q.wire| && IsHead(w, j)
    ensures IsHead(w', j)
  {
    var k := KeyOf(w.q.wire[j]);
    assert QueueOf(w'.q.queues, k) == if k == KeyOf(m) then QueueOf(w.q.queues, k) + [m] else QueueOf(w.q.queues, k);
    ForKeyAppend(w.q.wire, m, k);
    assert w'.q.wire[..j + 1] == w.q.wire[..j + 1];
  }

  lemma QueuedFirstIsHead(w: World, w': World, m: Msg)
    requires Queuing(w, w', m) && QueueOf(w.q.queues, KeyOf(m)) == []
    ensures |w'.q.wire| == |w.q.wire| + 1 && IsHead(w', |w.q.wire|)
  {
    assert QueueOf(w'.q.queues, KeyOf(m)) == [m];
    assert w'.q.wire[..|w.q.wire| + 1] == w'.q.wire;
  }

  lemma QueuingNumbered(w: World, w': World, m: Msg)
    requires Wf(w.q) && Wf(w'.q) && Numbered(w) && Queuing(w, w', m)
    ensures Numbered(w')
  {
    forall k, i | k in w'.q.queues && 0 <= i < |w'.q.queues[k]|
      ensures w'.asked[w'.q.queues[k][i].fut] == w'.q.queues[k][i]
    {
      var q := QueueOf(w.q.queues, k);
      assert w'.q.queues[k] == QueueOf(w'.q.queues, k);
      assert i < |q| ==> w.asked[q[i].fut] == q[i];
    }
  }

  lemma QueuingEnqueues(w: World, w': World, m: Msg)
    requires Wf(w.q) && Numbered(w) && Queuing(w, w', m)
    ensures Queued(w', |w.asked|) && forall i | 0 <= i < |w.asked| :: Queued(w', i) <==> Queued(w, i)
  {
    var q := QueueOf(w.q.queues, KeyOf(m));
    assert QueueOf(w'.q.queues, KeyOf(m)) == q + [m];
    forall i | 0 <= i < |w.asked| ensures Queued(w', i) <==> Queued(w, i) {
      var k := KeyOf(w.asked[i]);
      assert w'.asked[i] == w.asked[i] && w.asked[i] != m;
      assert QueueOf(w'.q.queues, k) == if k == KeyOf(m) then q + [m] else QueueOf(w.q.queues, k);
    }
  }

  lemma QueuingIncreasing(w: World, w': World, m: Msg, k: string)
    requires Wf(w.q) && Queuing(w, w', m) && Increasing(QueueOf(w.q.queues, k))
    ensures Increasing(QueueOf(w'.q.queues, k))
  {
    var q := QueueOf(w.q.queues, k);
    assert QueueOf(w'.q.queues, k) == if k == KeyOf(m) then q + [m] else q;
  }

  lemma QueuingKeepsLater(w: World, w': World, m: Msg, i: nat, j: nat)
    requires Wf(w.q) && Numbered(w) && Fifo(w) && Queuing(w, w', m)
    requires i < j < |w'.asked| && KeyOf(w'.asked[i]) == KeyOf(w'.asked[j]) && Queued(w', i)
    ensures Queued(w', j)
  {
    QueuingEnqueues(w, w', m);
    assert w'.asked[i] == w.asked[i];
    if j < |w.asked| {
      assert w'.asked[j] == w.asked[j];
    }
  }

  lemma QueuingFifo(w: World, w': World, m: Msg)
    requires Wf(w.q) && Wf(w'.q) && Numbered(w) && Numbered(w') && Fifo(w) && Queuing(w, w', m)
    ensures Fifo(w')
  {
    forall k {:trigger QueueOf(w'.q.queues, k)} ensures Increasing(QueueOf(w'.q.queues, k)) {
      assert Increasing(QueueOf(w.q.queues, k));
      QueuingIncreasing(w, w', m, k);
    }
    forall i, j | 0 <= i < j < |w'.asked| && KeyOf(w'.asked[i]) == KeyOf(w'.asked[j]) && Queued(w', i)
      ensures Queued(w', j)
    {
      QueuingKeepsLater(w, w', m, i, j);
    }
  }

  lemma QueuingCorrect(peer: Peer, w: World, w': World, m: Msg)
    requires Wf(w.q) && Wf(w'.q) && Numbered(w) && Numbered(w') && Correct(peer, w) && Queuing(w, w', m)
    ensures Correct(peer, w')
  {
    QueuingEnqueues(w, w', m);
    forall i | 0 <= i < |w.asked| ensures Expected(peer, w'.asked, i) == Expected(peer, w.asked, i) {
      assert w'.asked[..i + 1] == w.asked[..i + 1];
    }
  }

  lemma AskKeepsOrder(peer: Peer, w: World, req: Request)
    requires Wf(w.q) && AllOrdered(w) && AllHeads(w)
    ensures AllOrdered(Next(peer, w, Ask(req)))
  {
    var w', m := Next(peer, w, Ask(req)), Msg(req, |w.q.futures|);
    AskQueues(peer, w, req);
    forall k {:trigger Ordered(w', k)} ensures Ordered(w', k) && HeadInFlight(w', k) {
      assert Ordered(w, k) && HeadInFlight(w, k);
      QueuingOrdered(w, w', m, k);
      QueuingHeadInFlight(w, w', m, k);
    }
  }

  lemma AskKeepsHeads(peer: Peer, w: World, req: Request)
    requires Wf(w.q) && AllHeads(w)
    ensures AllHeads(Next(peer, w, Ask(req)))
  {
    var w', m := Next(peer, w, Ask(req)), Msg(req, |w.q.futures|);
    AskQueues(peer, w, req);
    forall j | 0 <= j < |w'.q.wire| && j !in w'.answered ensures IsHead(w', j) {
      if j < |w.q.wire| {
        QueuingKeepsHead(w, w', m, j);
      } else {
        QueuedFirstIsHead(w, w', m);
      }
    }
  }

  lemma AskKeepsInv(peer: Peer, w: World, req: Request)
    requires Inv(peer, w)
    ensures Inv(peer, Next(peer, w, Ask(req)))
  {
    var w', m := Next(peer, w, Ask(req)), Msg(req, |w.q.futures|);
    AskKeepsOrder(peer, w, req);
    AskKeepsHeads(peer, w, req);
    AskQueues(peer, w, req);
    QueuingNumbered(w, w', m);
    QueuingFifo(w, w', m);
    QueuingCorrect(peer, w, w', m);
  }

  // ----- The peer's answer -----

  lemma {:induction false} ForKeyGrows(ms: seq<Msg>, k: string, a: nat, b: nat)
    requires a < b <= |ms| && KeyOf(ms[b - 1]) == k
    ensures |ForKey(ms[..a], k)| < |ForKey(ms[..b], k)|
  {
    assert ms[..b] == ms[..b - 1] + [ms[b - 1]];
    ForKeyAppend(ms[..b - 1], ms[b - 1], k);
    ForKeyMonotone(ms, k, a, b - 1);
  }

  lemma {:induction false} ForKeyMonotone(ms: seq<Msg>, k: string, a: nat, b: nat)
    requires a <= b <= |ms|
    ensures |ForKey(ms[..a], k)| <= |ForKey(ms[..b], k)|
    decreases b
  {
    if a < b {
      assert ms[..b] == ms[..b - 1] + [ms[b - 1]];
      ForKeyAppend(ms[..b - 1], ms[b - 1], k);
      ForKeyMonotone(ms, k, a, b - 1);
    }
  }

  /** At most one message is in flight for a key. */
  lemma OneInFlight(w: World, i: nat, j: nat)
    requires i < |w.q.wire| && j < |w.q.wire| && IsHead(w, i) && IsHead(w, j)
    requires KeyOf(w.q.wire[i]) == KeyOf(w.q.wire[j])
    ensures i == j
  {
    var k := KeyOf(w.q.wire[i]);
    if i < j {
      ForKeyGrows(w.q.wire, k, i + 1, j + 1);
    } else if j < i {
      ForKeyGrows(w.q.wire, k, j + 1, i + 1);
    }
  }

  /** Two lists of messages with the same messages of a key give its transactions the same
      payloads. */
  lemma SamePayloads(a: seq<Msg>, b: seq<Msg>, ch: string, tx: string)
    requires ForKey(a, Key(ch, tx)) == ForKey(b, Key(ch, tx))
    ensures Payloads(a, ch, tx) == Payloads(b, ch, tx)
  {
    PayloadsOfKey(a, ch, tx);
    PayloadsOfKey(b, ch, tx);
  }

  lemma SameAnswer(peer: Peer, a: seq<Msg>, b: seq<Msg>, m: Msg)
    requires a != [] && b != [] && a[|a| - 1] == m && b[|b| - 1] == m
    requires ForKey(a, KeyOf(m)) == ForKey(b, KeyOf(m))
    ensures Answer(peer, a) == Answer(peer, b)
  {
    SamePayloads(a, b, m.req.channel, m.req.txid);
  }

  /** Whatever the peer answers next is what a synchronous peer answers. */
  lemma AnswerIsExpected(peer: Peer, w: World, j: nat)
    requires Wf(w.q) && Numbered(w) && j < |w.q.wire| && IsHead(w, j) && Ordered(w, KeyOf(w.q.wire[j]))
    ensures Answer(peer, w.q.wire[..j + 1]) == Expected(peer, w.asked, w.q.wire[j].fut)
  {
    var m := w.q.wire[j];
    var k := KeyOf(m);
    assert w.asked[w.q.queues[k][0].fut] == m;
    PrefixUpTo(w.asked, k, ForKey(w.q.wire, k), w.q.queues[k][1..], m.fut);
    SameAnswer(peer, w.q.wire[..j + 1], w.asked[..m.fut + 1], m);
  }

  /** w' is w after the handling of the answer to message j of the wire, the head of its queue. */
  ghost predicate Popped(w: World, w': World, j: nat, resp: Response)
    requires j < |w.q.wire|
  {
    var m := w.q.wire[j];
    var q := QueueOf(w.q.queues, KeyOf(m));
    && q != [] && q[0] == m && m.fut < |w.q.futures|
    && w'.asked == w.asked && w'.answered == w.answered + {j}
    && w'.q.futures == w.q.futures[m.fut := Future.Result(resp)]
    && (if |q| > 1
        then KeyOf(q[1]) == KeyOf(m) && w'.q.wire == w.q.wire + [q[1]] && w'.q.writing == w.q.writing + {q[1].fut}
        else w'.q.wire == w.q.wire && w'.q.writing == w.q.writing)
    && (forall k :: QueueOf(w'.q.queues, k) == if k == KeyOf(m) then q[1..] else QueueOf(w.q.queues, k))
    && (forall k | k in w'.q.queues :: k in w.q.queues && (k == KeyOf(m) ==> |q| > 1))
  }

  lemma AnswerPops(peer: Peer, w: World, j: nat)
    requires Wf(w.q) && Enabled(w, PeerAnswers(j)) && IsHead(w, j) && w.q.futures[w.q.wire[j].fut].Pending?
    ensures Popped(w, Next(peer, w, PeerAnswers(j)), j, Answer(peer, w.q.wire[..j + 1]))
  {
  }

  /** The answer to a head that is done already changes nothing but the peer's account. */
  lemma AnswerIgnored(peer: Peer, w: World, j: nat)
    requires Wf(w.q) && Enabled(w, PeerAnswers(j)) && IsHead(w, j) && !w.q.futures[w.q.wire[j].fut].Pending?
    ensures Next(peer, w, PeerAnswers(j)) == w.(answered := w.answered + {j})
  {
  }

  lemma PoppedOrdered(w: World, w': World, j: nat, resp: Response, k: string)
    requires j < |w.q.wire| && Popped(w, w', j, resp) && Ordered(w, k)
    ensures Ordered(w', k)
  {
    var k0 := KeyOf(w.q.wire[j]);
    var q := QueueOf(w.q.queues, k0);
    if |q| > 1 {
      ForKeyAppend(w.q.wire, q[1], k);
    }
    if k == k0 {
      InOrderPop(ForKey(w.asked, k), ForKey(w.q.wire, k), q);
      assert QueueOf(w'.q.queues, k) == q[1..];
    } else {
      assert QueueOf(w'.q.queues, k) == QueueOf(w.q.queues, k);
    }
  }

  lemma PoppedHeadInFlight(w: World, w': World, j: nat, resp: Response, k: string)
    requires Wf(w.q) && Wf(w'.q) && j < |w.q.wire| && Popped(w, w', j, resp) && HeadInFlight(w, k)
    requires forall i | i in w.answered :: i < |w.q.wire|
    ensures HeadInFlight(w', k)
  {
    var k0 := KeyOf(w.q.wire[j]);
    var q := QueueOf(w.q.queues, k0);
    assert QueueOf(w'.q.queues, k) == if k == k0 then q[1..] else QueueOf(w.q.queues, k);
    if k == k0 {
      if |q| > 1 {
        assert InFlightAt(w', k, |w.q.wire|);
      }
    } else if i: nat :| InFlightAt(w, k, i) {
      assert KeyOf(w.q.wire[i]) == k;
      assert InFlightAt(w', k, i);
    }
  }

  lemma IgnoredHeadInFlight(w: World, w': World, j: nat, k: string)
    requires Wf(w.q) && j < |w.q.wire| && IsHead(w, j) && !w.q.futures[w.q.wire[j].fut].Pending?
    requires w' == w.(answered := w.answered + {j}) && HeadInFlight(w, k)
    ensures HeadInFlight(w', k)
  {
    if k != KeyOf(w.q.wire[j]) {
      if i: nat :| InFlightAt(w, k, i) {
        assert InFlightAt(w', k, i);
      }
    }
  }

  lemma PoppedIsHead(w: World, w': World, j: nat, resp: Response, i: nat)
    requires Wf(w.q) && j < |w.q.wire| && Popped(w, w', j, resp) && IsHead(w, j)
    requires i < |w.q.wire| && i != j && IsHead(w, i)
    ensures IsHead(w', i)
  {
    var k0, k := KeyOf(w.q.wire[j]), KeyOf(w.q.wire[i]);
    var q := QueueOf(w.q.queues, k0);
    if k == k0 {
      OneInFlight(w, i, j);
    }
    assert QueueOf(w'.q.queues, k) == QueueOf(w.q.queues, k);
    assert w'.q.wire[..i + 1] == w.q.wire[..i + 1];
    if |q| > 1 {
      ForKeyAppend(w.q.wire, q[1], k);
    }
  }

  lemma NewIsHead(w: World, w': World, j: nat, resp: Response)
    requires Wf(w.q) && j < |w.q.wire| && Popped(w, w', j, resp) && |w'.q.wire| > |w.q.wire|
    ensures IsHead(w', |w.q.wire|)
  {
    var q := QueueOf(w.q.queues, KeyOf(w.q.wire[j]));
    assert w'.q.wire[|w.q.wire|] == q[1];
    assert QueueOf(w'.q.queues, KeyOf(q[1])) == q[1..];
    assert w'.q.wire[..|w.q.wire| + 1] == w'.q.wire;
  }

  lemma PoppedDequeues(w: World, w': World, j: nat, resp: Response)
    requires Wf(w.q) && Numbered(w) && Fifo(w) && j < |w.q.wire| && Popped(w, w', j, resp)
    ensures forall i | 0 <= i < |w.asked| :: Queued(w', i) <==> Queued(w, i) && i != w.q.wire[j].fut
  {
    var m := w.q.wire[j];
    var q := QueueOf(w.q.queues, KeyOf(m));
    assert w.asked[m.fut] == m;
    assert Increasing(q) && m !in q[1..];
    forall i | 0 <= i < |w.asked| ensures Queued(w', i) <==> Queued(w, i) && i != m.fut {
      assert QueueOf(w'.q.queues, KeyOf(w.asked[i])) ==
             if KeyOf(w.asked[i]) == KeyOf(m) then q[1..] else QueueOf(w.q.queues, KeyOf(w.asked[i]));
      assert q == [m] + q[1..];
    }
  }

  lemma PoppedNumbered(w: World, w': World, j: nat, resp: Response)
    requires Wf(w.q) && Wf(w'.q) && Numbered(w) && j < |w.q.wire| && Popped(w, w', j, resp)
    ensures Numbered(w')
  {
    forall k, i | k in w'.q.queues && 0 <= i < |w'.q.queues[k]|
      ensures w'.asked[w'.q.queues[k][i].fut] == w'.q.queues[k][i]
    {
      assert w'.q.queues[k] == QueueOf(w'.q.queues, k);
    }
  }

  lemma PoppedFifo(w: World, w': World, j: nat, resp: Response)
    requires Wf(w.q) && Wf(w'.q) && Numbered(w) && Numbered(w') && Fifo(w) && j < |w.q.wire| && Popped(w, w', j, resp)
    ensures Fifo(w')
  {
    var m := w.q.wire[j];
    var q := QueueOf(w.q.queues, KeyOf(m));
    forall k {:trigger QueueOf(w'.q.queues, k)} ensures Increasing(QueueOf(w'.q.queues, k)) {
      assert Increasing(QueueOf(w.q.queues, k));
    }
    PoppedDequeues(w, w', j, resp);
    assert Increasing(q) && forall x | x in q :: m.fut <= x.fut;
  }

  lemma PoppedCorrect(peer: Peer, w: World, w': World, j: nat, resp: Response)
    requires Wf(w.q) && Wf(w'.q) && Numbered(w) && Numbered(w') && Fifo(w) && Correct(peer, w)
    requires j < |w.q.wire| && Popped(w, w', j, resp) && resp == Expected(peer, w.asked, w.q.wire[j].fut)
    ensures Correct(peer, w')
  {
    PoppedDequeues(w, w', j, resp);
  }

  lemma ReplyKeepsOrder(peer: Peer, w: World, j: nat)
    requires Wf(w.q) && AllOrdered(w) && AllHeads(w) && Enabled(w, PeerAnswers(j))
    ensures AllOrdered(Next(peer, w, PeerAnswers(j)))
  {
    var w' := Next(peer, w, PeerAnswers(j));
    assert IsHead(w, j);
    forall k {:trigger Ordered(w', k)} ensures Ordered(w', k) && HeadInFlight(w', k) {
      assert Ordered(w, k) && HeadInFlight(w, k);
      if w.q.futures[w.q.wire[j].fut].Pending? {
        AnswerPops(peer, w, j);
        PoppedOrdered(w, w', j, Answer(peer, w.q.wire[..j + 1]), k);
        PoppedHeadInFlight(w, w', j, Answer(peer, w.q.wire[..j + 1]), k);
      } else {
        AnswerIgnored(peer, w, j);
        IgnoredHeadInFlight(w, w', j, k);
      }
    }
  }

  lemma ReplyKeepsHeads(peer: Peer, w: World, j: nat)
    requires Wf(w.q) && AllHeads(w) && Enabled(w, PeerAnswers(j))
    ensures AllHeads(Next(peer, w, PeerAnswers(j)))
  {
    var w' := Next(peer, w, PeerAnswers(j));
    assert IsHead(w, j);
    if w.q.futures[w.q.wire[j].fut].Pending? {
      AnswerPops(peer, w, j);
      var resp := Answer(peer, w.q.wire[..j + 1]);
      forall i | 0 <= i < |w'.q.wire| && i !in w'.answered ensures IsHead(w', i) {
        if i < |w.q.wire| {
          PoppedIsHead(w, w', j, resp, i);
        } else {
          NewIsHead(w, w', j, resp);
        }
      }
    } else {
      AnswerIgnored(peer, w, j);
      forall i | 0 <= i < |w'.q.wire| && i !in w'.answered ensures IsHead(w', i) {
        assert IsHead(w, i);
      }
    }
  }

  lemma ReplyKeepsInv(peer: Peer, w: World, j: nat)
    requires Inv(peer, w)
    ensures Inv(peer, Next(peer, w, PeerAnswers(j)))
  {
    if Enabled(w, PeerAnswers(j)) {
      ReplyKeepsOrder(peer, w, j);
      ReplyKeepsHeads(peer, w, j);
      assert IsHead(w, j) && Ordered(w, KeyOf(w.q.wire[j]));
      if w.q.futures[w.q.wire[j].fut].Pending? {
        var w', resp := Next(peer, w, PeerAnswers(j)), Answer(peer, w.q.wire[..j + 1]);
        AnswerPops(peer, w, j);
        AnswerIsExpected(peer, w, j);
        PoppedNumbered(w, w', j, resp);
        PoppedFifo(w, w', j, resp);
        PoppedCorrect(peer, w, w', j, resp);
      } else {
        AnswerIgnored(peer, w, j);
        SameQueue(peer, w, Next(peer, w, PeerAnswers(j)));
      }
    }
  }

  lemma SameQueue(peer: Peer, w: World, w': World)
    requires Wf(w.q) && Numbered(w) && Fifo(w) && Correct(peer, w) && w'.q == w.q && w'.asked == w.asked
    ensures Numbered(w') && Fifo(w') && Correct(peer, w')
  {
    assert forall i | 0 <= i < |w.asked| :: Queued(w', i) <==> Queued(w, i);
  }

  // ----- The end of a write and the cancellation of a waiter -----

  /** Both only turn a pending future into one that is done without a result. */
  ghost predicate Withdrawn(w: World, w': World) {
    && w'.asked == w.asked && w'.answered == w.answered
    && w'.q.wire == w.q.wire && w'.q.queues == w.q.queues && |w'.q.futures| == |w.q.futures|
    && (forall i | 0 <= i < |w.q.futures| ::
          w'.q.futures[i] == w.q.futures[i] || w'.q.futures[i].Exception? || w'.q.futures[i].Cancelled?)
  }

  lemma FailureWithdraws(peer: Peer, w: World, e: Event)
    requires Wf(w.q) && (e.WriteDone? || e.Abandon?)
    ensures Withdrawn(w, Next(peer, w, e))
    ensures Next(peer, w, e).q.writing == if e.WriteDone? then w.q.writing - {e.fut} else w.q.writing
  {
  }

  lemma WithdrawnCorrect(peer: Peer, w: World, w': World)
    requires Wf(w.q) && Wf(w'.q) && Numbered(w) && Fifo(w) && Correct(peer, w) && Withdrawn(w, w')
    ensures Numbered(w') && Fifo(w') && Correct(peer, w')
  {
    assert forall i | 0 <= i < |w.asked| :: Queued(w', i) <==> Queued(w, i);
  }

  lemma WithdrawnHeadInFlight(w: World, w': World, k: string)
    requires Wf(w.q) && Wf(w'.q) && Withdrawn(w, w') && HeadInFlight(w, k)
    ensures HeadInFlight(w', k)
  {
    if j: nat :| InFlightAt(w, k, j) {
      assert InFlightAt(w', k, j);
    }
  }

  lemma FailureKeepsOrder(peer: Peer, w: World, e: Event)
    requires Wf(w.q) && AllOrdered(w) && AllHeads(w) && (e.WriteDone? || e.Abandon?)
    ensures var w' := Next(peer, w, e); AllOrdered(w') && AllHeads(w')
  {
    var w' := Next(peer, w, e);
    FailureWithdraws(peer, w, e);
    forall k {:trigger Ordered(w', k)} ensures Ordered(w', k) && HeadInFlight(w', k) {
      assert Ordered(w, k) && HeadInFlight(w, k);
      WithdrawnHeadInFlight(w, w', k);
    }
    forall j | 0 <= j < |w'.q.wire| && j !in w'.answered ensures IsHead(w', j) {
      assert IsHead(w, j);
    }
  }

  lemma FailureKeepsInv(peer: Peer, w: World, e: Event)
    requires Inv(peer, w) && (e.WriteDone? || e.Abandon?)
    ensures Inv(peer, Next(peer, w, e))
  {
    FailureKeepsOrder(peer, w, e);
    FailureWithdraws(peer, w, e);
    WithdrawnCorrect(peer, w, Next(peer, w, e));
  }

  lemma StepKeepsInv(peer: Peer, w: World, e: Event)
    requires Inv(peer, w)
    ensures Inv(peer, Next(peer, w, e))
  {
    match e
    case Ask(req) => AskKeepsInv(peer, w, req);
    case PeerAnswers(j) => ReplyKeepsInv(peer, w, j);
    case _ => FailureKeepsInv(peer, w, e);
  }

  lemma {:induction false} RunKeepsInv(peer: Peer, w: World, es: seq<Event>)
    requires Inv(peer, w)
    ensures Inv(peer, Exec(peer, w, es))
  {
    if es == [] {
    } else {
      RunKeepsInv(peer, w, es[..|es| - 1]);
      StepKeepsInv(peer, Exec(peer, w, es[..|es| - 1]), es[|es| - 1]);
    }
  }
}
