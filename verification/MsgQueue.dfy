/** The per-transaction request queue of fabric_shim/msg_queue_handler.py.

    A coroutine runs without interruption from one suspension point to the next,
    so every function on State below is one such uninterrupted segment:
    queueing a request (with the start of its write when the queue was empty),
    the end of a write, and the handling of a peer message (resolve the head,
    pop it, start the next write). */
module MsgQueue {
  import opened Wrappers

  /** The fields of a ChaincodeMessage that the queue and the peer look at. */
  datatype Request = Request(channel: string, txid: string, payload: string)
  datatype Response = Response(channel: string, txid: string, payload: string)

  /** An asyncio future. Only a Pending one may be given a result or an exception. */
  datatype Future = Pending | Result(response: Response) | Exception | Cancelled

  /** QueueMessage: the request and the identity of the future that its caller awaits. */
  datatype Msg = Msg(req: Request, fut: nat)

  /** The queues, the futures handed out so far, the messages whose write was started, in
      order, and the futures whose write has not returned yet. */
  datatype State = State(queues: map<string, seq<Msg>>, futures: seq<Future>, wire: seq<Msg>, writing: set<nat>)

  /** The transaction context id. */
  function Key(channel: string, txid: string): string {
    channel + txid
  }

  function KeyOf(m: Msg): string {
    Key(m.req.channel, m.req.txid)
  }

  function QueueOf(queues: map<string, seq<Msg>>, k: string): seq<Msg> {
    if k in queues then queues[k] else []
  }

  ghost predicate Wf(s: State) {
    && (forall k, i | k in s.queues && 0 <= i < |s.queues[k]| ::
          s.queues[k][i].fut < |s.futures| && KeyOf(s.queues[k][i]) == k)
    && (forall f | f in s.writing :: f < |s.futures|)
  }

  /** The part of __send_msg that runs before its await: the write of the head starts. */
  function SendCurrent(s: State, k: string): (r: State)
    requires Wf(s)
    ensures Wf(r) && r.queues == s.queues && r.futures == s.futures
  {
    var q := QueueOf(s.queues, k);
    if q == [] then s
    else s.(wire := s.wire + [q[0]], writing := s.writing + {q[0].fut})
  }

  /** queue_msg up to its await, run for a request whose new future is the next one. */
  function Enqueue(s: State, req: Request): (r: State)
    requires Wf(s)
    ensures Wf(r)
  {
    var k := Key(req.channel, req.txid);
    var q := QueueOf(s.queues, k) + [Msg(req, |s.futures|)];
    var s1 := s.(queues := s.queues[k := q], futures := s.futures + [Pending]);
    if |q| == 1 then SendCurrent(s1, k) else s1
  }

  /** What __send_msg does once its write has returned or raised. Failing a future that is
      already done raises in turn and changes nothing. */
  function FinishWrite(s: State, fut: nat, ok: bool): (r: State)
    requires Wf(s) && fut in s.writing
    ensures Wf(r) && |r.futures| == |s.futures| && fut !in r.writing && (!ok ==> !r.futures[fut].Pending?)
  {
    var s1 := s.(writing := s.writing - {fut});
    if !ok && s.futures[fut].Pending? then s1.(futures := s.futures[fut := Exception]) else s1
  }

  /** __remove_current_and_send_next up to its await. */
  function RemoveCurrentAndSendNext(s: State, k: string): (r: State)
    requires Wf(s) && QueueOf(s.queues, k) != []
    ensures Wf(r)
  {
    var q := s.queues[k][1..];
    if q == [] then s.(queues := s.queues - {k}) else SendCurrent(s.(queues := s.queues[k := q]), k)
  }

  /** handle_msg_response up to its await. When the future of the head is already done, both
      set_result and the set_exception of the handler raise, so the head is not removed. */
  function HandleResponse(s: State, resp: Response): (r: State)
    requires Wf(s)
    ensures Wf(r)
  {
    var k := Key(resp.channel, resp.txid);
    var q := QueueOf(s.queues, k);
    if q == [] || !s.futures[q[0].fut].Pending? then s
    else RemoveCurrentAndSendNext(s.(futures := s.futures[q[0].fut := Future.Result(resp)]), k)
  }

  /** A task that awaits a future is cancelled, and its future with it. */
  function CancelWaiter(s: State, fut: nat): (r: State)
    requires Wf(s) && fut < |s.futures|
    ensures Wf(r) && |r.futures| == |s.futures| && !r.futures[fut].Pending?
  {
    if s.futures[fut].Pending? then s.(futures := s.futures[fut := Cancelled]) else s
  }

  /** MsgQueueHandler, with the futures and the stream it writes to. */
  class MsgQueueHandler {
    var txQueues: map<string, seq<Msg>>
    var futures: seq<Future>
    var wire: seq<Msg>
    var writing: set<nat>

    ghost function View(): State
      reads this
    {
      State(txQueues, futures, wire, writing)
    }

    constructor ()
      ensures View() == State(map[], [], [], {})
    {
      txQueues := map[];
      futures, wire, writing := [], [], {};
    }

    /** __get_current_msg: the first message of the queue, if there is one. */
    method GetCurrentMsg(k: string) returns (m: Option<Msg>)
      requires Wf(View())
      ensures m.None? <==> QueueOf(txQueues, k) == []
      ensures m.Some? ==> m.value == txQueues[k][0]
    {
      if k in txQueues && |txQueues[k]| > 0 {
        return Some(txQueues[k][0]);
      }
      return None;
    }

    method SendMsg(k: string)
      requires Wf(View())
      modifies this
      ensures View() == SendCurrent(old(View()), k)
    {
      var m := GetCurrentMsg(k);
      if m.Some? {
        wire := wire + [m.value];
        writing := writing + {m.value.fut};
      }
    }

    /** __ask_peer_and_listen: create the future and queue the request. */
    method QueueMsg(req: Request) returns (fut: nat)
      requires Wf(View())
      modifies this
      ensures fut == |old(futures)|
      ensures View() == Enqueue(old(View()), req) && Wf(View())
    {
      fut := |futures|;
      futures := futures + [Pending];
      var k := Key(req.channel, req.txid);
      if k !in txQueues {
        txQueues := txQueues[k := []];
      }
      txQueues := txQueues[k := txQueues[k] + [Msg(req, fut)]];
      if |txQueues[k]| == 1 {
        SendMsg(k);
      }
    }

    /** The end of __send_msg; raised reports the InvalidStateError of a failure that comes when
        the future is already done. */
    method WriteReturned(fut: nat, ok: bool) returns (raised: bool)
      requires Wf(View()) && fut in writing
      modifies this
      ensures View() == FinishWrite(old(View()), fut, ok) && Wf(View())
      ensures raised <==> !ok && !old(futures)[fut].Pending?
    {
      writing := writing - {fut};
      raised := false;
      if !ok {
        if futures[fut].Pending? {
          futures := futures[fut := Exception];
        } else {
          raised := true;
        }
      }
    }

    method RemoveAndSendNext(k: string)
      requires Wf(View()) && QueueOf(txQueues, k) != []
      modifies this
      ensures View() == RemoveCurrentAndSendNext(old(View()), k)
    {
      txQueues := txQueues[k := txQueues[k][1..]];
      if |txQueues[k]| != 0 {
        SendMsg(k);
      } else {
        txQueues := txQueues - {k};
      }
    }

    /** handle_msg_response; raised reports the InvalidStateError that a done future causes. */
    method HandleMsgResponse(resp: Response) returns (raised: bool)
      requires Wf(View())
      modifies this
      ensures View() == HandleResponse(old(View()), resp) && Wf(View())
      ensures raised <==>
        var q := old(QueueOf(txQueues, Key(resp.channel, resp.txid)));
        q != [] && !old(futures)[q[0].fut].Pending?
    {
      raised := false;
      var k := Key(resp.channel, resp.txid);
      var m := GetCurrentMsg(k);
      if m.Some? {
        if futures[m.value.fut].Pending? {
          futures := futures[m.value.fut := Future.Result(resp)];
          RemoveAndSendNext(k);
        } else {
          raised := true;
        }
      }
    }
  }
}
