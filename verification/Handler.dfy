/** The connection state machine of fabric_shim/handler.py. Every received message is handled
    by a task of its own; tasks run in segments that are not interrupted. */
module Handler {
  import opened Wrappers

  datatype MsgType = REGISTERED | READY | INIT | TRANSACTION | RESPONSE | ERROR | KEEPALIVE | OTHER

  datatype Message = Message(ty: MsgType, channel: string, txid: string)

  datatype Phase = Created | Established | Ready

  /** The Response that chaincode returns; a status of zero counts as none. */
  datatype Resp = Resp(status: nat, text: string)

  /** How the call of the chaincode ends. */
  datatype Outcome = Returned(resp: Option<Resp>) | Raised

  /** A message written to the peer, with the received message that it answers. */
  datatype Out = ErrorReply(origin: nat, txid: string)
    | Completed(origin: nat, channel: string, txid: string, resp: Resp)

  /** What has become of the task of a message. */
  datatype Task =
    | Ignored
    | PhaseChanged
    | PassedToQueue
    | ErrorWritten
    | InChaincode(isInit: bool)
    | CompletedWritten
    | Died

  /** The tasks that have started, in the order they did, and the messages written after the
      REGISTER that opens the conversation. */
  datatype Conn = Conn(phase: Phase, started: seq<nat>, tasks: map<nat, Task>, log: seq<Out>)

  const CONNECTED := Conn(Created, [], map[], [])

  const ERROR_STATUS: nat := 500

  /** A missing response, or one without status, is replaced by an error response. */
  function Normalised(resp: Option<Resp>): Resp {
    if resp.Some? && resp.value.status != 0 then resp.value else Resp(ERROR_STATUS, "has not called success or error")
  }

  /** The message types that each state knows what to do with. */
  predicate Expected(phase: Phase, ty: MsgType) {
    match phase
    case Created => ty == REGISTERED
    case Established => ty == READY
    case Ready => ty == RESPONSE || ty == ERROR || ty == INIT || ty == TRANSACTION
  }

  /** handle_message up to its first suspension, for message i. A write may fail, and so may
      building the stub from the message; the task then dies. */
  function StartTask(c: Conn, i: nat, msg: Message, stubBuilds: bool, writeOk: bool): Conn {
    var c' := c.(started := c.started + [i]);
    if msg.ty == KEEPALIVE then c'.(tasks := c.tasks[i := Ignored])
    else if !Expected(c.phase, msg.ty) then
      if writeOk then c'.(tasks := c.tasks[i := ErrorWritten], log := c.log + [ErrorReply(i, msg.txid)])
      else c'.(tasks := c.tasks[i := Died])
    else
      match msg.ty
      case REGISTERED => c'.(phase := Established, tasks := c.tasks[i := PhaseChanged])
      case READY => c'.(phase := Ready, tasks := c.tasks[i := PhaseChanged])
      case INIT => c'.(tasks := c.tasks[i := if stubBuilds then InChaincode(true) else Died])
      case TRANSACTION => c'.(tasks := c.tasks[i := if stubBuilds then InChaincode(false) else Died])
      case _ => c'.(tasks := c.tasks[i := PassedToQueue])
  }

  /** handle_stub_interaction once the chaincode is done. */
  function FinishTask(c: Conn, i: nat, msg: Message, outcome: Outcome, writeOk: bool): Conn {
    if outcome.Raised? || !writeOk then c.(tasks := c.tasks[i := Died])
    else c.(tasks := c.tasks[i := CompletedWritten],
            log := c.log + [Completed(i, msg.channel, msg.txid, Normalised(outcome.resp))])
  }

  /** Handler, with its stream and its tasks. */
  class Handler {
    var state: Phase
    var started: seq<nat>
    var tasks: map<nat, Task>
    var log: seq<Out>

    ghost function View(): Conn
      reads this
    {
      Conn(state, started, tasks, log)
    }

    constructor ()
      ensures View() == CONNECTED
    {
      state, started, tasks, log := Created, [], map[], [];
    }

    method WriteError(i: nat, msg: Message, writeOk: bool)
      modifies this`tasks, this`log
      ensures tasks == old(tasks)[i := if writeOk then ErrorWritten else Died]
      ensures log == if writeOk then old(log) + [ErrorReply(i, msg.txid)] else old(log)
    {
      if writeOk {
        log := log + [ErrorReply(i, msg.txid)];
        tasks := tasks[i := ErrorWritten];
      } else {
        tasks := tasks[i := Died];
      }
    }

    method HandleMessage(i: nat, msg: Message, stubBuilds: bool, writeOk: bool)
      modifies this
      ensures View() == StartTask(old(View()), i, msg, stubBuilds, writeOk)
    {
      started := started + [i];
      if msg.ty == KEEPALIVE {
        tasks := tasks[i := Ignored];
        return;
      }
      match state {
        case Ready =>
          if msg.ty == RESPONSE || msg.ty == ERROR {
            tasks := tasks[i := PassedToQueue];
          } else if msg.ty == INIT || msg.ty == TRANSACTION {
            tasks := tasks[i := if stubBuilds then InChaincode(msg.ty == INIT) else Died];
          } else {
            WriteError(i, msg, writeOk);
          }
        case Established =>
          if msg.ty != READY {
            WriteError(i, msg, writeOk);
          } else {
            state := Ready;
            tasks := tasks[i := PhaseChanged];
          }
        case Created =>
          if msg.ty != REGISTERED {
            WriteError(i, msg, writeOk);
          } else {
            state := Established;
            tasks := tasks[i := PhaseChanged];
          }
      }
    }

    method ChaincodeDone(i: nat, msg: Message, outcome: Outcome, writeOk: bool)
      modifies this
      ensures View() == FinishTask(old(View()), i, msg, outcome, writeOk)
    {
      if outcome.Raised? {
        tasks := tasks[i := Died];
        return;
      }
      var resp := outcome.resp;
      if resp.None? || resp.value.status == 0 {
        resp := Some(Resp(ERROR_STATUS, "has not called success or error"));
      }
      if writeOk {
        log := log + [Completed(i, msg.channel, msg.txid, resp.value)];
        tasks := tasks[i := CompletedWritten];
      } else {
        tasks := tasks[i := Died];
      }
    }
  }
}
