/** The callback, the loop and the timer thread over the object's fields. */
module GatewayClient {
  import opened Words
  import opened JsonValues
  import opened GatewaySteps

  /** The two bytes that a close message starts with. */
  function CloseCode(message: string): int {
    ByteOf(message, 0) * 256 + ByteOf(message, 1)
  }

  datatype Reason = ConnectionError | Established | PeerInitiatedClose | Receive | ClientClosed

  class Gateway {
    const parse: Parser
    var connected: bool
    var halted: bool
    var data: string
    var newChunk: bool
    var newPayload: bool
    var receivedMessage: Json
    var canReconnect: bool
    var eventOrder: int
    var session: string
    var sendingHeartbeats: bool
    ghost var pending: string
    ghost var sent: seq<Message>
    ghost var bytes: string
    ghost var delivered: seq<string>

    ghost function Now(): State
      reads this
    {
      State(connected, halted, Chunks(data, newChunk, newPayload, pending, bytes, delivered),
            Session(canReconnect, eventOrder, session, sendingHeartbeats, sent))
    }

    /** The message kept is the value of the text pending. */
    ghost predicate Valid()
      reads this
    {
      newPayload ==> receivedMessage == parse(pending)
    }

    constructor (parse: Parser)
      ensures this.parse == parse && Now() == Initial() && Valid()
    {
      this.parse := parse;
      connected, halted, data, newChunk, newPayload := true, false, "", false, false;
      receivedMessage, canReconnect, eventOrder, session, sendingHeartbeats := Str(""), false, 0, "", false;
      pending, sent, bytes, delivered := "", [], "", [];
    }

    /** `say_hello`; the code it returns closes the connection when it is not zero. */
    method SayHello(reason: Reason, message: string) returns (closecode: int)
      requires Valid()
      modifies this
      ensures Valid()
      ensures Now() == match reason
                       case Receive => Received(parse, old(Now()), message)
                       case PeerInitiatedClose => PeerClosed(old(Now()), CloseCode(message))
                       case Established => old(Now())
                       case _ => Closed(old(Now()))
      ensures closecode == match reason
                           case Receive =>
                             (var op := IntOf(Field(parse(message), "op"));
                              if op == GW_RECONNEK || op == GW_INVLSESS then op else 0)
                           case PeerInitiatedClose => CloseCode(message)
                           case _ => 0
    {
      closecode := 0;
      match reason {
        case ConnectionError =>
          connected := false;
        case Established =>
        case PeerInitiatedClose =>
          closecode := ByteOf(message, 0) * 256 + ByteOf(message, 1);
          if closecode == GC_AUFAILED {
            canReconnect := false;
          }
        case Receive =>
          var rcvdata := parse(message);
          var op := IntOf(Field(rcvdata, "op"));
          if op == GW_RECONNEK {
            closecode := 7;
          } else if op == GW_INVLSESS {
            canReconnect := IntOf(Field(rcvdata, "d")) != 0;
            closecode := 9;
          } else {
            Collect(message, rcvdata);
          }
        case ClientClosed =>
          connected := false;
      }
    }

    /** The default branch of the receive callback. */
    method Collect(message: string, rcvdata: Json)
      requires Valid() && rcvdata == parse(message)
      modifies this
      ensures Valid() && Now() == old(Now()).(chunks := Collected(old(Now()).chunks, message))
    {
      bytes := bytes + message;
      if |message| == FRAME {
        data := data + message;
        newChunk := true;
      } else if newChunk {
        data := data + message;
        receivedMessage := parse(data);
        pending := data;
        data := "";
        newChunk := false;
        newPayload := true;
      } else {
        receivedMessage := rcvdata;
        pending := message;
        newPayload := true;
      }
    }

    /** The body of the service loop after `lws_service`; `timer` tells that a timer thread was started. */
    method Turn() returns (timer: bool)
      requires Valid()
      modifies this
      ensures Valid() && Now() == Ticked(parse, old(Now())) && timer == old(newChunk)
    {
      timer := newChunk;
      if newPayload {
        newPayload := false;
        DetermineWhatToDo(receivedMessage, pending);
      }
    }

    method ChunkTimeout()
      requires Valid()
      modifies this
      ensures Valid() && Now() == TimedOut(parse, old(Now()))
    {
      if newChunk && !newPayload {
        newChunk := false;
        var rcvdata := parse(data);
        ghost var text := data;
        data := "";
        DetermineWhatToDo(rcvdata, text);
      }
    }

    method DetermineWhatToDo(jsonMsg: Json, ghost text: string)
      requires Valid() && jsonMsg == parse(text)
      modifies this
      ensures Valid()
      ensures Now() == old(Now()).(chunks := old(Now()).chunks.(delivered := old(delivered) + [text]),
                                   session := Handled(parse, old(Now()).session, text))
    {
      delivered := delivered + [text];
      var op := IntOf(Field(jsonMsg, "op"));
      if op == GW_DISPATCH {
        Dispatch(jsonMsg);
      } else if op == GW_HRTBTSND {
        sent := sent + [Heartbeat(eventOrder)];
      } else if op == GW_SAYHELLO {
        Greet();
      }
    }

    method Dispatch(jsonMsg: Json)
      requires Valid()
      modifies this`session, this`eventOrder
      ensures Valid() && Now() == old(Now()).(session := Dispatched(old(Now()).session, jsonMsg))
    {
      if StringOf(Field(jsonMsg, "t")) == "READY" {
        session := StringOf(Field(Field(jsonMsg, "d"), "session_id"));
      }
      eventOrder := IntOf(Field(jsonMsg, "s"));
    }

    method Greet()
      requires Valid()
      modifies this`sent, this`canReconnect, this`sendingHeartbeats
      ensures Valid() && Now() == old(Now()).(session := Greeted(old(Now()).session))
    {
      if canReconnect {
        sent := sent + [Resume(session, eventOrder)];
      } else {
        sent := sent + [Identify];
        canReconnect := true;
      }
      sendingHeartbeats := true;
    }

    /** What follows the service loop in `connect_and_receive_events`. */
    method LeaveLoop()
      requires Valid()
      modifies this
      ensures Valid() && Now() == LoopLeft(old(Now()))
    {
      sendingHeartbeats := false;
      if canReconnect {
        ReconnectInit();
        data := "";
        connected := true;
        bytes, delivered := "", [];
      } else {
        halted := true;
      }
    }

    method ReconnectInit()
      modifies this
      ensures !newPayload
      ensures Now() == old(Now()).(chunks := old(Now()).chunks.(newPayload := false, pending := ""),
                                   session := old(Now()).session.(sendingHeartbeats := false, eventOrder := 0))
    {
      sendingHeartbeats := false;
      newPayload := false;
      eventOrder := 0;
      receivedMessage := Str("");
      pending := "";
    }
  }
}
