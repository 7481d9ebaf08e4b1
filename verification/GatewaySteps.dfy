/** The gateway client as a step system: what each callback, loop turn and timer does to its state. */
module GatewaySteps {
  import opened JsonValues

  /** `json_value::parse`, which here may be any function of the text. */
  type Parser = string -> Json

  /** `val_int` of a parsed value: only integers and words set it. */
  function IntOf(v: Json): int {
    match v
    case Int(n) => n
    case Enum(code) => code
    case _ => 0
  }

  function Field(v: Json, name: string): Json {
    Get(MembersOf(v), name)
  }

  const FRAME := 4096

  // Opcodes and close codes
  const GW_DISPATCH := 0
  const GW_HRTBTSND := 1
  const GW_RECONNEK := 7
  const GW_INVLSESS := 9
  const GW_SAYHELLO := 10
  const GC_AUFAILED := 4004

  /** What `determine_what_to_do` sends. */
  datatype Message = Heartbeat(seqNo: int) | Identify | Resume(session: string, seqNo: int)

  /** Reassembly of messages from frames. */
  datatype Chunks = Chunks(
    data: string,             // gateway_rcol
    newChunk: bool,
    newPayload: bool,
    pending: string,          // the text whose value is received_message
    bytes: string,            // data-frame bytes received on this connection
    delivered: seq<string>)   // texts handed to determine_what_to_do on this connection

  /** The handshake and what depends on it. */
  datatype Session = Session(
    canReconnect: bool,
    eventOrder: int,
    id: string,
    sendingHeartbeats: bool,
    sent: seq<Message>)       // everything sent, over all connections

  datatype State = State(
    connected: bool,          // interface is not null
    halted: bool,             // connect_and_receive_events has left its loop
    chunks: Chunks,
    session: Session)

  function Initial(): State {
    State(true, false, Chunks("", false, false, "", "", []), Session(false, 0, "", false, []))
  }

  /** `determine_what_to_do`. */
  function Handled(parse: Parser, h: Session, text: string): Session {
    var v := parse(text);
    var op := IntOf(Field(v, "op"));
    if op == GW_DISPATCH then Dispatched(h, v)
    else if op == GW_HRTBTSND then h.(sent := h.sent + [Heartbeat(h.eventOrder)])
    else if op == GW_SAYHELLO then Greeted(h)
    else h
  }

  /** An event, which may tell the session's id. */
  function Dispatched(h: Session, v: Json): Session {
    var ready := StringOf(Field(v, "t")) == "READY";
    h.(id := if ready then StringOf(Field(Field(v, "d"), "session_id")) else h.id,
       eventOrder := IntOf(Field(v, "s")))
  }

  /** The answer to a Hello. */
  function Greeted(h: Session): Session {
    h.(sent := h.sent + [if h.canReconnect then Resume(h.id, h.eventOrder) else Identify],
       canReconnect := true, sendingHeartbeats := true)
  }

  /** The default branch of the receive callback. */
  function Collected(c: Chunks, text: string): Chunks {
    var t := c.(bytes := c.bytes + text);
    if |text| == FRAME then t.(data := c.data + text, newChunk := true)
    else if c.newChunk then t.(pending := c.data + text, data := "", newChunk := false, newPayload := true)
    else t.(pending := text, newPayload := true)
  }

  /** The receive branch of `say_hello`. */
  function Received(parse: Parser, s: State, text: string): State {
    var op := IntOf(Field(parse(text), "op"));
    if op == GW_RECONNEK then s
    else if op == GW_INVLSESS then
      s.(session := s.session.(canReconnect := IntOf(Field(parse(text), "d")) != 0))
    else s.(chunks := Collected(s.chunks, text))
  }

  /** The rest of a turn of the service loop, the dispatched thread run at once. */
  function Ticked(parse: Parser, s: State): State {
    if s.chunks.newPayload then
      s.(chunks := Taken(s.chunks), session := Handled(parse, s.session, s.chunks.pending))
    else s
  }

  function Taken(c: Chunks): Chunks {
    c.(newPayload := false, delivered := c.delivered + [c.pending])
  }

  /** `chunk_timeout` after its sleep. */
  function TimedOut(parse: Parser, s: State): State {
    if s.chunks.newChunk && !s.chunks.newPayload then
      s.(chunks := Expired(s.chunks), session := Handled(parse, s.session, s.chunks.data))
    else s
  }

  function Expired(c: Chunks): Chunks {
    c.(newChunk := false, data := "", delivered := c.delivered + [c.data])
  }

  function PeerClosed(s: State, code: int): State {
    if code == GC_AUFAILED then s.(session := s.session.(canReconnect := false)) else s
  }

  function Closed(s: State): State {
    s.(connected := false)
  }

  /** What follows the service loop: a new connection, on which the buffer is empty, or the end. */
  function LoopLeft(s: State): State {
    var h := s.session.(sendingHeartbeats := false);
    if h.canReconnect then
      State(true, s.halted,
            s.chunks.(newPayload := false, pending := "", data := "", bytes := "", delivered := []),
            h.(eventOrder := 0))
    else s.(session := h, halted := true)
  }

  datatype Event = Frame(text: string) | Tick | Timer | PeerClose(code: int) | Close | Leave

  function Step(parse: Parser, s: State, e: Event): State {
    match e
    case Frame(text) => Received(parse, s, text)
    case Tick => Ticked(parse, s)
    case Timer => TimedOut(parse, s)
    case PeerClose(code) => PeerClosed(s, code)
    case Close => Closed(s)
    case Leave => LoopLeft(s)
  }

  function Run(parse: Parser, s: State, es: seq<Event>): State
    decreases es
  {
    if es == [] then s else Run(parse, Step(parse, s, es[0]), es[1..])
  }

  /** Events that can happen at all: nothing after the end, frames on a connection, the loop left when there is none. */
  ghost predicate Enabled(s: State, e: Event) {
    && !s.halted
    && (e.Frame? || e.PeerClose? ==> s.connected)
    && (e.Leave? ==> !s.connected && !s.chunks.newPayload)
  }
}
