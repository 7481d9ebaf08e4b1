/** What the client knows of its session, told from all that has happened to it over all connections. */
module GatewayHistory {
  import opened JsonValues
  import opened GatewaySteps

  /** A text handed over, an invalid session, a refused token, a connection lost, a new one, the end. */
  datatype Happening = Handed(text: string) | Invalidated(resumable: bool) | Refused | Dropped | Renewed | Ended

  // ----- reading a payload

  function Part(v: Json, name: string): Json {
    match v
    case Object(pairs) => Get(pairs, name)
    case _ => Int(0)
  }

  /** A number, or a truth value as one; anything else counts as zero. */
  function Number(v: Json): int {
    match v
    case Int(n) => n
    case Enum(code) => code
    case _ => 0
  }

  function Op(parse: Parser, text: string): int {
    Number(Part(parse(text), "op"))
  }

  predicate IsReady(parse: Parser, text: string) {
    Op(parse, text) == 0 && Part(parse(text), "t") == Str("READY")
  }

  function SessionId(parse: Parser, text: string): string {
    match Part(Part(parse(text), "d"), "session_id")
    case Str(id) => id
    case _ => ""
  }

  // ----- what happened

  /** What an event in the state `s` makes happen. */
  function Told(parse: Parser, s: State, e: Event): seq<Happening> {
    match e
    case Frame(text) => if Op(parse, text) == 9 then [Invalidated(Number(Part(parse(text), "d")) != 0)] else []
    case Tick => if s.chunks.newPayload then [Handed(s.chunks.pending)] else []
    case Timer => if s.chunks.newChunk && !s.chunks.newPayload then [Handed(s.chunks.data)] else []
    case PeerClose(code) => if code == 4004 then [Refused] else []
    case Close => [Dropped]
    case Leave => [if s.session.canReconnect then Renewed else Ended]
  }

  function History(parse: Parser, s: State, es: seq<Event>): seq<Happening>
    decreases es
  {
    if es == [] then [] else Told(parse, s, es[0]) + History(parse, Step(parse, s, es[0]), es[1..])
  }

  // ----- what it means, the last happening that bears on the matter deciding

  function Before(hs: seq<Happening>): seq<Happening>
    requires hs != []
  {
    hs[..|hs| - 1]
  }

  function Latest(hs: seq<Happening>): Happening
    requires hs != []
  {
    hs[|hs| - 1]
  }

  /** The session id of the last READY. */
  function ReadyId(parse: Parser, hs: seq<Happening>): string {
    if hs == [] then ""
    else
      match Latest(hs)
      case Handed(text) => if IsReady(parse, text) then SessionId(parse, text) else ReadyId(parse, Before(hs))
      case _ => ReadyId(parse, Before(hs))
  }

  /** The number of the last event on this connection. */
  function EventNumber(parse: Parser, hs: seq<Happening>): int {
    if hs == [] then 0
    else
      match Latest(hs)
      case Handed(text) =>
        if Op(parse, text) == 0 then Number(Part(parse(text), "s")) else EventNumber(parse, Before(hs))
      case Renewed => 0
      case _ => EventNumber(parse, Before(hs))
  }

  /** A Hello allows the client to resume, until its session is invalid for good or its token refused. */
  function Resumable(parse: Parser, hs: seq<Happening>): bool {
    if hs == [] then false
    else
      match Latest(hs)
      case Handed(text) => Op(parse, text) == 10 || Resumable(parse, Before(hs))
      case Invalidated(resumable) => resumable
      case Refused => false
      case _ => Resumable(parse, Before(hs))
  }

  /** Heartbeats go out from a Hello until the connection is left. */
  function Beating(parse: Parser, hs: seq<Happening>): bool {
    if hs == [] then false
    else
      match Latest(hs)
      case Handed(text) => Op(parse, text) == 10 || Beating(parse, Before(hs))
      case Renewed => false
      case Ended => false
      case _ => Beating(parse, Before(hs))
  }

  /** What the client answers to the latest happening. */
  function Answer(parse: Parser, hs: seq<Happening>): seq<Message>
    requires hs != []
  {
    match Latest(hs)
    case Handed(text) =>
      if Op(parse, text) == 1 then [Heartbeat(EventNumber(parse, Before(hs)))]
      else if Op(parse, text) != 10 then []
      else if Resumable(parse, Before(hs)) then [Resume(ReadyId(parse, Before(hs)), EventNumber(parse, Before(hs)))]
      else [Identify]
    case _ => []
  }

  function Answers(parse: Parser, hs: seq<Happening>): seq<Message> {
    if hs == [] then [] else Answers(parse, Before(hs)) + Answer(parse, hs)
  }

  /** Whether there is a connection. */
  function Connected(hs: seq<Happening>): bool {
    if hs == [] then true
    else
      match Latest(hs)
      case Dropped => false
      case Renewed => true
      case _ => Connected(Before(hs))
  }

  /** What the client must know after all that. */
  function Knowledge(parse: Parser, hs: seq<Happening>): Session {
    Session(Resumable(parse, hs), EventNumber(parse, hs), ReadyId(parse, hs), Beating(parse, hs), Answers(parse, hs))
  }

  // ----- one happening more

  lemma Snoc(hs: seq<Happening>, x: Happening)
    ensures hs + [x] != [] && Before(hs + [x]) == hs && Latest(hs + [x]) == x
  {
  }

  lemma PartIsField(v: Json, name: string)
    ensures Field(v, name) == Part(v, name)
  {
  }

  lemma NumberIsInt(v: Json)
    ensures IntOf(v) == Number(v)
  {
  }

  lemma ReadSame(parse: Parser, text: string, v: Json)
    requires v == parse(text)
    ensures IntOf(Field(v, "op")) == Op(parse, text)
    ensures IntOf(Field(v, "s")) == Number(Part(v, "s")) && IntOf(Field(v, "d")) == Number(Part(v, "d"))
    ensures Field(v, "t") == Part(v, "t")
  {
    PartIsField(v, "op");
    PartIsField(v, "s");
    PartIsField(v, "d");
    PartIsField(v, "t");
    NumberIsInt(Part(v, "op"));
    NumberIsInt(Part(v, "s"));
    NumberIsInt(Part(v, "d"));
  }

  lemma IdSame(parse: Parser, text: string, v: Json)
    requires v == parse(text)
    ensures StringOf(Field(Field(v, "d"), "session_id")) == SessionId(parse, text)
  {
    PartIsField(v, "d");
    PartIsField(Part(v, "d"), "session_id");
  }

  function Noted(parse: Parser, h: Session, text: string): Session {
    h.(id := if IsReady(parse, text) then SessionId(parse, text) else h.id,
       eventOrder := Number(Part(parse(text), "s")))
  }

  lemma DispatchedIsNoted(parse: Parser, h: Session, text: string, v: Json)
    requires v == parse(text) && Op(parse, text) == 0
    ensures Dispatched(h, v) == Noted(parse, h, text)
  {
    ReadSame(parse, text, v);
    IdSame(parse, text, v);
    IsText(Part(v, "t"));
  }

  lemma IsText(v: Json)
    ensures StringOf(v) == "READY" <==> v == Str("READY")
  {
  }

  /** What becomes of the knowledge `h` when a text is handed over. */
  function Learnt(parse: Parser, h: Session, text: string): Session {
    if Op(parse, text) == 0 then Noted(parse, h, text)
    else if Op(parse, text) == 1 then h.(sent := h.sent + [Heartbeat(h.eventOrder)])
    else if Op(parse, text) == 10 then
      h.(sent := h.sent + [if h.canReconnect then Resume(h.id, h.eventOrder) else Identify],
         canReconnect := true, sendingHeartbeats := true)
    else h
  }

  lemma HandledIsLearnt(parse: Parser, h: Session, text: string)
    ensures Handled(parse, h, text) == Learnt(parse, h, text)
  {
    ReadSame(parse, text, parse(text));
    if Op(parse, text) == 0 {
      DispatchedIsNoted(parse, h, text, parse(text));
    }
  }

  lemma ReadySnoc(parse: Parser, hs: seq<Happening>, x: Happening)
    ensures ReadyId(parse, hs + [x])
         == if x.Handed? && IsReady(parse, x.text) then SessionId(parse, x.text) else ReadyId(parse, hs)
  {
    Snoc(hs, x);
  }

  lemma NumberSnoc(parse: Parser, hs: seq<Happening>, x: Happening)
    ensures EventNumber(parse, hs + [x])
         == if x.Handed? && Op(parse, x.text) == 0 then Number(Part(parse(x.text), "s"))
            else if x == Renewed then 0 else EventNumber(parse, hs)
  {
    Snoc(hs, x);
  }

  lemma ResumableSnoc(parse: Parser, hs: seq<Happening>, x: Happening)
    ensures Resumable(parse, hs + [x])
         == match x
            case Handed(text) => Op(parse, text) == 10 || Resumable(parse, hs)
            case Invalidated(resumable) => resumable
            case Refused => false
            case _ => Resumable(parse, hs)
  {
    Snoc(hs, x);
  }

  lemma BeatingSnoc(parse: Parser, hs: seq<Happening>, x: Happening)
    ensures Beating(parse, hs + [x])
         == if x.Handed? then Op(parse, x.text) == 10 || Beating(parse, hs)
            else x != Renewed && x != Ended && Beating(parse, hs)
  {
    Snoc(hs, x);
  }

  lemma AnswersSnoc(parse: Parser, hs: seq<Happening>, x: Happening)
    ensures Answers(parse, hs + [x]) == Answers(parse, hs) + Answer(parse, hs + [x])
  {
    Snoc(hs, x);
  }

  lemma AnswerSnoc(parse: Parser, hs: seq<Happening>, x: Happening)
    ensures Answer(parse, hs + [x])
         == if !x.Handed? then []
            else if Op(parse, x.text) == 1 then [Heartbeat(EventNumber(parse, hs))]
            else if Op(parse, x.text) != 10 then []
            else if Resumable(parse, hs) then [Resume(ReadyId(parse, hs), EventNumber(parse, hs))]
            else [Identify]
  {
    Snoc(hs, x);
  }

  /** What becomes of it at any happening. */
  function Learns(parse: Parser, h: Session, x: Happening): Session {
    match x
    case Handed(text) => Learnt(parse, h, text)
    case Invalidated(resumable) => h.(canReconnect := resumable)
    case Refused => h.(canReconnect := false)
    case Dropped => h
    case Renewed => h.(sendingHeartbeats := false, eventOrder := 0)
    case Ended => h.(sendingHeartbeats := false)
  }

  lemma KnowledgeSnoc(parse: Parser, hs: seq<Happening>, x: Happening)
    ensures Knowledge(parse, hs + [x]) == Learns(parse, Knowledge(parse, hs), x)
  {
    ReadySnoc(parse, hs, x);
    NumberSnoc(parse, hs, x);
    ResumableSnoc(parse, hs, x);
    BeatingSnoc(parse, hs, x);
    AnswersSnoc(parse, hs, x);
    AnswerSnoc(parse, hs, x);
    assert Answers(parse, hs) + [] == Answers(parse, hs);
  }

  // ----- runs

  lemma StepLearns(parse: Parser, s: State, e: Event)
    ensures |Told(parse, s, e)| <= 1
    ensures Step(parse, s, e).session
         == if Told(parse, s, e) == [] then s.session else Learns(parse, s.session, Told(parse, s, e)[0])
  {
    match e {
      case Frame(text) => ReadSame(parse, text, parse(text));
      case Tick => HandledIsLearnt(parse, s.session, s.chunks.pending);
      case Timer => HandledIsLearnt(parse, s.session, s.chunks.data);
      case _ =>
    }
  }

  lemma StepKnows(parse: Parser, hs: seq<Happening>, s: State, e: Event)
    requires s.session == Knowledge(parse, hs)
    ensures Step(parse, s, e).session == Knowledge(parse, hs + Told(parse, s, e))
  {
    var told := Told(parse, s, e);
    StepLearns(parse, s, e);
    if told == [] {
      assert hs + told == hs;
    } else {
      assert told == [told[0]];
      KnowledgeSnoc(parse, hs, told[0]);
    }
  }

  lemma Regroup(a: seq<Happening>, b: seq<Happening>, c: seq<Happening>)
    ensures (a + b) + c == a + (b + c) && a + [] == a && [] + a == a
  {
  }

  ghost predicate Lives(s: State, hs: seq<Happening>) {
    s.connected == Connected(hs) && (s.halted <==> Ended in hs)
  }

  lemma ConnectedSnoc(hs: seq<Happening>, x: Happening)
    ensures Connected(hs + [x]) == if x == Dropped then false else x == Renewed || Connected(hs)
  {
    Snoc(hs, x);
  }

  lemma StepLives(parse: Parser, hs: seq<Happening>, s: State, e: Event)
    requires Lives(s, hs)
    ensures Lives(Step(parse, s, e), hs + Told(parse, s, e))
  {
    var told := Told(parse, s, e);
    StepLearns(parse, s, e);
    if told == [] {
      assert hs + told == hs;
    } else {
      assert told == [told[0]];
      ConnectedSnoc(hs, told[0]);
    }
  }

  lemma {:induction false} RunLives(parse: Parser, hs: seq<Happening>, s: State, es: seq<Event>)
    requires Lives(s, hs)
    ensures Lives(Run(parse, s, es), hs + History(parse, s, es))
    decreases es
  {
    Regroup(hs, [], []);
    if es != [] {
      var told, t := Told(parse, s, es[0]), Step(parse, s, es[0]);
      StepLives(parse, hs, s, es[0]);
      RunLives(parse, hs + told, t, es[1..]);
      Regroup(hs, told, History(parse, t, es[1..]));
    }
  }

  /** Over every run: there is a connection unless the last one was lost, and the loop was left once it ended. */
  lemma ConnectionIsHistory(parse: Parser, es: seq<Event>)
    ensures var t, hs := Run(parse, Initial(), es), History(parse, Initial(), es);
            t.connected == Connected(hs) && (t.halted <==> Ended in hs)
  {
    RunLives(parse, [], Initial(), es);
    Regroup(History(parse, Initial(), es), [], []);
  }

  lemma {:induction false} RunKnows(parse: Parser, hs: seq<Happening>, s: State, es: seq<Event>)
    requires s.session == Knowledge(parse, hs)
    ensures Run(parse, s, es).session == Knowledge(parse, hs + History(parse, s, es))
    decreases es
  {
    Regroup(hs, [], []);
    if es != [] {
      var told, t := Told(parse, s, es[0]), Step(parse, s, es[0]);
      StepKnows(parse, hs, s, es[0]);
      RunKnows(parse, hs + told, t, es[1..]);
      Regroup(hs, told, History(parse, t, es[1..]));
    }
  }

  /** Over every run, everything about the session, and all that was sent, is what the history tells. */
  lemma SessionIsHistory(parse: Parser, es: seq<Event>)
    ensures Run(parse, Initial(), es).session == Knowledge(parse, History(parse, Initial(), es))
  {
    var hs := History(parse, Initial(), es);
    RunKnows(parse, [], Initial(), es);
    Regroup(hs, [], []);
  }

  /** The message answers the Hello handed over in happening `i`, with the id of the last READY before it. */
  ghost predicate ResumedAt(parse: Parser, hs: seq<Happening>, i: nat, m: Message)
    requires i < |hs|
  {
    && hs[i].Handed? && Op(parse, hs[i].text) == 10
    && m == Resume(ReadyId(parse, hs[..i]), EventNumber(parse, hs[..i]))
  }

  lemma {:induction false} AnswersResume(parse: Parser, hs: seq<Happening>, m: Message)
    requires m in Answers(parse, hs) && m.Resume?
    ensures exists i | 0 <= i < |hs| :: ResumedAt(parse, hs, i, m)
  {
    if m in Answers(parse, Before(hs)) {
      AnswersResume(parse, Before(hs), m);
      var i :| 0 <= i < |hs| - 1 && ResumedAt(parse, Before(hs), i, m);
      assert Before(hs)[..i] == hs[..i] && ResumedAt(parse, hs, i, m);
    } else {
      assert ResumedAt(parse, hs, |hs| - 1, m);
    }
  }

  /** Every Resume answers a Hello and carries the id of the last READY before it, from whichever connection. */
  lemma ResumesCarryId(parse: Parser, es: seq<Event>, m: Message)
    requires m in Run(parse, Initial(), es).session.sent && m.Resume?
    ensures var hs := History(parse, Initial(), es);
            exists i | 0 <= i < |hs| :: ResumedAt(parse, hs, i, m)
  {
    SessionIsHistory(parse, es);
    AnswersResume(parse, History(parse, Initial(), es), m);
  }

  /** A frame asking for a reconnect changes nothing, and one with an invalid session nothing but the permission. */
  lemma ControlFrames(parse: Parser, s: State, text: string)
    ensures Op(parse, text) == 7 ==> Step(parse, s, Frame(text)) == s
    ensures Op(parse, text) == 9 ==>
              Step(parse, s, Frame(text))
              == s.(session := s.session.(canReconnect := Number(Part(parse(text), "d")) != 0))
    ensures Op(parse, text) !in {7, 9} ==> Step(parse, s, Frame(text)).chunks.bytes == s.chunks.bytes + text
  {
  }
}
