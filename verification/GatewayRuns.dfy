/** What holds over every run. */
module GatewayRuns {
  import opened GatewaySteps

  // ----- no byte is lost, doubled or reordered

  function Concat(texts: seq<string>): string {
    if texts == [] then "" else Concat(texts[..|texts| - 1]) + texts[|texts| - 1]
  }

  /** The bytes so far, from the three places they can be. */
  function Held(c: Chunks): string {
    Concat(c.delivered) + (if c.newPayload then c.pending else "") + c.data
  }

  /** What has been delivered, what waits, and the buffer make up the data-frame bytes of this connection. */
  ghost predicate Conserved(c: Chunks) {
    && c.bytes == Held(c)
    && |c.data| % 4096 == 0
    && (c.data != "" ==> c.newChunk && !c.newPayload)
  }

  /** At most one frame arrives per turn of the loop: the payload of the last one has been taken. */
  ghost predicate OneFrameATurn(s: State, e: Event) {
    e.Frame? ==> !s.chunks.newPayload
  }

  lemma ConcatSnoc(texts: seq<string>, t: string)
    ensures Concat(texts + [t]) == Concat(texts) + t
  {
    assert (texts + [t])[..|texts|] == texts;
  }

  lemma FrameConserves(c: Chunks, text: string)
    requires Conserved(c) && !c.newPayload
    ensures Conserved(Collected(c, text))
  {
    var d := Concat(c.delivered);
    assert d + "" + c.data + text == d + "" + (c.data + text) == d + (c.data + text) + "";
    assert c.data == "" ==> c.data + text == text;
  }

  lemma TickConserves(c: Chunks)
    requires Conserved(c) && c.newPayload
    ensures Conserved(Taken(c))
  {
    ConcatSnoc(c.delivered, c.pending);
    assert Concat(c.delivered) + c.pending + "" == Concat(c.delivered) + c.pending;
  }

  lemma TimerConserves(c: Chunks)
    requires Conserved(c) && c.newChunk && !c.newPayload
    ensures Conserved(Expired(c))
  {
    ConcatSnoc(c.delivered, c.data);
    assert Concat(c.delivered) + "" + c.data == Concat(c.delivered) + c.data + "" + "";
  }

  lemma StepConserves(parse: Parser, s: State, e: Event)
    requires Conserved(s.chunks) && Enabled(s, e) && OneFrameATurn(s, e)
    ensures Conserved(Step(parse, s, e).chunks)
  {
    match e {
      case Frame(text) => FrameConserves(s.chunks, text);
      case Tick => if s.chunks.newPayload { TickConserves(s.chunks); }
      case Timer => if s.chunks.newChunk && !s.chunks.newPayload { TimerConserves(s.chunks); }
      case _ =>
    }
  }

  ghost predicate RunAllowed(parse: Parser, s: State, es: seq<Event>)
    decreases es
  {
    es == [] ||
    (Enabled(s, es[0]) && OneFrameATurn(s, es[0]) && RunAllowed(parse, Step(parse, s, es[0]), es[1..]))
  }

  /** In every reachable state, whatever the timers do. */
  lemma {:induction false} RunConserves(parse: Parser, s: State, es: seq<Event>)
    requires Conserved(s.chunks) && RunAllowed(parse, s, es)
    ensures Conserved(Run(parse, s, es).chunks)
    decreases es
  {
    if es != [] {
      StepConserves(parse, s, es[0]);
      RunConserves(parse, Step(parse, s, es[0]), es[1..]);
    }
  }

  // ----- messages come out as they were sent

  /** A frame and whether it is the last one of its message, or another event. */
  datatype Signal = Part(text: string, last: bool) | Turn | Wait

  function EventOf(g: Signal): Event {
    match g
    case Part(text, _) => Frame(text)
    case Turn => Tick
    case Wait => Timer
  }

  function EventsOf(gs: seq<Signal>): seq<Event> {
    if gs == [] then [] else [EventOf(gs[0])] + EventsOf(gs[1..])
  }

  /** The messages whose last frames are among the signals, after `open`, the frames of one begun before. */
  function MessagesOf(gs: seq<Signal>, open: string): seq<string>
    decreases gs
  {
    if gs == [] then []
    else
      match gs[0]
      case Part(text, last) =>
        if last then [open + text] + MessagesOf(gs[1..], "") else MessagesOf(gs[1..], open + text)
      case _ => MessagesOf(gs[1..], open)
  }

  /** The frames of the message in progress, and whether it only waits for the timer. */
  datatype Progress = Progress(open: string, awaiting: bool)

  function Next(p: Progress, g: Signal): Progress {
    match g
    case Part(text, last) =>
      if last && |text| != 4096 then Progress("", false) else Progress(p.open + text, last)
    case Turn => p
    case Wait => if p.awaiting then Progress("", false) else p
  }

  function After(p: Progress, gs: seq<Signal>): Progress
    decreases gs
  {
    if gs == [] then p else After(Next(p, gs[0]), gs[1..])
  }

  ghost predicate IsData(parse: Parser, text: string) {
    var op := IntOf(Field(parse(text), "op"));
    op != GW_RECONNEK && op != GW_INVLSESS
  }

  /**
   The hypotheses on the schedule: one frame a turn; all frames but the last of a message are full; the timer
   fires only between messages, and fires before the next message when the last frame was full too.
   */
  ghost predicate Timely(parse: Parser, s: State, p: Progress, g: Signal) {
    match g
    case Part(text, last) =>
      !s.chunks.newPayload && !p.awaiting && IsData(parse, text) && |text| <= 4096 && (!last ==> |text| == 4096)
    case Turn => true
    case Wait => p.open == "" || p.awaiting
  }

  ghost predicate TimelyRun(parse: Parser, s: State, p: Progress, gs: seq<Signal>)
    decreases gs
  {
    gs == [] ||
    (Timely(parse, s, p, gs[0]) && TimelyRun(parse, Step(parse, s, EventOf(gs[0])), Next(p, gs[0]), gs[1..]))
  }

  /** Delivered, or about to be. */
  function Out(c: Chunks): seq<string> {
    c.delivered + if c.newPayload then [c.pending] else []
  }

  /** The client has exactly the frames of the message in progress. */
  ghost predicate InStep(c: Chunks, p: Progress) {
    && c.data == p.open && (c.newChunk <==> p.open != "") && (c.newPayload ==> p.open == "")
    && (p.awaiting ==> p.open != "")
  }

  /** The messages out, and the one that only waits for the timer. */
  function Total(c: Chunks, p: Progress): seq<string> {
    Out(c) + if p.awaiting then [p.open] else []
  }

  /** The messages that the signals still complete. */
  function Coming(p: Progress, gs: seq<Signal>): seq<string> {
    MessagesOf(gs, if p.awaiting then "" else p.open)
  }

  lemma PartInStep(c: Chunks, p: Progress, text: string, last: bool)
    requires InStep(c, p) && !c.newPayload && !p.awaiting && (!last ==> |text| == 4096)
    ensures var d, q := Collected(c, text), Next(p, Part(text, last));
            InStep(d, q) && Total(d, q) == Total(c, p) + if last then [p.open + text] else []
  {
    assert c.data == "" ==> c.data + text == text;
    assert c.delivered + [] == c.delivered && c.delivered + [] + [] == c.delivered;
  }

  lemma WaitInStep(c: Chunks, p: Progress)
    requires InStep(c, p) && p.awaiting
    ensures InStep(Expired(c), Progress("", false)) && Total(Expired(c), Progress("", false)) == Total(c, p)
  {
    assert c.delivered + [] + [c.data] == c.delivered + [c.data] + [] + [];
  }

  lemma TurnInStep(c: Chunks, p: Progress)
    requires InStep(c, p) && c.newPayload
    ensures InStep(Taken(c), p) && Total(Taken(c), p) == Total(c, p)
  {
    assert Taken(c).delivered + [] == Taken(c).delivered;
  }

  lemma Regroup(a: seq<string>, b: seq<string>, c: seq<string>)
    ensures a + b + c == a + (b + c) && a + [] == a && [] + c == c
  {
  }

  lemma StepTotal(parse: Parser, s: State, p: Progress, gs: seq<Signal>)
    requires gs != [] && InStep(s.chunks, p) && Timely(parse, s, p, gs[0])
    ensures var c, q := Step(parse, s, EventOf(gs[0])).chunks, Next(p, gs[0]);
            InStep(c, q) && Total(c, q) + Coming(q, gs[1..]) == Total(s.chunks, p) + Coming(p, gs)
  {
    var c, q := s.chunks, Next(p, gs[0]);
    match gs[0] {
      case Part(text, last) =>
        PartInStep(c, p, text, last);
        Regroup(Total(c, p), if last then [p.open + text] else [], Coming(q, gs[1..]));
      case Turn =>
        if c.newPayload { TurnInStep(c, p); }
      case Wait =>
        if p.awaiting { WaitInStep(c, p); }
    }
  }

  /** Messages come out whole, in order, and none comes out twice or not at all. */
  lemma {:induction false} MessagesDelivered(parse: Parser, s: State, p: Progress, gs: seq<Signal>)
    requires InStep(s.chunks, p) && TimelyRun(parse, s, p, gs)
    ensures var c, q := Run(parse, s, EventsOf(gs)).chunks, After(p, gs);
            InStep(c, q) && Total(c, q) == Total(s.chunks, p) + Coming(p, gs)
    decreases gs
  {
    if gs == [] {
      assert Total(s.chunks, p) + [] == Total(s.chunks, p);
    } else {
      var e, rest := EventOf(gs[0]), EventsOf(gs[1..]);
      StepTotal(parse, s, p, gs);
      MessagesDelivered(parse, Step(parse, s, e), Next(p, gs[0]), gs[1..]);
      assert EventsOf(gs) == [e] + rest && ([e] + rest)[1..] == rest;
    }
  }

  // ----- a list of messages, cut into frames

  /** Full frames, and a shorter last one; when the length is a multiple of the frame size, the timer instead. */
  function Frames(m: string): seq<Signal> {
    if |m| < 4096 then [Part(m, true), Turn]
    else if |m| == 4096 then [Part(m, true), Turn, Wait]
    else [Part(m[..4096], false), Turn] + Frames(m[4096..])
  }

  function Transmission(ms: seq<string>): seq<Signal> {
    if ms == [] then [] else Frames(ms[0]) + Transmission(ms[1..])
  }

  /** None of the frames has an opcode of its own that closes the connection. */
  ghost predicate AllData(parse: Parser, gs: seq<Signal>) {
    forall i | 0 <= i < |gs| && gs[i].Part? :: IsData(parse, gs[i].text)
  }

  lemma {:induction false} FramesMean(m: string, rest: seq<Signal>, open: string)
    ensures MessagesOf(Frames(m) + rest, open) == [open + m] + MessagesOf(rest, "")
    decreases |m|
  {
    var gs := Frames(m) + rest;
    if |m| < 4096 {
      assert gs[1..][1..] == rest;
    } else if |m| == 4096 {
      assert gs[1..][1..][1..] == rest;
      assert MessagesOf(gs[1..][1..], "") == MessagesOf(rest, "");
    } else {
      assert gs[1..][1..] == Frames(m[4096..]) + rest;
      FramesMean(m[4096..], rest, open + m[..4096]);
      assert open + m[..4096] + m[4096..] == open + m;
    }
  }

  lemma {:induction false} TransmissionMeans(ms: seq<string>)
    ensures MessagesOf(Transmission(ms), "") == ms
  {
    if ms != [] {
      FramesMean(ms[0], Transmission(ms[1..]), "");
      TransmissionMeans(ms[1..]);
      assert "" + ms[0] == ms[0];
    }
  }

  /** From here the signals keep to the hypotheses, and all they send is delivered. */
  ghost predicate Settles(parse: Parser, s: State, p: Progress, gs: seq<Signal>) {
    && TimelyRun(parse, s, p, gs) && After(p, gs) == Progress("", false)
    && !Run(parse, s, EventsOf(gs)).chunks.newPayload
  }

  lemma SettlesCons(parse: Parser, s: State, p: Progress, g: Signal, rest: seq<Signal>)
    requires Timely(parse, s, p, g) && Settles(parse, Step(parse, s, EventOf(g)), Next(p, g), rest)
    ensures Settles(parse, s, p, [g] + rest)
  {
    var gs := [g] + rest;
    assert gs[1..] == rest && EventsOf(gs) == [EventOf(g)] + EventsOf(rest);
    assert EventsOf(gs)[1..] == EventsOf(rest);
  }

  /** One frame and the turn after it. */
  lemma FrameTurn(parse: Parser, s: State, p: Progress, text: string, last: bool)
    requires InStep(s.chunks, p) && !p.awaiting && !s.chunks.newPayload && IsData(parse, text)
    requires |text| <= 4096 && (!last ==> |text| == 4096)
    ensures var s2, q := Step(parse, Step(parse, s, Frame(text)), Tick), Next(p, Part(text, last));
            InStep(s2.chunks, q) && !s2.chunks.newPayload
  {
    PartInStep(s.chunks, p, text, last);
    var s1 := Step(parse, s, Frame(text));
    if s1.chunks.newPayload { TurnInStep(s1.chunks, Next(p, Part(text, last))); }
  }

  lemma FrameTurnSettles(parse: Parser, s: State, p: Progress, text: string, last: bool, rest: seq<Signal>)
    requires Timely(parse, s, p, Part(text, last))
    requires Settles(parse, Step(parse, Step(parse, s, Frame(text)), Tick), Next(p, Part(text, last)), rest)
    ensures Settles(parse, s, p, [Part(text, last)] + ([Turn] + rest))
  {
    SettlesCons(parse, Step(parse, s, Frame(text)), Next(p, Part(text, last)), Turn, rest);
    SettlesCons(parse, s, p, Part(text, last), [Turn] + rest);
  }

  /** Sending the frames of `m`, behind those in `p.open`, and then the messages `ms` keeps to the hypotheses. */
  lemma {:induction false} TransmissionTimely(parse: Parser, s: State, p: Progress, m: string, ms: seq<string>)
    requires InStep(s.chunks, p) && !p.awaiting && !s.chunks.newPayload
    requires AllData(parse, Frames(m) + Transmission(ms))
    ensures Settles(parse, s, p, Frames(m) + Transmission(ms))
    decreases |ms|, |m| + 1, 1
  {
    if |m| > 4096 {
      LongMessage(parse, s, p, m, ms);
    } else {
      LastFrame(parse, s, p, m, ms);
    }
  }

  lemma LongFrames(m: string, more: seq<Signal>)
    requires |m| > 4096
    ensures Frames(m) + more == [Part(m[..4096], false)] + ([Turn] + (Frames(m[4096..]) + more))
    ensures (Frames(m) + more)[2..] == Frames(m[4096..]) + more
  {
    TwoFirst(Part(m[..4096], false), Turn, Frames(m[4096..]), more);
  }

  lemma TwoFirst(a: Signal, b: Signal, rest: seq<Signal>, more: seq<Signal>)
    ensures ([a, b] + rest) + more == [a] + ([b] + (rest + more))
    ensures (([a, b] + rest) + more)[2..] == rest + more
  {
  }

  lemma {:induction false} LongMessage(parse: Parser, s: State, p: Progress, m: string, ms: seq<string>)
    requires InStep(s.chunks, p) && !p.awaiting && !s.chunks.newPayload && |m| > 4096
    requires AllData(parse, Frames(m) + Transmission(ms))
    ensures Settles(parse, s, p, Frames(m) + Transmission(ms))
    decreases |ms|, |m| + 1, 0
  {
    var gs, text, rest := Frames(m) + Transmission(ms), m[..4096], Frames(m[4096..]) + Transmission(ms);
    LongFrames(m, Transmission(ms));
    assert gs[0] == Part(text, false);
    FrameTurn(parse, s, p, text, false);
    AllDataTail(parse, gs, 2);
    TransmissionTimely(parse, Step(parse, Step(parse, s, Frame(text)), Tick), Next(p, gs[0]), m[4096..], ms);
    FrameTurnSettles(parse, s, p, text, false, rest);
  }

  lemma {:induction false} LastFrame(parse: Parser, s: State, p: Progress, m: string, ms: seq<string>)
    requires InStep(s.chunks, p) && !p.awaiting && !s.chunks.newPayload && |m| <= 4096
    requires AllData(parse, Frames(m) + Transmission(ms))
    ensures Settles(parse, s, p, Frames(m) + Transmission(ms))
    decreases |ms|, |m| + 1, 0
  {
    var gs, rest := Frames(m) + Transmission(ms), Transmission(ms);
    var more := if |m| == 4096 then [Wait] else [];
    assert gs == [Part(m, true)] + ([Turn] + (more + rest));
    assert gs[0] == Part(m, true) && gs[2 + |more|..] == rest;
    FrameTurn(parse, s, p, m, true);
    AllDataTail(parse, gs, 2 + |more|);
    var s2, q := Step(parse, Step(parse, s, Frame(m)), Tick), Next(p, gs[0]);
    if |m| == 4096 {
      WaitInStep(s2.chunks, q);
      NextMessage(parse, Step(parse, s2, Timer), ms);
      SettlesCons(parse, s2, q, Wait, rest);
    } else {
      NextMessage(parse, s2, ms);
      assert more + rest == rest;
    }
    FrameTurnSettles(parse, s, p, m, true, more + rest);
  }

  lemma AllDataTail(parse: Parser, gs: seq<Signal>, k: nat)
    requires k <= |gs| && AllData(parse, gs)
    ensures AllData(parse, gs[k..])
  {
  }

  lemma {:induction false} NextMessage(parse: Parser, s: State, ms: seq<string>)
    requires InStep(s.chunks, Progress("", false)) && !s.chunks.newPayload && AllData(parse, Transmission(ms))
    ensures Settles(parse, s, Progress("", false), Transmission(ms))
    decreases |ms|, 0, 0
  {
    if ms != [] {
      TransmissionTimely(parse, s, Progress("", false), ms[0], ms[1..]);
    }
  }

  /** Any list of messages, cut into frames, is delivered: exactly those messages, in order, nothing left over. */
  lemma TransmissionDelivered(parse: Parser, ms: seq<string>)
    requires AllData(parse, Transmission(ms))
    ensures var c := Run(parse, Initial(), EventsOf(Transmission(ms))).chunks;
            c.delivered == ms && c.data == "" && !c.newChunk && !c.newPayload
  {
    var p := Progress("", false);
    NextMessage(parse, Initial(), ms);
    MessagesDelivered(parse, Initial(), p, Transmission(ms));
    TransmissionMeans(ms);
    var c := Run(parse, Initial(), EventsOf(Transmission(ms))).chunks;
    assert Total(c, p) == c.delivered;
    assert Total(Initial().chunks, p) == [] && [] + ms == ms;
  }

  // ----- the handshake

  function Handshakes(sent: seq<Message>): seq<Message> {
    if sent == [] then []
    else Handshakes(sent[..|sent| - 1]) + (if sent[|sent| - 1].Heartbeat? then [] else [sent[|sent| - 1]])
  }

  /** At most one Identify, and Resumes after it: an Identify comes first or not at all. */
  ghost predicate IdentifyFirst(hs: seq<Message>) {
    forall i | 0 < i < |hs| :: hs[i].Resume?
  }

  /** On this connection the session has been declared invalid for good or the token refused. */
  function Condemned(parse: Parser, condemned: bool, s: State, e: Event): bool {
    match e
    case Frame(text) =>
      if IntOf(Field(parse(text), "op")) == GW_INVLSESS then IntOf(Field(parse(text), "d")) == 0 else condemned
    case PeerClose(code) => condemned || code == GC_AUFAILED
    case Leave => condemned && !s.session.canReconnect
    case _ => condemned
  }

  /** The event hands a Hello to `determine_what_to_do`. */
  ghost predicate HandsHello(parse: Parser, s: State, e: Event) {
    || (e.Tick? && s.chunks.newPayload && IntOf(Field(parse(s.chunks.pending), "op")) == GW_SAYHELLO)
    || (e.Timer? && s.chunks.newChunk && !s.chunks.newPayload
        && IntOf(Field(parse(s.chunks.data), "op")) == GW_SAYHELLO)
  }

  /** A client that cannot reconnect has sent no handshake yet, unless its connection is condemned or it has ended. */
  ghost predicate Untouched(s: State, condemned: bool) {
    && (!s.session.canReconnect && !condemned && !s.halted ==> Handshakes(s.session.sent) == [])
    && (s.halted ==> !s.session.canReconnect)
  }

  lemma HandshakesSnoc(sent: seq<Message>, m: Message)
    ensures Handshakes(sent + [m]) == Handshakes(sent) + (if m.Heartbeat? then [] else [m])
  {
    assert (sent + [m])[..|sent|] == sent;
  }

  lemma HandledHandshakes(parse: Parser, h: Session, text: string)
    ensures var k, hello := Handled(parse, h, text), IntOf(Field(parse(text), "op")) == GW_SAYHELLO;
            && k.canReconnect == (h.canReconnect || hello)
            && Handshakes(k.sent) == Handshakes(h.sent)
                 + (if !hello then [] else if h.canReconnect then [Resume(h.id, h.eventOrder)] else [Identify])
  {
    var op := IntOf(Field(parse(text), "op"));
    if op == GW_SAYHELLO {
      HandshakesSnoc(h.sent, if h.canReconnect then Resume(h.id, h.eventOrder) else Identify);
    } else {
      if op == GW_HRTBTSND {
        HandshakesSnoc(h.sent, Heartbeat(h.eventOrder));
      }
      assert Handshakes(h.sent) + [] == Handshakes(h.sent);
    }
  }

  /** In every run, whatever the server does. */
  lemma StepUntouched(parse: Parser, s: State, condemned: bool, e: Event)
    requires Untouched(s, condemned) && Enabled(s, e)
    ensures Untouched(Step(parse, s, e), Condemned(parse, condemned, s, e))
  {
    match e {
      case Tick => HandledHandshakes(parse, s.session, s.chunks.pending);
      case Timer => HandledHandshakes(parse, s.session, s.chunks.data);
      case _ =>
    }
  }

  /** A Hello that makes the client identify although it has sent a handshake before. */
  ghost predicate OutOfTurn(parse: Parser, s: State, e: Event) {
    HandsHello(parse, s, e) && !s.session.canReconnect && Handshakes(s.session.sent) != []
  }

  /** One more handshake keeps the order if and only if it is the first or a Resume. */
  lemma IdentifySnoc(hs: seq<Message>, m: Message)
    ensures IdentifyFirst(hs + [m]) <==> IdentifyFirst(hs) && (hs == [] || m.Resume?)
  {
    assert (hs + [m])[|hs|] == m && forall i | 0 <= i < |hs| :: (hs + [m])[i] == hs[i];
  }

  lemma HandledIdentify(parse: Parser, h: Session, text: string)
    ensures IdentifyFirst(Handshakes(Handled(parse, h, text).sent)) <==>
            && IdentifyFirst(Handshakes(h.sent))
            && !(IntOf(Field(parse(text), "op")) == GW_SAYHELLO && !h.canReconnect && Handshakes(h.sent) != [])
  {
    HandledHandshakes(parse, h, text);
    IdentifySnoc(Handshakes(h.sent), if h.canReconnect then Resume(h.id, h.eventOrder) else Identify);
    assert Handshakes(h.sent) + [] == Handshakes(h.sent);
  }

  /** Only such a Hello breaks the order, and nothing mends it. */
  lemma StepIdentifyFirst(parse: Parser, s: State, e: Event)
    ensures IdentifyFirst(Handshakes(Step(parse, s, e).session.sent)) <==>
            IdentifyFirst(Handshakes(s.session.sent)) && !OutOfTurn(parse, s, e)
  {
    match e {
      case Tick => HandledIdentify(parse, s.session, s.chunks.pending);
      case Timer => HandledIdentify(parse, s.session, s.chunks.data);
      case _ =>
    }
  }

  /** No step of the run hands over such a Hello. */
  ghost predicate InTurn(parse: Parser, s: State, es: seq<Event>)
    decreases es
  {
    es == [] || (!OutOfTurn(parse, s, es[0]) && InTurn(parse, Step(parse, s, es[0]), es[1..]))
  }

  /** Over every run, from every state: in order at the end exactly when it was at first and all Hellos came in turn. */
  lemma {:induction false} HandshakesExactly(parse: Parser, s: State, es: seq<Event>)
    ensures IdentifyFirst(Handshakes(Run(parse, s, es).session.sent)) <==>
            IdentifyFirst(Handshakes(s.session.sent)) && InTurn(parse, s, es)
    decreases es
  {
    if es != [] {
      StepIdentifyFirst(parse, s, es[0]);
      HandshakesExactly(parse, Step(parse, s, es[0]), es[1..]);
    }
  }

  /** A run of events that can happen. */
  ghost predicate EnabledRun(parse: Parser, s: State, es: seq<Event>)
    decreases es
  {
    es == [] || (Enabled(s, es[0]) && EnabledRun(parse, Step(parse, s, es[0]), es[1..]))
  }

  /** Every run ends with leaving the loop of the first connection that closed while the client could not reconnect. */
  lemma {:induction false} RunEnds(parse: Parser, s: State, es: seq<Event>)
    requires EnabledRun(parse, s, es) && !s.halted
    ensures var t := Run(parse, s, es); t.halted ==> es != [] && es[|es| - 1] == Leave && !t.session.canReconnect
    ensures forall i | 0 <= i < |es| && es[i].Leave? && !Run(parse, s, es[..i]).session.canReconnect :: i == |es| - 1
    decreases es
  {
    if es != [] {
      var e, rest, t := es[0], es[1..], Step(parse, s, es[0]);
      assert es[..0] == [];
      if t.halted {
        assert rest == [];
        assert es == [e];
      } else {
        RunEnds(parse, t, rest);
        forall i | 0 <= i < |es| && es[i].Leave? && !Run(parse, s, es[..i]).session.canReconnect ensures i == |es| - 1 {
          if i > 0 {
            assert es[..i][1..] == rest[..i - 1] && es[..i][0] == e;
            assert Run(parse, s, es[..i]) == Run(parse, t, rest[..i - 1]);
          }
        }
      }
    }
  }

  /** A run in which no Hello follows a session invalid for good or a refused token on the same connection. */
  ghost predicate PoliteRun(parse: Parser, s: State, condemned: bool, es: seq<Event>)
    decreases es
  {
    es == [] ||
    (Enabled(s, es[0]) && !(condemned && HandsHello(parse, s, es[0]))
     && PoliteRun(parse, Step(parse, s, es[0]), Condemned(parse, condemned, s, es[0]), es[1..]))
  }

  lemma {:induction false} PoliteIsInTurn(parse: Parser, s: State, condemned: bool, es: seq<Event>)
    requires Untouched(s, condemned) && PoliteRun(parse, s, condemned, es)
    ensures InTurn(parse, s, es) && EnabledRun(parse, s, es)
    decreases es
  {
    if es != [] {
      StepUntouched(parse, s, condemned, es[0]);
      PoliteIsInTurn(parse, Step(parse, s, es[0]), Condemned(parse, condemned, s, es[0]), es[1..]);
    }
  }

  /** Over every such run the handshakes sent are at most one Identify and then Resumes. */
  lemma HandshakeOrder(parse: Parser, s: State, condemned: bool, es: seq<Event>)
    requires Untouched(s, condemned) && PoliteRun(parse, s, condemned, es)
    requires IdentifyFirst(Handshakes(s.session.sent)) && !s.halted
    ensures var t := Run(parse, s, es);
            && IdentifyFirst(Handshakes(t.session.sent))
            && (t.halted ==> es != [] && es[|es| - 1] == Leave && !t.session.canReconnect)
    ensures forall i | 0 <= i < |es| && es[i].Leave? && !Run(parse, s, es[..i]).session.canReconnect :: i == |es| - 1
  {
    PoliteIsInTurn(parse, s, condemned, es);
    HandshakesExactly(parse, s, es);
    RunEnds(parse, s, es);
  }
}
