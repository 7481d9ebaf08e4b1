/** The client's methods, called as the network and the clock have it, make a run of the step system. */
module GatewayService {
  import opened GatewaySteps
  import opened GatewayClient
  import opened GatewayRuns
  import opened GatewayHistory

  /** A close code has two bytes. */
  predicate CodeFits(e: Event) {
    e.PeerClose? ==> 0 <= e.code < 0x1_0000
  }

  /** The method that an event calls. */
  method Serve(g: Gateway, e: Event)
    requires g.Valid() && CodeFits(e)
    modifies g
    ensures g.Valid() && g.Now() == Step(g.parse, old(g.Now()), e)
  {
    match e {
      case Frame(text) =>
        var code := g.SayHello(Receive, text);
      case Tick =>
        var timer := g.Turn();
      case Timer =>
        g.ChunkTimeout();
      case PeerClose(code) =>
        var closecode := g.SayHello(PeerInitiatedClose, [(code / 256) as char, (code % 256) as char]);
      case Close =>
        var code := g.SayHello(ClientClosed, "");
      case Leave =>
        g.LeaveLoop();
    }
  }

  /** `connect_and_receive_events` of a new client, up to the last of the events. */
  method ConnectAndReceiveEvents(parse: Parser, es: seq<Event>) returns (g: Gateway)
    requires forall i | 0 <= i < |es| :: CodeFits(es[i])
    ensures fresh(g) && g.parse == parse && g.Now() == Run(parse, Initial(), es)
    ensures g.Now().session == Knowledge(parse, History(parse, Initial(), es))
    ensures g.connected == Connected(History(parse, Initial(), es))
    ensures RunAllowed(parse, Initial(), es) ==> Conserved(g.Now().chunks)
    ensures IdentifyFirst(Handshakes(g.sent)) <==> InTurn(parse, Initial(), es)
    ensures PoliteRun(parse, Initial(), false, es) ==> IdentifyFirst(Handshakes(g.sent))
    ensures EnabledRun(parse, Initial(), es) && g.halted ==> es != [] && es[|es| - 1] == Leave && !g.canReconnect
  {
    g := new Gateway(parse);
    for i := 0 to |es|
      invariant fresh(g) && g.Valid() && g.parse == parse
      invariant Run(parse, g.Now(), es[i..]) == Run(parse, Initial(), es)
    {
      assert es[i..][0] == es[i] && es[i..][1..] == es[i + 1..];
      Serve(g, es[i]);
    }
    if RunAllowed(parse, Initial(), es) {
      RunConserves(parse, Initial(), es);
    }
    SessionIsHistory(parse, es);
    ConnectionIsHistory(parse, es);
    HandshakesExactly(parse, Initial(), es);
    if EnabledRun(parse, Initial(), es) {
      RunEnds(parse, Initial(), es);
    }
    if PoliteRun(parse, Initial(), false, es) {
      HandshakeOrder(parse, Initial(), false, es);
    }
  }
}
