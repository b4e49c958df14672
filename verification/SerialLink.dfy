/**
  Client and server of components/serialComm/serialComm.c joined by two loss-free, in-order
  lines.  Every schedule of connection requests, timer expiries, read events, transfers and
  line deliveries is a run; the theorems hold of all of them.
 */
module SerialLink {
  import opened Bytes
  import opened SerialPort

  /** The two ports and the history of the session. */
  datatype System = System(
    client: Port, server: Port,
    connects: nat,         // client connection requests that started a handshake
    expired: nat,          // client attempts that timed out
    hellos: nat,           // HELLO bytes the client has written
    clientSent: seq<Byte>, clientGot: seq<Byte>,
    serverSent: seq<Byte>, serverGot: seq<Byte>)

  const INITIAL: System := System(FRESH_PORT, FRESH_PORT, 0, 0, 0, [], [], [], [])

  datatype Step =
    | ClientConnects
    | ServerConnects
    | ClientTimerExpires
    | ServerTimerExpires
    | ClientEvent
    | ServerEvent
    | ClientSends(data: seq<Byte>)
    | ServerSends(data: seq<Byte>)
    | ClientReceives(n: nat)
    | ServerReceives(n: nat)
    | LineToServer(n: nat)
    | LineToClient(n: nat)

  predicate Enabled(s: System, step: Step) {
    match step
    case ClientConnects | ServerConnects | ClientEvent | ServerEvent => true
    case ClientTimerExpires => s.client.timers > 0
    case ServerTimerExpires => s.server.timers > 0
    case ClientSends(_) => s.client.conn == Connected
    case ServerSends(_) => s.server.conn == Connected
    case ClientReceives(n) => s.client.conn == Connected && n <= |s.client.rx|
    case ServerReceives(n) => s.server.conn == Connected && n <= |s.server.rx|
    case LineToServer(n) => n <= |s.client.tx|
    case LineToClient(n) => n <= |s.server.tx|
  }

  function Next(s: System, step: Step): System
    requires Enabled(s, step)
  {
    match step
    case ClientConnects =>
      if s.client.conn == Connected then s.(client := ClientConnect(s.client))
      else s.(client := ClientConnect(s.client), connects := s.connects + 1, hellos := s.hellos + 1)
    case ServerConnects => s.(server := ServerConnect(s.server))
    case ClientTimerExpires =>
      var s' := s.(client := ClientTimer(s.client));
      if s.client.conn != Connecting then s'
      else if s.client.count == RETRIES then s'.(expired := s.expired + 1)
      else s'.(hellos := s.hellos + 1)
    case ServerTimerExpires => s.(server := ServerTimer(s.server))
    case ClientEvent => s.(client := ClientReadable(s.client))
    case ServerEvent => s.(server := ServerReadable(s.server))
    case ClientSends(d) => s.(client := Send(s.client, d), clientSent := s.clientSent + d)
    case ServerSends(d) => s.(server := Send(s.server, d), serverSent := s.serverSent + d)
    case ClientReceives(n) =>
      s.(client := Receive(s.client, n), clientGot := s.clientGot + s.client.rx[..n])
    case ServerReceives(n) =>
      s.(server := Receive(s.server, n), serverGot := s.serverGot + s.server.rx[..n])
    case LineToServer(n) =>
      s.(client := s.client.(tx := s.client.tx[n..]),
         server := s.server.(rx := s.server.rx + s.client.tx[..n]))
    case LineToClient(n) =>
      s.(server := s.server.(tx := s.server.tx[n..]),
         client := s.client.(rx := s.client.rx + s.server.tx[..n]))
  }

  /** A run: every step is enabled where it is taken. */
  predicate IsRun(s: System, steps: seq<Step>)
    decreases |steps|
  {
    steps == [] || (Enabled(s, steps[0]) && IsRun(Next(s, steps[0]), steps[1..]))
  }

  function After(s: System, steps: seq<Step>): System
    requires IsRun(s, steps)
    decreases |steps|
  {
    if steps == [] then s else After(Next(s, steps[0]), steps[1..])
  }

  // ---- the invariant -----------------------------------------------------------------------

  /** The bytes under way to the server and to the client, oldest first. */
  function ToServer(s: System): seq<Byte> {
    s.server.rx + s.client.tx
  }

  function ToClient(s: System): seq<Byte> {
    s.client.rx + s.server.tx
  }

  function Hellos(n: nat): (h: seq<Byte>)
    ensures |h| == n
  {
    seq(n, _ => HELLO)
  }

  /** Everything the server has taken or can still take as data. */
  function ServerView(s: System): seq<Byte> {
    s.serverGot + ToServer(s)
  }

  /** How many of those bytes are not the client's data. */
  function Leftover(s: System): int {
    |ServerView(s)| - |s.clientSent|
  }

  /** Line contents. */
  predicate LinesInv(s: System) {
    && Leftover(s) >= 0
    && ServerView(s) == Hellos(Leftover(s)) + s.clientSent
    && Leftover(s) + (if s.server.conn == Connected then 1 else 0) <= s.hellos
    && (s.client.conn != Connected ==> s.clientSent == [] && s.clientGot == [])
    && (s.server.conn != Connected ==>
          && s.client.conn != Connected
          && ToClient(s) == [] && s.serverGot == [] && s.serverSent == [])
    && (s.server.conn == Connected && s.client.conn != Connected ==>
          ToClient(s) == [HELLOACK] + s.serverSent)
    && (s.client.conn == Connected ==> s.clientGot + ToClient(s) == s.serverSent)
  }

  /** Retries: every timer that ran out has cost five of them. */
  predicate RetryInv(s: System) {
    && s.hellos <= (RETRIES + 1) * s.connects
    && (s.client.conn == Idle ==> s.hellos == 0 && s.connects == 0 && s.client.timers == 0
                                  && s.client.count == 0 && s.expired == 0)
    && (s.client.conn == Connecting ==>
          && s.hellos == s.connects + RETRIES * s.expired + s.client.count
          && s.connects == s.client.timers + s.expired
          && s.client.count <= RETRIES
          && (s.client.timers == 0 ==> s.client.count == 0))
  }

  predicate Inv(s: System) {
    LinesInv(s) && RetryInv(s)
  }

  lemma RetryStep(s: System, step: Step)
    requires RetryInv(s) && Enabled(s, step)
    ensures RetryInv(Next(s, step))
  {
    match step {
      case ClientConnects =>
      case ClientTimerExpires =>
      case ClientEvent =>
      case _ =>
        assert RetryInv(Next(s, step));
    }
  }

  lemma HellosGrow(n: nat)
    ensures Hellos(n) + [HELLO] == Hellos(n + 1)
    ensures n > 0 ==> Hellos(n)[0] == HELLO && Hellos(n)[1..] == Hellos(n - 1)
  {
  }

  /** Client steps that write to the line append at the end of the server's view. */
  lemma ClientWrites(s: System, s': System, data: seq<Byte>)
    requires s'.server == s.server && s'.serverGot == s.serverGot
    requires s'.client.tx == s.client.tx + data
    ensures ServerView(s') == ServerView(s) + data
  {
  }

  lemma ServerWrites(s: System, s': System, data: seq<Byte>)
    requires s'.client == s.client
    requires s'.server.tx == s.server.tx + data
    ensures ToClient(s') == ToClient(s) + data
  {
  }

  /** The client writes one more HELLO while it is not connected. */
  lemma HelloKeepsLines(s: System, s': System)
    requires Inv(s) && s.client.conn != Connected
    requires s' == s.(client := s'.client, connects := s'.connects, hellos := s.hellos + 1)
    requires s'.client.conn == Connecting
    requires s'.client.tx == s.client.tx + [HELLO] && s'.client.rx == s.client.rx
    ensures LinesInv(s')
  {
    ClientWrites(s, s', [HELLO]);
    HellosGrow(Leftover(s));
  }

  lemma ClientEventKeepsLines(s: System)
    requires Inv(s)
    ensures LinesInv(Next(s, ClientEvent))
  {
    var s' := Next(s, ClientEvent);
    assert ServerView(s') == ServerView(s);
    if s.client.conn == Connecting && s.client.rx != [] {
      assert ToClient(s)[0] == s.client.rx[0];
      assert ToClient(s') == ToClient(s)[1..];
    } else if s.client.conn == Idle {
      assert Leftover(s) == 0;
      assert ToClient(s') == [];
    }
  }

  lemma ClientDataKeepsLines(s: System, step: Step)
    requires Inv(s) && Enabled(s, step)
    requires step.ClientSends? || step.ClientReceives?
    ensures LinesInv(Next(s, step))
  {
    var s' := Next(s, step);
    if step.ClientSends? {
      ClientWrites(s, s', step.data);
      assert Hellos(Leftover(s)) + s.clientSent + step.data
             == Hellos(Leftover(s)) + (s.clientSent + step.data);
    } else {
      assert s'.clientGot + ToClient(s') == s.clientGot + ToClient(s);
      assert ServerView(s') == ServerView(s);
    }
  }

  lemma LinesStepClient(s: System, step: Step)
    requires Inv(s) && Enabled(s, step)
    requires step.ClientConnects? || step.ClientTimerExpires? || step.ClientEvent?
             || step.ClientSends? || step.ClientReceives?
    ensures LinesInv(Next(s, step))
  {
    var s' := Next(s, step);
    match step {
      case ClientConnects =>
        if s.client.conn != Connected {
          HelloKeepsLines(s, s');
        }
      case ClientTimerExpires =>
        if s.client.conn == Connecting && s.client.count != RETRIES {
          HelloKeepsLines(s, s');
        } else {
          assert ServerView(s') == ServerView(s);
        }
      case ClientEvent =>
        ClientEventKeepsLines(s);
      case ClientSends(_) | ClientReceives(_) =>
        ClientDataKeepsLines(s, step);
    }
  }

  lemma LinesStepServer(s: System, step: Step)
    requires Inv(s) && Enabled(s, step)
    requires step.ServerConnects? || step.ServerTimerExpires? || step.ServerEvent?
             || step.ServerSends? || step.ServerReceives?
    ensures LinesInv(Next(s, step))
  {
    var s' := Next(s, step);
    match step {
      case ServerConnects =>
      case ServerTimerExpires =>
      case ServerEvent =>
        ServerEventKeepsLines(s);
      case ServerSends(d) =>
        ServerWrites(s, s', d);
      case ServerReceives(n) =>
        assert ServerView(s') == ServerView(s);
    }
  }

  lemma ServerAnswersKeepsLines(s: System)
    requires Inv(s) && s.server.conn == Connecting && s.server.rx != []
    ensures LinesInv(Next(s, ServerEvent))
  {
    var s' := Next(s, ServerEvent);
    assert ServerView(s)[0] == s.server.rx[0] == HELLO;
    assert ServerView(s') == ServerView(s)[1..];
    HellosGrow(Leftover(s));
    assert ToClient(s') == ToClient(s) + [HELLOACK];
  }

  lemma ServerEventKeepsLines(s: System)
    requires Inv(s)
    ensures LinesInv(Next(s, ServerEvent))
  {
    var s' := Next(s, ServerEvent);
    if s.server.conn == Connecting && s.server.rx != [] {
      ServerAnswersKeepsLines(s);
    } else if s.server.conn == Idle {
      assert ServerView(s') == s.client.tx;
      assert ServerView(s)[|s.server.rx|..] == s.client.tx;
    }
  }

  lemma LinesStepWire(s: System, step: Step)
    requires Inv(s) && Enabled(s, step)
    requires step.LineToServer? || step.LineToClient?
    ensures LinesInv(Next(s, step))
  {
    var s' := Next(s, step);
    assert ToServer(s') == ToServer(s);
    assert ToClient(s') == ToClient(s);
    assert ServerView(s') == ServerView(s);
  }

  lemma InvStep(s: System, step: Step)
    requires Inv(s) && Enabled(s, step)
    ensures Inv(Next(s, step))
  {
    RetryStep(s, step);
    match step {
      case ClientConnects | ClientTimerExpires | ClientEvent | ClientSends(_) | ClientReceives(_) =>
        LinesStepClient(s, step);
      case ServerConnects | ServerTimerExpires | ServerEvent | ServerSends(_) | ServerReceives(_) =>
        LinesStepServer(s, step);
      case LineToServer(_) | LineToClient(_) =>
        LinesStepWire(s, step);
    }
  }

  lemma {:induction false} InvRun(s: System, steps: seq<Step>)
    requires Inv(s) && IsRun(s, steps)
    ensures Inv(After(s, steps))
    decreases |steps|
  {
    if steps != [] {
      InvStep(s, steps[0]);
      InvRun(Next(s, steps[0]), steps[1..]);
    }
  }

  // ---- the theorems ------------------------------------------------------------------------

  /** Safety of the handshake over every run: a connected client has a connected server, the
      client reads a prefix of what the server sent, and the server reads a prefix of some
      leftover HELLO bytes followed by the client's data -- at most five of them per client
      connection request, plus one for each request after the first. */
  lemma HandshakeSafety(steps: seq<Step>)
    requires IsRun(INITIAL, steps)
    ensures SafeState(After(INITIAL, steps))
  {
    InvRun(INITIAL, steps);
    InvIsSafe(After(INITIAL, steps));
  }

  predicate SafeState(s: System) {
    && (s.client.conn == Connected ==> s.server.conn == Connected)
    && s.clientGot <= s.serverSent
    && 0 <= Leftover(s)
    && (s.server.conn == Connected ==> Leftover(s) < (RETRIES + 1) * s.connects)
    && s.serverGot <= Hellos(Leftover(s)) + s.clientSent
  }

  lemma InvIsSafe(s: System)
    requires Inv(s)
    ensures SafeState(s)
  {
  }

  /** The single-session bound: with one connection request at most five leftovers. */
  lemma SingleSessionLeftovers(steps: seq<Step>)
    requires IsRun(INITIAL, steps)
    requires After(INITIAL, steps).connects <= 1
    ensures var s := After(INITIAL, steps);
            s.server.conn == Connected ==>
              0 <= Leftover(s) <= RETRIES && s.serverGot <= Hellos(Leftover(s)) + s.clientSent
  {
    InvRun(INITIAL, steps);
  }

  /** Delivering what is under way and reading it completes the handshake from any reachable
      state in which both sides wait and a HELLO has not been thrown away. */
  lemma HandshakeCompletes(steps: seq<Step>)
    requires IsRun(INITIAL, steps)
    requires var s := After(INITIAL, steps);
             s.client.conn == Connecting && s.server.conn == Connecting && ToServer(s) != []
    ensures var s := After(INITIAL, steps);
            var s1 := Next(s, LineToServer(|s.client.tx|));
            var s2 := Next(s1, ServerEvent);
            Enabled(s2, LineToClient(|s2.server.tx|)) &&
            var s4 := Next(Next(s2, LineToClient(|s2.server.tx|)), ClientEvent);
            s4.client.conn == Connected && s4.server.conn == Connected
  {
    InvRun(INITIAL, steps);
    var s := After(INITIAL, steps);
    var s1 := Next(s, LineToServer(|s.client.tx|));
    ServerAnswers(s, s1);
    ClientIsAnswered(Next(s1, ServerEvent));
  }

  lemma ServerAnswers(s: System, s1: System)
    requires LinesInv(s) && s.client.conn == Connecting && s.server.conn == Connecting
    requires ToServer(s) != [] && s1 == Next(s, LineToServer(|s.client.tx|))
    ensures var s2 := Next(s1, ServerEvent);
            && s2.server.conn == Connected && s2.server.tx == [HELLOACK]
            && s2.client.conn == Connecting && s2.client.rx == []
  {
    assert s1.server.rx == ServerView(s);
    assert s1.server.rx[0] == HELLO;
    assert ToClient(s) == [];
  }

  lemma ClientIsAnswered(s2: System)
    requires s2.server.conn == Connected && s2.server.tx == [HELLOACK]
    requires s2.client.conn == Connecting && s2.client.rx == []
    ensures var s4 := Next(Next(s2, LineToClient(|s2.server.tx|)), ClientEvent);
            s4.client.conn == Connected && s4.server.conn == Connected
  {
  }

  /** Once the client is connected its data arrives: what it sends, sent after whatever has
      happened so far, delivered and read, leaves the server with everything the client ever
      sent, in order, behind the leftover HELLO bytes. */
  lemma ClientDataArrives(steps: seq<Step>, d: seq<Byte>)
    requires IsRun(INITIAL, steps) && After(INITIAL, steps).client.conn == Connected
    ensures var s := After(INITIAL, steps);
            var s1 := Next(s, ClientSends(d));
            var s2 := Next(s1, LineToServer(|s1.client.tx|));
            Enabled(s2, ServerReceives(|s2.server.rx|)) && 0 <= Leftover(s) &&
            Next(s2, ServerReceives(|s2.server.rx|)).serverGot
            == Hellos(Leftover(s)) + (s.clientSent + d)
  {
    InvRun(INITIAL, steps);
    var s := After(INITIAL, steps);
    var s1 := Next(s, ClientSends(d));
    InvStep(s, ClientSends(d));
    EverythingRead(s1);
    assert Leftover(s1) == Leftover(s);
  }

  lemma EverythingRead(s1: System)
    requires Inv(s1) && s1.server.conn == Connected
    ensures var s2 := Next(s1, LineToServer(|s1.client.tx|));
            Next(s2, ServerReceives(|s2.server.rx|)).serverGot
            == Hellos(Leftover(s1)) + s1.clientSent
  {
    var s2 := Next(s1, LineToServer(|s1.client.tx|));
    assert s2.server.rx == ToServer(s1);
    assert s2.server.rx[..|s2.server.rx|] == s2.server.rx;
  }

  /** The other way there are no leftovers: a connected client that reads all has exactly what the
      server sent. */
  lemma ServerDataArrives(steps: seq<Step>, d: seq<Byte>)
    requires IsRun(INITIAL, steps) && After(INITIAL, steps).client.conn == Connected
    ensures var s := After(INITIAL, steps);
            Enabled(s, ServerSends(d)) &&
            var s1 := Next(s, ServerSends(d));
            var s2 := Next(s1, LineToClient(|s1.server.tx|));
            Next(s2, ClientReceives(|s2.client.rx|)).clientGot == s.serverSent + d
  {
    InvRun(INITIAL, steps);
    var s := After(INITIAL, steps);
    var s1 := Next(s, ServerSends(d));
    InvStep(s, ServerSends(d));
    var s2 := Next(s1, LineToClient(|s1.server.tx|));
    assert s2.client.rx == ToClient(s1);
    assert s2.client.rx[..|s2.client.rx|] == s2.client.rx;
  }

  /** Running one list of steps after another. */
  lemma {:induction false} AfterAppend(s: System, a: seq<Step>, b: seq<Step>)
    requires IsRun(s, a) && IsRun(After(s, a), b)
    ensures IsRun(s, a + b) && After(s, a + b) == After(After(s, a), b)
    decreases |a|
  {
    if a == [] {
      assert a + b == b;
    } else {
      AfterAppend(Next(s, a[0]), a[1..], b);
      assert (a + b)[1..] == a[1..] + b;
    }
  }

  function Retries(n: nat): seq<Step> {
    seq(n, _ => ClientTimerExpires)
  }

  lemma {:induction false} AfterRetries(s: System, n: nat)
    requires s.client.conn == Connecting && s.client.timers > 0 && s.client.count + n <= RETRIES
    ensures IsRun(s, Retries(n))
    ensures After(s, Retries(n))
            == s.(client := s.client.(count := s.client.count + n, tx := s.client.tx + Hellos(n)),
                  hellos := s.hellos + n)
    decreases n
  {
    if n > 0 {
      var s' := Next(s, ClientTimerExpires);
      AfterRetries(s', n - 1);
      assert Retries(n)[1..] == Retries(n - 1);
      assert s.client.tx + [HELLO] + Hellos(n - 1) == s.client.tx + Hellos(n);
    } else {
      assert s.client.tx + Hellos(0) == s.client.tx;
    }
  }

  /** The server reads six waiting bytes late, and takes five of them for data. */
  lemma LateServer(s: System) returns (steps: seq<Step>)
    requires s.client.tx == [HELLO] + Hellos(RETRIES) && s.server.rx == []
    requires s.server.conn == Connecting && s.serverGot == []
    ensures IsRun(s, steps) && After(s, steps).connects == s.connects
    ensures After(s, steps).serverGot == Hellos(RETRIES)
  {
    var s2 := Next(s, LineToServer(6));
    assert s2.server.rx == [HELLO] + Hellos(RETRIES);
    var s3 := Next(s2, ServerEvent);
    assert s3.server.rx == Hellos(RETRIES);
    var s4 := Next(s3, ServerReceives(5));
    assert s4.serverGot == Hellos(RETRIES);
    steps := Prepend(s3, ServerReceives(5), []);
    steps := Prepend(s2, ServerEvent, steps);
    steps := Prepend(s, LineToServer(6), steps);
  }

  lemma Prepend(s: System, step: Step, rest: seq<Step>) returns (steps: seq<Step>)
    requires Enabled(s, step) && IsRun(Next(s, step), rest)
    ensures steps == [step] + rest
    ensures IsRun(s, steps) && After(s, steps) == After(Next(s, step), rest)
  {
    steps := [step] + rest;
    assert steps[1..] == rest;
  }

  /** The bound is met: there is a one-request run in which the server, which reads late, takes
      five HELLO bytes for data. */
  lemma FiveLeftoversHappen() returns (steps: seq<Step>)
    ensures IsRun(INITIAL, steps)
    ensures After(INITIAL, steps).connects == 1
    ensures After(INITIAL, steps).serverGot == Hellos(RETRIES)
  {
    var open := [ServerConnects, ClientConnects];
    var s0 := Next(Next(INITIAL, ServerConnects), ClientConnects);
    assert open[1..] == [ClientConnects];
    assert open[1..][1..] == [];
    assert IsRun(INITIAL, open) && After(INITIAL, open) == s0;
    AfterRetries(s0, RETRIES);
    var s1 := After(s0, Retries(RETRIES));
    AfterAppend(INITIAL, open, Retries(RETRIES));
    var close := LateServer(s1);
    steps := open + Retries(RETRIES) + close;
    AfterAppend(INITIAL, open + Retries(RETRIES), close);
  }
}
