/**
  Two serial handles (components/serialComm/serialComm.c) joined by two lines: the objects
  themselves take every step of a run, and the handshake is safe between them.
 */
module SerialSession {
  import opened Bytes
  import opened SerialPort
  import opened SerialLink

  class Link {
    const client: SerialHandle
    const server: SerialHandle
    var clientSent: seq<Byte>
    var clientGot: seq<Byte>
    var serverSent: seq<Byte>
    var serverGot: seq<Byte>
    ghost var connects: nat
    ghost var expired: nat
    ghost var hellos: nat

    ghost function Value(): System
      reads this, client, server
    {
      System(client.Value(), server.Value(), connects, expired, hellos,
             clientSent, clientGot, serverSent, serverGot)
    }

    ghost predicate Valid()
      reads this, client, server
    {
      client != server && !client.isServer && server.isServer && Inv(Value())
    }

    constructor ()
      ensures Valid() && fresh(client) && fresh(server) && Value() == INITIAL
    {
      client := new SerialHandle(false);
      server := new SerialHandle(true);
      clientSent, clientGot, serverSent, serverGot := [], [], [], [];
      connects, expired, hellos := 0, 0, 0;
    }

    /** The client's handlers. */
    method ClientActs(step: Step)
      requires client != server && !client.isServer && Enabled(Value(), step)
      requires step.ClientConnects? || step.ClientTimerExpires? || step.ClientEvent?
      modifies this, client
      ensures Value() == Next(old(Value()), step)
    {
      match step {
        case ClientConnects =>
          var started := client.Connect();
          if started {
            connects, hellos := connects + 1, hellos + 1;
          }
        case ClientTimerExpires =>
          ghost var connecting := client.connState == Connecting;
          var timedOut := client.TimerExpired();
          if timedOut {
            expired := expired + 1;
          } else if connecting {
            hellos := hellos + 1;
          }
        case ClientEvent => client.AsyncRecvHandler();
      }
    }

    /** The server's handlers. */
    method ServerActs(step: Step)
      requires client != server && server.isServer && Enabled(Value(), step)
      requires step.ServerConnects? || step.ServerTimerExpires? || step.ServerEvent?
      modifies server
      ensures Value() == Next(old(Value()), step)
    {
      match step {
        case ServerConnects =>
          var started := server.Connect();
        case ServerTimerExpires =>
          var timedOut := server.TimerExpired();
        case ServerEvent => server.AsyncRecvHandler();
      }
    }

    /** Data is handed over and taken. */
    method DataMoves(step: Step)
      requires client != server && Enabled(Value(), step)
      requires step.ClientSends? || step.ServerSends? || step.ClientReceives? || step.ServerReceives?
      modifies this, client, server
      ensures Value() == Next(old(Value()), step)
    {
      match step {
        case ClientSends(d) =>
          client.SendData(d);
          clientSent := clientSent + d;
        case ServerSends(d) =>
          server.SendData(d);
          serverSent := serverSent + d;
        case ClientReceives(n) =>
          var d := client.ReceiveData(n);
          clientGot := clientGot + d;
        case ServerReceives(n) =>
          var d := server.ReceiveData(n);
          serverGot := serverGot + d;
      }
    }

    /** A line delivers its oldest bytes. */
    method LineDelivers(step: Step)
      requires client != server && Enabled(Value(), step)
      requires step.LineToServer? || step.LineToClient?
      modifies client, server
      ensures Value() == Next(old(Value()), step)
    {
      var n := step.n;
      if step.LineToServer? {
        server.rx := server.rx + client.tx[..n];
        client.tx := client.tx[n..];
      } else {
        client.rx := client.rx + server.tx[..n];
        server.tx := server.tx[n..];
      }
    }

    /** One step of a run, taken by the objects.  The handshake stays safe. */
    method Take(step: Step)
      requires Valid() && Enabled(Value(), step)
      modifies this, client, server
      ensures Valid() && Value() == Next(old(Value()), step) && SafeState(Value())
    {
      InvStep(Value(), step);
      InvIsSafe(Next(Value(), step));
      match step {
        case ClientConnects | ClientTimerExpires | ClientEvent => ClientActs(step);
        case ServerConnects | ServerTimerExpires | ServerEvent => ServerActs(step);
        case LineToServer(_) | LineToClient(_) => LineDelivers(step);
        case _ => DataMoves(step);
      }
    }

    /** A whole run: the two handles end where it leads, connected in order, and what each side
        has read is what the other sent, but for leftover HELLO bytes. */
    method Play(steps: seq<Step>)
      requires Valid() && IsRun(Value(), steps)
      modifies this, client, server
      ensures Valid() && Value() == After(old(Value()), steps)
      ensures client.connState == Connected ==> server.connState == Connected
      ensures clientGot <= serverSent
      ensures 0 <= Leftover(Value()) && serverGot <= Hellos(Leftover(Value())) + clientSent
    {
      var rest := steps;
      while rest != []
        invariant Valid() && IsRun(Value(), rest)
        invariant After(Value(), rest) == After(old(Value()), steps)
      {
        Take(rest[0]);
        rest := rest[1..];
      }
      InvIsSafe(Value());
    }
  }
}
