/**
  One end of the serial link (components/serialComm/serialComm.c): the static handle record,
  the retry counter and the bytes of the file descriptor.  Each handler is a method; the value
  functions beside them say what it does to the port.
 */
module SerialPort {
  import opened Basics
  import opened Bytes

  const HELLO: Byte := 'X' as int
  const HELLOACK: Byte := 'Y' as int

  /** LE_COMM_CONNECTION_TIMEOUT_TIMER_DURATION of the client: its number of retries. */
  const RETRIES: nat := 5

  datatype Connection = Idle | Connecting | Connected

  /** A port: its state, the static retry count, the timers running, the bytes waiting to be
      read and the bytes written to the line. */
  datatype Port = Port(conn: Connection, count: nat, timers: nat, rx: seq<Byte>, tx: seq<Byte>)

  const FRESH_PORT: Port := Port(Idle, 0, 0, [], [])

  // ---- what each handler does --------------------------------------------------------------

  function ClientConnect(p: Port): Port {
    if p.conn == Connected then p
    else p.(conn := Connecting, tx := p.tx + [HELLO], timers := p.timers + 1)
  }

  function ServerConnect(p: Port): Port {
    if p.conn == Connected then p else p.(conn := Connecting, timers := p.timers + 1)
  }

  function ClientTimer(p: Port): Port
    requires p.timers > 0
  {
    if p.conn != Connecting then p.(count := 0, timers := p.timers - 1)
    else if p.count == RETRIES then p.(count := 0, timers := p.timers - 1)
    else p.(count := p.count + 1, tx := p.tx + [HELLO])
  }

  function ServerTimer(p: Port): Port
    requires p.timers > 0
  {
    p.(timers := p.timers - 1)
  }

  function ClientReadable(p: Port): Port {
    match p.conn
    case Connecting =>
      if p.rx == [] then p
      else if p.rx[0] == HELLOACK then p.(rx := p.rx[1..], conn := Connected)
      else p.(rx := p.rx[1..])
    case Connected => p
    case Idle => p.(rx := [])
  }

  function ServerReadable(p: Port): Port {
    match p.conn
    case Connecting =>
      if p.rx == [] then p
      else if p.rx[0] == HELLO then
        p.(rx := p.rx[1..], conn := Connected, tx := p.tx + [HELLOACK])
      else p.(rx := [])
    case Connected => p
    case Idle => p.(rx := [])
  }

  function Send(p: Port, data: seq<Byte>): Port {
    p.(tx := p.tx + data)
  }

  function Receive(p: Port, n: nat): Port
    requires n <= |p.rx|
  {
    p.(rx := p.rx[n..])
  }

  // ---- what each handler changes -------------------------------------------------------------

  /** A connection request of a port that is not connected: it waits, with one more timer, and a
      client says hello. */
  predicate ConnectEffect(p: Port, server: bool, q: Port) {
    if p.conn == Connected then q == p
    else
      && q.conn == Connecting && q.timers == p.timers + 1 && q.count == p.count && q.rx == p.rx
      && q.tx == if server then p.tx else p.tx + ['X' as int]
  }

  /** A timer of a waiting client says hello again, five times, and then goes; any other timer
      goes at once. */
  predicate TimerEffect(p: Port, server: bool, q: Port) {
    && q.conn == p.conn && q.rx == p.rx
    && if !server && p.conn == Connecting && p.count != 5
       then q.count == p.count + 1 && q.timers == p.timers && q.tx == p.tx + ['X' as int]
       else q.count == (if server then p.count else 0) && q.timers == p.timers - 1 && q.tx == p.tx
  }

  /** Readable bytes: a waiting server that finds a hello first answers it and is connected, and
      throws everything away otherwise; a waiting client looks at one byte and is connected by an
      answer; an idle port throws everything away; a connected one leaves the bytes for its
      reader. */
  predicate ReadableEffect(p: Port, server: bool, q: Port) {
    && q.count == p.count && q.timers == p.timers
    && match p.conn
       case Connected => q == p
       case Idle => q.conn == Idle && q.rx == [] && q.tx == p.tx
       case Connecting =>
         if p.rx == [] then q == p
         else if server then
           if p.rx[0] == 'X' as int
           then q.conn == Connected && q.rx == p.rx[1..] && q.tx == p.tx + ['Y' as int]
           else q.conn == Connecting && q.rx == [] && q.tx == p.tx
         else
           && q.conn == (if p.rx[0] == 'Y' as int then Connected else Connecting)
           && q.rx == p.rx[1..] && q.tx == p.tx
  }

  /** Every handler has its effect. */
  lemma HandlersHaveEffect(p: Port)
    ensures ConnectEffect(p, true, ServerConnect(p)) && ConnectEffect(p, false, ClientConnect(p))
    ensures p.timers > 0 ==>
              TimerEffect(p, true, ServerTimer(p)) && TimerEffect(p, false, ClientTimer(p))
    ensures ReadableEffect(p, true, ServerReadable(p))
    ensures ReadableEffect(p, false, ClientReadable(p))
  {
  }

  // ---- the handlers ------------------------------------------------------------------------

  class SerialHandle {
    const isServer: bool
    var connState: Connection
    var count: nat
    var timers: nat
    var rx: seq<Byte>
    var tx: seq<Byte>

    function Value(): Port
      reads this
    {
      Port(connState, count, timers, rx, tx)
    }

    constructor (server: bool)
      ensures isServer == server && Value() == FRESH_PORT
    {
      isServer := server;
      connState := Idle;
      count, timers := 0, 0;
      rx, tx := [], [];
    }

    /** `le_fd_Read` of one byte: false when there is none. */
    method ReadByte() returns (got: bool, b: Byte)
      modifies `rx
      ensures got == (old(rx) != [])
      ensures if got then b == old(rx)[0] && rx == old(rx)[1..] else rx == old(rx)
    {
      got, b := false, 0;
      if rx != [] {
        got, b := true, rx[0];
        rx := rx[1..];
      }
    }

    /** `le_fd_Write`. */
    method WriteBytes(data: seq<Byte>)
      modifies `tx
      ensures tx == old(tx) + data
    {
      tx := tx + data;
    }

    /** `le_comm_Connect`; true is LE_IN_PROGRESS, false LE_OK. */
    method Connect() returns (started: bool)
      modifies this
      ensures started == (old(connState) != Connected)
      ensures Value() == if isServer then ServerConnect(old(Value()))
                         else ClientConnect(old(Value()))
      ensures ConnectEffect(old(Value()), isServer, Value())
    {
      HandlersHaveEffect(Value());
      if connState == Connected {
        return false;
      }
      connState := Connecting;
      if !isServer {
        WriteBytes([HELLO]);
      }
      timers := timers + 1;
      started := true;
    }

    /** `ConnectionTimerExpiryHandler`; true when the caller is told the attempt timed out. */
    method TimerExpired() returns (timedOut: bool)
      requires timers > 0
      modifies this
      ensures Value() == if isServer then ServerTimer(old(Value())) else ClientTimer(old(Value()))
      ensures timedOut == (old(connState) == Connecting && (isServer || old(count) == 5))
      ensures TimerEffect(old(Value()), isServer, Value())
    {
      HandlersHaveEffect(Value());
      timedOut := false;
      if isServer {
        timedOut := connState == Connecting;
        timers := timers - 1;
      } else if connState == Connecting {
        if count == RETRIES {
          timedOut := true;
          timers := timers - 1;
          count := 0;
        } else {
          count := count + 1;
          WriteBytes([HELLO]);
        }
      } else {
        count := 0;
        timers := timers - 1;
      }
    }

    /** `AsyncRecvHandler`, called when the descriptor is readable. */
    method AsyncRecvHandler()
      modifies this
      ensures Value() == if isServer then ServerReadable(old(Value()))
                         else ClientReadable(old(Value()))
      ensures ReadableEffect(old(Value()), isServer, Value())
    {
      HandlersHaveEffect(Value());
      if connState == Connected {
        return;
      }
      if connState == Connecting {
        var got, response := ReadByte();
        if !got {
          return;
        }
        if isServer && response == HELLO {
          connState := Connected;
          WriteBytes([HELLOACK]);
          return;
        }
        if !isServer {
          if response == HELLOACK {
            connState := Connected;
          }
          return;
        }
      }
      Discard();
    }

    /** Reads until nothing is left. */
    method Discard()
      modifies `rx
      ensures rx == []
    {
      var more := true;
      while more
        invariant !more ==> rx == []
        decreases |rx|, more
      {
        var b;
        more, b := ReadByte();
      }
    }

    /** `le_comm_Send`; the source asserts the connection. */
    method SendData(data: seq<Byte>)
      requires connState == Connected
      modifies `tx
      ensures Value() == Send(old(Value()), data)
      ensures tx == old(tx) + data
    {
      WriteBytes(data);
    }

    /** `le_comm_Receive` with room for `room` bytes. */
    method ReceiveData(room: nat) returns (data: seq<Byte>)
      requires connState == Connected
      modifies `rx
      ensures |data| == Min(room, |old(rx)|) && data == old(rx)[..|data|]
      ensures Value() == Receive(old(Value()), |data|)
      ensures data + rx == old(rx)
    {
      var n := Min(room, |rx|);
      data := rx[..n];
      rx := rx[n..];
    }
  }
}
