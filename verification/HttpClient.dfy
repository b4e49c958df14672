/**
  The HTTP client itself (components/httpClientLibrary/le_httpClientLib.c): a session object
  whose handlers mutate its context.  `HttpMachine` says what each of them does.
 */
module HttpClient {
  import opened Basics
  import opened HttpWire
  import opened HttpMachine

  class HttpSession {
    const config: Config
    var state: State
    var result: Result
    var command: Command
    var responseCb: Option<nat>
    var fields: seq<FieldAnswer>
    var chunks: seq<ChunkAnswer>
    var sent: string
    ghost var delivered: seq<(nat, Result)>
    ghost var parsed: bool

    ghost function Value(): Session
      reads this
    {
      Session(config, state, result, command, responseCb, fields, chunks, sent, delivered, parsed)
    }

    constructor (g: Config)
      ensures config == g && state == Idle && sent == "" && delivered == []
    {
      config := g;
      state, result, command, responseCb := Idle, LeOk, Head, None;
      fields, chunks, sent, delivered, parsed := [], [], "", [], false;
    }

    method SocketSend(data: string, w: World) returns (ok: bool)
      modifies `sent
      ensures ok == w.sendOk && sent == if ok then old(sent) + data else old(sent)
    {
      ok := w.sendOk;
      if ok {
        sent := sent + data;
      }
    }

    method CallBack(cb: Option<nat>, status: Result)
      modifies `delivered
      ensures delivered == if cb.None? then old(delivered) else old(delivered) + [(cb.value, status)]
    {
      if cb.Some? {
        delivered := delivered + [(cb.value, status)];
      }
    }

    method BuildAndSendRequest(c: Command, uri: string, w: World) returns (status: Result)
      modifies this
      ensures (Value(), status) == SendRequestLine(old(Value()), c, uri, w)
    {
      var buffer := RequestLine(config, c, uri);
      if |buffer| >= REQUEST_BUFFER_SIZE {
        return Fault;
      }
      command := c;
      var ok := SocketSend(buffer, w);
      status := if ok then LeOk else Fault;
    }

    method BuildAndSendCredential(w: World) returns (status: Result)
      modifies this
      ensures (Value(), status) == SendCredential(old(Value()), w)
    {
      if config.credential == "" {
        return Unavailable;
      }
      var buffer := AuthLine(config);
      if |buffer| + 3 > REQUEST_BUFFER_SIZE {
        return Fault;
      }
      var ok := SocketSend(buffer + CRLF, w);
      status := if ok then LeOk else Fault;
    }

    /** Asks the resource callback; without one, or past its script, the key is empty. */
    method ResourceUpdate() returns (a: FieldAnswer)
      modifies `fields
      ensures a == NextField(old(Value()))
      ensures fields == if old(fields) == [] then [] else old(fields)[1..]
    {
      a := FieldAnswer("", "", LeOk);
      if fields != [] {
        a := fields[0];
        fields := fields[1..];
      }
    }

    method BuildAndSendResource(w: World) returns (status: Result)
      modifies this
      ensures (Value(), status) == SendResource(old(Value()), w)
    {
      var a := ResourceUpdate();
      status := a.status;
      if status == WouldBlock {
        if config.monitored {
          return;
        }
        status := LeOk;
      }
      var buffer := "";
      if a.key == "" || a.value == "" {
        status := Terminated;
      } else {
        buffer := FieldLine(a) + CRLF;
        if |buffer| >= REQUEST_BUFFER_SIZE {
          return Fault;
        }
      }
      if status == Terminated {
        if |buffer| + 3 > REQUEST_BUFFER_SIZE {
          return Fault;
        }
        assert buffer == "" ==> buffer + CRLF == CRLF;
        buffer := buffer + CRLF;
      }
      var ok := SocketSend(buffer, w);
      if !ok {
        return Fault;
      }
    }

    method BodyConstruct() returns (a: ChunkAnswer)
      modifies `chunks
      ensures a == NextChunk(old(Value()))
      ensures chunks == if old(chunks) == [] then [] else old(chunks)[1..]
    {
      a := ChunkAnswer("", LeOk);
      if chunks != [] {
        a := chunks[0];
        chunks := chunks[1..];
      }
    }

    method BuildAndSendBody(w: World) returns (status: Result)
      modifies this
      ensures (Value(), status) == SendBody(old(Value()), w)
    {
      var a := BodyConstruct();
      status := a.status;
      if status == WouldBlock {
        if config.monitored {
          return;
        }
        status := LeOk;
      }
      if a.data == "" {
        return Unavailable;
      }
      var ok := SocketSend(a.data, w);
      if !ok {
        return Fault;
      }
    }

    method Conclude(status: Result)
      modifies this
      ensures Value() == Finish(old(Value()), status)
    {
      state := End;
      result := status;
    }

    method StartParsing()
      modifies this
      ensures Value() == old(Value()).(state := RespParse, parsed := true)
    {
      state := RespParse;
      parsed := true;
    }

    method CredentialState(e: Events, w: World) returns (restartLoop: bool)
      requires state == ReqCredential
      modifies this
      ensures (Value(), restartLoop) == Pass(old(Value()), e, w)
    {
      restartLoop := false;
      if e.pollOut {
        var status := BuildAndSendCredential(w);
        if status == LeOk {
          state := ReqResource;
        } else if status == Unavailable {
          state := ReqResource;
          restartLoop := true;
        } else {
          Conclude(status);
          restartLoop := true;
        }
      }
    }

    method ResourceState(e: Events, w: World) returns (restartLoop: bool)
      requires state == ReqResource
      modifies this
      ensures (Value(), restartLoop) == Pass(old(Value()), e, w)
    {
      restartLoop := false;
      if e.pollOut {
        BuildersOnlySend(Value(), w);
        var status := BuildAndSendResource(w);
        if status == LeOk || status == WouldBlock {
          state := ReqResource;
        } else if status == Terminated {
          if command == Post || command == Put {
            state := ReqBody;
          } else {
            StartParsing();
          }
        } else {
          Conclude(status);
          restartLoop := true;
        }
      }
    }

    method BodyState(e: Events, w: World) returns (restartLoop: bool)
      requires state == ReqBody
      modifies this
      ensures (Value(), restartLoop) == Pass(old(Value()), e, w)
    {
      restartLoop := false;
      if e.pollOut {
        BuildersOnlySend(Value(), w);
        var status := BuildAndSendBody(w);
        if status == LeOk || status == WouldBlock {
          state := ReqBody;
        } else if status == Unavailable {
          StartParsing();
          restartLoop := true;
        } else if status == Terminated {
          StartParsing();
        } else {
          Conclude(status);
          restartLoop := true;
        }
      }
    }

    method ParseState(e: Events, w: World) returns (restartLoop: bool)
      requires state == RespParse
      modifies this
      ensures (Value(), restartLoop) == Pass(old(Value()), e, w)
    {
      restartLoop := false;
      if e.pollIn {
        var status := w.response;
        if status == LeOk {
          state := RespParse;
        } else if status == Terminated {
          Conclude(LeOk);
          restartLoop := true;
        } else {
          Conclude(status);
          restartLoop := true;
        }
      }
    }

    /** `HttpClientStateMachine`: a running request goes on, or ends with the verdict of the
        event. */
    method StateMachine(e: Events, w: World)
      modifies this
      ensures Value() == Machine(old(Value()), e, w)
      ensures old(Running(Value())) ==>
                Ruled(old(Value()), Value(), Verdict(old(Value()), Event(e, w)))
    {
      if Running(Value()) {
        HandleRules(Value(), Event(e, w));
      }
      if e.hangUp && state != Idle {
        Conclude(Fault);
      }
      RestartLoop(e, w);
    }

    /** The restart loop ends because every restart lowers the rank of the state. */
    method RestartLoop(e: Events, w: World)
      modifies this
      ensures Value() == Loop(old(Value()), e, w)
    {
      var restartLoop := true;
      while restartLoop
        invariant Loop(old(Value()), e, w)
                  == if restartLoop then Loop(Value(), e, w) else Value()
        decreases restartLoop, Rank(state)
      {
        RestartLowersRank(Value(), e, w);
        match state {
          case ReqCredential => restartLoop := CredentialState(e, w);
          case ReqResource => restartLoop := ResourceState(e, w);
          case ReqBody => restartLoop := BodyState(e, w);
          case RespParse => restartLoop := ParseState(e, w);
          case End =>
            state := Idle;
            CallBack(responseCb, result);
            restartLoop := false;
          case Idle =>
            if e.pollIn && w.closed {
              Stop();
            }
            restartLoop := false;
        }
      }
    }

    /** `TimeoutHandler`. */
    method TimeoutHandler()
      modifies this
      ensures Value() == TimedOut(old(Value()))
      ensures old(Running(Value())) ==>
                Ruled(old(Value()), Value(), Verdict(old(Value()), TimerExpires))
    {
      if state != RespParse {
        return;
      }
      Stop();
      state := Idle;
      result := Timeout;
      CallBack(responseCb, result);
    }

    /** `le_httpClient_Stop`. */
    method Stop()
      modifies `state
      ensures Value() == Stopped(old(Value()))
    {
      state := Idle;
    }

    /** `le_httpClient_SendRequestAsync`. */
    method SendRequestAsync(c: Command, uri: string, callback: Option<nat>,
                            fieldScript: seq<FieldAnswer>, chunkScript: seq<ChunkAnswer>,
                            w: World)
      modifies this
      ensures Value() == RequestAsync(old(Value()), c, uri, callback, fieldScript, chunkScript, w)
      ensures var refusal := Refusal(old(Value()), c, uri, w);
              && (state == Idle <==> refusal.Some?)
              && delivered == if refusal.None? || callback.None? then old(delivered)
                              else old(delivered) + [(callback.value, refusal.value)]
    {
      AskRules(Value(), c, uri, callback, fieldScript, chunkScript, w);
      var status := LeOk;
      if c == Unrecognized {
        status := BadParameter;
      } else if state != Idle {
        status := Busy;
      } else {
        status := BuildAndSendRequest(c, uri, w);
        if status == LeOk {
          responseCb := callback;
          state := ReqCredential;
          fields, chunks, parsed := fieldScript, chunkScript, false;
          return;
        }
      }
      CallBack(callback, status);
      state := Idle;
    }

    /** `le_httpClient_SendRequest`: loops the machine with both events until it is idle.  The
        world answers each turn from a script; None means the script is used up and the call is
        still looping.  The call returns the reason of its refusal or the first verdict of its
        turns.  Whenever it succeeds, the bytes sent are the wire form of the request: the same as
        under any event schedule.  While it loops, they and what is still to be sent make up that
        form. */
    method SendRequest(c: Command, uri: string, fieldScript: seq<FieldAnswer>,
                       chunkScript: seq<ChunkAnswer>, first: World, worlds: seq<World>)
      returns (r: Option<Result>)
      modifies this
      ensures c == Unrecognized ==> r == Some(BadParameter) && Value() == old(Value())
      ensures c != Unrecognized && old(state) != Idle ==> r == Some(Busy) && Value() == old(Value())
      ensures old(state) == Idle ==> (r.Some? <==> state == Idle)
      ensures r == SyncResult(old(Value()), c, uri, fieldScript, chunkScript, first, worlds)
      ensures c != Unrecognized && old(state) == Idle && r == Some(LeOk) ==>
                sent == old(sent) + Wire(config, c, uri, fieldScript, chunkScript)
      ensures r.None? ==>
                && OnCourse(Value())
                && Owed(Value()) == old(sent) + Wire(config, c, uri, fieldScript, chunkScript)
      ensures r.None? && |worlds| > |fieldScript| + |chunkScript| + 2 ==> state == RespParse
    {
      if c == Unrecognized {
        return Some(BadParameter);
      }
      if state != Idle {
        return Some(Busy);
      }
      var status := Begin(c, uri, fieldScript, chunkScript, first);
      if status != LeOk {
        return Some(status);
      }
      LoopUntilIdle(worlds, Value());
      r := if state == Idle then Some(result) else None;
    }

    /** The request line is sent, and the machine put to its first state. */
    method Begin(c: Command, uri: string, fieldScript: seq<FieldAnswer>,
                 chunkScript: seq<ChunkAnswer>, w: World) returns (status: Result)
      requires state == Idle && c != Unrecognized
      modifies this
      ensures status != LeOk ==> state == Idle
      ensures Some(status) == if Refusal(old(Value()), c, uri, w).None? then Some(LeOk)
                              else Refusal(old(Value()), c, uri, w)
      ensures status == LeOk ==>
                Value() == Accepted(old(Value()), c, uri, fieldScript, chunkScript)
      ensures status == LeOk ==>
                && state == ReqCredential && fields == fieldScript && chunks == chunkScript
                && OnCourse(Value())
                && Owed(Value()) == old(sent) + Wire(config, c, uri, fieldScript, chunkScript)
    {
      ghost var before := Value();
      status := BuildAndSendRequest(c, uri, w);
      if status == LeOk {
        AcceptedOwesWire(before, c, uri, responseCb, fieldScript, chunkScript, w);
        state := ReqCredential;
        fields, chunks, parsed := fieldScript, chunkScript, false;
      }
    }

    /** A request that was accepted as `accepted` after i turns of the synchronous loop. */
    ghost predicate Turned(accepted: Session, i: nat)
      reads this
    {
      && (OnCourse(Value()) || Lost(Value()))
      && (OnCourse(Value()) ==> Owed(Value()) == Owed(accepted))
      && state != End && (state == RespParse ==> parsed)
      && (state == Idle && result == LeOk ==> parsed)
      && (state == RespParse || state == Idle || i + Work(Value()) <= Work(accepted))
    }

    method Turn(w: World, ghost accepted: Session, ghost i: nat)
      requires Turned(accepted, i) && state != Idle
      modifies this
      ensures Turned(accepted, i + 1) && Value() == Machine(old(Value()), BOTH, w)
    {
      ghost var before := Value();
      TurnSucceedsParsed(before, w);
      TurnAdvances(before, w);
      EventKeepsOwed(before, BOTH, w);
      StateMachine(Events(true, true, false), w);
    }

    /** The loop of `le_httpClient_SendRequest`, as long as the world answers. */
    method LoopUntilIdle(worlds: seq<World>, ghost accepted: Session)
      requires Turned(accepted, 0)
      modifies this
      ensures Turned(accepted, |worlds|) || state == Idle
      ensures state == Idle && result == LeOk ==> parsed && Owed(Value()) == Owed(accepted)
      ensures state != Idle ==> OnCourse(Value()) && Owed(Value()) == Owed(accepted)
      ensures old(Running(Value())) ==>
                FirstVerdict(old(Value()), Turns(worlds))
                == if state == Idle then Some(result) else None
    {
      var i := 0;
      assert worlds[0..] == worlds;
      while state != Idle && i < |worlds|
        invariant i <= |worlds| && Turned(accepted, i)
        invariant old(Running(Value())) ==> LeftToRule(old(Value()), Value(), worlds, worlds[i..])
        decreases |worlds| - i
      {
        ghost var before := Value();
        NextTurn(worlds, i);
        Turn(worlds[i], accepted, i);
        if old(Running(Value())) {
          TurnRules(old(Value()), before, Value(), worlds, worlds[i..]);
        }
        i := i + 1;
      }
      assert i == |worlds| ==> worlds[i..] == [];
    }
  }

  /** The events of a synchronous request: both, as often as the world answers. */
  function Turns(worlds: seq<World>): seq<Happening> {
    if worlds == [] then [] else [Event(BOTH, worlds[0])] + Turns(worlds[1..])
  }

  lemma NextTurn(worlds: seq<World>, i: nat)
    requires i < |worlds|
    ensures worlds[i..] != [] && worlds[i..][0] == worlds[i] && worlds[i..][1..] == worlds[i + 1..]
  {
  }

  /** The synchronous loop has come from s to s', with `rest` of the answers left. */
  ghost predicate LeftToRule(s: Session, s': Session, worlds: seq<World>, rest: seq<World>) {
    && s'.state != End
    && FirstVerdict(s, Turns(worlds))
       == if s'.state == Idle then Some(s'.result) else FirstVerdict(s', Turns(rest))
  }

  lemma TurnRules(s: Session, s': Session, s'': Session, worlds: seq<World>, rest: seq<World>)
    requires rest != [] && LeftToRule(s, s', worlds, rest) && Running(s')
    requires s'' == Machine(s', BOTH, rest[0])
    ensures LeftToRule(s, s'', worlds, rest[1..])
  {
    HandleRules(s', Event(BOTH, rest[0]));
    assert Turns(rest)[0] == Event(BOTH, rest[0]) && Turns(rest)[1..] == Turns(rest[1..]);
  }

  /** The session with the request line sent and the scripts in place. */
  function Accepted(s: Session, c: Command, uri: string, fields: seq<FieldAnswer>,
                    chunks: seq<ChunkAnswer>): Session {
    s.(command := c, sent := s.sent + RequestLine(s.config, c, uri), state := ReqCredential,
       fields := fields, chunks := chunks, parsed := false)
  }

  /** What the synchronous call returns. */
  function SyncResult(s: Session, c: Command, uri: string, fields: seq<FieldAnswer>,
                      chunks: seq<ChunkAnswer>, first: World, worlds: seq<World>): Option<Result> {
    if Refusal(s, c, uri, first).Some? then Refusal(s, c, uri, first)
    else FirstVerdict(Accepted(s, c, uri, fields, chunks), Turns(worlds))
  }

  // ---- requests that go well ---------------------------------------------------------------

  /** The callbacks never give an error, and every line they give fits. */
  predicate Smooth(g: Config, fields: seq<FieldAnswer>, chunks: seq<ChunkAnswer>) {
    && |g.encode(g.credential)| + 24 <= 1024
    && (forall i :: 0 <= i < |fields| ==>
          fields[i].status in {LeOk, WouldBlock, Terminated}
          && |fields[i].key| + |fields[i].value| + 6 < 1024)
    && (forall i :: 0 <= i < |chunks| ==>
          chunks[i].status in {LeOk, WouldBlock, Terminated, Unavailable})
  }

  /** Every send succeeds and no read of the response fails. */
  predicate Kind(worlds: seq<World>) {
    forall i :: 0 <= i < |worlds| ==> worlds[i].sendOk && worlds[i].response in {LeOk, Terminated}
  }

  /** The scripts of a session and what is left of them later. */
  ghost predicate LeftOver(s: Session, s': Session) {
    && s'.config == s.config
    && (s'.fields == s.fields || (s.fields != [] && s'.fields == s.fields[1..]))
    && (s'.chunks == s.chunks || (s.chunks != [] && s'.chunks == s.chunks[1..]))
  }

  lemma CredentialLeaves(s: Session, w: World)
    ensures LeftOver(s, SendCredential(s, w).0)
  {
  }

  lemma ResourceLeaves(s: Session, w: World)
    ensures LeftOver(s, SendResource(s, w).0)
  {
  }

  lemma BodyLeaves(s: Session, w: World)
    ensures LeftOver(s, SendBody(s, w).0)
  {
  }

  lemma PassLeaves(s: Session, e: Events, w: World)
    ensures LeftOver(s, Pass(s, e, w).0)
  {
    match s.state {
      case ReqCredential => CredentialLeaves(s, w);
      case ReqResource => ResourceLeaves(s, w);
      case ReqBody => BodyLeaves(s, w);
      case _ =>
    }
  }

  predicate SmoothSession(s: Session) {
    Smooth(s.config, s.fields, s.chunks)
  }

  lemma SmoothLater(s: Session, s': Session)
    requires SmoothSession(s) && LeftOver(s, s')
    ensures SmoothSession(s')
  {
  }

  lemma {:induction false} LoopStaysSmooth(s: Session, e: Events, w: World)
    requires SmoothSession(s)
    ensures SmoothSession(Loop(s, e, w))
    decreases Rank(s.state)
  {
    RestartLowersRank(s, e, w);
    PassLeaves(s, e, w);
    var (s', again) := Pass(s, e, w);
    SmoothLater(s, s');
    if again {
      LoopStaysSmooth(s', e, w);
    }
  }

  lemma SmoothVerdict(s: Session, w: World)
    requires Running(s) && SmoothSession(s)
    requires w.sendOk && w.response in {LeOk, Terminated}
    ensures Verdict(s, Event(BOTH, w)) in {None, Some(LeOk)}
    ensures s.state == RespParse && w.response == Terminated ==>
              Verdict(s, Event(BOTH, w)) == Some(LeOk)
  {
  }

  /** A request that meets no error succeeds: with callbacks that give none, sends that succeed
      and a response that is read without fault, the result is never anything but a success, and
      a success it is as soon as the response is complete after the request is sent. */
  lemma {:induction false} SmoothRequestSucceeds(s: Session, worlds: seq<World>)
    requires Running(s) && SmoothSession(s) && Kind(worlds)
    ensures FirstVerdict(s, Turns(worlds)) in {None, Some(LeOk)}
    ensures worlds != [] && worlds[|worlds| - 1].response == Terminated
            && (s.state == RespParse || |worlds| >= Work(s)) ==>
              FirstVerdict(s, Turns(worlds)) == Some(LeOk)
    decreases |worlds|
  {
    if worlds != [] {
      var w, s' := worlds[0], Machine(s, BOTH, worlds[0]);
      assert Turns(worlds)[0] == Event(BOTH, w) && Turns(worlds)[1..] == Turns(worlds[1..]);
      SmoothVerdict(s, w);
      HandleRules(s, Event(BOTH, w));
      LoopStaysSmooth(s, BOTH, w);
      if Verdict(s, Event(BOTH, w)).None? {
        TurnAdvances(s, w);
        assert Kind(worlds[1..]);
        SmoothRequestSucceeds(s', worlds[1..]);
      }
    }
  }

  /** The same of the whole call. */
  lemma SmoothCallSucceeds(s: Session, c: Command, uri: string, fields: seq<FieldAnswer>,
                           chunks: seq<ChunkAnswer>, first: World, worlds: seq<World>)
    requires s.state == Idle && c != Unrecognized && first.sendOk
    requires |RequestLine(s.config, c, uri)| < 1024
    requires Smooth(s.config, fields, chunks) && Kind(worlds)
    requires |worlds| >= 5 + |fields| + |chunks| && worlds[|worlds| - 1].response == Terminated
    ensures SyncResult(s, c, uri, fields, chunks, first, worlds) == Some(LeOk)
  {
    SmoothRequestSucceeds(Accepted(s, c, uri, fields, chunks), worlds);
  }

  /** What is left to do before a request waits for its response. */
  function Work(s: Session): nat {
    Rank(s.state) + |s.fields| + |s.chunks|
  }

  const BOTH: Events := Events(true, true, false)

  /** A success is only reported by response parsing. */
  lemma {:induction false} LoopSucceedsParsed(s: Session, e: Events, w: World)
    requires s.state == RespParse ==> s.parsed
    requires s.state == End && s.result == LeOk ==> s.parsed
    requires s.state != Idle
    ensures var s' := Loop(s, e, w);
            && s'.state != End
            && (s'.state == RespParse ==> s'.parsed)
            && (s'.state == Idle && s'.result == LeOk ==> s'.parsed)
    decreases Rank(s.state)
  {
    RestartLowersRank(s, e, w);
    BuildersOnlySend(s, w);
    var (s', again) := Pass(s, e, w);
    if again {
      LoopSucceedsParsed(s', e, w);
    }
  }

  lemma TurnSucceedsParsed(s: Session, w: World)
    requires s.state != Idle && s.state != End && (s.state == RespParse ==> s.parsed)
    ensures var s' := Machine(s, BOTH, w);
            && s'.state != End
            && (s'.state == RespParse ==> s'.parsed)
            && (s'.state == Idle && s'.result == LeOk ==> s'.parsed)
  {
    LoopSucceedsParsed(s, BOTH, w);
  }

  lemma BuildersUseScripts(s: Session, w: World)
    ensures var s' := SendCredential(s, w).0; s'.fields == s.fields && s'.chunks == s.chunks
    ensures var s' := SendResource(s, w).0; |s'.fields| <= |s.fields| && s'.chunks == s.chunks
    ensures var s' := SendBody(s, w).0; s'.fields == s.fields && |s'.chunks| <= |s.chunks|
  {
  }

  lemma PassLowersRank(s: Session, e: Events, w: World)
    ensures Rank(Pass(s, e, w).0.state) <= Rank(s.state)
  {
    BuildersOnlySend(s, w);
  }

  lemma PassLowersWork(s: Session, e: Events, w: World)
    ensures var s' := Pass(s, e, w).0;
            && Rank(s'.state) <= Rank(s.state)
            && |s'.fields| <= |s.fields| && |s'.chunks| <= |s.chunks|
  {
    PassLowersRank(s, e, w);
    BuildersUseScripts(s, w);
    match s.state {
      case ReqCredential =>
      case ReqResource =>
      case ReqBody =>
      case _ =>
    }
  }

  lemma {:induction false} LoopLowersWork(s: Session, e: Events, w: World)
    ensures var s' := Loop(s, e, w);
            && Rank(s'.state) <= Rank(s.state)
            && |s'.fields| <= |s.fields| && |s'.chunks| <= |s.chunks|
    decreases Rank(s.state)
  {
    RestartLowersRank(s, e, w);
    PassLowersWork(s, e, w);
    var (s', again) := Pass(s, e, w);
    if again {
      LoopLowersWork(s', e, w);
    }
  }

  /** With both events every turn uses an answer of a script, moves on, or waits for more of the
      response: only the response can keep a synchronous request waiting for ever. */
  lemma TurnAdvances(s: Session, w: World)
    requires s.state != Idle && s.state != End
    ensures var s' := Machine(s, BOTH, w);
            && Rank(s'.state) <= Rank(s.state)
            && (|| Work(s') < Work(s)
                || (s'.state == s.state == RespParse && w.response == LeOk))
  {
    var (s', again) := Pass(s, BOTH, w);
    RestartLowersRank(s, BOTH, w);
    PassLowersWork(s, BOTH, w);
    PassUsesScript(s, w);
    if again {
      LoopLowersWork(s', BOTH, w);
    }
  }

  /** A pass that stays where it is and is not done has used an answer. */
  lemma PassUsesScript(s: Session, w: World)
    requires s.state != Idle && s.state != End
    ensures var s' := Pass(s, BOTH, w).0;
            s'.state == s.state ==>
              || |s'.fields| < |s.fields| || |s'.chunks| < |s.chunks|
              || (s.state == RespParse && w.response == LeOk)
  {
    BuildersOnlySend(s, w);
  }
}
