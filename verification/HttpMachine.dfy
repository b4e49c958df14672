/**
  The HTTP client state machine (components/httpClientLibrary/le_httpClientLib.c) as a value:
  what one socket event, a timeout, a stop and a request do to a session.
 */
module HttpMachine {
  import opened Basics
  import opened HttpWire

  datatype State = Idle | ReqCredential | ReqResource | ReqBody | RespParse | End

  /** A session: the context of the client, the callback scripts not yet used, the bytes sent and
      the results delivered.  `parsed` says the present request has reached response parsing. */
  datatype Session = Session(
    config: Config, state: State, result: Result, command: Command, responseCb: Option<nat>,
    fields: seq<FieldAnswer>, chunks: seq<ChunkAnswer>,
    sent: string, delivered: seq<(nat, Result)>, parsed: bool)

  /** Socket events, and what the outside world answers while one is handled: whether a send
      succeeds, what response parsing returns, whether an idle socket turns out closed. */
  datatype Events = Events(pollIn: bool, pollOut: bool, hangUp: bool)
  datatype World = World(sendOk: bool, response: Result, closed: bool)

  // ---- building and sending ----------------------------------------------------------------

  /** `le_socket_Send` and the check around it. */
  function Send(s: Session, data: string, w: World, status: Result): (Session, Result) {
    if w.sendOk then (s.(sent := s.sent + data), status) else (s, Fault)
  }

  function SendRequestLine(s: Session, c: Command, uri: string, w: World): (Session, Result) {
    var line := RequestLine(s.config, c, uri);
    if |line| >= REQUEST_BUFFER_SIZE then (s, Fault)
    else Send(s.(command := c), line, w, LeOk)
  }

  function SendCredential(s: Session, w: World): (Session, Result) {
    if s.config.credential == "" then (s, Unavailable)
    else if |AuthLine(s.config)| + 3 > REQUEST_BUFFER_SIZE then (s, Fault)
    else Send(s, AuthBytes(s.config), w, LeOk)
  }

  /** The answer of an exhausted script has no key. */
  function NextField(s: Session): FieldAnswer {
    if s.fields == [] then FieldAnswer("", "", LeOk) else s.fields[0]
  }

  function SendResource(s: Session, w: World): (Session, Result) {
    var a := NextField(s);
    var s' := s.(fields := if s.fields == [] then [] else s.fields[1..]);
    var status := if a.status == WouldBlock then LeOk else a.status;
    if Suspends(s.config.monitored, a.status) then (s', WouldBlock)
    else if EndsFields(a) then Send(s', CRLF, w, Terminated)
    else
      var line := FieldLine(a) + CRLF;
      if |line| >= REQUEST_BUFFER_SIZE then (s', Fault)
      else if status == Terminated && |line| + 3 > REQUEST_BUFFER_SIZE then (s', Fault)
      else if status == Terminated then Send(s', line + CRLF, w, Terminated)
      else Send(s', line, w, status)
  }

  function NextChunk(s: Session): ChunkAnswer {
    if s.chunks == [] then ChunkAnswer("", LeOk) else s.chunks[0]
  }

  function SendBody(s: Session, w: World): (Session, Result) {
    var a := NextChunk(s);
    var s' := s.(chunks := if s.chunks == [] then [] else s.chunks[1..]);
    if Suspends(s.config.monitored, a.status) then (s', WouldBlock)
    else if a.data == "" then (s', Unavailable)
    else Send(s', a.data, w, if a.status == WouldBlock then LeOk else a.status)
  }

  /** Building and sending touches the scripts, the command and the bytes sent only. */
  ghost predicate OnlySends(s: Session, s': Session) {
    && s'.config == s.config && s'.state == s.state && s'.result == s.result
    && s'.responseCb == s.responseCb && s'.delivered == s.delivered && s'.parsed == s.parsed
    && s'.command == s.command
  }

  lemma BuildersOnlySend(s: Session, w: World)
    ensures OnlySends(s, SendCredential(s, w).0)
    ensures OnlySends(s, SendResource(s, w).0) && SendResource(s, w).0.chunks == s.chunks
    ensures OnlySends(s, SendBody(s, w).0)
  {
  }

  // ---- the machine -------------------------------------------------------------------------

  /** Position of a state on the way of a request; a restart only ever lowers it. */
  function Rank(state: State): nat {
    match state
    case ReqCredential => 5
    case ReqResource => 4
    case ReqBody => 3
    case RespParse => 2
    case End => 1
    case Idle => 0
  }

  function Finish(s: Session, result: Result): Session {
    s.(state := End, result := result)
  }

  function Deliver(s: Session): Session {
    if s.responseCb.None? then s
    else s.(delivered := s.delivered + [(s.responseCb.value, s.result)])
  }

  /** One pass through the switch; the flag asks for another. */
  function Pass(s: Session, e: Events, w: World): (Session, bool) {
    match s.state
    case ReqCredential =>
      if !e.pollOut then (s, false)
      else
        var (s', status) := SendCredential(s, w);
        if status == LeOk then (s'.(state := ReqResource), false)
        else if status == Unavailable then (s'.(state := ReqResource), true)
        else (Finish(s', status), true)
    case ReqResource =>
      if !e.pollOut then (s, false)
      else
        var (s', status) := SendResource(s, w);
        if status == LeOk || status == WouldBlock then (s', false)
        else if status == Terminated then
          if HasBody(s.command) then (s'.(state := ReqBody), false)
          else (s'.(state := RespParse, parsed := true), false)
        else (Finish(s', status), true)
    case ReqBody =>
      if !e.pollOut then (s, false)
      else
        var (s', status) := SendBody(s, w);
        if status == LeOk || status == WouldBlock then (s', false)
        else if status == Unavailable then (s'.(state := RespParse, parsed := true), true)
        else if status == Terminated then (s'.(state := RespParse, parsed := true), false)
        else (Finish(s', status), true)
    case RespParse =>
      if !e.pollIn || w.response == LeOk then (s, false)
      else if w.response == Terminated then (Finish(s, LeOk), true)
      else (Finish(s, w.response), true)
    case End => (Deliver(s.(state := Idle)), false)
    case Idle => (s, false)
  }

  lemma RestartLowersRank(s: Session, e: Events, w: World)
    ensures var (s', again) := Pass(s, e, w); again ==> Rank(s'.state) < Rank(s.state)
  {
  }

  function Loop(s: Session, e: Events, w: World): Session
    decreases Rank(s.state)
  {
    RestartLowersRank(s, e, w);
    var (s', again) := Pass(s, e, w);
    if again then Loop(s', e, w) else s'
  }

  /** `HttpClientStateMachine`. */
  function Machine(s: Session, e: Events, w: World): Session {
    Loop(if e.hangUp && s.state != Idle then Finish(s, Fault) else s, e, w)
  }

  /** `TimeoutHandler`. */
  function TimedOut(s: Session): Session {
    if s.state != RespParse then s else Deliver(s.(state := Idle, result := Timeout))
  }

  /** `le_httpClient_Stop`. */
  function Stopped(s: Session): Session {
    s.(state := Idle)
  }

  function Refuse(s: Session, cb: Option<nat>, status: Result): Session {
    s.(state := Idle,
       delivered := if cb.None? then s.delivered else s.delivered + [(cb.value, status)])
  }

  /** `le_httpClient_SendRequestAsync` with callback number `cb` and fresh callback scripts.  A
      refused request calls its callback at once and leaves the machine idle. */
  function RequestAsync(s: Session, c: Command, uri: string, cb: Option<nat>,
                        fields: seq<FieldAnswer>, chunks: seq<ChunkAnswer>, w: World): Session {
    if c == Unrecognized then Refuse(s, cb, BadParameter)
    else if s.state != Idle then Refuse(s, cb, Busy)
    else
      var (s', status) := SendRequestLine(s, c, uri, w);
      if status != LeOk then Refuse(s', cb, status)
      else s'.(responseCb := cb, state := ReqCredential, fields := fields, chunks := chunks,
               parsed := false)
  }

  // ---- schedule independence ---------------------------------------------------------------

  predicate Sending(state: State) {
    state == ReqCredential || state == ReqResource || state == ReqBody
  }

  /** The bytes the present request has still to send. */
  function Pending(s: Session): string {
    match s.state
    case ReqCredential =>
      AuthBytes(s.config) + (FieldBytes(s.config.monitored, s.fields)
                             + BodyPart(s.config, s.command, s.chunks))
    case ReqResource =>
      FieldBytes(s.config.monitored, s.fields) + BodyPart(s.config, s.command, s.chunks)
    case ReqBody => BodyBytes(s.config.monitored, s.chunks)
    case _ => ""
  }

  /** The request is on its way or has been sent whole; a state that parses has sent it. */
  predicate OnCourse(s: Session) {
    && (Sending(s.state) || s.parsed)
    && (Sending(s.state) ==> !s.parsed)
    && (s.state == ReqBody ==> HasBody(s.command))
  }

  function Owed(s: Session): string {
    s.sent + Pending(s)
  }

  /** What stays the same while a request runs. */
  ghost predicate SameRequest(s: Session, s': Session) {
    s'.config == s.config && s'.command == s.command
  }

  /** One field line moved from what is owed to what is sent. */
  lemma FieldMoves(m: bool, fields: seq<FieldAnswer>, sent: string, body: string)
    requires fields != [] && !Suspends(m, fields[0].status) && !EndsFields(fields[0])
    ensures var line := FieldLine(fields[0]) + CRLF;
            sent + (FieldBytes(m, fields) + body)
            == if fields[0].status == Terminated then sent + (line + CRLF) + body
               else sent + line + (FieldBytes(m, fields[1..]) + body)
  {
    var line := FieldLine(fields[0]) + CRLF;
    var rest := if fields[0].status == Terminated then [] else FieldLines(m, fields[1..]);
    assert FieldLines(m, fields) == [FieldLine(fields[0])] + rest;
    assert FieldLines(m, fields)[1..] == rest;
    LineMoves(line, Lines(rest), sent, body);
  }

  lemma LineMoves(line: string, rest: string, sent: string, body: string)
    ensures sent + (line + rest + CRLF + body) == sent + line + (rest + CRLF + body)
    ensures rest == "" ==> sent + (line + rest + CRLF + body) == sent + (line + CRLF) + body
  {
    if rest == "" {
      assert line + rest == line;
    }
  }

  lemma ResourceKeepsOwed(s: Session, w: World)
    requires s.state == ReqResource
    ensures var (s', status) := SendResource(s, w);
            && (status == LeOk || status == WouldBlock ==> s'.sent + Pending(s') == Owed(s))
            && (status == Terminated ==>
                  s'.sent + BodyPart(s.config, s.command, s.chunks) == Owed(s))
  {
    var (s', status) := SendResource(s, w);
    var a, m, body := NextField(s), s.config.monitored,
                      BodyPart(s.config, s.command, s.chunks);
    if Suspends(m, a.status) {
    } else if EndsFields(a) {
      assert FieldBytes(m, s.fields) == CRLF;
      assert s.sent + CRLF + body == s.sent + (CRLF + body);
    } else {
      FieldMoves(m, s.fields, s.sent, body);
    }
  }

  lemma BodyKeepsOwed(s: Session, w: World)
    requires s.state == ReqBody
    ensures var (s', status) := SendBody(s, w);
            && (status == LeOk || status == WouldBlock ==> s'.sent + Pending(s') == Owed(s))
            && (status == Terminated || status == Unavailable ==> s'.sent == Owed(s))
  {
    var (s', status) := SendBody(s, w);
    var a := NextChunk(s);
    if s.chunks != [] && a.data != "" && !EndsBody(a.status) {
      assert s.sent + (a.data + BodyBytes(s.config.monitored, s.chunks[1..]))
             == s.sent + a.data + BodyBytes(s.config.monitored, s.chunks[1..]);
    }
  }

  lemma CredentialKeepsOwed(s: Session, w: World)
    requires s.state == ReqCredential
    ensures var (s', status) := SendCredential(s, w);
            status == LeOk || status == Unavailable ==> Owed(s'.(state := ReqResource)) == Owed(s)
  {
    var auth := AuthBytes(s.config);
    var rest := FieldBytes(s.config.monitored, s.fields) + BodyPart(s.config, s.command, s.chunks);
    assert s.sent + (auth + rest) == s.sent + auth + rest;
    if s.config.credential == "" {
      assert auth + rest == rest;
    }
  }

  /** How a session on course may change in one pass. */
  ghost predicate StaysOwing(s: Session, s': Session) {
    && SameRequest(s, s')
    && (OnCourse(s') ==> Owed(s') == Owed(s))
    && (!OnCourse(s') ==> !s'.parsed && (s'.state == End || s'.state == Idle))
  }

  lemma PassResource(s: Session, e: Events, w: World)
    requires OnCourse(s) && s.state == ReqResource
    ensures StaysOwing(s, Pass(s, e, w).0)
  {
    ResourceKeepsOwed(s, w);
    BuildersOnlySend(s, w);
  }

  lemma PassBody(s: Session, e: Events, w: World)
    requires OnCourse(s) && s.state == ReqBody
    ensures StaysOwing(s, Pass(s, e, w).0)
  {
    BodyKeepsOwed(s, w);
  }

  /** A pass either loses the request or keeps what it owes. */
  lemma PassKeepsOwed(s: Session, e: Events, w: World)
    requires OnCourse(s)
    ensures StaysOwing(s, Pass(s, e, w).0)
  {
    match s.state {
      case ReqCredential => CredentialKeepsOwed(s, w);
      case ReqResource => PassResource(s, e, w);
      case ReqBody => PassBody(s, e, w);
      case _ =>
    }
  }

  /** A request that failed before parsing never starts parsing by itself. */
  predicate Lost(s: Session) {
    !s.parsed && (s.state == End || s.state == Idle)
  }

  lemma {:induction false} LoopKeepsOwed(s: Session, e: Events, w: World)
    requires OnCourse(s) || Lost(s)
    ensures var s' := Loop(s, e, w);
            && SameRequest(s, s') && (OnCourse(s') || Lost(s'))
            && (OnCourse(s') ==> OnCourse(s) && Owed(s') == Owed(s))
    decreases Rank(s.state)
  {
    RestartLowersRank(s, e, w);
    var (s', again) := Pass(s, e, w);
    if OnCourse(s) {
      PassKeepsOwed(s, e, w);
    }
    if again {
      LoopKeepsOwed(s', e, w);
    }
  }

  /** A socket event keeps the bytes sent plus the bytes owed. */
  lemma EventKeepsOwed(s: Session, e: Events, w: World)
    requires OnCourse(s) || Lost(s)
    ensures var s' := Machine(s, e, w);
            && SameRequest(s, s') && (OnCourse(s') || Lost(s'))
            && (OnCourse(s') ==> OnCourse(s) && Owed(s') == Owed(s))
  {
    LoopKeepsOwed(if e.hangUp && s.state != Idle then Finish(s, Fault) else s, e, w);
  }

  /** What can happen while one request runs. */
  datatype Happening = Event(e: Events, w: World) | TimerExpires

  function Handle(s: Session, h: Happening): Session {
    match h
    case Event(e, w) => Machine(s, e, w)
    case TimerExpires => TimedOut(s)
  }

  function Schedule(s: Session, hs: seq<Happening>): Session
    decreases |hs|
  {
    if hs == [] then s else Schedule(Handle(s, hs[0]), hs[1..])
  }

  lemma {:induction false} ScheduleKeepsOwed(s: Session, hs: seq<Happening>)
    requires OnCourse(s) || Lost(s)
    ensures var s' := Schedule(s, hs);
            && SameRequest(s, s') && (OnCourse(s') || Lost(s'))
            && (OnCourse(s') ==> OnCourse(s) && Owed(s') == Owed(s))
    decreases |hs|
  {
    if hs != [] {
      if hs[0].Event? {
        EventKeepsOwed(s, hs[0].e, hs[0].w);
      }
      ScheduleKeepsOwed(Handle(s, hs[0]), hs[1..]);
    }
  }

  /** An accepted request owes exactly its wire form. */
  lemma AcceptedOwesWire(s: Session, c: Command, uri: string, cb: Option<nat>,
                         fields: seq<FieldAnswer>, chunks: seq<ChunkAnswer>, w: World)
    requires RequestAsync(s, c, uri, cb, fields, chunks, w).state == ReqCredential
    ensures var s1 := RequestAsync(s, c, uri, cb, fields, chunks, w);
            OnCourse(s1) && Owed(s1) == s.sent + Wire(s.config, c, uri, fields, chunks)
  {
    var rest := AuthBytes(s.config) + (FieldBytes(s.config.monitored, fields)
                                       + BodyPart(s.config, c, chunks));
    assert s.sent + RequestLine(s.config, c, uri) + rest
           == s.sent + (RequestLine(s.config, c, uri) + rest);
  }

  /** Schedule independence: once a request is accepted, every schedule of socket events and
      timeouts that reaches response parsing has sent exactly the wire form of the request. */
  lemma ScheduleIndependence(s: Session, c: Command, uri: string, cb: Option<nat>,
                             fields: seq<FieldAnswer>, chunks: seq<ChunkAnswer>, w: World,
                             hs: seq<Happening>)
    requires RequestAsync(s, c, uri, cb, fields, chunks, w).state == ReqCredential
    requires Schedule(RequestAsync(s, c, uri, cb, fields, chunks, w), hs).parsed
    ensures Schedule(RequestAsync(s, c, uri, cb, fields, chunks, w), hs).sent
            == s.sent + Wire(s.config, c, uri, fields, chunks)
  {
    var s1 := RequestAsync(s, c, uri, cb, fields, chunks, w);
    AcceptedOwesWire(s, c, uri, cb, fields, chunks, w);
    SentWhole(s1, hs);
  }

  lemma SentWhole(s1: Session, hs: seq<Happening>)
    requires OnCourse(s1) && Schedule(s1, hs).parsed
    ensures Schedule(s1, hs).sent == Owed(s1)
  {
    ScheduleKeepsOwed(s1, hs);
    var s2 := Schedule(s1, hs);
    assert Pending(s2) == "";
    assert s2.sent + "" == s2.sent;
  }

  // ---- which result ends a request ---------------------------------------------------------

  /** What a read of the response says of the request: a complete response is a success, an
      incomplete one leaves it running, and any other code is its result. */
  function ResponseVerdict(response: Result): Option<Result> {
    match response
    case LeOk => None
    case Terminated => Some(LeOk)
    case r => Some(r)
  }

  /** What sending a header field, or the end of the header, says of the request. */
  function FieldVerdict(a: FieldAnswer, monitored: bool, sendOk: bool): Option<Result> {
    if monitored && a.status == WouldBlock then None
    else if a.key == "" || a.value == "" then (if sendOk then None else Some(Fault))
    else
      var bytes := |a.key| + |a.value| + 4 + if a.status == Terminated then 2 else 0;
      if bytes >= 1024 || !sendOk then Some(Fault)
      else if a.status in {LeOk, WouldBlock, Terminated} then None
      else Some(a.status)
  }

  /** What sending a chunk says; at the end of the body a response already there is read. */
  function ChunkVerdict(a: ChunkAnswer, monitored: bool, pollIn: bool, w: World): Option<Result> {
    if monitored && a.status == WouldBlock then None
    else if a.data != "" && !w.sendOk then Some(Fault)
    else if a.data == "" || a.status == Unavailable then
      if pollIn then ResponseVerdict(w.response) else None
    else if a.status in {LeOk, WouldBlock, Terminated} then None
    else Some(a.status)
  }

  /** The result an event gives the running request, or None when it goes on. */
  function Verdict(s: Session, h: Happening): Option<Result> {
    match h
    case TimerExpires => if s.state == RespParse then Some(Timeout) else None
    case Event(e, w) =>
      if e.hangUp then Some(Fault)
      else if s.state == RespParse then
        if e.pollIn then ResponseVerdict(w.response) else None
      else if !e.pollOut then None
      else if s.state == ReqCredential && s.config.credential != "" then
        if |s.config.encode(s.config.credential)| + 24 > 1024 || !w.sendOk then Some(Fault)
        else None
      else if s.state == ReqBody then
        ChunkVerdict(NextChunk(s), s.config.monitored, e.pollIn, w)
      else FieldVerdict(NextField(s), s.config.monitored, w.sendOk)
  }

  predicate Running(s: Session) {
    s.state != Idle && s.state != End
  }

  /** A session whose running request goes on, or ends with the given result, which its callback
      gets. */
  ghost predicate Ruled(s: Session, s': Session, v: Option<Result>) {
    && s'.responseCb == s.responseCb
    && (v.None? ==> Running(s') && s'.delivered == s.delivered)
    && (v.Some? ==>
          && s'.state == Idle && s'.result == v.value
          && s'.delivered == if s.responseCb.None? then s.delivered
                             else s.delivered + [(s.responseCb.value, v.value)])
  }

  lemma EndRules(s: Session, e: Events, w: World, v: Result)
    ensures Ruled(s, Loop(Finish(s, v), e, w), Some(v))
  {
  }

  lemma ParseRules(s: Session, e: Events, w: World)
    requires s.state == RespParse
    ensures Ruled(s, Loop(s, e, w), if e.pollIn then ResponseVerdict(w.response) else None)
  {
    if e.pollIn && w.response != LeOk {
      EndRules(s, e, w, if w.response == Terminated then LeOk else w.response);
    }
  }

  lemma FieldRules(s: Session, e: Events, w: World)
    requires s.state == ReqResource && e.pollOut
    ensures Ruled(s, Loop(s, e, w), FieldVerdict(NextField(s), s.config.monitored, w.sendOk))
  {
    BuildersOnlySend(s, w);
    var (s', status) := SendResource(s, w);
    var a := NextField(s);
    assert |FieldLine(a) + CRLF| == |a.key| + |a.value| + 4;
    if status != LeOk && status != WouldBlock && status != Terminated {
      EndRules(s', e, w, status);
    }
  }

  lemma ChunkRules(s: Session, e: Events, w: World)
    requires s.state == ReqBody && e.pollOut
    ensures Ruled(s, Loop(s, e, w), ChunkVerdict(NextChunk(s), s.config.monitored, e.pollIn, w))
  {
    BuildersOnlySend(s, w);
    var (s', status) := SendBody(s, w);
    if status == Unavailable {
      ParseRules(s'.(state := RespParse, parsed := true), e, w);
    } else if status != LeOk && status != WouldBlock && status != Terminated {
      EndRules(s', e, w, status);
    }
  }

  lemma CredentialRules(s: Session, e: Events, w: World)
    requires s.state == ReqCredential && e.pollOut
    ensures Ruled(s, Loop(s, e, w), Verdict(s, Event(e.(hangUp := false), w)))
  {
    BuildersOnlySend(s, w);
    var (s', status) := SendCredential(s, w);
    if status == Unavailable {
      FieldRules(s'.(state := ReqResource), e, w);
    } else if status != LeOk {
      EndRules(s', e, w, status);
    }
  }

  /** The verdict on a request: whatever happens, the machine goes on or ends it with exactly this
      result, and the callback registered for it gets that result and nothing else. */
  lemma HandleRules(s: Session, h: Happening)
    requires Running(s)
    ensures Ruled(s, Handle(s, h), Verdict(s, h))
  {
    if h.Event? {
      var e, w := h.e, h.w;
      if e.hangUp {
        EndRules(s, e, w, Fault);
      } else {
        match s.state {
          case ReqCredential =>
            if e.pollOut {
              CredentialRules(s, e, w);
            }
          case ReqResource =>
            if e.pollOut {
              FieldRules(s, e, w);
            }
          case ReqBody =>
            if e.pollOut {
              ChunkRules(s, e, w);
            }
          case RespParse => ParseRules(s, e, w);
        }
      }
    }
  }

  /** The first verdict along a schedule. */
  function FirstVerdict(s: Session, hs: seq<Happening>): Option<Result>
    decreases |hs|
  {
    if hs == [] then None
    else if Verdict(s, hs[0]).Some? then Verdict(s, hs[0])
    else FirstVerdict(Handle(s, hs[0]), hs[1..])
  }

  lemma {:induction false} IdleStays(s: Session, hs: seq<Happening>)
    requires s.state == Idle
    ensures Schedule(s, hs) == s
    decreases |hs|
  {
    if hs != [] {
      IdleStays(s, hs[1..]);
    }
  }

  /** Over every schedule the callback gets the first verdict, once, or nothing while there is
      none. */
  lemma {:induction false} FirstVerdictIsDelivered(s: Session, hs: seq<Happening>)
    requires Running(s)
    ensures Ruled(s, Schedule(s, hs), FirstVerdict(s, hs))
    decreases |hs|
  {
    if hs != [] {
      var s' := Handle(s, hs[0]);
      HandleRules(s, hs[0]);
      if Verdict(s, hs[0]).Some? {
        IdleStays(s', hs[1..]);
      } else {
        FirstVerdictIsDelivered(s', hs[1..]);
      }
    }
  }

  /** Why a request is refused at once, if it is. */
  function Refusal(s: Session, c: Command, uri: string, w: World): Option<Result> {
    if c == Unrecognized then Some(BadParameter)
    else if s.state != Idle then Some(Busy)
    else if |RequestLine(s.config, c, uri)| >= 1024 || !w.sendOk then Some(Fault)
    else None
  }

  /** A refused request calls its own callback with the reason and leaves the session idle; an
      accepted one calls nothing and is running. */
  lemma AskRules(s: Session, c: Command, uri: string, cb: Option<nat>, fields: seq<FieldAnswer>,
                 chunks: seq<ChunkAnswer>, w: World)
    ensures var s' := RequestAsync(s, c, uri, cb, fields, chunks, w);
            match Refusal(s, c, uri, w)
            case Some(r) =>
              && s'.state == Idle && s'.sent == s.sent
              && s'.delivered == if cb.None? then s.delivered else s.delivered + [(cb.value, r)]
            case None =>
              && s'.state == ReqCredential && s'.responseCb == cb && s'.command == c
              && s'.delivered == s.delivered && s'.fields == fields && s'.chunks == chunks
  {
  }

  // ---- one result per request --------------------------------------------------------------

  /** A pass that does not end the request delivers nothing; the end delivers once. */
  lemma {:induction false} LoopDelivers(s: Session, e: Events, w: World)
    requires s.responseCb.Some? || s.state == Idle
    ensures var s' := Loop(s, e, w);
            && s'.state != End && s'.responseCb == s.responseCb
            && (s'.state != Idle || s.state == Idle ==> s'.delivered == s.delivered)
            && (s'.state == Idle && s.state != Idle ==>
                  s'.delivered == s.delivered + [(s.responseCb.value, s'.result)])
            && (s.state == Idle ==> s'.state == Idle)
    decreases Rank(s.state)
  {
    RestartLowersRank(s, e, w);
    var (s', again) := Pass(s, e, w);
    PassKeepsLog(s, e, w);
    if again {
      LoopDelivers(s', e, w);
    }
  }

  lemma PassKeepsLog(s: Session, e: Events, w: World)
    ensures var (s', again) := Pass(s, e, w);
            && s'.responseCb == s.responseCb
            && (s.state != End ==> s'.delivered == s.delivered)
            && (s.state != End && s.state != Idle ==> s'.state != Idle)
            && (s'.state == End ==> again)
            && (s.state == Idle ==> s' == s && !again)
  {
    BuildersOnlySend(s, w);
    match s.state {
      case ReqCredential =>
      case ReqResource =>
      case ReqBody =>
      case _ =>
    }
  }

  /** A client session: the requests made so far, the one running and those given up. */
  datatype Client = Client(session: Session, issued: nat, current: Option<nat>, dropped: set<nat>)

  datatype Step =
    | Ask(c: Command, uri: string, fields: seq<FieldAnswer>, chunks: seq<ChunkAnswer>, w: World)
    | Happens(h: Happening)
    | UserStops

  function GivenUp(k: Client): set<nat> {
    if k.current.Some? then k.dropped + {k.current.value} else k.dropped
  }

  /** Requests are numbered as they are made; a request gives up the one it finds running when it
      is refused, and so does a stop. */
  function Next(k: Client, step: Step): Client {
    match step
    case Ask(c, uri, fields, chunks, w) =>
      var s' := RequestAsync(k.session, c, uri, Some(k.issued), fields, chunks, w);
      if s'.state == Idle then Client(s', k.issued + 1, None, GivenUp(k))
      else Client(s', k.issued + 1, Some(k.issued), k.dropped)
    case Happens(h) =>
      var s' := Handle(k.session, h);
      k.(session := s', current := if s'.state == Idle then None else k.current)
    case UserStops =>
      Client(Stopped(k.session), k.issued, None, GivenUp(k))
  }

  function After(k: Client, steps: seq<Step>): Client
    decreases |steps|
  {
    if steps == [] then k else After(Next(k, steps[0]), steps[1..])
  }

  /** How many results request number id has had. */
  function Results(log: seq<(nat, Result)>, id: nat): nat {
    if log == [] then 0
    else Results(log[..|log| - 1], id) + if log[|log| - 1].0 == id then 1 else 0
  }

  lemma ResultsAppend(log: seq<(nat, Result)>, entry: (nat, Result), id: nat)
    ensures Results(log + [entry], id) == Results(log, id) + if entry.0 == id then 1 else 0
  {
    assert (log + [entry])[..|log|] == log;
  }

  /** Where request number id stands. */
  function Accounts(k: Client, id: nat): nat {
    Results(k.session.delivered, id) + (if id in k.dropped then 1 else 0)
    + (if k.current == Some(id) then 1 else 0)
  }

  ghost predicate Accounted(k: Client) {
    && k.session.state != End
    && (k.current.Some? <==> k.session.state != Idle)
    && (k.current.Some? ==> k.session.responseCb == k.current && k.current.value < k.issued)
    && forall id: nat :: Accounts(k, id) == if id < k.issued then 1 else 0
  }

  /** Moving one entry between the columns keeps the accounts. */
  lemma AccountsAfterDelivery(k: Client, k': Client, entry: (nat, Result))
    requires Accounted(k)
    requires k'.session.delivered == k.session.delivered + [entry]
    requires k'.session.state == Idle && k'.current == None
    requires || (k.current == Some(entry.0) && k'.issued == k.issued && k'.dropped == k.dropped)
             || (entry.0 == k.issued && k'.issued == k.issued + 1 && k'.dropped == GivenUp(k))
    ensures Accounted(k')
  {
    forall id: nat
      ensures Accounts(k', id) == if id < k'.issued then 1 else 0
    {
      ResultsAppend(k.session.delivered, entry, id);
      assert Accounts(k, id) == if id < k.issued then 1 else 0;
      assert Accounts(k, k.issued) == 0;
    }
  }

  lemma AccountsUnchanged(k: Client, k': Client)
    requires Accounted(k)
    requires k'.session.delivered == k.session.delivered && k'.session.state != End
    requires || (k'.session.state != Idle && k'.session.responseCb == k'.current == Some(k.issued)
                 && k.current == None && k'.issued == k.issued + 1 && k'.dropped == k.dropped)
             || (k'.session.state != Idle && k'.session.responseCb == k.session.responseCb
                 && k'.current == k.current && k.current.Some?
                 && k'.issued == k.issued && k'.dropped == k.dropped)
             || (k'.session.state == Idle && k'.current == None && k'.issued == k.issued
                 && k'.dropped == GivenUp(k))
    ensures Accounted(k')
  {
    forall id: nat
      ensures Accounts(k', id) == if id < k'.issued then 1 else 0
    {
      assert Accounts(k, id) == if id < k.issued then 1 else 0;
      assert Accounts(k, k.issued) == 0;
    }
  }

  lemma AskAccounted(k: Client, c: Command, uri: string, fields: seq<FieldAnswer>,
                     chunks: seq<ChunkAnswer>, w: World)
    requires Accounted(k)
    ensures Accounted(Next(k, Ask(c, uri, fields, chunks, w)))
  {
    var k' := Next(k, Ask(c, uri, fields, chunks, w));
    var log := k.session.delivered;
    if k'.session.state == Idle {
      var status := k'.session.delivered[|log|].1;
      assert k'.session.delivered == log + [(k.issued, status)];
      AccountsAfterDelivery(k, k', (k.issued, status));
    } else {
      AccountsUnchanged(k, k');
    }
  }

  lemma HappensAccounted(k: Client, h: Happening)
    requires Accounted(k)
    ensures Accounted(Next(k, Happens(h)))
  {
    var s, k' := k.session, Next(k, Happens(h));
    if h.Event? {
      LoopDelivers(if h.e.hangUp && s.state != Idle then Finish(s, Fault) else s, h.e, h.w);
    }
    if s.state != Idle && k'.session.state == Idle {
      AccountsAfterDelivery(k, k', (k.current.value, k'.session.result));
    } else {
      AccountsUnchanged(k, k');
    }
  }

  lemma StepAccounted(k: Client, step: Step)
    requires Accounted(k)
    ensures Accounted(Next(k, step))
  {
    match step {
      case Ask(c, uri, fields, chunks, w) => AskAccounted(k, c, uri, fields, chunks, w);
      case Happens(h) => HappensAccounted(k, h);
      case UserStops => AccountsUnchanged(k, Next(k, step));
    }
  }

  lemma {:induction false} RunAccounted(k: Client, steps: seq<Step>)
    requires Accounted(k)
    ensures Accounted(After(k, steps))
    decreases |steps|
  {
    if steps != [] {
      StepAccounted(k, steps[0]);
      RunAccounted(Next(k, steps[0]), steps[1..]);
    }
  }

  /** One result per request, over every run of asynchronous requests, events, timeouts and
      stops: no request gets two results, and every request but the one running has had exactly
      one unless a stop or a refused request gave it up. */
  lemma OneResultPerRequest(s: Session, steps: seq<Step>, id: nat)
    requires s.state == Idle && s.delivered == []
    ensures var k := After(Client(s, 0, None, {}), steps);
            && Results(k.session.delivered, id) <= 1
            && (id < k.issued && id !in k.dropped && k.current != Some(id) ==>
                  Results(k.session.delivered, id) == 1)
            && (k.session.state == Idle && id < k.issued && id !in k.dropped ==>
                  Results(k.session.delivered, id) == 1)
  {
    var k0 := Client(s, 0, None, {});
    RunAccounted(k0, steps);
    var k := After(k0, steps);
    assert Accounts(k, id) == if id < k.issued then 1 else 0;
  }

  /** A request is given up only by a stop or a refused request, and only while it runs. */
  lemma OnlyStopsGiveUp(k: Client, step: Step)
    requires Accounted(k)
    ensures var k' := Next(k, step);
            k'.dropped != k.dropped ==>
              && k.session.state != Idle && k'.session.state == Idle
              && !step.Happens?
              && k'.dropped == k.dropped + {k.current.value}
  {
  }
}
