/**
  The cellular request service (components/cellNetService/cellNetServiceServer.c): counted
  requests, a FIFO of commands, and start and stop timers that drive the radio.
 */
module CellNet {
  import opened Basics

  datatype Command = RequestCommand | ReleaseCommand

  datatype Power = On | Off

  /** What `le_mrc_GetRadioPower` answers: it may fail, and otherwise tells the truth. */
  datatype Query = Truth | NoAnswer

  /** The service.  `issued` counts the requests ever made; `commands` logs every
      `le_mrc_SetRadioPower` with the request count at that moment. */
  datatype Service = Service(
    count: nat, refs: set<nat>, queue: seq<Command>, radio: Power,
    startTimers: nat, stopTimers: nat, issued: nat, commands: seq<(Power, nat)>)

  /** The service at start-up; the radio may be in either state. */
  predicate Booted(s: Service) {
    && s.count == 0 && s.refs == {} && s.queue == [] && s.issued == 0
    && s.startTimers == 0 && s.stopTimers == 0 && s.commands == []
  }

  // ---- what each handler does --------------------------------------------------------------

  predicate Reads(s: Service, q: Query, p: Power) {
    q == Truth && s.radio == p
  }

  /** `le_mrc_SetRadioPower`: the radio follows at once when `obeys`, or else is unchanged. */
  function SetPower(s: Service, p: Power, obeys: bool): Service {
    s.(radio := if obeys then p else s.radio, commands := s.commands + [(p, s.count)])
  }

  function Request(s: Service): Service {
    s.(queue := s.queue + [RequestCommand], refs := s.refs + {s.issued}, issued := s.issued + 1)
  }

  function Release(s: Service, ref: nat): Service {
    if ref !in s.refs then s
    else s.(refs := s.refs - {ref}, queue := s.queue + [ReleaseCommand])
  }

  function StartNetwork(s: Service, q: Query, obeys: bool): Service {
    if Reads(s, q, On) then s
    else var s' := SetPower(s, On, obeys); s'.(startTimers := s'.startTimers + 1)
  }

  function StopNetwork(s: Service, q: Query, obeys: bool): Service {
    if Reads(s, q, Off) then s
    else var s' := SetPower(s, Off, obeys); s'.(stopTimers := s'.stopTimers + 1)
  }

  function Process(s: Service, q: Query, obeys: bool): Service
    requires s.queue != []
  {
    var s' := s.(queue := s.queue[1..]);
    match s.queue[0]
    case RequestCommand =>
      StartNetwork(s'.(count := (s.count + 1) % TWO32), q, obeys)
    case ReleaseCommand =>
      var s'' := if s.count > 0 then s'.(count := s.count - 1) else s';
      if s''.count == 0 then StopNetwork(s'', q, obeys) else s''
  }

  function StartTimer(s: Service, q: Query, obeys: bool): Service
    requires s.startTimers > 0
  {
    if s.count == 0 || Reads(s, q, On) then s.(startTimers := s.startTimers - 1)
    else SetPower(s, On, obeys)
  }

  function StopTimer(s: Service, q: Query, obeys: bool): Service
    requires s.stopTimers > 0
  {
    if s.count != 0 || Reads(s, q, Off) then s.(stopTimers := s.stopTimers - 1)
    else SetPower(s, Off, obeys)
  }

  // ---- runs --------------------------------------------------------------------------------

  datatype Step =
    | ClientRequests
    | ClientReleases(ref: nat)
    | CommandRuns(q: Query, obeys: bool)
    | StartTimerExpires(q: Query, obeys: bool)
    | StopTimerExpires(q: Query, obeys: bool)
    | RadioDrifts(to: Power)          // the radio settles late or changes by itself

  predicate Enabled(s: Service, step: Step) {
    match step
    case ClientRequests | ClientReleases(_) | RadioDrifts(_) => true
    case CommandRuns(_, _) => s.queue != []
    case StartTimerExpires(_, _) => s.startTimers > 0
    case StopTimerExpires(_, _) => s.stopTimers > 0
  }

  function Next(s: Service, step: Step): Service
    requires Enabled(s, step)
  {
    match step
    case ClientRequests => Request(s)
    case ClientReleases(ref) => Release(s, ref)
    case CommandRuns(q, obeys) => Process(s, q, obeys)
    case StartTimerExpires(q, obeys) => StartTimer(s, q, obeys)
    case StopTimerExpires(q, obeys) => StopTimer(s, q, obeys)
    case RadioDrifts(p) => s.(radio := p)
  }

  predicate IsRun(s: Service, steps: seq<Step>)
    decreases |steps|
  {
    steps == [] || (Enabled(s, steps[0]) && IsRun(Next(s, steps[0]), steps[1..]))
  }

  function After(s: Service, steps: seq<Step>): Service
    requires IsRun(s, steps)
    decreases |steps|
  {
    if steps == [] then s else After(Next(s, steps[0]), steps[1..])
  }

  lemma Prepend(s: Service, step: Step, rest: seq<Step>) returns (steps: seq<Step>)
    requires Enabled(s, step) && IsRun(Next(s, step), rest)
    ensures steps == [step] + rest
    ensures IsRun(s, steps) && After(s, steps) == After(Next(s, step), rest)
  {
    steps := [step] + rest;
    assert steps[1..] == rest;
  }

  // ---- what each step changes ----------------------------------------------------------------

  /** The radio is commanded once, to p, and follows if it obeys. */
  predicate Commanded(s: Service, t: Service, p: Power, obeys: bool) {
    t.commands == s.commands + [(p, t.count)] && t.radio == if obeys then p else s.radio
  }

  /** The radio is left alone. */
  predicate Quiet(s: Service, t: Service) {
    t.commands == s.commands && t.radio == s.radio
  }

  predicate SameRequests(s: Service, t: Service) {
    t.count == s.count && t.refs == s.refs && t.queue == s.queue && t.issued == s.issued
  }

  predicate SameTimers(s: Service, t: Service) {
    t.startTimers == s.startTimers && t.stopTimers == s.stopTimers
  }

  /** A processed request counts one more, in 32 bits; unless the radio is known to be on it is
      powered on and a start timer is set. */
  predicate RequestEffect(s: Service, q: Query, obeys: bool, t: Service) {
    && t.count == (if s.count + 1 == 0x1_0000_0000 then 0 else s.count + 1)
    && t.stopTimers == s.stopTimers
    && if q == Truth && s.radio == On then Quiet(s, t) && t.startTimers == s.startTimers
       else Commanded(s, t, On, obeys) && t.startTimers == s.startTimers + 1
  }

  /** A processed release counts one less; at zero, unless the radio is known to be off, it is
      powered off and a stop timer is set. */
  predicate ReleaseEffect(s: Service, q: Query, obeys: bool, t: Service) {
    && t.count == (if s.count == 0 then 0 else s.count - 1)
    && t.startTimers == s.startTimers
    && if t.count > 0 || (q == Truth && s.radio == Off)
       then Quiet(s, t) && t.stopTimers == s.stopTimers
       else Commanded(s, t, Off, obeys) && t.stopTimers == s.stopTimers + 1
  }

  /** A start timer that expires while the network is wanted and the radio not known to be on
      powers it on again and stays; otherwise it goes and leaves the radio alone. */
  predicate StartExpiryEffect(s: Service, q: Query, obeys: bool, t: Service) {
    && SameRequests(s, t) && t.stopTimers == s.stopTimers
    && if s.count > 0 && !(q == Truth && s.radio == On)
       then Commanded(s, t, On, obeys) && t.startTimers == s.startTimers
       else Quiet(s, t) && t.startTimers == s.startTimers - 1
  }

  /** The same of a stop timer while the network is not wanted. */
  predicate StopExpiryEffect(s: Service, q: Query, obeys: bool, t: Service) {
    && SameRequests(s, t) && t.startTimers == s.startTimers
    && if s.count == 0 && !(q == Truth && s.radio == Off)
       then Commanded(s, t, Off, obeys) && t.stopTimers == s.stopTimers
       else Quiet(s, t) && t.stopTimers == s.stopTimers - 1
  }

  predicate Effect(s: Service, step: Step, t: Service)
    requires Enabled(s, step)
  {
    match step
    case ClientRequests =>
      && Quiet(s, t) && SameTimers(s, t) && t.count == s.count && t.issued == s.issued + 1
      && t.refs == s.refs + {s.issued} && t.queue == s.queue + [RequestCommand]
    case ClientReleases(ref) =>
      && Quiet(s, t) && SameTimers(s, t) && t.count == s.count && t.issued == s.issued
      && t.refs == s.refs - {ref}
      && t.queue == if ref in s.refs then s.queue + [ReleaseCommand] else s.queue
    case CommandRuns(q, obeys) =>
      && t.refs == s.refs && t.issued == s.issued && t.queue == s.queue[1..]
      && if s.queue[0] == RequestCommand then RequestEffect(s, q, obeys, t)
         else ReleaseEffect(s, q, obeys, t)
    case StartTimerExpires(q, obeys) => StartExpiryEffect(s, q, obeys, t)
    case StopTimerExpires(q, obeys) => StopExpiryEffect(s, q, obeys, t)
    case RadioDrifts(p) =>
      SameRequests(s, t) && SameTimers(s, t) && t.commands == s.commands && t.radio == p
  }

  /** Every step has its effect; the count fits its 32 bits. */
  lemma StepHasEffect(s: Service, step: Step)
    requires Enabled(s, step) && s.count < 0x1_0000_0000
    ensures Effect(s, step, Next(s, step))
  {
  }

  // ---- conservation ------------------------------------------------------------------------

  /** Requests minus releases in a queue. */
  function Net(q: seq<Command>): int {
    if q == [] then 0
    else Net(q[..|q| - 1]) + if q[|q| - 1] == RequestCommand then 1 else -1
  }

  lemma {:induction false} NetFront(c: Command, q: seq<Command>)
    ensures Net([c] + q) == (if c == RequestCommand then 1 else -1) + Net(q)
  {
    var all := [c] + q;
    if q != [] {
      NetFront(c, q[..|q| - 1]);
      assert all[..|all| - 1] == [c] + q[..|q| - 1];
    } else {
      assert all[..0] == [];
    }
  }

  /** No prefix of the queue takes the count below zero. */
  predicate NeverBelow(count: nat, q: seq<Command>) {
    forall k :: 0 <= k <= |q| ==> count + Net(q[..k]) >= 0
  }

  /** What the types of the service guarantee: the count is 32 bits wide, and every reference
      was handed out. */
  predicate Sound(s: Service) {
    s.count < TWO32 && forall r :: r in s.refs ==> r < s.issued
  }

  /** The count and what is queued add up to the live references. */
  predicate Balanced(s: Service) {
    s.count + Net(s.queue) == |s.refs|
  }

  predicate Conserved(s: Service) {
    Sound(s) && Balanced(s) && NeverBelow(s.count, s.queue)
  }

  lemma SoundStep(s: Service, step: Step)
    requires Sound(s) && Enabled(s, step)
    ensures Sound(Next(s, step))
  {
  }

  /** Conservation does not look at the radio, the timers or the log. */
  lemma ConservedFrame(s: Service, s': Service)
    requires Conserved(s)
    requires s'.count == s.count && s'.refs == s.refs && s'.queue == s.queue
    requires s'.issued == s.issued
    ensures Conserved(s')
  {
  }

  lemma ConservedAtBoot(boot: Service)
    requires Booted(boot)
    ensures Conserved(boot)
  {
    forall k | 0 <= k <= |boot.queue|
      ensures boot.count + Net(boot.queue[..k]) >= 0
    {
      assert boot.queue[..k] == [];
    }
  }

  lemma ConservedAppend(s: Service, s': Service, c: Command)
    requires Conserved(s)
    requires s' == s.(queue := s.queue + [c], refs := s'.refs, issued := s'.issued)
    requires |s'.refs| == |s.refs| + if c == RequestCommand then 1 else -1
    requires s'.issued == s.issued + if c == RequestCommand then 1 else 0
    requires forall r :: r in s'.refs ==> r < s'.issued
    ensures Conserved(s')
  {
    assert s'.queue[..|s.queue|] == s.queue;
    forall k | 0 <= k <= |s'.queue|
      ensures s'.count + Net(s'.queue[..k]) >= 0
    {
      if k <= |s.queue| {
        assert s'.queue[..k] == s.queue[..k];
      } else {
        assert s'.queue[..k] == s'.queue;
      }
    }
  }

  /** What taking the oldest command off the queue leaves of the balance. */
  lemma TakeBalance(s: Service)
    requires Conserved(s) && s.queue != []
    ensures s.queue[0] == ReleaseCommand ==> s.count > 0
    ensures s.count + (if s.queue[0] == RequestCommand then 1 else -1) + Net(s.queue[1..])
            == |s.refs|
  {
    var c, q := s.queue[0], s.queue[1..];
    assert s.queue == [c] + q;
    NetFront(c, q);
    assert s.queue[..1] == [c] + [];
    NetFront(c, []);
    assert s.count + Net(s.queue[..1]) >= 0;
  }

  /** Taking the oldest command off the queue when the 32-bit count has room for it. */
  lemma ConservedTake(s: Service, count: nat)
    requires Conserved(s) && s.queue != [] && count < TWO32
    requires count == s.count + if s.queue[0] == RequestCommand then 1 else -1
    ensures Conserved(s.(queue := s.queue[1..], count := count))
  {
    TakeBalance(s);
    var c, q := s.queue[0], s.queue[1..];
    forall k | 0 <= k <= |q|
      ensures count + Net(q[..k]) >= 0
    {
      assert s.queue[..k + 1] == [c] + q[..k];
      NetFront(c, q[..k]);
      assert s.count + Net(s.queue[..k + 1]) >= 0;
    }
  }

  /** A request is processed while the 32-bit count stands at its maximum. */
  predicate Wraps(s: Service, step: Step) {
    && step.CommandRuns? && s.queue != []
    && s.queue[0] == RequestCommand && s.count + 1 == TWO32
  }

  /** What processing a command makes of the count. */
  lemma ProcessCount(s: Service, q: Query, obeys: bool)
    requires Conserved(s) && s.queue != []
    ensures var t := Process(s, q, obeys);
            && t.queue == s.queue[1..] && t.refs == s.refs && t.issued == s.issued
            && (Wraps(s, CommandRuns(q, obeys)) ==> t.count == 0)
            && (!Wraps(s, CommandRuns(q, obeys)) ==>
                  t.count == s.count + if s.queue[0] == RequestCommand then 1 else -1)
  {
    TakeBalance(s);
  }

  lemma ConservedProcess(s: Service, q: Query, obeys: bool)
    requires Conserved(s) && s.queue != []
    ensures Conserved(Process(s, q, obeys)) <==> !Wraps(s, CommandRuns(q, obeys))
    ensures Wraps(s, CommandRuns(q, obeys)) ==>
              var t := Process(s, q, obeys); t.count + Net(t.queue) == |t.refs| - TWO32
  {
    ProcessCount(s, q, obeys);
    TakeBalance(s);
    if !Wraps(s, CommandRuns(q, obeys)) {
      var count := Process(s, q, obeys).count;
      ConservedTake(s, count);
      ConservedFrame(s.(queue := s.queue[1..], count := count), Process(s, q, obeys));
    }
  }

  lemma RequestConserved(s: Service)
    requires Conserved(s)
    ensures Conserved(Request(s)) && s.issued !in s.refs
  {
    assert s.issued !in s.refs;
    ConservedAppend(s, Request(s), RequestCommand);
  }

  lemma ReleaseConserved(s: Service, ref: nat)
    requires Conserved(s)
    ensures Conserved(Release(s, ref))
  {
    if ref in s.refs {
      ConservedAppend(s, Release(s, ref), ReleaseCommand);
    }
  }

  /** A step keeps the balance if and only if it does not wrap the count. */
  lemma ConservedStep(s: Service, step: Step)
    requires Conserved(s) && Enabled(s, step)
    ensures Conserved(Next(s, step)) <==> !Wraps(s, step)
    ensures Wraps(s, step) ==> !Balanced(Next(s, step))
  {
    match step {
      case ClientRequests => RequestConserved(s);
      case ClientReleases(ref) => ReleaseConserved(s, ref);
      case CommandRuns(q, obeys) =>
        ConservedProcess(s, q, obeys);
      case StartTimerExpires(_, _) =>
        ConservedFrame(s, Next(s, step));
      case StopTimerExpires(_, _) =>
        ConservedFrame(s, Next(s, step));
      case RadioDrifts(_) =>
        ConservedFrame(s, Next(s, step));
    }
  }

  predicate BalancedAlong(s: Service, steps: seq<Step>)
    requires IsRun(s, steps)
    decreases |steps|
  {
    Balanced(s) && (steps != [] ==> BalancedAlong(Next(s, steps[0]), steps[1..]))
  }

  /** No step of the run wraps the count. */
  predicate NeverWraps(s: Service, steps: seq<Step>)
    requires IsRun(s, steps)
    decreases |steps|
  {
    steps != [] ==> !Wraps(s, steps[0]) && NeverWraps(Next(s, steps[0]), steps[1..])
  }

  lemma {:induction false} ConservedRun(s: Service, steps: seq<Step>)
    requires Conserved(s) && IsRun(s, steps) && NeverWraps(s, steps)
    ensures Conserved(After(s, steps))
    decreases |steps|
  {
    if steps != [] {
      ConservedStep(s, steps[0]);
      ConservedRun(Next(s, steps[0]), steps[1..]);
    }
  }

  lemma {:induction false} BalancedAlongIff(s: Service, steps: seq<Step>)
    requires Conserved(s) && IsRun(s, steps)
    ensures BalancedAlong(s, steps) <==> NeverWraps(s, steps)
    decreases |steps|
  {
    if steps != [] {
      ConservedStep(s, steps[0]);
      if Wraps(s, steps[0]) {
        Unbalanced(Next(s, steps[0]), steps[1..]);
      } else {
        BalancedAlongIff(Next(s, steps[0]), steps[1..]);
      }
    }
  }

  lemma Unbalanced(s: Service, steps: seq<Step>)
    requires IsRun(s, steps) && !Balanced(s)
    ensures !BalancedAlong(s, steps)
  {
  }

  /** Request conservation: the count plus queued requests minus queued releases is the number
      of live references in every state of a run if and only if no request is processed at a
      count of 2^32 - 1; and then the guard against decrementing below zero is never needed. */
  lemma RequestConservation(boot: Service, steps: seq<Step>)
    requires Booted(boot) && IsRun(boot, steps)
    ensures BalancedAlong(boot, steps) <==> NeverWraps(boot, steps)
    ensures var s := After(boot, steps);
            NeverWraps(boot, steps) ==>
              && (s.queue != [] && s.queue[0] == ReleaseCommand ==> s.count > 0)
              && (s.queue == [] ==> s.count == |s.refs|)
  {
    ConservedAtBoot(boot);
    BalancedAlongIff(boot, steps);
    if NeverWraps(boot, steps) {
      ConservedRun(boot, steps);
      ReleaseFindsRequest(After(boot, steps));
    }
  }

  lemma ReleaseFindsRequest(s: Service)
    requires Conserved(s)
    ensures s.queue != [] && s.queue[0] == ReleaseCommand ==> s.count > 0
    ensures s.queue == [] ==> s.count == |s.refs|
  {
    if s.queue != [] {
      TakeBalance(s);
    }
  }

  // ---- the count at its maximum --------------------------------------------------------------

  function Requests(q: seq<Command>): nat {
    if q == [] then 0 else (if q[0] == RequestCommand then 1 else 0) + Requests(q[1..])
  }

  lemma {:induction false} RequestsAppend(q: seq<Command>, c: Command)
    ensures Requests(q + [c]) == Requests(q) + if c == RequestCommand then 1 else 0
  {
    if q == [] {
      assert q + [c] == [c];
    } else {
      RequestsAppend(q[1..], c);
      assert (q + [c])[1..] == q[1..] + [c];
    }
  }

  /** The count and the queued requests are no more than the requests ever made. */
  predicate Counted(s: Service) {
    s.count + Requests(s.queue) <= s.issued
  }

  lemma CountedStep(s: Service, step: Step)
    requires Counted(s) && Enabled(s, step)
    ensures Counted(Next(s, step)) && s.issued <= Next(s, step).issued
    ensures Wraps(s, step) ==> s.issued >= TWO32
  {
    match step {
      case ClientRequests => RequestsAppend(s.queue, RequestCommand);
      case ClientReleases(_) => RequestsAppend(s.queue, ReleaseCommand);
      case CommandRuns(_, _) =>
        assert (s.count + 1) % TWO32 <= s.count + 1;
      case _ =>
    }
  }

  lemma {:induction false} CountedRun(s: Service, steps: seq<Step>)
    requires Counted(s) && IsRun(s, steps)
    ensures s.issued <= After(s, steps).issued
    ensures After(s, steps).issued < TWO32 ==> NeverWraps(s, steps)
    decreases |steps|
  {
    if steps != [] {
      CountedStep(s, steps[0]);
      CountedRun(Next(s, steps[0]), steps[1..]);
    }
  }

  /** A run of fewer than 2^32 requests never wraps the count. */
  lemma FewRequestsNeverWrap(boot: Service, steps: seq<Step>)
    requires Booted(boot) && IsRun(boot, steps) && After(boot, steps).issued < TWO32
    ensures NeverWraps(boot, steps)
  {
    CountedRun(boot, steps);
  }

  /** n requests, each processed before the next is made. */
  function Rounds(n: nat): seq<Step> {
    if n == 0 then [] else [ClientRequests, CommandRuns(Truth, true)] + Rounds(n - 1)
  }

  function Round(s: Service): Service
    requires s.queue == []
  {
    Next(Next(s, ClientRequests), CommandRuns(Truth, true))
  }

  lemma RoundEffect(s: Service)
    requires Sound(s) && s.queue == []
    ensures var t := Round(s);
            && Sound(t) && t.queue == [] && |t.refs| == |s.refs| + 1
            && t.count == if s.count + 1 < TWO32 then s.count + 1 else 0
  {
    assert s.issued !in s.refs;
    var s1 := Next(s, ClientRequests);
    assert s1.queue == [RequestCommand] && s1.queue[1..] == [];
    assert |s1.refs| == |s.refs| + 1;
  }

  lemma RoundRuns(s: Service, n: nat)
    requires s.queue == [] && IsRun(Round(s), Rounds(n))
    ensures IsRun(s, Rounds(n + 1))
    ensures After(s, Rounds(n + 1)) == After(Round(s), Rounds(n))
  {
    var steps := Prepend(Next(s, ClientRequests), CommandRuns(Truth, true), Rounds(n));
    steps := Prepend(s, ClientRequests, steps);
    assert steps == Rounds(n + 1);
  }

  lemma {:induction false} AfterRounds(s: Service, n: nat)
    requires Sound(s) && s.queue == [] && s.count + n <= TWO32
    ensures IsRun(s, Rounds(n))
    ensures After(s, Rounds(n)).count == if s.count + n < TWO32 then s.count + n else 0
    ensures |After(s, Rounds(n)).refs| == |s.refs| + n && After(s, Rounds(n)).queue == []
    decreases n
  {
    if n > 0 {
      RoundEffect(s);
      AfterRounds(Round(s), n - 1);
      RoundRuns(s, n - 1);
    }
  }

  /** The run that wraps: after 2^32 processed requests the count is zero, though every one of
      them is still live. */
  lemma WrapLosesEveryRequest(boot: Service, n: nat)
    requires Booted(boot) && n == TWO32
    ensures IsRun(boot, Rounds(n)) && !NeverWraps(boot, Rounds(n))
    ensures After(boot, Rounds(n)).count == 0 && |After(boot, Rounds(n)).refs| == TWO32
  {
    AfterRounds(boot, n);
    RequestConservation(boot, Rounds(n));
  }

  // ---- radio safety ------------------------------------------------------------------------

  /** Power goes on only with requests, and off only without. */
  predicate CommandsFit(commands: seq<(Power, nat)>) {
    forall i :: 0 <= i < |commands| ==> (commands[i].0 == On <==> commands[i].1 > 0)
  }

  /** The radio is powered on just as the count wraps to zero. */
  predicate Misfires(s: Service, step: Step) {
    Wraps(s, step) && !Reads(s, step.q, On)
  }

  predicate NeverMisfires(s: Service, steps: seq<Step>)
    requires IsRun(s, steps)
    decreases |steps|
  {
    steps != [] ==> !Misfires(s, steps[0]) && NeverMisfires(Next(s, steps[0]), steps[1..])
  }

  /** A step that touches the radio does so in the direction the count demands, if and only if
      it does not misfire. */
  lemma PowerFollowsCount(s: Service, step: Step)
    requires Sound(s) && Enabled(s, step) && CommandsFit(s.commands)
    ensures CommandsFit(Next(s, step).commands) <==> !Misfires(s, step)
    ensures s.commands <= Next(s, step).commands
  {
    if Misfires(s, step) {
      assert Next(s, step).commands[|s.commands|] == (On, 0);
    }
  }

  lemma {:induction false} LogGrows(s: Service, steps: seq<Step>)
    requires IsRun(s, steps)
    ensures s.commands <= After(s, steps).commands
    decreases |steps|
  {
    if steps != [] {
      LogGrows(Next(s, steps[0]), steps[1..]);
    }
  }

  lemma {:induction false} RadioSafety(s: Service, steps: seq<Step>)
    requires Sound(s) && CommandsFit(s.commands) && IsRun(s, steps)
    ensures CommandsFit(After(s, steps).commands) <==> NeverMisfires(s, steps)
    decreases |steps|
  {
    if steps != [] {
      var s' := Next(s, steps[0]);
      PowerFollowsCount(s, steps[0]);
      SoundStep(s, steps[0]);
      if Misfires(s, steps[0]) {
        LogGrows(s', steps[1..]);
        if CommandsFit(After(s', steps[1..]).commands) {
          PrefixFits(s'.commands, After(s', steps[1..]).commands);
        }
      } else {
        RadioSafety(s', steps[1..]);
      }
    }
  }

  lemma PrefixFits(a: seq<(Power, nat)>, b: seq<(Power, nat)>)
    requires a <= b && CommandsFit(b)
    ensures CommandsFit(a)
  {
  }

  /** The same from start-up: in a run the radio is never powered off while the count is positive
      nor on while it is zero, if and only if no step misfires; so in every run that keeps the
      count. */
  lemma RadioSafetyFromBoot(boot: Service, steps: seq<Step>)
    requires Booted(boot) && IsRun(boot, steps)
    ensures CommandsFit(After(boot, steps).commands) <==> NeverMisfires(boot, steps)
    ensures NeverWraps(boot, steps) ==> CommandsFit(After(boot, steps).commands)
  {
    ConservedAtBoot(boot);
    RadioSafety(boot, steps);
    if NeverWraps(boot, steps) {
      NoWrapNoMisfire(boot, steps);
    }
  }

  lemma {:induction false} NoWrapNoMisfire(s: Service, steps: seq<Step>)
    requires IsRun(s, steps) && NeverWraps(s, steps)
    ensures NeverMisfires(s, steps)
    decreases |steps|
  {
    if steps != [] {
      NoWrapNoMisfire(Next(s, steps[0]), steps[1..]);
    }
  }

  // ---- leftover timers ---------------------------------------------------------------------

  function MoreTimers(s: Service, starts: nat, stops: nat): Service {
    s.(startTimers := s.startTimers + starts, stopTimers := s.stopTimers + stops)
  }

  lemma MoreTimersStep(s: Service, starts: nat, stops: nat, step: Step)
    requires Enabled(s, step)
    ensures Enabled(MoreTimers(s, starts, stops), step)
    ensures Next(MoreTimers(s, starts, stops), step) == MoreTimers(Next(s, step), starts, stops)
  {
    if step.CommandRuns? {
      MoreTimersProcess(s, starts, stops, step.q, step.obeys);
    }
  }

  lemma MoreTimersProcess(s: Service, starts: nat, stops: nat, q: Query, obeys: bool)
    requires s.queue != []
    ensures Process(MoreTimers(s, starts, stops), q, obeys)
            == MoreTimers(Process(s, q, obeys), starts, stops)
  {
  }

  /** Timers that do not expire are invisible: the same steps run, and lead to the same state. */
  lemma {:induction false} TimersAreInvisible(s: Service, starts: nat, stops: nat, steps: seq<Step>)
    requires IsRun(s, steps)
    ensures IsRun(MoreTimers(s, starts, stops), steps)
    ensures After(MoreTimers(s, starts, stops), steps)
            == MoreTimers(After(s, steps), starts, stops)
    decreases |steps|
  {
    if steps != [] {
      MoreTimersStep(s, starts, stops, steps[0]);
      TimersAreInvisible(Next(s, steps[0]), starts, stops, steps[1..]);
    }
  }

  /** A start timer that is no longer wanted only deletes itself: whatever runs after its expiry
      runs without it too, and leads to the same state but for the timer. */
  lemma StaleStartTimerIsHarmless(s: Service, q: Query, obeys: bool, steps: seq<Step>)
    requires s.startTimers > 0 && s.count == 0 && IsRun(StartTimer(s, q, obeys), steps)
    ensures IsRun(s, steps)
    ensures After(s, steps) == MoreTimers(After(StartTimer(s, q, obeys), steps), 1, 0)
  {
    TimersAreInvisible(StartTimer(s, q, obeys), 1, 0, steps);
  }

  /** The same of a stop timer. */
  lemma StaleStopTimerIsHarmless(s: Service, q: Query, obeys: bool, steps: seq<Step>)
    requires s.stopTimers > 0 && s.count > 0 && IsRun(StopTimer(s, q, obeys), steps)
    ensures IsRun(s, steps)
    ensures After(s, steps) == MoreTimers(After(StopTimer(s, q, obeys), steps), 0, 1)
  {
    TimersAreInvisible(StopTimer(s, q, obeys), 0, 1, steps);
  }

  // ---- does the radio end up where the count says? -------------------------------------------

  predicate RadioMatches(s: Service) {
    s.radio == On <==> s.count > 0
  }

  /** What a step needs to leave the radio where the count says: a command that starts or ends
      the demand is obeyed at once, the count does not wrap, and the radio does not move by
      itself. */
  predicate KeepsMatch(s: Service, step: Step)
    requires Enabled(s, step)
  {
    match step
    case CommandRuns(_, obeys) =>
      if s.queue[0] == RequestCommand then !Wraps(s, step) && (obeys || s.count > 0)
      else obeys || s.count != 1
    case RadioDrifts(p) => p == s.radio
    case _ => true
  }

  lemma MatchIff(s: Service, step: Step)
    requires Sound(s) && RadioMatches(s) && Enabled(s, step)
    ensures RadioMatches(Next(s, step)) <==> KeepsMatch(s, step)
  {
  }

  /** The radio is where the count says in every state of a run. */
  predicate MatchesAlong(s: Service, steps: seq<Step>)
    requires IsRun(s, steps)
    decreases |steps|
  {
    RadioMatches(s) && (steps != [] ==> MatchesAlong(Next(s, steps[0]), steps[1..]))
  }

  predicate KeepsMatchAlong(s: Service, steps: seq<Step>)
    requires IsRun(s, steps)
    decreases |steps|
  {
    steps != [] ==> KeepsMatch(s, steps[0]) && KeepsMatchAlong(Next(s, steps[0]), steps[1..])
  }

  lemma {:induction false} MatchesAlongIff(s: Service, steps: seq<Step>)
    requires Sound(s) && RadioMatches(s) && IsRun(s, steps)
    ensures MatchesAlong(s, steps) <==> KeepsMatchAlong(s, steps)
    decreases |steps|
  {
    if steps != [] {
      SoundStep(s, steps[0]);
      MatchIff(s, steps[0]);
      if RadioMatches(Next(s, steps[0])) {
        MatchesAlongIff(Next(s, steps[0]), steps[1..]);
      } else {
        NoMatchFrom(Next(s, steps[0]), steps[1..]);
      }
    }
  }

  lemma NoMatchFrom(s: Service, steps: seq<Step>)
    requires IsRun(s, steps) && !RadioMatches(s)
    ensures !MatchesAlong(s, steps)
  {
  }

  /** From start-up the radio is where the count says in every state of a run if and only if it
      started off and every step meets its condition, whatever the queries answer. */
  lemma RadioMatchesIff(boot: Service, steps: seq<Step>)
    requires Booted(boot) && IsRun(boot, steps)
    ensures MatchesAlong(boot, steps) <==> boot.radio == Off && KeepsMatchAlong(boot, steps)
  {
    AtBoot(boot);
    if boot.radio == Off {
      MatchesAlongIff(boot, steps);
    } else {
      NoMatchFrom(boot, steps);
    }
  }

  /** At start-up the radio is where the count says, and attended to, exactly when it is off. */
  lemma AtBoot(boot: Service)
    requires Booted(boot)
    ensures Sound(boot)
    ensures RadioMatches(boot) <==> boot.radio == Off
    ensures Attended(boot) <==> boot.radio == Off
  {
  }

  /** When the radio comes up only after the release was processed, it stays on with no request,
      no command queued and no timer left to turn it off. */
  lemma LateRadioStaysOn(boot: Service) returns (steps: seq<Step>)
    requires Booted(boot) && boot.radio == Off
    ensures IsRun(boot, steps)
    ensures var s := After(boot, steps);
            && s.radio == On && s.count == 0 && s.refs == {} && s.queue == []
            && s.startTimers == 0 && s.stopTimers == 0
  {
    var s1 := Next(boot, ClientRequests);
    var s2 := Next(s1, ClientReleases(0));
    assert s2.queue == [RequestCommand, ReleaseCommand] && s2.refs == {};
    var s3 := Next(s2, CommandRuns(Truth, false));
    assert s3.queue == [ReleaseCommand];
    var s4 := Next(s3, CommandRuns(Truth, true));
    assert s4.queue == [];
    var s5 := Next(s4, RadioDrifts(On));
    steps := Prepend(s5, StartTimerExpires(Truth, true), []);
    steps := Prepend(s4, RadioDrifts(On), steps);
    steps := Prepend(s3, CommandRuns(Truth, true), steps);
    steps := Prepend(s2, CommandRuns(Truth, false), steps);
    steps := Prepend(s1, ClientReleases(0), steps);
    steps := Prepend(boot, ClientRequests, steps);
  }

  // ---- a radio that is elsewhere is attended to ----------------------------------------------

  /** A radio that is not where the count says has a timer running that will move it. */
  predicate Attended(s: Service) {
    && (s.count > 0 && s.radio == Off ==> s.startTimers > 0)
    && (s.count == 0 && s.radio == On ==> s.stopTimers > 0)
  }

  /** The radio may move to p: the count wants it there, or a timer will move it back. */
  predicate Watched(s: Service, p: Power) {
    if p == On then s.count > 0 || s.stopTimers > 0 else s.count == 0 || s.startTimers > 0
  }

  /** What a step needs to leave the radio attended to: a drift goes where the count wants it or
      a timer watches; a wrap finds a stop timer running, or a radio that is off and stays off. */
  predicate KeepsAttended(s: Service, step: Step) {
    match step
    case RadioDrifts(p) => Watched(s, p)
    case CommandRuns(_, obeys) =>
      Wraps(s, step) ==> s.stopTimers > 0 || (s.radio == Off && !obeys)
    case _ => true
  }

  /** Every other step keeps the radio attended to, whether commands are obeyed or not and
      whatever the queries answer. */
  lemma AttendedIff(s: Service, step: Step)
    requires Sound(s) && Attended(s) && Enabled(s, step)
    ensures Attended(Next(s, step)) <==> KeepsAttended(s, step)
  {
  }

  predicate AttendedAlong(s: Service, steps: seq<Step>)
    requires IsRun(s, steps)
    decreases |steps|
  {
    Attended(s) && (steps != [] ==> AttendedAlong(Next(s, steps[0]), steps[1..]))
  }

  predicate KeepsAttendedAlong(s: Service, steps: seq<Step>)
    requires IsRun(s, steps)
    decreases |steps|
  {
    steps != [] ==>
      KeepsAttended(s, steps[0]) && KeepsAttendedAlong(Next(s, steps[0]), steps[1..])
  }

  lemma {:induction false} AttendedAlongIff(s: Service, steps: seq<Step>)
    requires Sound(s) && Attended(s) && IsRun(s, steps)
    ensures AttendedAlong(s, steps) <==> KeepsAttendedAlong(s, steps)
    decreases |steps|
  {
    if steps != [] {
      SoundStep(s, steps[0]);
      AttendedIff(s, steps[0]);
      if Attended(Next(s, steps[0])) {
        AttendedAlongIff(Next(s, steps[0]), steps[1..]);
      } else {
        UnattendedFrom(Next(s, steps[0]), steps[1..]);
      }
    }
  }

  lemma UnattendedFrom(s: Service, steps: seq<Step>)
    requires IsRun(s, steps) && !Attended(s)
    ensures !AttendedAlong(s, steps)
  {
  }

  lemma {:induction false} AttendedAtTheEnd(s: Service, steps: seq<Step>)
    requires IsRun(s, steps) && AttendedAlong(s, steps)
    ensures Attended(After(s, steps))
    decreases |steps|
  {
    if steps != [] {
      AttendedAtTheEnd(Next(s, steps[0]), steps[1..]);
    }
  }

  /** The radio is elsewhere but attended to: the timer that attends it can expire, and once the
      radio obeys it is where the count says, whatever the query answers. */
  lemma ExpirySettles(s: Service, q: Query)
    requires Sound(s) && Attended(s) && !RadioMatches(s)
    ensures var step := if s.count > 0 then StartTimerExpires(q, true) else StopTimerExpires(q, true);
            Enabled(s, step) && RadioMatches(Next(s, step))
  {
    var step := if s.count > 0 then StartTimerExpires(q, true) else StopTimerExpires(q, true);
    StepHasEffect(s, step);
  }

  /** Nothing but timers expires. */
  predicate TimersOnly(steps: seq<Step>) {
    forall i :: 0 <= i < |steps| ==> steps[i].StartTimerExpires? || steps[i].StopTimerExpires?
  }

  /** The step is an expiry that tries what the count wants, and the radio obeys. */
  predicate Settles(count: nat, step: Step) {
    if count > 0 then step.StartTimerExpires? && step.obeys
    else step.StopTimerExpires? && step.obeys
  }

  /** The timers keep trying until they succeed: in every run of expiries, whatever the queries
      answer and however often the radio does not obey, one obeyed expiry of the right timer is
      enough for the radio to end up where the count says. */
  lemma {:induction false} TimersSettleRadio(s: Service, steps: seq<Step>)
    requires Sound(s) && IsRun(s, steps) && TimersOnly(steps)
    requires RadioMatches(s) || exists i :: 0 <= i < |steps| && Settles(s.count, steps[i])
    ensures RadioMatches(After(s, steps)) && After(s, steps).count == s.count
    decreases |steps|
  {
    if steps != [] {
      var t := Next(s, steps[0]);
      assert steps[0].StartTimerExpires? || steps[0].StopTimerExpires?;
      StepHasEffect(s, steps[0]);
      SoundStep(s, steps[0]);
      if !RadioMatches(t) {
        var i :| 0 <= i < |steps| && Settles(s.count, steps[i]);
        assert i > 0;
        assert steps[1..][i - 1] == steps[i];
      }
      TimersSettleRadio(t, steps[1..]);
    }
  }

  /** The radio never moves by itself; it may ignore any command. */
  predicate Steady(steps: seq<Step>) {
    forall i :: 0 <= i < |steps| ==> !steps[i].RadioDrifts?
  }

  lemma {:induction false} SteadyKeeps(s: Service, steps: seq<Step>)
    requires IsRun(s, steps) && Steady(steps) && NeverWraps(s, steps)
    ensures KeepsAttendedAlong(s, steps)
    decreases |steps|
  {
    if steps != [] {
      assert !steps[0].RadioDrifts?;
      assert Steady(steps[1..]);
      SteadyKeeps(Next(s, steps[0]), steps[1..]);
    }
  }

  /** In every state of a run the radio is where the count says or a timer keeps trying, if and
      only if it started off and every step meets its condition; so in every run that keeps the
      count and in which the radio only moves on command, though perhaps not at once. */
  lemma SteadyRadioIsAttended(boot: Service, steps: seq<Step>)
    requires Booted(boot) && IsRun(boot, steps)
    ensures AttendedAlong(boot, steps) <==> boot.radio == Off && KeepsAttendedAlong(boot, steps)
    ensures boot.radio == Off && Steady(steps) && NeverWraps(boot, steps) ==>
              AttendedAlong(boot, steps)
  {
    AtBoot(boot);
    if boot.radio == Off {
      AttendedAlongIff(boot, steps);
      if Steady(steps) && NeverWraps(boot, steps) {
        SteadyKeeps(boot, steps);
      }
    } else {
      UnattendedFrom(boot, steps);
    }
  }

  /** What a step from s to t keeps, and exactly when: the balance unless it wraps the count, the
      fit of the commands unless it misfires, and the attention under its condition. */
  predicate KeptExactly(s: Service, step: Step, t: Service) {
    && (Conserved(s) ==> (Conserved(t) <==> !Wraps(s, step)))
    && (CommandsFit(s.commands) ==> (CommandsFit(t.commands) <==> !Misfires(s, step)))
    && (Attended(s) ==> (Attended(t) <==> KeepsAttended(s, step)))
  }

  // ---- the handlers ------------------------------------------------------------------------

  /** The service thread.  Its handlers keep the balance of count, queue and references, command
      the radio only as the count demands, and leave it attended to. */
  class Server {
    var requestCount: nat
    var requestRefMap: set<nat>
    var commandQueue: seq<Command>
    var radio: Power
    var startTimers: nat
    var stopTimers: nat
    var issued: nat
    ghost var commands: seq<(Power, nat)>

    ghost function Value(): Service
      reads this
    {
      Service(requestCount, requestRefMap, commandQueue, radio, startTimers, stopTimers, issued,
              commands)
    }

    ghost predicate Valid()
      reads this
    {
      Sound(Value())
    }

    constructor (power: Power)
      ensures Booted(Value()) && radio == power && Valid() && Conserved(Value())
    {
      requestCount, startTimers, stopTimers, issued := 0, 0, 0, 0;
      requestRefMap, commandQueue, radio, commands := {}, [], power, [];
      new;
      ConservedAtBoot(Value());
    }

    method GetRadioPower(q: Query) returns (ok: bool, state: Power)
      ensures ok == (q == Truth) && (ok ==> state == radio)
    {
      ok, state := q == Truth, radio;
    }

    method SetRadioPower(p: Power, obeys: bool)
      modifies this
      ensures Value() == SetPower(old(Value()), p, obeys)
    {
      if obeys {
        radio := p;
      }
      commands := commands + [(p, requestCount)];
    }

    /** `le_cellnet_Request`: queues the command and returns a new reference. */
    method RequestNetwork() returns (ref: nat)
      requires Valid()
      modifies this
      ensures Valid() && Value() == Request(old(Value()))
      ensures ref !in old(requestRefMap) && requestRefMap == old(requestRefMap) + {ref}
      ensures KeptExactly(old(Value()), ClientRequests, Value())
      ensures Effect(old(Value()), ClientRequests, Value())
    {
      StepKeeps(Value(), ClientRequests);
      commandQueue := commandQueue + [RequestCommand];
      ref := issued;
      requestRefMap := requestRefMap + {ref};
      issued := issued + 1;
    }

    /** `le_cellnet_Release`: a reference that is not live is ignored. */
    method ReleaseNetwork(ref: nat)
      requires Valid()
      modifies this
      ensures Valid() && Value() == Release(old(Value()), ref)
      ensures requestRefMap == old(requestRefMap) - {ref}
      ensures KeptExactly(old(Value()), ClientReleases(ref), Value())
      ensures Effect(old(Value()), ClientReleases(ref), Value())
    {
      StepKeeps(Value(), ClientReleases(ref));
      if ref in requestRefMap {
        requestRefMap := requestRefMap - {ref};
        commandQueue := commandQueue + [ReleaseCommand];
      }
    }

    /** `StartCellularNetwork`: unless the radio is known to be on, a timer watches it. */
    method StartCellularNetwork(q: Query, obeys: bool)
      modifies this
      ensures Value() == StartNetwork(old(Value()), q, obeys)
      ensures radio == On || startTimers > 0
      ensures old(CommandsFit(commands)) && requestCount > 0 ==> CommandsFit(commands)
    {
      var ok, state := GetRadioPower(q);
      if !(ok && state == On) {
        SetRadioPower(On, obeys);
        startTimers := startTimers + 1;
      }
    }

    /** `StopCellularNetwork`: unless the radio is known to be off, a timer watches it. */
    method StopCellularNetwork(q: Query, obeys: bool)
      modifies this
      ensures Value() == StopNetwork(old(Value()), q, obeys)
      ensures radio == Off || stopTimers > 0
      ensures old(CommandsFit(commands)) && requestCount == 0 ==> CommandsFit(commands)
    {
      var ok, state := GetRadioPower(q);
      if !(ok && state == Off) {
        SetRadioPower(Off, obeys);
        stopTimers := stopTimers + 1;
      }
    }

    /** `ProcessCommand` on the oldest queued command: it keeps the balance, commands the radio as
        the count demands and keeps it attended to exactly when the 32-bit count allows. */
    method ProcessCommand(q: Query, obeys: bool)
      requires commandQueue != [] && Valid()
      modifies this
      ensures Valid() && Value() == Process(old(Value()), q, obeys)
      ensures KeptExactly(old(Value()), CommandRuns(q, obeys), Value())
      ensures Effect(old(Value()), CommandRuns(q, obeys), Value())
    {
      ghost var before := Value();
      StepKeeps(before, CommandRuns(q, obeys));
      var command := commandQueue[0];
      commandQueue := commandQueue[1..];
      if command == RequestCommand {
        requestCount := (requestCount + 1) % TWO32;
        StartCellularNetwork(q, obeys);
      } else {
        if requestCount > 0 {
          requestCount := requestCount - 1;
        }
        if requestCount == 0 {
          StopCellularNetwork(q, obeys);
        }
      }
      assert Value() == Process(before, q, obeys);
    }

    /** `StartCellNetTimerHandler`: tries again while the network is wanted, and otherwise only
        deletes its timer. */
    method StartCellNetTimerHandler(q: Query, obeys: bool)
      requires startTimers > 0 && Valid()
      modifies this
      ensures Valid() && Value() == StartTimer(old(Value()), q, obeys)
      ensures requestCount == 0 ==> commands == old(commands) && radio == old(radio)
      ensures KeptExactly(old(Value()), StartTimerExpires(q, obeys), Value())
      ensures Effect(old(Value()), StartTimerExpires(q, obeys), Value())
    {
      StepKeeps(Value(), StartTimerExpires(q, obeys));
      if requestCount == 0 {
        startTimers := startTimers - 1;
      } else {
        var ok, state := GetRadioPower(q);
        if ok && state == On {
          startTimers := startTimers - 1;
        } else {
          SetRadioPower(On, obeys);
        }
      }
    }

    /** `StopCellNetTimerHandler`: the same for stopping. */
    method StopCellNetTimerHandler(q: Query, obeys: bool)
      requires stopTimers > 0 && Valid()
      modifies this
      ensures Valid() && Value() == StopTimer(old(Value()), q, obeys)
      ensures requestCount > 0 ==> commands == old(commands) && radio == old(radio)
      ensures KeptExactly(old(Value()), StopTimerExpires(q, obeys), Value())
      ensures Effect(old(Value()), StopTimerExpires(q, obeys), Value())
    {
      StepKeeps(Value(), StopTimerExpires(q, obeys));
      if requestCount != 0 {
        stopTimers := stopTimers - 1;
      } else {
        var ok, state := GetRadioPower(q);
        if ok && state == Off {
          stopTimers := stopTimers - 1;
        } else {
          SetRadioPower(Off, obeys);
        }
      }
    }

    /** The event that a step of a run stands for. */
    method Take(step: Step)
      requires Valid() && Enabled(Value(), step)
      modifies this
      ensures Valid() && Value() == Next(old(Value()), step)
      ensures KeptExactly(old(Value()), step, Value())
    {
      StepKeeps(Value(), step);
      match step {
        case ClientRequests =>
          var ref := RequestNetwork();
        case ClientReleases(ref) => ReleaseNetwork(ref);
        case CommandRuns(q, obeys) => ProcessCommand(q, obeys);
        case StartTimerExpires(q, obeys) => StartCellNetTimerHandler(q, obeys);
        case StopTimerExpires(q, obeys) => StopCellNetTimerHandler(q, obeys);
        case RadioDrifts(p) => radio := p;
      }
    }
  }

  lemma StepKeeps(s: Service, step: Step)
    requires Sound(s) && Enabled(s, step)
    ensures KeptExactly(s, step, Next(s, step)) && Effect(s, step, Next(s, step))
  {
    StepHasEffect(s, step);
    if Conserved(s) {
      ConservedStep(s, step);
    }
    if CommandsFit(s.commands) {
      PowerFollowsCount(s, step);
    }
    if Attended(s) {
      AttendedIff(s, step);
    }
  }

  /** The service thread over a whole run: it ends where the run leads. */
  method Operate(server: Server, ghost start: Service, steps: seq<Step>)
    requires server.Valid() && server.Value() == start && IsRun(start, steps)
    modifies server
    ensures server.Valid() && server.Value() == After(start, steps)
    ensures Conserved(start) && NeverWraps(start, steps) ==> Conserved(server.Value())
    ensures CommandsFit(start.commands) ==>
              (CommandsFit(server.commands) <==> NeverMisfires(start, steps))
    ensures Attended(start) && KeepsAttendedAlong(start, steps) ==> Attended(server.Value())
  {
    RunKeeps(start, steps);
    var rest := steps;
    while rest != []
      invariant server.Valid() && IsRun(server.Value(), rest)
      invariant After(server.Value(), rest) == After(start, steps)
    {
      server.Take(rest[0]);
      rest := rest[1..];
    }
  }

  /** What a whole run keeps. */
  lemma RunKeeps(s: Service, steps: seq<Step>)
    requires Sound(s) && IsRun(s, steps)
    ensures Conserved(s) && NeverWraps(s, steps) ==> Conserved(After(s, steps))
    ensures CommandsFit(s.commands) ==>
              (CommandsFit(After(s, steps).commands) <==> NeverMisfires(s, steps))
    ensures Attended(s) && KeepsAttendedAlong(s, steps) ==> Attended(After(s, steps))
  {
    if Conserved(s) && NeverWraps(s, steps) {
      ConservedRun(s, steps);
    }
    if CommandsFit(s.commands) {
      RadioSafety(s, steps);
    }
    if Attended(s) && KeepsAttendedAlong(s, steps) {
      AttendedAlongIff(s, steps);
      AttendedAtTheEnd(s, steps);
    }
  }
}
