/**
  What each operation of the audio service (components/audio/le_audio.c) changes, told by the
  contents of the graph before and after it, and that a stream outlives everything but the
  closing of it by its last holder.
 */
module AudioEffects {
  import opened Basics
  import opened AudioGraph
  import opened AudioRuns

  /** Which interfaces are inputs, which only one stream may use, and which the platform has to
      set up. */
  lemma Interfaces(i: Interface)
    ensures IsInput(i) <==> i in {CodecMic, UsbRx, ModemVoiceRx, PcmRx, I2sRx, FilePlay}
    ensures Physical(i) <==> i !in {FilePlay, FileCapture}
    ensures NeedsSetup(i) <==> i in {PcmRx, PcmTx, I2sRx, I2sTx}
  {
  }

  // ---- the sessions that hold a stream -----------------------------------------------------

  /** Only the holders of one stream change; its count is their number. */
  ghost predicate HoldersBecome(g: Graph, h: Graph, s: nat, list: seq<nat>) {
    && h.connectors == g.connectors && h.paths == g.paths && h.next == g.next
    && h.streams.Keys == g.streams.Keys && s in g.streams
    && (forall t :: t in g.streams && t != s ==> h.streams[t] == g.streams[t])
    && h.streams[s].iface == g.streams[s].iface && h.streams[s].links == g.streams[s].links
    && h.streams[s].sessions == list && h.streams[s].refs == |list|
  }

  /** One stream is added, with one holder and a count of one. */
  ghost predicate StreamAppears(g: Graph, h: Graph, i: Interface, session: nat) {
    && h.connectors == g.connectors && h.paths == g.paths && h.next == g.next + 1
    && g.next !in g.streams && h.streams.Keys == g.streams.Keys + {g.next}
    && (forall t :: t in g.streams ==> h.streams[t] == g.streams[t])
    && h.streams[g.next].iface == i && h.streams[g.next].links == {}
    && h.streams[g.next].sessions == [session] && h.streams[g.next].refs == 1
  }

  /** Some streams are gone from the map, from every connector and with their paths. */
  ghost predicate Vanish(g: Graph, h: Graph, gone: set<nat>) {
    && h.next == g.next
    && (forall t :: t in h.streams <==> t in g.streams && t !in gone)
    && h.connectors.Keys == g.connectors.Keys
    && (forall c :: c in g.connectors ==>
          && (forall t :: t in h.connectors[c].ins <==> t in g.connectors[c].ins && t !in gone)
          && (forall t :: t in h.connectors[c].outs <==> t in g.connectors[c].outs && t !in gone)
          && h.connectors[c].session == g.connectors[c].session)
    && (forall i: nat, o: nat :: (i, o) in h.paths <==> (i, o) in g.paths && i !in gone && o !in gone)
  }

  /** Opening: a physical interface that is open gets one more holder at the end of its list; any
      other opening makes a stream, unless the platform refuses one that needs it. */
  ghost predicate OpenEffect(g: Graph, i: Interface, session: nat, granted: bool, h: Graph) {
    if i != FilePlay && i != FileCapture && exists s :: IsOpen(g, i, s) then
      exists s :: IsOpen(g, i, s) && HoldersBecome(g, h, s, g.streams[s].sessions + [session])
    else if i in {PcmRx, PcmTx, I2sRx, I2sTx} && !granted then h == g
    else StreamAppears(g, h, i, session)
  }

  /** Node j is the first of the session. */
  ghost predicate FirstNode(list: seq<nat>, session: nat, j: nat) {
    j < |list| && list[j] == session && session !in list[..j]
  }

  /** Closing: the first node of the session goes and no other, and with the last node the
      stream; a session that does not hold the stream changes nothing. */
  ghost predicate CloseEffect(g: Graph, s: nat, session: nat, h: Graph) {
    if s !in g.streams || session !in g.streams[s].sessions then h == g
    else
      exists j: nat :: FirstNode(g.streams[s].sessions, session, j) && NodeGoes(g, s, j, h)
  }

  ghost predicate NodeGoes(g: Graph, s: nat, j: nat, h: Graph)
    requires s in g.streams && j < |g.streams[s].sessions|
  {
    var left := g.streams[s].sessions[..j] + g.streams[s].sessions[j + 1..];
    if left != [] then HoldersBecome(g, h, s, left)
    else Vanish(g, h, {s}) && forall t :: t in h.streams ==> h.streams[t] == g.streams[t]
  }

  /** The streams only this session holds. */
  ghost predicate OnlyHolder(g: Graph, session: nat, gone: set<nat>) {
    forall s :: s in gone <==>
      s in g.streams && forall x :: x in g.streams[s].sessions ==> x == session
  }

  /** The end of a session: its nodes go, the others stay in order, and streams without nodes
      go. */
  ghost predicate EndEffect(g: Graph, session: nat, h: Graph) {
    exists gone ::
      && OnlyHolder(g, session, gone) && Vanish(g, h, gone)
      && forall s :: s in h.streams ==>
           && h.streams[s].iface == g.streams[s].iface
           && h.streams[s].links == g.streams[s].links
           && h.streams[s].sessions == Without(g.streams[s].sessions, session)
           && h.streams[s].refs == |h.streams[s].sessions|
  }

  // ---- connectors --------------------------------------------------------------------------

  /** Only the links of one stream, the sides of one connector and paths change. */
  ghost predicate OnlyRoutes(g: Graph, h: Graph, c: nat, s: nat) {
    && h.next == g.next && c in g.connectors && s in g.streams
    && h.streams.Keys == g.streams.Keys && h.connectors.Keys == g.connectors.Keys
    && (forall t :: t in g.streams && t != s ==> h.streams[t] == g.streams[t])
    && (forall d :: d in g.connectors && d != c ==> h.connectors[d] == g.connectors[d])
    && h.streams[s].iface == g.streams[s].iface
    && h.streams[s].sessions == g.streams[s].sessions && h.streams[s].refs == g.streams[s].refs
    && h.connectors[c].session == g.connectors[c].session
  }

  ghost predicate OnSide(g: Graph, c: nat, s: nat) {
    && c in g.connectors && s in g.streams
    && if IsInput(g.streams[s].iface) then s in g.connectors[c].ins else s in g.connectors[c].outs
  }

  /** The path is one between s and a stream across connector c. */
  ghost predicate Across(g: Graph, c: nat, s: nat, i: nat, o: nat)
    requires c in g.connectors && s in g.streams
  {
    if IsInput(g.streams[s].iface) then i == s && o in g.connectors[c].outs
    else o == s && i in g.connectors[c].ins
  }

  /** Connecting a stream that is not on its side of the connector puts it there, the connector on
      its list, and opens the paths to the streams across that are not refused. */
  ghost predicate ConnectEffect(g: Graph, c: nat, s: nat, refused: set<(nat, nat)>, h: Graph) {
    if c !in g.connectors || s !in g.streams || OnSide(g, c, s) then h == g
    else
      && OnlyRoutes(g, h, c, s)
      && h.streams[s].links == g.streams[s].links + {c}
      && (if IsInput(g.streams[s].iface)
          then h.connectors[c].ins == g.connectors[c].ins + {s}
               && h.connectors[c].outs == g.connectors[c].outs
          else h.connectors[c].outs == g.connectors[c].outs + {s}
               && h.connectors[c].ins == g.connectors[c].ins)
      && forall i: nat, o: nat :: (i, o) in h.paths <==>
           (i, o) in g.paths || (Across(g, c, s, i, o) && (i, o) !in refused)
  }

  /** Disconnecting undoes both entries and closes the paths to all streams across. */
  ghost predicate DisconnectEffect(g: Graph, c: nat, s: nat, h: Graph) {
    if !OnSide(g, c, s) then h == g
    else
      && OnlyRoutes(g, h, c, s)
      && h.streams[s].links == g.streams[s].links - {c}
      && (if IsInput(g.streams[s].iface)
          then h.connectors[c].ins == g.connectors[c].ins - {s}
               && h.connectors[c].outs == g.connectors[c].outs
          else h.connectors[c].outs == g.connectors[c].outs - {s}
               && h.connectors[c].ins == g.connectors[c].ins)
      && forall i: nat, o: nat :: (i, o) in h.paths <==> (i, o) in g.paths && !Across(g, c, s, i, o)
  }

  ghost predicate CreateEffect(g: Graph, session: nat, h: Graph) {
    && h.streams == g.streams && h.paths == g.paths && h.next == g.next + 1
    && g.next !in g.connectors && h.connectors.Keys == g.connectors.Keys + {g.next}
    && (forall c :: c in g.connectors ==> h.connectors[c] == g.connectors[c])
    && h.connectors[g.next].ins == {} && h.connectors[g.next].outs == {}
    && h.connectors[g.next].session == session
  }

  /** Deleting a connector takes it off every list and closes every path across it. */
  ghost predicate DeleteEffect(g: Graph, c: nat, h: Graph) {
    if c !in g.connectors then h == g
    else
      && h.next == g.next && h.connectors.Keys == g.connectors.Keys - {c}
      && (forall d :: d in h.connectors ==> h.connectors[d] == g.connectors[d])
      && h.streams.Keys == g.streams.Keys
      && (forall s :: s in g.streams ==>
            && h.streams[s].iface == g.streams[s].iface
            && h.streams[s].links == g.streams[s].links - {c}
            && h.streams[s].sessions == g.streams[s].sessions
            && h.streams[s].refs == g.streams[s].refs)
      && forall i: nat, o: nat :: (i, o) in h.paths <==>
           (i, o) in g.paths && !(i in g.connectors[c].ins && o in g.connectors[c].outs)
  }

  ghost predicate Effect(g: Graph, op: Op, h: Graph) {
    match op
    case OpenOp(i, session, granted) => OpenEffect(g, i, session, granted, h)
    case CloseOp(s, session) => CloseEffect(g, s, session, h)
    case SessionEnd(session) => EndEffect(g, session, h)
    case CreateOp(session) => CreateEffect(g, session, h)
    case DeleteOp(c) => DeleteEffect(g, c, h)
    case ConnectOp(c, s, refused) => ConnectEffect(g, c, s, refused, h)
    case DisconnectOp(c, s) => DisconnectEffect(g, c, s, h)
  }

  // ---- every operation has its effect ------------------------------------------------------

  lemma ReopenHolders(g: Graph, s: nat, session: nat)
    requires Counted(g) && s in g.streams
    ensures HoldersBecome(g, Reopen(g, s, session), s, g.streams[s].sessions + [session])
  {
  }

  lemma OpenNewAppears(g: Graph, i: Interface, session: nat)
    requires Below(g)
    ensures StreamAppears(g, OpenNew(g, i, session, true), i, session)
  {
    assert g.next !in g.streams;
  }

  lemma OpenHasEffect(g: Graph, i: Interface, session: nat, granted: bool, h: Graph)
    requires Counted(g) && Below(g) && Opens(g, i, session, granted, h)
    ensures OpenEffect(g, i, session, granted, h)
  {
    if Physical(i) && exists s :: IsOpen(g, i, s) {
      var s :| IsOpen(g, i, s) && h == Reopen(g, s, session);
      ReopenHolders(g, s, session);
    } else if granted || !NeedsSetup(i) {
      OpenNewAppears(g, i, session);
    }
  }

  lemma {:induction false} FirstIndex(list: seq<nat>, x: nat) returns (j: nat)
    requires x in list
    ensures FirstNode(list, x, j) && WithoutFirst(list, x) == list[..j] + list[j + 1..]
  {
    if list[0] == x {
      j := 0;
    } else {
      var k := FirstIndex(list[1..], x);
      j := k + 1;
      WithoutNode(list, k);
    }
  }

  lemma WithoutNode(list: seq<nat>, k: nat)
    requires list != [] && k < |list| - 1
    ensures list[..k + 1] == [list[0]] + list[1..][..k]
    ensures list[..k + 1] + list[k + 2..] == [list[0]] + (list[1..][..k] + list[1..][k + 1..])
    ensures list[k + 1] == list[1..][k]
  {
  }

  lemma DestroyedVanish(g: Graph, gone: set<nat>)
    ensures Vanish(g, Destroyed(g, gone), gone)
  {
  }

  lemma CloseHasEffect(g: Graph, s: nat, session: nat)
    ensures CloseEffect(g, s, session, Close(g, s, session))
  {
    if s in g.streams && session in g.streams[s].sessions {
      var list := g.streams[s].sessions;
      var j := FirstIndex(list, session);
      DestroyedVanish(g, {s});
      assert FirstNode(list, session, j);
    }
  }

  lemma EndHasEffect(g: Graph, session: nat)
    requires Counted(g)
    ensures EndEffect(g, session, Ended(g, session, g.streams.Keys))
  {
    var gone := Orphans(g, session, g.streams.Keys);
    forall s | s in g.streams
      ensures s in gone <==> forall x :: x in g.streams[s].sessions ==> x == session
    {
      WithoutMembers(g.streams[s].sessions, session);
      var left := Without(g.streams[s].sessions, session);
      assert left != [] ==> left[0] in left;
    }
    DestroyedVanish(g, gone);
    assert OnlyHolder(g, session, gone);
  }

  lemma ConnectHasEffect(g: Graph, c: nat, s: nat, refused: set<(nat, nat)>)
    ensures ConnectEffect(g, c, s, refused, Connect(g, c, s, refused))
  {
    if CanConnect(g, c, s) {
      var input := IsInput(g.streams[s].iface);
      forall i: nat, o: nat
        ensures (i, o) in Pairs(s, Side(g.connectors[c], !input), input) <==> Across(g, c, s, i, o)
      {
        assert Pair(s, if input then o else i, input) == if input then (s, o) else (i, s);
      }
    }
  }

  lemma DisconnectHasEffect(g: Graph, c: nat, s: nat)
    ensures DisconnectEffect(g, c, s, Disconnect(g, c, s))
  {
    if Connected(g, c, s) {
      var input := IsInput(g.streams[s].iface);
      forall i: nat, o: nat
        ensures (i, o) in Pairs(s, Side(g.connectors[c], !input), input) <==> Across(g, c, s, i, o)
      {
        assert Pair(s, if input then o else i, input) == if input then (s, o) else (i, s);
      }
    }
  }

  lemma CreateHasEffect(g: Graph, session: nat)
    requires g.next !in g.connectors
    ensures CreateEffect(g, session, Create(g, session))
  {
  }

  lemma DeleteHasEffect(g: Graph, c: nat)
    requires TwoWay(g)
    ensures DeleteEffect(g, c, Delete(g, c))
  {
    if c in g.connectors {
      forall s | s in g.streams
        ensures Delete(g, c).streams[s].links == g.streams[s].links - {c}
      {
        var k := g.connectors[c];
        if s !in k.ins && s !in k.outs {
          assert c !in g.streams[s].links;
        }
      }
    }
  }

  /** Every operation changes the graph as its effect says, and in no other way. */
  lemma StepHasEffect(g: Graph, op: Op, h: Graph)
    requires Inv(g) && Next(g, op, h)
    ensures Effect(g, op, h)
  {
    match op {
      case OpenOp(i, session, granted) => OpenHasEffect(g, i, session, granted, h);
      case CloseOp(s, session) => CloseHasEffect(g, s, session);
      case SessionEnd(session) => EndHasEffect(g, session);
      case CreateOp(session) =>
      case DeleteOp(c) => DeleteHasEffect(g, c);
      case ConnectOp(c, s, refused) => ConnectHasEffect(g, c, s, refused);
      case DisconnectOp(c, s) => DisconnectHasEffect(g, c, s);
    }
  }

  // ---- a holder keeps its stream -----------------------------------------------------------

  /** How many nodes the session has on the stream. */
  ghost function Nodes(g: Graph, s: nat, x: nat): nat {
    if s in g.streams then multiset(g.streams[s].sessions)[x] else 0
  }

  /** What an operation does to the number of nodes session x has on stream s. */
  ghost predicate NodesStep(g: Graph, op: Op, h: Graph, s: nat, x: nat) {
    match op
    case OpenOp(_, session, _) =>
      Nodes(h, s, x) == Nodes(g, s, x)
      || (session == x && Nodes(h, s, x) == Nodes(g, s, x) + 1)
    case CloseOp(t, session) =>
      Nodes(h, s, x) == if t == s && session == x && Nodes(g, s, x) > 0 then Nodes(g, s, x) - 1
                        else Nodes(g, s, x)
    case SessionEnd(session) =>
      Nodes(h, s, x) == if session == x then 0 else Nodes(g, s, x)
    case _ => Nodes(h, s, x) == Nodes(g, s, x)
  }

  lemma NodesAfterClose(g: Graph, h: Graph, t: nat, session: nat, s: nat, x: nat)
    requires CloseEffect(g, t, session, h)
    ensures NodesStep(g, CloseOp(t, session), h, s, x)
  {
    if t in g.streams && session in g.streams[t].sessions {
      var j: nat :| FirstNode(g.streams[t].sessions, session, j) && NodeGoes(g, t, j, h);
      if t == s {
        NodesAfterNode(g, h, t, j, x);
        InMultiset(g.streams[t].sessions, session);
      } else {
        ElsewhereSame(g, h, t, j, s, x);
      }
    }
  }

  lemma InMultiset(list: seq<nat>, x: nat)
    ensures x in list <==> multiset(list)[x] > 0
  {
    assert x in list <==> x in multiset(list);
  }

  lemma ElsewhereSame(g: Graph, h: Graph, t: nat, j: nat, s: nat, x: nat)
    requires t in g.streams && j < |g.streams[t].sessions| && NodeGoes(g, t, j, h) && s != t
    ensures Nodes(h, s, x) == Nodes(g, s, x)
  {
  }

  lemma NodesAfterNode(g: Graph, h: Graph, t: nat, j: nat, x: nat)
    requires t in g.streams && j < |g.streams[t].sessions| && NodeGoes(g, t, j, h)
    ensures Nodes(g, t, x) == Nodes(h, t, x) + if g.streams[t].sessions[j] == x then 1 else 0
  {
    NodeCounts(g.streams[t].sessions, j, x);
  }

  lemma NodeCounts(list: seq<nat>, j: nat, x: nat)
    requires j < |list|
    ensures multiset(list)[x]
            == multiset(list[..j] + list[j + 1..])[x] + if list[j] == x then 1 else 0
    ensures list[..j] + list[j + 1..] == [] ==> multiset(list)[x] == if list[j] == x then 1 else 0
  {
    assert list == list[..j] + [list[j]] + list[j + 1..];
  }

  lemma {:induction false} WithoutCounts(list: seq<nat>, x: nat, y: nat)
    ensures multiset(Without(list, x))[y] == if y == x then 0 else multiset(list)[y]
  {
    if list != [] {
      WithoutCounts(list[1..], x, y);
      assert list == [list[0]] + list[1..];
    }
  }

  lemma NodesAfterEnd(g: Graph, h: Graph, session: nat, s: nat, x: nat)
    requires EndEffect(g, session, h)
    ensures NodesStep(g, SessionEnd(session), h, s, x)
  {
    if s in g.streams {
      WithoutCounts(g.streams[s].sessions, session, x);
      if s !in h.streams && x in g.streams[s].sessions {
        assert x == session;
      }
    }
  }

  lemma NodesAfterOpen(g: Graph, h: Graph, i: Interface, session: nat, granted: bool, s: nat, x: nat)
    requires OpenEffect(g, i, session, granted, h)
    ensures NodesStep(g, OpenOp(i, session, granted), h, s, x)
  {
  }

  /** The nodes of a session on a stream: its own openings add one, its own closings take one, its
      end takes all, and nothing anybody else does takes any. */
  lemma NodesFollow(g: Graph, op: Op, h: Graph, s: nat, x: nat)
    requires Effect(g, op, h)
    ensures NodesStep(g, op, h, s, x)
  {
    match op {
      case OpenOp(i, session, granted) => NodesAfterOpen(g, h, i, session, granted, s, x);
      case CloseOp(t, session) => NodesAfterClose(g, h, t, session, s, x);
      case SessionEnd(session) => NodesAfterEnd(g, h, session, s, x);
      case CreateOp(session) =>
      case DeleteOp(c) =>
        if s in g.streams && c in g.connectors {
          assert h.streams[s].sessions == g.streams[s].sessions;
        }
      case ConnectOp(c, t, refused) =>
        if s in g.streams && h != g {
          assert h.streams[s].sessions == g.streams[s].sessions;
        }
      case DisconnectOp(c, t) =>
        if s in g.streams && h != g {
          assert h.streams[s].sessions == g.streams[s].sessions;
        }
    }
  }

  /** The operation may take a node of session x from stream s. */
  predicate Takes(op: Op, s: nat, x: nat) {
    op == CloseOp(s, x) || op == SessionEnd(x)
  }

  /** A stream stays open as long as a session that holds it neither closes it nor ends, whatever
      the other sessions close, delete or disconnect. */
  lemma {:induction false} HolderKeepsStream(states: seq<Graph>, ops: seq<Op>, j: nat, k: nat,
                                             s: nat, x: nat)
    requires IsRun(states, ops) && j <= k <= |ops|
    requires s in states[j].streams && x in states[j].streams[s].sessions
    requires forall m :: j <= m < k ==> !Takes(ops[m], s, x)
    ensures s in states[k].streams && x in states[k].streams[s].sessions
    ensures Nodes(states[k], s, x) >= Nodes(states[j], s, x)
    decreases k
  {
    if k > j {
      HolderKeepsStream(states, ops, j, k - 1, s, x);
      InvAlongRun(states, ops, k - 1);
      StepHasEffect(states[k - 1], ops[k - 1], states[k]);
      NodesFollow(states[k - 1], ops[k - 1], states[k], s, x);
      assert !Takes(ops[k - 1], s, x);
    }
  }
}
