/** Whole runs of the audio service, and when the open paths are exactly the joined pairs. */
module AudioRuns {
  import opened AudioGraph

  datatype Op =
    | OpenOp(iface: Interface, session: nat, granted: bool)
    | CloseOp(s: nat, session: nat)
    | SessionEnd(session: nat)
    | CreateOp(session: nat)
    | DeleteOp(c: nat)
    | ConnectOp(c: nat, s: nat, refused: set<(nat, nat)>)
    | DisconnectOp(c: nat, s: nat)

  /** `OpenAudioStream`: h is what opening the interface may lead to. */
  ghost predicate Opens(g: Graph, i: Interface, session: nat, granted: bool, h: Graph) {
    if Physical(i) && exists s :: IsOpen(g, i, s) then
      exists s :: IsOpen(g, i, s) && h == Reopen(g, s, session)
    else h == OpenNew(g, i, session, granted)
  }

  ghost predicate Next(g: Graph, op: Op, h: Graph) {
    match op
    case OpenOp(i, session, granted) => Opens(g, i, session, granted, h)
    case CloseOp(s, session) => h == Close(g, s, session)
    case SessionEnd(session) => h == Ended(g, session, g.streams.Keys)
    case CreateOp(session) => h == Create(g, session)
    case DeleteOp(c) => h == Delete(g, c)
    case ConnectOp(c, s, refused) => h == Connect(g, c, s, refused)
    case DisconnectOp(c, s) => h == Disconnect(g, c, s)
  }

  lemma OpensKeeps(g: Graph, i: Interface, session: nat, granted: bool, h: Graph)
    requires Inv(g) && Opens(g, i, session, granted, h)
    ensures Inv(h)
  {
    if Physical(i) && exists s :: IsOpen(g, i, s) {
      var s :| IsOpen(g, i, s) && h == Reopen(g, s, session);
      ReopenKeeps(g, s, session);
    } else {
      OpenNewKeeps(g, i, session, granted);
    }
  }

  lemma CloseKeeps(g: Graph, s: nat, session: nat)
    requires Inv(g)
    ensures Inv(Close(g, s, session))
  {
    if s in g.streams {
      var list := g.streams[s].sessions;
      KeepKeeps(g, s, WithoutFirst(list, session));
    }
  }

  /** Every operation keeps the invariant. */
  lemma StepKeeps(g: Graph, op: Op, h: Graph)
    requires Inv(g) && Next(g, op, h)
    ensures Inv(h)
  {
    match op {
      case OpenOp(i, session, granted) => OpensKeeps(g, i, session, granted, h);
      case CloseOp(s, session) => CloseKeeps(g, s, session);
      case SessionEnd(session) => EndedKeeps(g, session, g.streams.Keys);
      case CreateOp(session) => CreateKeeps(g, session);
      case DeleteOp(c) => DeleteKeeps(g, c);
      case ConnectOp(c, s, refused) => ConnectKeeps(g, c, s, refused);
      case DisconnectOp(c, s) => DisconnectKeeps(g, c, s);
    }
  }

  // ---- runs --------------------------------------------------------------------------------

  ghost predicate Empty(g: Graph) {
    g.streams == map[] && g.connectors == map[] && g.paths == {}
  }

  ghost predicate IsRun(states: seq<Graph>, ops: seq<Op>) {
    && |states| == |ops| + 1 && Empty(states[0])
    && forall k :: 0 <= k < |ops| ==> Next(states[k], ops[k], states[k + 1])
  }

  lemma RunGoesOn(states: seq<Graph>, ops: seq<Op>, op: Op, h: Graph)
    requires IsRun(states, ops) && Next(states[|ops|], op, h)
    ensures IsRun(states + [h], ops + [op])
  {
    var longer, more := states + [h], ops + [op];
    forall k | 0 <= k < |more|
      ensures Next(longer[k], more[k], longer[k + 1])
    {
      if k < |ops| {
        assert Next(states[k], ops[k], states[k + 1]);
      }
    }
  }

  lemma {:induction false} InvAlongRun(states: seq<Graph>, ops: seq<Op>, k: nat)
    requires IsRun(states, ops) && k <= |ops|
    ensures Inv(states[k])
  {
    if k > 0 {
      InvAlongRun(states, ops, k - 1);
      StepKeeps(states[k - 1], ops[k - 1], states[k]);
    }
  }

  /** In every state of every run: membership is two-way and on the side the direction demands;
      every open path joins an input and an output stream that share a connector; reference
      counts are the numbers of session nodes; a physical interface has one stream at most. */
  lemma RoutingIsConsistent(states: seq<Graph>, ops: seq<Op>, k: nat)
    requires IsRun(states, ops) && k <= |ops|
    ensures var g := states[k];
            && (forall s, c :: s in g.streams && c in g.connectors ==>
                  (c in g.streams[s].links <==>
                     if IsInput(g.streams[s].iface) then s in g.connectors[c].ins
                     else s in g.connectors[c].outs))
            && (forall i, o :: (i, o) in g.paths ==>
                  && i in g.streams && IsInput(g.streams[i].iface)
                  && o in g.streams && !IsInput(g.streams[o].iface)
                  && exists c :: c in g.streams[i].links && c in g.streams[o].links)
            && (forall s :: s in g.streams ==> g.streams[s].refs == |g.streams[s].sessions| > 0)
            && OnePerInterface(g)
  {
    InvAlongRun(states, ops, k);
    var g := states[k];
    forall i, o | (i, o) in g.paths
      ensures i in g.streams && IsInput(g.streams[i].iface)
      ensures o in g.streams && !IsInput(g.streams[o].iface)
      ensures exists c :: c in g.streams[i].links && c in g.streams[o].links
    {
      var c :| Joins(g, c, i, o);
      assert c in g.streams[i].links && c in g.streams[o].links;
    }
  }

  // ---- exact paths -------------------------------------------------------------------------

  /** The open paths are exactly the pairs that share a connector. */
  ghost predicate Exact(g: Graph) {
    forall i: nat, o: nat :: (i, o) in g.paths <==> Joined(g, i, o)
  }

  /** Two streams meet in a connector other than c. */
  ghost predicate MeetElsewhere(g: Graph, c: nat, i: nat, o: nat) {
    exists d :: d != c && Joins(g, d, i, o)
  }

  /** Connecting keeps the paths exact exactly when the platform refuses none but paths that are
      open already. */
  lemma ConnectExactIff(g: Graph, c: nat, s: nat, refused: set<(nat, nat)>)
    requires Inv(g) && Exact(g) && CanConnect(g, c, s)
    ensures var input := IsInput(g.streams[s].iface);
            Exact(Connect(g, c, s, refused)) <==>
            forall t :: t in Side(g.connectors[c], !input) && Pair(s, t, input) in refused ==>
              Pair(s, t, input) in g.paths
  {
    var input := IsInput(g.streams[s].iface);
    var h, across := Connect(g, c, s, refused), Side(g.connectors[c], !input);
    forall i: nat, o: nat
      ensures Joined(h, i, o) <==> (i, o) in g.paths || (i, o) in Pairs(s, across, input)
    {
      ConnectJoins(g, c, s, refused, i, o);
    }
    forall t | t in across
      ensures Pair(s, t, input) in Pairs(s, across, input)
    {
    }
    if Exact(h) {
      forall t | t in across && Pair(s, t, input) in refused
        ensures Pair(s, t, input) in g.paths
      {
        var p := Pair(s, t, input);
        assert Joined(h, p.0, p.1);
        assert (p.0, p.1) in h.paths;
      }
    }
  }

  lemma ConnectJoins(g: Graph, c: nat, s: nat, refused: set<(nat, nat)>, i: nat, o: nat)
    requires Inv(g) && Exact(g) && CanConnect(g, c, s)
    ensures var input := IsInput(g.streams[s].iface);
            Joined(Connect(g, c, s, refused), i, o) <==>
            (i, o) in g.paths || (i, o) in Pairs(s, Side(g.connectors[c], !input), input)
  {
    var input := IsInput(g.streams[s].iface);
    var h := Connect(g, c, s, refused);
    if Joined(h, i, o) {
      var d :| Joins(h, d, i, o);
      if Joins(g, d, i, o) {
        assert Joined(g, i, o);
      } else {
        assert d == c;
        assert (i, o) == Pair(s, if input then o else i, input);
      }
    }
    if (i, o) in g.paths {
      var d :| Joins(g, d, i, o);
      assert Joins(h, d, i, o);
    }
    if (i, o) in Pairs(s, Side(g.connectors[c], !input), input) {
      assert Joins(h, c, i, o);
    }
  }

  /** Disconnecting keeps the paths exact exactly when the stream meets none of the streams
      across the connector elsewhere: the path to such a one is closed although they still share
      a connector. */
  lemma DisconnectExactIff(g: Graph, c: nat, s: nat)
    requires Inv(g) && Exact(g) && Connected(g, c, s)
    ensures var input := IsInput(g.streams[s].iface);
            Exact(Disconnect(g, c, s)) <==>
            forall t :: t in Side(g.connectors[c], !input) ==>
              var p := Pair(s, t, input); !MeetElsewhere(g, c, p.0, p.1)
  {
    var input := IsInput(g.streams[s].iface);
    var h, across := Disconnect(g, c, s), Side(g.connectors[c], !input);
    forall i: nat, o: nat
      ensures Joined(h, i, o) <==>
              if (i, o) in Pairs(s, across, input) then MeetElsewhere(g, c, i, o)
              else (i, o) in g.paths
    {
      DisconnectJoins(g, c, s, i, o);
    }
    if Exact(h) {
      forall t | t in across
        ensures var p := Pair(s, t, input); !MeetElsewhere(g, c, p.0, p.1)
      {
        var p := Pair(s, t, input);
        assert p in Pairs(s, across, input);
        assert (p.0, p.1) !in h.paths;
      }
    }
  }

  lemma DisconnectJoins(g: Graph, c: nat, s: nat, i: nat, o: nat)
    requires Inv(g) && Exact(g) && Connected(g, c, s)
    ensures var input := IsInput(g.streams[s].iface);
            Joined(Disconnect(g, c, s), i, o) <==>
            if (i, o) in Pairs(s, Side(g.connectors[c], !input), input)
            then MeetElsewhere(g, c, i, o) else (i, o) in g.paths
  {
    var input := IsInput(g.streams[s].iface);
    var h := Disconnect(g, c, s);
    if Joined(h, i, o) {
      var d :| Joins(h, d, i, o);
      assert Joins(g, d, i, o);
    }
    if (i, o) in Pairs(s, Side(g.connectors[c], !input), input) {
      if MeetElsewhere(g, c, i, o) {
        var d :| d != c && Joins(g, d, i, o);
        assert Joins(h, d, i, o);
      }
    } else if (i, o) in g.paths {
      var d :| Joins(g, d, i, o);
      assert Joins(h, d, i, o) by {
        assert Pair(s, if input then o else i, input) == (if input then (s, o) else (i, s));
      }
    }
  }

  /** Deleting a connector keeps the paths exact exactly when no two streams across it meet
      elsewhere. */
  lemma DeleteExactIff(g: Graph, c: nat)
    requires Inv(g) && Exact(g) && c in g.connectors
    ensures Exact(Delete(g, c)) <==>
            forall i, o :: Joins(g, c, i, o) ==> !MeetElsewhere(g, c, i, o)
  {
    var h := Delete(g, c);
    forall i: nat, o: nat
      ensures Joined(h, i, o) <==> MeetElsewhere(g, c, i, o)
    {
      if MeetElsewhere(g, c, i, o) {
        var d :| d != c && Joins(g, d, i, o);
        assert Joins(h, d, i, o);
      }
      if Joined(h, i, o) {
        var d :| Joins(h, d, i, o);
        assert d != c && Joins(g, d, i, o);
      }
    }
    forall i: nat, o: nat
      ensures (i, o) in h.paths <==> Joined(g, i, o) && !Joins(g, c, i, o)
    {
    }
    forall i: nat, o: nat
      ensures Joined(g, i, o) <==> Joins(g, c, i, o) || MeetElsewhere(g, c, i, o)
    {
    }
  }

  /** Destroying streams keeps the paths exact. */
  lemma DestroyedExact(g: Graph, gone: set<nat>)
    requires Exact(g)
    ensures Exact(Destroyed(g, gone))
  {
    var h := Destroyed(g, gone);
    forall i: nat, o: nat
      ensures Joined(h, i, o) <==> Joined(g, i, o) && i !in gone && o !in gone
    {
      if Joined(h, i, o) {
        var d :| Joins(h, d, i, o);
        assert Joins(g, d, i, o);
      }
      if Joined(g, i, o) && i !in gone && o !in gone {
        var d :| Joins(g, d, i, o);
        assert Joins(h, d, i, o);
      }
    }
  }

  lemma ExactFrame(g: Graph, h: Graph)
    requires Exact(g) && h.paths == g.paths && h.connectors == g.connectors
    ensures Exact(h)
  {
    forall i: nat, o: nat
      ensures Joined(h, i, o) <==> Joined(g, i, o)
    {
      if Joined(h, i, o) {
        var d :| Joins(h, d, i, o);
        assert Joins(g, d, i, o);
      }
      if Joined(g, i, o) {
        var d :| Joins(g, d, i, o);
        assert Joins(h, d, i, o);
      }
    }
  }

  lemma CreateExact(g: Graph, session: nat)
    requires Inv(g) && Exact(g)
    ensures Exact(Create(g, session))
  {
    var h := Create(g, session);
    forall i: nat, o: nat
      ensures Joined(h, i, o) <==> Joined(g, i, o)
    {
      if Joined(h, i, o) {
        var d :| Joins(h, d, i, o);
        assert Joins(g, d, i, o);
      }
      if Joined(g, i, o) {
        var d :| Joins(g, d, i, o);
        assert Joins(h, d, i, o);
      }
    }
  }

  /** No two streams share two connectors. */
  ghost predicate SingleMeetings(g: Graph) {
    forall c, d, i, o :: Joins(g, c, i, o) && Joins(g, d, i, o) ==> c == d
  }

  predicate NothingRefused(op: Op) {
    op.ConnectOp? ==> op.refused == {}
  }

  lemma StepExact(g: Graph, op: Op, h: Graph)
    requires Inv(g) && Exact(g) && SingleMeetings(g) && Next(g, op, h) && NothingRefused(op)
    ensures Exact(h)
  {
    match op {
      case OpenOp(i, session, granted) => ExactFrame(g, h);
      case CloseOp(s, session) => CloseExact(g, s, session);
      case SessionEnd(session) =>
        DestroyedExact(g, Orphans(g, session, g.streams.Keys));
        ExactFrame(Destroyed(g, Orphans(g, session, g.streams.Keys)), h);
      case CreateOp(session) => CreateExact(g, session);
      case DeleteOp(c) =>
        if c in g.connectors {
          DeleteExactIff(g, c);
        }
      case ConnectOp(c, s, refused) =>
        if CanConnect(g, c, s) {
          ConnectExactIff(g, c, s, refused);
        }
      case DisconnectOp(c, s) =>
        if Connected(g, c, s) {
          DisconnectOnceMet(g, c, s);
          DisconnectExactIff(g, c, s);
        }
    }
  }

  lemma DisconnectOnceMet(g: Graph, c: nat, s: nat)
    requires SingleMeetings(g) && Connected(g, c, s)
    ensures var input := IsInput(g.streams[s].iface);
            forall t :: t in Side(g.connectors[c], !input) ==>
              var p := Pair(s, t, input); !MeetElsewhere(g, c, p.0, p.1)
  {
    var input := IsInput(g.streams[s].iface);
    forall t | t in Side(g.connectors[c], !input)
      ensures var p := Pair(s, t, input); !MeetElsewhere(g, c, p.0, p.1)
    {
      var p := Pair(s, t, input);
      assert Joins(g, c, p.0, p.1);
    }
  }

  lemma CloseExact(g: Graph, s: nat, session: nat)
    requires Exact(g)
    ensures Exact(Close(g, s, session))
  {
    if s in g.streams && session in g.streams[s].sessions {
      var left := WithoutFirst(g.streams[s].sessions, session);
      if left == [] {
        DestroyedExact(g, {s});
      } else {
        ExactFrame(g, Keep(g, s, left));
      }
    }
  }

  /** In every run in which the platform refuses no path and no two streams ever share two
      connectors, the open paths are exactly the pairs that share a connector. */
  lemma {:induction false} PathsAreExact(states: seq<Graph>, ops: seq<Op>, k: nat)
    requires IsRun(states, ops) && k <= |ops|
    requires forall j :: 0 <= j < |ops| ==> NothingRefused(ops[j])
    requires forall j :: 0 <= j < |states| ==> SingleMeetings(states[j])
    ensures Exact(states[k])
  {
    if k > 0 {
      PathsAreExact(states, ops, k - 1);
      InvAlongRun(states, ops, k - 1);
      StepExact(states[k - 1], ops[k - 1], states[k]);
    }
  }

  /** A microphone 0 and a speaker 1, with two connectors that hold nothing yet. */
  ghost predicate Prepared(g: Graph) {
    && 0 in g.streams && g.streams[0].iface == CodecMic
    && 1 in g.streams && g.streams[1].iface == CodecSpeaker
    && 2 in g.connectors && g.connectors[2].ins == {} && g.connectors[2].outs == {}
    && 3 in g.connectors && g.connectors[3].ins == {} && g.connectors[3].outs == {}
  }

  lemma Prepare() returns (states: seq<Graph>, ops: seq<Op>)
    ensures IsRun(states, ops) && |ops| == 4 && Prepared(states[4])
    ensures forall k :: 0 <= k < |ops| ==> NothingRefused(ops[k])
  {
    var g0 := Graph(map[], map[], {}, 0);
    var g1 := OpenNew(g0, CodecMic, 0, true);
    var g2 := OpenNew(g1, CodecSpeaker, 0, true);
    var g3, g4 := Create(g2, 0), Create(Create(g2, 0), 0);
    assert forall s :: !IsOpen(g0, CodecMic, s);
    assert forall s :: !IsOpen(g1, CodecSpeaker, s);
    states := [g0, g1, g2, g3, g4];
    ops := [OpenOp(CodecMic, 0, true), OpenOp(CodecSpeaker, 0, true), CreateOp(0), CreateOp(0)];
  }

  /** Connecting both streams to connector c. */
  lemma ConnectBoth(g: Graph, c: nat)
    requires Sided(g) && c in g.connectors && g.connectors[c].ins == {} && g.connectors[c].outs == {}
    requires 0 in g.streams && g.streams[0].iface == CodecMic
    requires 1 in g.streams && g.streams[1].iface == CodecSpeaker
    ensures var h := Connect(Connect(g, c, 0, {}), c, 1, {});
            && Joins(h, c, 0, 1)
            && h.connectors.Keys == g.connectors.Keys
            && (forall d :: d in g.connectors && d != c ==> h.connectors[d] == g.connectors[d])
            && h.streams.Keys == g.streams.Keys
            && h.streams[0].iface == CodecMic && h.streams[1].iface == CodecSpeaker
  {
  }

  /** The condition is needed: a run from start-up, in which the platform refuses nothing, leaves
      a microphone and a speaker that share two connectors without a path when they are
      disconnected at one of them. */
  lemma SharedTwiceLosesPath() returns (states: seq<Graph>, ops: seq<Op>)
    ensures IsRun(states, ops) && forall k :: 0 <= k < |ops| ==> NothingRefused(ops[k])
    ensures var g := states[|ops|]; Joined(g, 0, 1) && (0, 1) !in g.paths
  {
    states, ops := Prepare();
    states, ops := MeetAt(states, ops, 2);
    var c2 := states[|ops|].connectors[2];
    states, ops := MeetAt(states, ops, 3);
    var g := states[|ops|];
    assert g.connectors[2] == c2 && Joins(g, 2, 0, 1) && Joins(g, 3, 0, 1);
    var h := Disconnect(g, 2, 0);
    assert Connected(g, 2, 0) && Pair(0, 1, true) == (0, 1);
    assert Joins(h, 3, 0, 1);
    RunGoesOn(states, ops, DisconnectOp(2, 0), h);
    states, ops := states + [h], ops + [DisconnectOp(2, 0)];
  }

  /** The run goes on with both streams connected at c. */
  lemma MeetAt(before: seq<Graph>, done: seq<Op>, c: nat) returns (states: seq<Graph>, ops: seq<Op>)
    requires IsRun(before, done) && forall k :: 0 <= k < |done| ==> NothingRefused(done[k])
    requires var g := before[|done|];
             && c in g.connectors && g.connectors[c].ins == {} && g.connectors[c].outs == {}
             && 0 in g.streams && g.streams[0].iface == CodecMic
             && 1 in g.streams && g.streams[1].iface == CodecSpeaker
    ensures IsRun(states, ops) && forall k :: 0 <= k < |ops| ==> NothingRefused(ops[k])
    ensures var g, h := before[|done|], states[|ops|];
            && Joins(h, c, 0, 1) && h.connectors.Keys == g.connectors.Keys
            && (forall d :: d in g.connectors && d != c ==> h.connectors[d] == g.connectors[d])
            && h.streams.Keys == g.streams.Keys
            && h.streams[0].iface == CodecMic && h.streams[1].iface == CodecSpeaker
  {
    var g := before[|done|];
    InvAlongRun(before, done, |done|);
    var g1 := Connect(g, c, 0, {});
    var g2 := Connect(g1, c, 1, {});
    ConnectBoth(g, c);
    RunGoesOn(before, done, ConnectOp(c, 0, {}), g1);
    RunGoesOn(before + [g1], done + [ConnectOp(c, 0, {})], ConnectOp(c, 1, {}), g2);
    states := before + [g1] + [g2];
    ops := done + [ConnectOp(c, 0, {})] + [ConnectOp(c, 1, {})];
    StillNothingRefused(done, ConnectOp(c, 0, {}));
    StillNothingRefused(done + [ConnectOp(c, 0, {})], ConnectOp(c, 1, {}));
  }

  lemma StillNothingRefused(ops: seq<Op>, op: Op)
    requires (forall k :: 0 <= k < |ops| ==> NothingRefused(ops[k])) && NothingRefused(op)
    ensures forall k :: 0 <= k < |ops + [op]| ==> NothingRefused((ops + [op])[k])
  {
  }
}
