/**
  The routing graph of the audio service (components/audio/le_audio.c) as a value: streams held
  open by client sessions, connectors with input and output streams, and the audio paths set in
  the DSP.
 */
module AudioGraph {
  import opened Basics

  datatype Interface =
    | CodecMic | CodecSpeaker | UsbRx | UsbTx | ModemVoiceRx | ModemVoiceTx
    | PcmRx | PcmTx | I2sRx | I2sTx | FilePlay | FileCapture

  predicate IsInput(i: Interface) {
    !(i.CodecSpeaker? || i.UsbTx? || i.ModemVoiceTx? || i.PcmTx? || i.I2sTx? || i.FileCapture?)
  }

  /** Files may be played and captured by several streams at once. */
  predicate Physical(i: Interface) {
    !(i.FilePlay? || i.FileCapture?)
  }

  /** The platform may refuse to set these up. */
  predicate NeedsSetup(i: Interface) {
    i.PcmRx? || i.PcmTx? || i.I2sRx? || i.I2sTx?
  }

  datatype Stream = Stream(iface: Interface, links: set<nat>, sessions: seq<nat>, refs: nat)

  datatype Connector = Connector(ins: set<nat>, outs: set<nat>, session: nat)

  datatype Graph = Graph(
    streams: map<nat, Stream>,
    connectors: map<nat, Connector>,
    paths: set<(nat, nat)>,          // input stream, output stream
    next: nat)                       // references below it have been given out

  // ---- operations --------------------------------------------------------------------------

  function Side(k: Connector, input: bool): set<nat> {
    if input then k.ins else k.outs
  }

  function WithSide(k: Connector, input: bool, side: set<nat>): Connector {
    if input then k.(ins := side) else k.(outs := side)
  }

  function Pair(s: nat, t: nat, input: bool): (nat, nat) {
    if input then (s, t) else (t, s)
  }

  function Pairs(s: nat, others: set<nat>, input: bool): set<(nat, nat)> {
    set t | t in others :: Pair(s, t, input)
  }

  /** `le_audio_Connect` does something: both references are valid and the stream is not yet on
      its side of the connector. */
  predicate CanConnect(g: Graph, c: nat, s: nat) {
    c in g.connectors && s in g.streams
    && s !in Side(g.connectors[c], IsInput(g.streams[s].iface))
  }

  /** The stream is put on its side of the connector, and the connector on its list. */
  function Attach(g: Graph, c: nat, s: nat): Graph
    requires c in g.connectors && s in g.streams
  {
    var k, input := g.connectors[c], IsInput(g.streams[s].iface);
    g.(connectors := g.connectors[c := WithSide(k, input, Side(k, input) + {s})],
       streams := g.streams[s := g.streams[s].(links := g.streams[s].links + {c})])
  }

  /** `le_audio_Connect`: the platform sets a path to every stream of the other side, but for
      those it refuses. */
  function Connect(g: Graph, c: nat, s: nat, refused: set<(nat, nat)>): Graph {
    if !CanConnect(g, c, s) then g
    else
      var k, input := g.connectors[c], IsInput(g.streams[s].iface);
      Attach(g, c, s).(paths := g.paths + (Pairs(s, Side(k, !input), input) - refused))
  }

  predicate Connected(g: Graph, c: nat, s: nat) {
    c in g.connectors && s in g.streams
    && s in Side(g.connectors[c], IsInput(g.streams[s].iface))
  }

  /** `le_audio_Disconnect`. */
  function Disconnect(g: Graph, c: nat, s: nat): Graph {
    if !Connected(g, c, s) then g
    else
      var k, input := g.connectors[c], IsInput(g.streams[s].iface);
      g.(connectors := g.connectors[c := WithSide(k, input, Side(k, input) - {s})],
         streams := g.streams[s := g.streams[s].(links := g.streams[s].links - {c})],
         paths := g.paths - Pairs(s, Side(k, !input), input))
  }

  /** `le_audio_CreateConnector`. */
  function Create(g: Graph, session: nat): Graph {
    g.(connectors := g.connectors[g.next := Connector({}, {}, session)], next := g.next + 1)
  }

  /** A stream that has lost a link. */
  function Unlinked(st: Stream, c: nat): Stream {
    st.(links := st.links - {c})
  }

  function Crossing(k: Connector): set<(nat, nat)> {
    set i, o | i in k.ins && o in k.outs :: (i, o)
  }

  /** `le_audio_DeleteConnector`. */
  function Delete(g: Graph, c: nat): Graph {
    if c !in g.connectors then g
    else
      var k := g.connectors[c];
      g.(connectors := g.connectors - {c},
         streams := map s | s in g.streams ::
           if s in k.ins || s in k.outs then Unlinked(g.streams[s], c) else g.streams[s],
         paths := g.paths - Crossing(k))
  }

  /** A live stream on the interface. */
  predicate IsOpen(g: Graph, i: Interface, s: nat) {
    s in g.streams && g.streams[s].iface == i
  }

  /** `OpenAudioStream` on a physical interface that is open: one more reference. */
  function Reopen(g: Graph, s: nat, session: nat): Graph
    requires s in g.streams
  {
    var st := g.streams[s];
    g.(streams := g.streams[s := st.(sessions := st.sessions + [session], refs := st.refs + 1)])
  }

  /** `OpenAudioStream` of a new stream, unless the platform refuses the interface. */
  function OpenNew(g: Graph, i: Interface, session: nat, granted: bool): Graph {
    if NeedsSetup(i) && !granted then g
    else g.(streams := g.streams[g.next := Stream(i, {}, [session], 1)], next := g.next + 1)
  }

  function Apart(k: Connector, gone: set<nat>): Connector {
    k.(ins := k.ins - gone, outs := k.outs - gone)
  }

  /** Streams are gone: from the map, from every connector, and with them their paths. */
  function Destroyed(g: Graph, gone: set<nat>): Graph {
    g.(streams := g.streams - gone,
       connectors := map c | c in g.connectors :: Apart(g.connectors[c], gone),
       paths := set p | p in g.paths && p.0 !in gone && p.1 !in gone)
  }

  /** A stream keeps the given sessions, and is destroyed when there are none. */
  function Keep(g: Graph, s: nat, left: seq<nat>): Graph
    requires s in g.streams
  {
    if left == [] then Destroyed(g, {s})
    else g.(streams := g.streams[s := g.streams[s].(sessions := left, refs := |left|)])
  }

  function WithoutFirst(list: seq<nat>, x: nat): seq<nat> {
    if list == [] then []
    else if list[0] == x then list[1..]
    else [list[0]] + WithoutFirst(list[1..], x)
  }

  /** `ReleaseAudioStream`: one reference of the session, or all of them. */
  function Release(g: Graph, s: nat, session: nat, all: bool): Graph
    requires s in g.streams
  {
    var list := g.streams[s].sessions;
    if session !in list then g
    else Keep(g, s, if all then Without(list, session) else WithoutFirst(list, session))
  }

  /** `le_audio_Close`. */
  function Close(g: Graph, s: nat, session: nat): Graph {
    if s !in g.streams then g else Release(g, s, session, false)
  }

  /** The streams among `done` that only the session held. */
  function Orphans(g: Graph, session: nat, done: set<nat>): set<nat> {
    set s | s in g.streams && s in done && Without(g.streams[s].sessions, session) == []
  }

  function Left(st: Stream, session: nat): Stream {
    var left := Without(st.sessions, session);
    st.(sessions := left, refs := |left|)
  }

  /** A session has ended for the streams among `done`. */
  function Ended(g: Graph, session: nat, done: set<nat>): Graph {
    var g' := Destroyed(g, Orphans(g, session, done));
    g'.(streams := map s | s in g'.streams ::
          if s in done then Left(g.streams[s], session) else g.streams[s])
  }

  // ---- the invariant -----------------------------------------------------------------------

  /** A connector is in a stream's list exactly when the stream is on its side of it. */
  ghost predicate TwoWay(g: Graph) {
    forall s, c :: s in g.streams && c in g.connectors ==>
      (c in g.streams[s].links
       <==> s in Side(g.connectors[c], IsInput(g.streams[s].iface)))
  }

  /** Lists hold only live entries, each on the side its direction demands. */
  ghost predicate Sided(g: Graph) {
    && (forall c, s :: c in g.connectors && s in g.connectors[c].ins ==>
          s in g.streams && IsInput(g.streams[s].iface))
    && (forall c, s :: c in g.connectors && s in g.connectors[c].outs ==>
          s in g.streams && !IsInput(g.streams[s].iface))
    && (forall s, c :: s in g.streams && c in g.streams[s].links ==> c in g.connectors)
  }

  ghost predicate Joins(g: Graph, c: nat, i: nat, o: nat) {
    c in g.connectors && i in g.connectors[c].ins && o in g.connectors[c].outs
  }

  ghost predicate Joined(g: Graph, i: nat, o: nat) {
    exists c :: Joins(g, c, i, o)
  }

  /** Every open path joins two streams that share a connector. */
  ghost predicate PathsJoined(g: Graph) {
    forall i, o :: (i, o) in g.paths ==> Joined(g, i, o)
  }

  /** Reference counts are the numbers of session nodes, and never zero. */
  ghost predicate Counted(g: Graph) {
    forall s :: s in g.streams ==> g.streams[s].refs == |g.streams[s].sessions| > 0
  }

  /** A physical interface has at most one stream. */
  ghost predicate OnePerInterface(g: Graph) {
    forall s, t ::
      (s in g.streams && t in g.streams && Physical(g.streams[s].iface)
       && g.streams[s].iface == g.streams[t].iface) ==> s == t
  }

  ghost predicate Below(g: Graph) {
    && (forall s :: s in g.streams ==> s < g.next)
    && (forall c :: c in g.connectors ==> c < g.next)
  }

  ghost predicate Inv(g: Graph) {
    && TwoWay(g) && Sided(g) && PathsJoined(g)
    && Counted(g) && OnePerInterface(g) && Below(g)
  }

  /** Graphs that satisfy the invariant. */
  type SoundGraph = g: Graph | Inv(g) witness Graph(map[], map[], {}, 0)

  // ---- connecting --------------------------------------------------------------------------

  lemma ConnectPaths(g: Graph, c: nat, s: nat, refused: set<(nat, nat)>)
    requires PathsJoined(g) && CanConnect(g, c, s)
    ensures PathsJoined(Connect(g, c, s, refused))
  {
    var h := Connect(g, c, s, refused);
    forall i, o | (i, o) in h.paths
      ensures Joined(h, i, o)
    {
      if (i, o) in g.paths {
        var k :| Joins(g, k, i, o);
        assert Joins(h, k, i, o);
      } else {
        assert Joins(h, c, i, o);
      }
    }
  }

  lemma ConnectLinks(g: Graph, c: nat, s: nat, refused: set<(nat, nat)>)
    requires TwoWay(g) && Sided(g) && CanConnect(g, c, s)
    ensures TwoWay(Connect(g, c, s, refused)) && Sided(Connect(g, c, s, refused))
  {
  }

  lemma ConnectKeeps(g: Graph, c: nat, s: nat, refused: set<(nat, nat)>)
    requires Inv(g)
    ensures Inv(Connect(g, c, s, refused))
  {
    if CanConnect(g, c, s) {
      ConnectPaths(g, c, s, refused);
      ConnectLinks(g, c, s, refused);
    }
  }

  lemma DisconnectPaths(g: Graph, c: nat, s: nat)
    requires Sided(g) && PathsJoined(g) && Connected(g, c, s)
    ensures PathsJoined(Disconnect(g, c, s))
  {
    var h := Disconnect(g, c, s);
    var input := IsInput(g.streams[s].iface);
    forall i, o | (i, o) in h.paths
      ensures Joined(h, i, o)
    {
      var k :| Joins(g, k, i, o);
      assert Joins(h, k, i, o) by {
        assert Pair(s, if input then o else i, input) == (if input then (s, o) else (i, s));
      }
    }
  }

  lemma DisconnectLinks(g: Graph, c: nat, s: nat)
    requires TwoWay(g) && Sided(g) && Connected(g, c, s)
    ensures TwoWay(Disconnect(g, c, s)) && Sided(Disconnect(g, c, s))
  {
  }

  lemma DisconnectKeeps(g: Graph, c: nat, s: nat)
    requires Inv(g)
    ensures Inv(Disconnect(g, c, s))
  {
    if Connected(g, c, s) {
      DisconnectPaths(g, c, s);
      DisconnectLinks(g, c, s);
    }
  }

  lemma CreateTwoWay(g: Graph, session: nat)
    requires TwoWay(g) && Sided(g) && Below(g)
    ensures TwoWay(Create(g, session))
  {
    var h := Create(g, session);
    forall s, c | s in h.streams && c in h.connectors
      ensures c in h.streams[s].links
              <==> s in Side(h.connectors[c], IsInput(h.streams[s].iface))
    {
      if c == g.next {
        assert c !in g.connectors;
        assert c !in g.streams[s].links;
      } else {
        assert c in g.connectors && h.connectors[c] == g.connectors[c];
      }
    }
  }

  lemma CreateSided(g: Graph, session: nat)
    requires Sided(g) && Below(g)
    ensures Sided(Create(g, session))
  {
    var h := Create(g, session);
    forall c, s | c in h.connectors && s in h.connectors[c].ins
      ensures s in h.streams && IsInput(h.streams[s].iface)
    {
      assert c in g.connectors && h.connectors[c] == g.connectors[c];
    }
    forall c, s | c in h.connectors && s in h.connectors[c].outs
      ensures s in h.streams && !IsInput(h.streams[s].iface)
    {
      assert c in g.connectors && h.connectors[c] == g.connectors[c];
    }
  }

  lemma CreateKeeps(g: Graph, session: nat)
    requires Inv(g)
    ensures Inv(Create(g, session))
  {
    CreateTwoWay(g, session);
    CreateSided(g, session);
    var h := Create(g, session);
    forall i, o | (i, o) in h.paths
      ensures Joined(h, i, o)
    {
      var k :| Joins(g, k, i, o);
      assert Joins(h, k, i, o);
    }
  }

  lemma DeletePaths(g: Graph, c: nat)
    requires PathsJoined(g) && c in g.connectors
    ensures PathsJoined(Delete(g, c))
  {
    var h := Delete(g, c);
    forall i, o | (i, o) in h.paths
      ensures Joined(h, i, o)
    {
      var k :| Joins(g, k, i, o);
      assert k != c;
      assert Joins(h, k, i, o);
    }
  }

  lemma DeleteLinks(g: Graph, c: nat)
    requires TwoWay(g) && Sided(g) && c in g.connectors
    ensures TwoWay(Delete(g, c)) && Sided(Delete(g, c))
  {
  }

  lemma DeleteKeeps(g: Graph, c: nat)
    requires Inv(g)
    ensures Inv(Delete(g, c))
  {
    if c in g.connectors {
      DeletePaths(g, c);
      DeleteLinks(g, c);
    }
  }

  // ---- opening and closing -----------------------------------------------------------------

  /** The same streams and connectors, linked in the same way. */
  ghost predicate LinkedAlike(g: Graph, h: Graph) {
    && h.connectors == g.connectors && h.paths == g.paths && h.next == g.next
    && h.streams.Keys == g.streams.Keys
    && forall s :: s in g.streams ==>
         h.streams[s].iface == g.streams[s].iface && h.streams[s].links == g.streams[s].links
  }

  lemma LinksFrame(g: Graph, h: Graph)
    requires Inv(g) && LinkedAlike(g, h) && Counted(h)
    ensures Inv(h)
  {
    PathsFrame(g, h);
    LinksFrameTwoWay(g, h);
    LinksFrameSided(g, h);
  }

  lemma LinksFrameTwoWay(g: Graph, h: Graph)
    requires TwoWay(g) && LinkedAlike(g, h)
    ensures TwoWay(h)
  {
  }

  lemma LinksFrameSided(g: Graph, h: Graph)
    requires Sided(g) && LinkedAlike(g, h)
    ensures Sided(h)
  {
    forall s, c | s in h.streams && c in h.streams[s].links
      ensures c in h.connectors
    {
      assert c in g.streams[s].links;
    }
    forall c, s | c in h.connectors && s in h.connectors[c].ins
      ensures s in h.streams && IsInput(h.streams[s].iface)
    {
      assert s in g.connectors[c].ins;
    }
    forall c, s | c in h.connectors && s in h.connectors[c].outs
      ensures s in h.streams && !IsInput(h.streams[s].iface)
    {
      assert s in g.connectors[c].outs;
    }
  }

  /** Sessions do not matter for the links. */
  lemma LinksStay(g: Graph, s: nat, st: Stream)
    requires TwoWay(g) && Sided(g) && PathsJoined(g) && s in g.streams
    requires st.iface == g.streams[s].iface && st.links == g.streams[s].links
    ensures var h := g.(streams := g.streams[s := st]); TwoWay(h) && Sided(h) && PathsJoined(h)
  {
    var h := g.(streams := g.streams[s := st]);
    LinksFrameTwoWay(g, h);
    LinksFrameSided(g, h);
    PathsFrame(g, h);
  }

  lemma ReopenKeeps(g: Graph, s: nat, session: nat)
    requires Inv(g) && s in g.streams
    ensures Inv(Reopen(g, s, session))
  {
    LinksFrame(g, Reopen(g, s, session));
  }

  lemma OpenNewLinks(g: Graph, i: Interface, session: nat)
    requires TwoWay(g) && Sided(g) && Below(g)
    ensures TwoWay(OpenNew(g, i, session, true)) && Sided(OpenNew(g, i, session, true))
  {
    var h := OpenNew(g, i, session, true);
    forall s | s in g.streams
      ensures s in h.streams && h.streams[s] == g.streams[s]
    {
    }
    assert h.connectors == g.connectors;
    SidedGrows(g, h);
    forall s, c | s in h.streams && c in h.connectors
      ensures c in h.streams[s].links
              <==> s in Side(h.connectors[c], IsInput(h.streams[s].iface))
    {
      assert s in g.streams || s == g.next;
    }
  }

  /** More streams, none of them linked. */
  lemma SidedGrows(g: Graph, h: Graph)
    requires Sided(g) && h.connectors == g.connectors
    requires forall s :: s in g.streams ==> s in h.streams && h.streams[s] == g.streams[s]
    requires forall s :: s in h.streams && s !in g.streams ==> h.streams[s].links == {}
    ensures Sided(h)
  {
  }

  lemma OpenNewAlone(g: Graph, i: Interface, session: nat)
    requires OnePerInterface(g) && Below(g) && (Physical(i) ==> forall s :: !IsOpen(g, i, s))
    ensures OnePerInterface(OpenNew(g, i, session, true))
  {
    forall s | s in g.streams && Physical(i)
      ensures g.streams[s].iface != i
    {
      assert !IsOpen(g, i, s);
    }
  }

  lemma OpenNewKeeps(g: Graph, i: Interface, session: nat, granted: bool)
    requires Inv(g) && (Physical(i) ==> forall s :: !IsOpen(g, i, s))
    ensures Inv(OpenNew(g, i, session, granted))
  {
    PathsFrame(g, OpenNew(g, i, session, granted));
    OpenNewLinks(g, i, session);
    OpenNewAlone(g, i, session);
  }

  /** Paths depend on connectors only. */
  lemma PathsFrame(g: Graph, h: Graph)
    requires PathsJoined(g) && h.paths <= g.paths && h.connectors == g.connectors
    ensures PathsJoined(h)
  {
    forall i, o | (i, o) in h.paths
      ensures Joined(h, i, o)
    {
      var k :| Joins(g, k, i, o);
      assert Joins(h, k, i, o);
    }
  }

  lemma DestroyedPaths(g: Graph, gone: set<nat>)
    requires PathsJoined(g)
    ensures PathsJoined(Destroyed(g, gone))
  {
    var h := Destroyed(g, gone);
    forall i, o | (i, o) in h.paths
      ensures Joined(h, i, o)
    {
      var k :| Joins(g, k, i, o);
      assert Joins(h, k, i, o);
    }
  }

  lemma DestroyedTwoWay(g: Graph, gone: set<nat>)
    requires TwoWay(g)
    ensures TwoWay(Destroyed(g, gone))
  {
  }

  lemma DestroyedSided(g: Graph, gone: set<nat>)
    requires Sided(g)
    ensures Sided(Destroyed(g, gone))
  {
  }

  lemma DestroyedKeeps(g: Graph, gone: set<nat>)
    requires Inv(g)
    ensures Inv(Destroyed(g, gone))
  {
    DestroyedPaths(g, gone);
    DestroyedTwoWay(g, gone);
    DestroyedSided(g, gone);
  }

  lemma KeepKeeps(g: Graph, s: nat, left: seq<nat>)
    requires Inv(g) && s in g.streams
    ensures Inv(Keep(g, s, left))
  {
    if left == [] {
      DestroyedKeeps(g, {s});
    } else {
      LinksFrame(g, Keep(g, s, left));
    }
  }

  lemma {:induction false} WithoutFirstCounts(list: seq<nat>, x: nat)
    requires x in list
    ensures multiset(list) == multiset(WithoutFirst(list, x)) + multiset{x}
  {
    assert list == [list[0]] + list[1..];
    if list[0] != x {
      WithoutFirstCounts(list[1..], x);
    }
  }

  // ---- a session ends ----------------------------------------------------------------------

  /** Ending a session for one more stream is releasing all its references there. */
  lemma EndedStep(g: Graph, session: nat, done: set<nat>, s: nat)
    requires s in g.streams && s !in done && g.streams[s].sessions != []
    requires Counted(g)
    ensures s in Ended(g, session, done).streams
    ensures Release(Ended(g, session, done), s, session, true) == Ended(g, session, done + {s})
  {
    var h, e := Ended(g, session, done), Ended(g, session, done + {s});
    var list := g.streams[s].sessions;
    WithoutMembers(list, session);
    var dead := Orphans(g, session, done);
    assert h.streams[s] == g.streams[s];
    if session !in list {
      assert Orphans(g, session, done + {s}) == dead;
      assert h.streams == e.streams;
    } else if Without(list, session) == [] {
      assert Orphans(g, session, done + {s}) == dead + {s};
      DestroyedTwice(g, h, dead, s);
      assert Destroyed(h, {s}).streams == e.streams;
    } else {
      assert Orphans(g, session, done + {s}) == dead;
      assert Release(h, s, session, true).streams == e.streams;
    }
  }

  lemma DestroyedTwice(g: Graph, h: Graph, dead: set<nat>, s: nat)
    requires h.connectors == Destroyed(g, dead).connectors && h.paths == Destroyed(g, dead).paths
    ensures Destroyed(h, {s}).connectors == Destroyed(g, dead + {s}).connectors
    ensures Destroyed(h, {s}).paths == Destroyed(g, dead + {s}).paths
  {
    forall c | c in g.connectors
      ensures Apart(Apart(g.connectors[c], dead), {s}) == Apart(g.connectors[c], dead + {s})
    {
      var k := g.connectors[c];
      assert k.ins - dead - {s} == k.ins - (dead + {s});
      assert k.outs - dead - {s} == k.outs - (dead + {s});
    }
  }

  lemma EndedKeeps(g: Graph, session: nat, done: set<nat>)
    requires Inv(g)
    ensures Inv(Ended(g, session, done))
  {
    var dead := Orphans(g, session, done);
    DestroyedKeeps(g, dead);
    LinksFrame(Destroyed(g, dead), Ended(g, session, done));
  }

  /** Closing a session leaves no node of it on any stream.  A stream survives exactly when
      another session holds it, and keeps the nodes of the others in order. */
  lemma SessionEnds(g: Graph, session: nat, s: nat)
    requires Inv(g)
    ensures var h := Ended(g, session, g.streams.Keys);
            && Inv(h)
            && (s in h.streams <==>
                  s in g.streams && exists x :: x in g.streams[s].sessions && x != session)
            && (s in h.streams ==>
                  && session !in h.streams[s].sessions
                  && h.streams[s].sessions == Without(g.streams[s].sessions, session)
                  && h.streams[s].links == g.streams[s].links)
  {
    EndedKeeps(g, session, g.streams.Keys);
    if s in g.streams {
      var list := g.streams[s].sessions;
      WithoutMembers(list, session);
      var left := Without(list, session);
      if left != [] {
        assert left[0] in left;
      }
    }
  }

  // ---- deleting a connector step by step ---------------------------------------------------

  /** The streams when some have lost the connector. */
  function UnlinkedAll(streams: map<nat, Stream>, members: set<nat>, c: nat): map<nat, Stream> {
    map s | s in streams :: if s in members then Unlinked(streams[s], c) else streams[s]
  }

  lemma UnlinkedStep(streams: map<nat, Stream>, done: set<nat>, s: nat, c: nat)
    requires s in streams && s !in done
    ensures UnlinkedAll(streams, done, c)[s := Unlinked(streams[s], c)]
            == UnlinkedAll(streams, done + {s}, c)
  {
  }

  /** Closing the crossing paths, unlinking both sides and dropping the connector delete it. */
  lemma DeleteInSteps(g: Graph, c: nat, paths: set<(nat, nat)>)
    requires c in g.connectors
    requires var k := g.connectors[c];
             forall p :: p in paths <==> p in g.paths && !(p.0 in k.ins && p.1 in k.outs)
    ensures var k := g.connectors[c];
            Graph(UnlinkedAll(UnlinkedAll(g.streams, k.ins, c), k.outs, c),
                  g.connectors - {c}, paths, g.next) == Delete(g, c)
  {
    var k := g.connectors[c];
    var both := UnlinkedAll(UnlinkedAll(g.streams, k.ins, c), k.outs, c);
    forall s | s in g.streams
      ensures both[s] == Delete(g, c).streams[s]
    {
      assert Unlinked(Unlinked(g.streams[s], c), c) == Unlinked(g.streams[s], c);
    }
    assert both == Delete(g, c).streams;
    assert forall p :: p in Crossing(k) <==> p.0 in k.ins && p.1 in k.outs;
    assert paths == Delete(g, c).paths;
  }

  // ---- detaching a stream from its connectors ----------------------------------------------

  /** The stream has been disconnected from the connectors among `done`. */
  function Detached(g: Graph, s: nat, done: set<nat>): Graph
    requires s in g.streams
  {
    var input := IsInput(g.streams[s].iface);
    g.(connectors := map c | c in g.connectors ::
         if c in done then WithSide(g.connectors[c], input, Side(g.connectors[c], input) - {s})
         else g.connectors[c],
       streams := g.streams[s := g.streams[s].(links := g.streams[s].links - done)],
       paths := set p | p in g.paths && !Reaches(g, s, done, p))
  }

  /** A path from the stream to one across a connector among `done`. */
  predicate Reaches(g: Graph, s: nat, done: set<nat>, p: (nat, nat))
    requires s in g.streams
  {
    var input := IsInput(g.streams[s].iface);
    exists c :: c in done && c in g.connectors && p in Pairs(s, Side(g.connectors[c], !input), input)
  }

  lemma DetachedNone(g: Graph, s: nat)
    requires s in g.streams
    ensures Detached(g, s, {}) == g
  {
    assert g.streams[s].links - {} == g.streams[s].links;
    assert Detached(g, s, {}).connectors == g.connectors;
  }

  lemma DetachedPaths(g: Graph, s: nat, done: set<nat>, c: nat)
    requires s in g.streams && c in g.connectors && c !in done
    ensures var input := IsInput(g.streams[s].iface);
            Detached(g, s, done).paths - Pairs(s, Side(g.connectors[c], !input), input)
            == Detached(g, s, done + {c}).paths
  {
    var input := IsInput(g.streams[s].iface);
    var across := Pairs(s, Side(g.connectors[c], !input), input);
    forall p | p in g.paths
      ensures Reaches(g, s, done + {c}, p) <==> Reaches(g, s, done, p) || p in across
    {
      if Reaches(g, s, done + {c}, p) && p !in across {
        var d :| d in done + {c} && d in g.connectors
                 && p in Pairs(s, Side(g.connectors[d], !input), input);
        assert d in done;
      }
    }
  }

  /** One turn of `DisconnectStreamFromAllConnectors`. */
  lemma DetachedStep(g: Graph, s: nat, done: set<nat>, c: nat)
    requires TwoWay(g) && Sided(g) && s in g.streams && c in g.streams[s].links && c !in done
    ensures Disconnect(Detached(g, s, done), c, s) == Detached(g, s, done + {c})
  {
    var h := Detached(g, s, done);
    DetachedPaths(g, s, done, c);
    assert h.connectors[c] == g.connectors[c];
    assert Connected(h, c, s);
    assert g.streams[s].links - done - {c} == g.streams[s].links - (done + {c});
    assert Disconnect(h, c, s).connectors == Detached(g, s, done + {c}).connectors;
  }

  /** Disconnected from all its connectors, a stream has left every list, and none of its paths
      is open. */
  lemma DetachedFromAll(g: Graph, s: nat)
    requires TwoWay(g) && Sided(g) && PathsJoined(g) && s in g.streams
    ensures var h := Detached(g, s, g.streams[s].links);
            h.(streams := h.streams - {s}) == Destroyed(g, {s})
  {
    var h, e := Detached(g, s, g.streams[s].links), Destroyed(g, {s});
    var links, input := g.streams[s].links, IsInput(g.streams[s].iface);
    forall c | c in g.connectors
      ensures h.connectors[c] == e.connectors[c]
    {
      assert s !in Side(g.connectors[c], !input);
      assert Side(g.connectors[c], !input) - {s} == Side(g.connectors[c], !input);
      if c !in links {
        assert Side(g.connectors[c], input) - {s} == Side(g.connectors[c], input);
      }
    }
    forall p | p in g.paths
      ensures Reaches(g, s, links, p) <==> p.0 == s || p.1 == s
    {
      PathsOfStream(g, s, p.0, p.1);
      assert p == (p.0, p.1);
    }
    assert h.streams - {s} == e.streams;
  }

  lemma PathsOfStream(g: Graph, s: nat, i: nat, o: nat)
    requires TwoWay(g) && Sided(g) && PathsJoined(g) && s in g.streams && (i, o) in g.paths
    ensures Reaches(g, s, g.streams[s].links, (i, o)) <==> i == s || o == s
  {
    var input := IsInput(g.streams[s].iface);
    var c :| Joins(g, c, i, o);
    if i == s || o == s {
      assert c in g.streams[s].links;
      assert (i, o) == Pair(s, if input then o else i, input);
      assert (i, o) in Pairs(s, Side(g.connectors[c], !input), input);
    }
  }

  // ---- releasing step by step --------------------------------------------------------------

  /** Keeping all sessions changes nothing; of two releases the last counts. */
  lemma KeepTwice(g: Graph, s: nat, a: seq<nat>, b: seq<nat>)
    requires s in g.streams && Counted(g) && a != []
    ensures Keep(g, s, g.streams[s].sessions) == g
    ensures Keep(Keep(g, s, a), s, b) == Keep(g, s, b)
  {
    var h := Keep(g, s, a);
    assert h.streams - {s} == g.streams - {s};
    assert Destroyed(h, {s}) == Destroyed(g, {s});
  }

  /** What a stream's sessions were does not matter once it is gone. */
  lemma DestroyedForgets(g: Graph, s: nat, st: Stream)
    ensures Destroyed(g.(streams := g.streams[s := st]), {s}) == Destroyed(g, {s})
  {
    assert g.streams[s := st] - {s} == g.streams - {s};
  }

  lemma {:induction false} WithoutAppend(a: seq<nat>, b: seq<nat>, x: nat)
    ensures Without(a + b, x) == Without(a, x) + Without(b, x)
  {
    if a == [] {
      assert a + b == b;
    } else {
      WithoutAppend(a[1..], b, x);
      assert (a + b)[1..] == a[1..] + b && (a + b)[0] == a[0];
      if a[0] != x {
        calc {
          Without(a + b, x);
          [a[0]] + Without(a[1..] + b, x);
          [a[0]] + (Without(a[1..], x) + Without(b, x));
          ([a[0]] + Without(a[1..], x)) + Without(b, x);
        }
      }
    }
  }

  /** The release loop looks at node j: the nodes before it have been served. */
  lemma WithoutNext(list: seq<nat>, j: nat, x: nat)
    requires j < |list|
    ensures Without(list[..j + 1], x)
            == Without(list[..j], x) + (if list[j] == x then [] else [list[j]])
  {
    assert list[..j + 1] == list[..j] + [list[j]];
    WithoutAppend(list[..j], [list[j]], x);
    assert Without([list[j]], x) == if list[j] == x then [] else [list[j]];
  }

  lemma {:induction false} WithoutFirstAt(list: seq<nat>, j: nat, x: nat)
    requires j < |list| && list[j] == x && x !in list[..j]
    ensures WithoutFirst(list, x) == list[..j] + list[j + 1..]
  {
    if j > 0 {
      assert list[0] == list[..j][0];
      assert list[1..][..j - 1] == list[..j][1..];
      WithoutFirstAt(list[1..], j - 1, x);
      assert list[..j] == [list[0]] + list[1..][..j - 1];
      assert list[1..][j..] == list[j + 1..];
    } else {
      assert list[..j] + list[j + 1..] == list[1..];
    }
  }

  /** A stream for which the session has ended already is left alone. */
  lemma EndedAgain(g: Graph, session: nat, done: set<nat>, s: nat)
    requires s in done && s in Ended(g, session, done).streams
    ensures Release(Ended(g, session, done), s, session, true) == Ended(g, session, done)
  {
    WithoutMembers(g.streams[s].sessions, session);
  }

  /** The sessions of a stream when the release loop has come to node j. */
  function Served(list: seq<nat>, j: nat, x: nat): seq<nat>
    requires j <= |list|
  {
    Without(list[..j], x) + list[j..]
  }

  /** Node j is another session's, and stays; or it goes. */
  lemma ServedNext(list: seq<nat>, j: nat, x: nat)
    requires j < |list|
    ensures var i := |Without(list[..j], x)|;
            && i < |Served(list, j, x)| && Served(list, j, x)[i] == list[j]
            && (i + 1 == |Served(list, j, x)| <==> j + 1 == |list|)
            && Served(list, j + 1, x) == (if list[j] != x then Served(list, j, x)
                                          else Served(list, j, x)[..i] + Served(list, j, x)[i + 1..])
            && |Without(list[..j + 1], x)| == (if list[j] != x then i + 1 else i)
  {
    WithoutNext(list, j, x);
    assert list[j..] == [list[j]] + list[j + 1..];
  }

  /** The release loop has served the first j nodes of the list of s in g and has come to graph h,
      where node j, if there is one, is node i. */
  predicate Reached(g: Graph, s: nat, x: nat, j: nat, i: nat, h: Graph) {
    && s in g.streams && j <= |g.streams[s].sessions|
    && h == Keep(g, s, Served(g.streams[s].sessions, j, x))
    && (j < |g.streams[s].sessions| ==>
          s in h.streams && i == |Without(g.streams[s].sessions[..j], x)|)
  }

  /** A turn of the loop: node i is node j of the old list, and serving it goes one node on. */
  lemma TurnKeeps(g: Graph, s: nat, x: nat, j: nat, i: nat, h: Graph)
    requires Inv(g) && Reached(g, s, x, j, i, h) && j < |g.streams[s].sessions|
    ensures Inv(h) && s in h.streams
    ensures var a := h.streams[s].sessions;
            && i < |a| && a[i] == g.streams[s].sessions[j]
            && (i + 1 == |a| <==> j + 1 == |g.streams[s].sessions|)
            && Reached(g, s, x, j + 1, if a[i] == x then i else i + 1,
                       if a[i] == x then Keep(h, s, a[..i] + a[i + 1..]) else h)
  {
    var list := g.streams[s].sessions;
    ServedNext(list, j, x);
    KeepKeeps(g, s, Served(list, j, x));
    KeepTwice(g, s, Served(list, j, x), Served(list, j + 1, x));
  }

  lemma ServedEnds(list: seq<nat>, x: nat)
    ensures Served(list, 0, x) == list && Served(list, |list|, x) == Without(list, x)
  {
    assert list[..0] == [] && list[..|list|] == list;
  }

  /** Up to the first node of the session nothing has changed. */
  lemma ServedBefore(list: seq<nat>, j: nat, x: nat)
    requires j <= |list| && x !in list[..j]
    ensures Served(list, j, x) == list && |Without(list[..j], x)| == j
  {
    WithoutMembers(list[..j], x);
  }

  /** None of the first j nodes is the session's. */
  ghost predicate PassedOver(list: seq<nat>, j: nat, x: nat)
    requires j <= |list|
  {
    forall k :: 0 <= k < j ==> list[k] != x
  }

  /** Where the release loop may stop: behind the first node of the session, or at the end. */
  ghost predicate StopsAt(list: seq<nat>, j: nat, x: nat, all: bool) {
    j <= |list| &&
    if !all && 0 < j && list[j - 1] == x then PassedOver(list, j - 1, x)
    else j == |list| && (!all ==> PassedOver(list, j, x))
  }

  /** The release loop at node j, about to go on or to stop. */
  ghost predicate GoesOn(list: seq<nat>, j: nat, x: nat, all: bool, more: bool) {
    if more then j < |list| && (!all ==> PassedOver(list, j, x)) else StopsAt(list, j, x, all)
  }

  lemma GoesOnTurn(list: seq<nat>, j: nat, x: nat, all: bool)
    requires GoesOn(list, j, x, all, true)
    ensures GoesOn(list, j + 1, x, all, j + 1 != |list| && (all || list[j] != x))
  {
  }

  lemma ReleasedAt(g: Graph, s: nat, j: nat, session: nat, all: bool)
    requires s in g.streams && Counted(g) && StopsAt(g.streams[s].sessions, j, session, all)
    ensures Keep(g, s, Served(g.streams[s].sessions, j, session)) == Release(g, s, session, all)
  {
    if !all && 0 < j && g.streams[s].sessions[j - 1] == session {
      ReleasedFirst(g, s, j - 1, session);
    } else {
      ReleasedAll(g, s, session, all);
    }
  }

  /** The release loop at its end. */
  lemma ReleasedAll(g: Graph, s: nat, session: nat, all: bool)
    requires s in g.streams && Counted(g)
    requires !all ==> PassedOver(g.streams[s].sessions, |g.streams[s].sessions|, session)
    ensures var list := g.streams[s].sessions;
            Keep(g, s, Served(list, |list|, session)) == Release(g, s, session, all)
  {
    var list := g.streams[s].sessions;
    ServedEnds(list, session);
    WithoutMembers(list, session);
    KeepTwice(g, s, list, list);
  }

  /** The release loop when it stops at the first node. */
  lemma ReleasedFirst(g: Graph, s: nat, j: nat, session: nat)
    requires s in g.streams && j < |g.streams[s].sessions|
    requires g.streams[s].sessions[j] == session && PassedOver(g.streams[s].sessions, j, session)
    ensures Keep(g, s, Served(g.streams[s].sessions, j + 1, session))
            == Release(g, s, session, false)
  {
    var list := g.streams[s].sessions;
    ServedNext(list, j, session);
    ServedBefore(list, j, session);
    WithoutFirstAt(list, j, session);
  }

  /** Ending a session for a stream, whether it has been served before or not. */
  lemma EndedTurn(g: SoundGraph, session: nat, done: set<nat>, s: nat)
    requires s in Ended(g, session, done).streams
    ensures Release(Ended(g, session, done), s, session, true) == Ended(g, session, done + {s})
  {
    if s in done {
      EndedAgain(g, session, done, s);
      assert done + {s} == done;
    } else {
      EndedStep(g, session, done, s);
    }
  }

  lemma EndedNone(g: Graph, session: nat)
    ensures Ended(g, session, {}) == g
  {
    assert Orphans(g, session, {}) == {};
    assert Ended(g, session, {}).streams == g.streams;
    forall c | c in g.connectors
      ensures Apart(g.connectors[c], {}) == g.connectors[c]
    {
      assert g.connectors[c].ins - {} == g.connectors[c].ins;
      assert g.connectors[c].outs - {} == g.connectors[c].outs;
    }
    assert Ended(g, session, {}).connectors == g.connectors;
  }

  /** A stream not served yet is still there. */
  lemma EndedLeaves(g: Graph, session: nat, done: set<nat>, s: nat)
    requires s in g.streams && s !in done
    ensures s in Ended(g, session, done).streams
  {
  }

  /** What matters is which live streams have been served. */
  lemma EndedForAll(g: Graph, session: nat, done: set<nat>)
    requires forall s :: s in g.streams ==> s in done
    ensures Ended(g, session, done) == Ended(g, session, g.streams.Keys)
  {
    assert Orphans(g, session, done) == Orphans(g, session, g.streams.Keys);
    assert Ended(g, session, done).streams == Ended(g, session, g.streams.Keys).streams;
  }
}
