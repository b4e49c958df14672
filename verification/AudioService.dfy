/**
  The audio service itself (components/audio/le_audio.c): its tables changed in place.  Every
  operation does to the graph the tables denote what `AudioGraph` says.
 */
module AudioService {
  import opened AudioGraph
  import opened AudioPool
  import AudioRuns
  import AudioEffects
  import opened Basics

  datatype Result = Ok | Busy | BadParameter | Fault

  /** The platform adaptor keeps the audio paths of the DSP. */
  class Platform {
    var paths: set<(nat, nat)>

    constructor ()
      ensures paths == {}
    {
      paths := {};
    }
  }

  /** Graphs whose links are consistent. */
  type LinkedGraph = g: Graph | TwoWay(g) && Sided(g) witness Graph(map[], map[], {}, 0)

  class Service {
    const pa: Platform
    var streams: Streams
    var connectors: Connectors
    var maps: Maps
    var nextRef: nat
    ghost var owner: Owners
    ghost var nodes: map<nat, Stream>         // the streams with their lists
    ghost var hubs: map<nat, Connector>       // the connectors with theirs

    ghost predicate Valid()
      reads this
    {
      && Owned(streams, connectors, maps, owner)
      && StreamsRead(streams, maps, nodes) && ConnectorsRead(connectors, maps, hubs)
    }

    /** The graph the tables denote. */
    ghost function Value(): Graph
      reads this, pa
    {
      Graph(nodes, hubs, pa.paths, nextRef)
    }

    constructor ()
      ensures Valid() && fresh(pa) && Value() == Graph(map[], map[], {}, 0)
    {
      pa := new Platform();
      streams, connectors, maps, nextRef := map[], map[], [], 0;
      owner, nodes, hubs := [], map[], map[];
    }

    // ---- hash maps -------------------------------------------------------------------------

    /** `GetHashMapElement`: the first unused map, or a new one. */
    method GetHashMapElement(ghost who: Owner) returns (k: nat)
      requires PoolSound(maps, owner) && who != Nobody
      modifies this
      ensures Taken(old(maps), old(owner), maps, owner, k, who)
      ensures k <= |old(maps)| && forall j :: 0 <= j < k ==> old(maps)[j].isUsed
      ensures streams == old(streams) && connectors == old(connectors) && nextRef == old(nextRef)
      ensures nodes == old(nodes) && hubs == old(hubs) && pa.paths == old(pa.paths)
    {
      k := 0;
      while k < |maps|
        invariant k <= |maps| && forall j :: 0 <= j < k ==> maps[j].isUsed
        invariant unchanged(this)
      {
        if !maps[k].isUsed {
          maps := maps[k := maps[k].(isUsed := true)];
          owner := owner[k := who];
          return;
        }
        k := k + 1;
      }
      maps := maps + [HashMap(true, {})];
      owner := owner + [who];
    }

    /** `le_hashmap_RemoveAll` and `ReleaseHashMapElement`. */
    method ReleaseHashMapElement(k: nat)
      requires PoolSound(maps, owner) && k < |maps|
      modifies this
      ensures streams == old(streams) && connectors == old(connectors) && nextRef == old(nextRef)
      ensures nodes == old(nodes) && hubs == old(hubs) && pa.paths == old(pa.paths)
      ensures maps == Emptied(old(maps), k) && owner == old(owner)[k := Nobody]
      ensures PoolSound(maps, owner)
    {
      maps := maps[k := HashMap(false, {})];
      owner := owner[k := Nobody];
    }

    /** Only the lists have changed. */
    twostate predicate SameRecords()
      reads this
    {
      && streams == old(streams) && connectors == old(connectors)
      && nextRef == old(nextRef) && owner == old(owner)
    }

    /** The keys of a map are assigned. */
    method SetKeys(k: nat, keys: set<nat>, ghost nodes': map<nat, Stream>,
                   ghost hubs': map<nat, Connector>)
      requires k < |maps|
      modifies this
      ensures maps == WithKeys(old(maps), k, keys) && nodes == nodes' && hubs == hubs'
      ensures SameRecords() && pa.paths == old(pa.paths)
    {
      maps := WithKeys(maps, k, keys);
      nodes, hubs := nodes', hubs';
    }

    /** A stream's list is assigned. */
    method SetLinks(s: nat, keys: set<nat>)
      requires Valid() && s in streams
      modifies this
      ensures Valid() && SameRecords() && hubs == old(hubs) && pa.paths == old(pa.paths)
      ensures nodes == old(nodes)[s := old(nodes)[s].(links := keys)]
    {
      LinksChange(streams, maps, owner, nodes, s, keys);
      SidesKept(connectors, maps, owner, hubs, streams[s].connectorList, keys);
      SetKeys(streams[s].connectorList, keys, nodes[s := nodes[s].(links := keys)], hubs);
    }

    /** A side of a connector is assigned. */
    method SetSide(c: nat, input: bool, keys: set<nat>)
      requires Valid() && c in connectors
      modifies this
      ensures Valid() && SameRecords() && nodes == old(nodes) && pa.paths == old(pa.paths)
      ensures hubs == old(hubs)[c := WithSide(old(hubs)[c], input, keys)]
    {
      SideAssigned(streams, connectors, maps, owner, nodes, hubs, c, input, keys);
      SetKeys(SideList(connectors[c], input), keys, nodes,
              hubs[c := WithSide(hubs[c], input, keys)]);
    }

    // ---- paths -----------------------------------------------------------------------------

    /** `OpenStreamPaths`: the answer of the platform to the path asked for last is returned. */
    method OpenStreamPaths(s: nat, input: bool, others: set<nat>, refused: set<(nat, nat)>)
      returns (r: Result, ghost last: Option<(nat, nat)>)
      modifies pa
      ensures pa.paths == old(pa.paths) + (Pairs(s, others, input) - refused)
      ensures last.None? <==> others == {}
      ensures last.Some? ==> last.value in Pairs(s, others, input)
      ensures r == if last.Some? && last.value in refused then Fault else Ok
    {
      r, last := Ok, None;
      var todo := others;
      while todo != {}
        invariant todo <= others && (last.None? <==> todo == others)
        invariant pa.paths == old(pa.paths) + (Pairs(s, others - todo, input) - refused)
        invariant last.Some? ==> last.value in Pairs(s, others, input)
        invariant r == if last.Some? && last.value in refused then Fault else Ok
      {
        var t :| t in todo;
        var p := Pair(s, t, input);
        assert p in Pairs(s, others, input);
        last := Some(p);
        assert Pairs(s, others - (todo - {t}), input) == Pairs(s, others - todo, input) + {p};
        if p in refused {
          r := Fault;
        } else {
          pa.paths := pa.paths + {p};
          r := Ok;
        }
        todo := todo - {t};
      }
      assert others - {} == others;
    }

    /** The answer of the platform to the path asked for last: certain when it refuses none, or
        all, of those asked for. */
    static ghost predicate Answers(s: nat, input: bool, others: set<nat>,
                                   refused: set<(nat, nat)>, r: Result)
    {
      && (r == Ok || r == Fault)
      && (Pairs(s, others, input) !! refused ==> r == Ok)
      && (others != {} && Pairs(s, others, input) <= refused ==> r == Fault)
    }

    /** With no stream on the other side no path is asked for. */
    method OpenPathsIfAny(s: nat, input: bool, others: set<nat>, refused: set<(nat, nat)>)
      returns (r: Result)
      requires Valid()
      modifies pa
      ensures Valid() && SameRecords() && nodes == old(nodes) && hubs == old(hubs)
      ensures pa.paths == old(pa.paths) + (Pairs(s, others, input) - refused)
      ensures Answers(s, input, others, refused, r)
    {
      r := Ok;
      if |others| >= 1 {
        ghost var last;
        r, last := OpenStreamPaths(s, input, others, refused);
      } else {
        assert Pairs(s, others, input) == {};
      }
    }

    /** `CloseStreamPaths`. */
    method CloseStreamPaths(s: nat, input: bool, others: set<nat>)
      modifies pa
      ensures pa.paths == old(pa.paths) - Pairs(s, others, input)
    {
      var todo := others;
      while todo != {}
        invariant todo <= others
        invariant pa.paths == old(pa.paths) - Pairs(s, others - todo, input)
      {
        var t :| t in todo;
        var p := Pair(s, t, input);
        assert Pairs(s, others - (todo - {t}), input) == Pairs(s, others - todo, input) + {p};
        pa.paths := pa.paths - {p};
        todo := todo - {t};
      }
      assert others - {} == others;
    }

    // ---- connectors ------------------------------------------------------------------------

    /** Taking a map changes no list. */
    lemma AfterTaking(maps0: Maps, owner0: Owners, k: nat, who: Owner, but: set<nat>)
      requires LinksOwned(streams, owner0) && SidesOwned(connectors, owner0)
      requires OwnersLive(streams, connectors, owner0, but)
      requires StreamsRead(streams, maps0, nodes) && ConnectorsRead(connectors, maps0, hubs)
      requires Taken(maps0, owner0, maps, owner, k, who)
      ensures LinksOwned(streams, owner) && SidesOwned(connectors, owner)
      ensures OwnersLive(streams, connectors, owner, but + {k})
      ensures StreamsRead(streams, maps, nodes) && ConnectorsRead(connectors, maps, hubs)
    {
      TakenLinks(streams, maps0, owner0, maps, owner, nodes, k, who);
      TakenSides(connectors, maps0, owner0, maps, owner, hubs, k, who);
      TakenLive(streams, connectors, maps0, owner0, maps, owner, k, who, but);
    }

    /** `le_audio_CreateConnector`. */
    method CreateConnector(session: nat) returns (c: nat)
      requires Valid() && nextRef !in connectors
      modifies this
      ensures Valid() && Value() == Create(old(Value()), session)
      ensures AudioEffects.CreateEffect(old(Value()), session, Value())
      ensures c == old(nextRef)
    {
      Lookup(nextRef, nextRef);
      c := EnterConnector(session);
      AudioEffects.CreateHasEffect(old(Value()), session);
    }

    /** The connector with the two maps taken for it. */
    method EnterConnector(session: nat) returns (c: nat)
      requires Valid() && nextRef !in connectors
      modifies this
      ensures Valid() && Value() == Create(old(Value()), session)
      ensures c == old(nextRef)
    {
      c := nextRef;
      var ins := GetHashMapElement(InsOf(c));
      AfterTaking(old(maps), old(owner), ins, InsOf(c), {});
      label First:
      var outs := GetHashMapElement(OutsOf(c));
      AfterTaking(old@First(maps), old@First(owner), outs, OutsOf(c), {ins});
      assert {} + {ins} == {ins} && {ins} + {outs} == {ins, outs};
      ConnectorEntered(connectors, maps, owner, hubs, c, ins, outs, session);
      ConnectorLive(streams, connectors, owner, c, ins, outs, session);
      connectors := connectors[c := ConnectorRec(ins, outs, session)];
      hubs := hubs[c := Connector({}, {}, session)];
      nextRef := nextRef + 1;
    }

    /** What a look at the tables says of the graph. */
    lemma Lookup(c: nat, s: nat)
      requires Valid()
      ensures (c in connectors <==> c in hubs) && (s in streams <==> s in nodes)
      ensures s in streams ==>
                && streams[s].iface == nodes[s].iface && streams[s].refs == nodes[s].refs
                && streams[s].sessionRefList == nodes[s].sessions
                && maps[streams[s].connectorList].keys == nodes[s].links
      ensures c in connectors ==>
                && maps[connectors[c].streamInList].keys == hubs[c].ins
                && maps[connectors[c].streamOutList].keys == hubs[c].outs
    {
    }

    /** The two entries that put a stream on a connector. */
    method AttachStream(c: nat, s: nat)
      requires Valid() && c in connectors && s in streams
      modifies this
      ensures Valid() && SameRecords() && pa.paths == old(pa.paths)
      ensures s in old(nodes) && c in old(hubs)
      ensures nodes == old(nodes)[s := old(nodes)[s].(links := old(nodes)[s].links + {c})]
      ensures var k, input := old(hubs)[c], IsInput(streams[s].iface);
              hubs == old(hubs)[c := WithSide(k, input, Side(k, input) + {s})]
    {
      var input := IsInput(streams[s].iface);
      Lookup(c, s);
      SetSide(c, input, maps[SideList(connectors[c], input)].keys + {s});
      Lookup(c, s);
      SetLinks(s, maps[streams[s].connectorList].keys + {c});
    }

    /** The two removals that take a stream off a connector. */
    method DetachStream(c: nat, s: nat)
      requires Valid() && c in connectors && s in streams
      modifies this
      ensures Valid() && SameRecords() && pa.paths == old(pa.paths)
      ensures s in old(nodes) && c in old(hubs)
      ensures nodes == old(nodes)[s := old(nodes)[s].(links := old(nodes)[s].links - {c})]
      ensures var k, input := old(hubs)[c], IsInput(streams[s].iface);
              hubs == old(hubs)[c := WithSide(k, input, Side(k, input) - {s})]
    {
      var input := IsInput(streams[s].iface);
      Lookup(c, s);
      SetSide(c, input, maps[SideList(connectors[c], input)].keys - {s});
      Lookup(c, s);
      SetLinks(s, maps[streams[s].connectorList].keys - {c});
    }

    /** Connects a stream that is not on the connector yet. */
    method ConnectNew(c: nat, s: nat, refused: set<(nat, nat)>) returns (r: Result)
      requires Valid() && c in connectors && s in streams && CanConnect(Value(), c, s)
      modifies this, pa
      ensures Valid() && SameRecords() && Value() == Connect(old(Value()), c, s, refused)
      ensures var input := IsInput(old(Value()).streams[s].iface);
              Answers(s, input, Side(old(Value()).connectors[c], !input), refused, r)
    {
      Lookup(c, s);
      var input := IsInput(streams[s].iface);
      var others := maps[SideList(connectors[c], !input)].keys;
      AttachStream(c, s);
      r := OpenPathsIfAny(s, input, others, refused);
    }

    /** `le_audio_Connect`. */
    method ConnectStream(c: nat, s: nat, refused: set<(nat, nat)>) returns (r: Result)
      requires Valid()
      modifies this, pa
      ensures Valid() && SameRecords() && Value() == Connect(old(Value()), c, s, refused)
      ensures AudioEffects.ConnectEffect(old(Value()), c, s, refused, Value())
      ensures r == BadParameter <==> c !in connectors || s !in streams
      ensures r == Busy <==> Connected(old(Value()), c, s)
      ensures CanConnect(old(Value()), c, s) ==>
                var input := IsInput(old(Value()).streams[s].iface);
                Answers(s, input, Side(old(Value()).connectors[c], !input), refused, r)
    {
      AudioEffects.ConnectHasEffect(Value(), c, s, refused);
      Lookup(c, s);
      if c !in connectors || s !in streams {
        return BadParameter;
      }
      var input := IsInput(streams[s].iface);
      if s in maps[SideList(connectors[c], input)].keys {
        return Busy;
      }
      r := ConnectNew(c, s, refused);
    }

    /** `le_audio_Disconnect`. */
    method DisconnectStream(c: nat, s: nat)
      requires Valid()
      modifies this, pa
      ensures Valid() && SameRecords() && Value() == Disconnect(old(Value()), c, s)
      ensures AudioEffects.DisconnectEffect(old(Value()), c, s, Value())
    {
      TakeOff(c, s);
      AudioEffects.DisconnectHasEffect(old(Value()), c, s);
    }

    /** The stream is taken off the connector, if it is on it. */
    method TakeOff(c: nat, s: nat)
      requires Valid()
      modifies this, pa
      ensures Valid() && SameRecords() && Value() == Disconnect(old(Value()), c, s)
    {
      Lookup(c, s);
      if c !in connectors || s !in streams {
        return;
      }
      var input := IsInput(streams[s].iface);
      var side, across := SideList(connectors[c], input), SideList(connectors[c], !input);
      if s in maps[side].keys {
        CloseStreamPaths(s, input, maps[across].keys);
        DetachStream(c, s);
      }
    }

    // ---- deleting a connector --------------------------------------------------------------

    /** `CloseAllConnectorPaths`. */
    method CloseAllConnectorPaths(ins: set<nat>, outs: set<nat>)
      requires forall i :: i in ins ==> i in streams && IsInput(streams[i].iface)
      modifies pa
      ensures unchanged(this)
      ensures forall p :: p in pa.paths <==> p in old(pa.paths) && !(p.0 in ins && p.1 in outs)
    {
      var todo := ins;
      while todo != {}
        invariant todo <= ins
        invariant forall p :: p in pa.paths <==>
                    p in old(pa.paths) && !(p.0 in ins - todo && p.1 in outs)
      {
        var i :| i in todo;
        CloseStreamPaths(i, IsInput(streams[i].iface), outs);
        todo := todo - {i};
      }
    }

    /** A turn of the loop below, which has served the members among `done`. */
    method UnlinkMember(s: nat, c: nat, ghost start: map<nat, Stream>, ghost done: set<nat>)
      requires Valid() && s in streams && s !in done && nodes == UnlinkedAll(start, done, c)
      modifies this
      ensures Valid() && SameRecords() && hubs == old(hubs) && pa.paths == old(pa.paths)
      ensures nodes == UnlinkedAll(start, done + {s}, c)
    {
      Lookup(c, s);
      UnlinkedStep(start, done, s, c);
      SetLinks(s, maps[streams[s].connectorList].keys - {c});
    }

    /** A loop of `ClearHashMap`: the members of a list lose the connector. */
    method UnlinkMembers(members: set<nat>, c: nat)
      requires Valid() && forall s :: s in members ==> s in streams
      modifies this
      ensures Valid() && SameRecords() && hubs == old(hubs) && pa.paths == old(pa.paths)
      ensures nodes == UnlinkedAll(old(nodes), members, c)
    {
      var todo := members;
      ghost var done := {};
      while todo != {}
        invariant done !! todo && done + todo == members
        invariant Valid() && SameRecords() && hubs == old(hubs) && pa.paths == old(pa.paths)
        invariant nodes == UnlinkedAll(old(nodes), done, c)
      {
        var s :| s in todo;
        UnlinkMember(s, c, old(nodes), done);
        todo, done := todo - {s}, done + {s};
      }
      assert done == members;
    }

    /** `ClearHashMap` on the streams' lists. */
    method ClearMembers(ins: set<nat>, outs: set<nat>, c: nat)
      requires Valid() && (forall s :: s in ins ==> s in streams) && (forall s :: s in outs ==> s in streams)
      modifies this
      ensures Valid() && SameRecords() && hubs == old(hubs) && pa.paths == old(pa.paths)
      ensures nodes == UnlinkedAll(UnlinkedAll(old(nodes), ins, c), outs, c)
    {
      UnlinkMembers(ins, c);
      UnlinkMembers(outs, c);
    }

    /** A map whose owner has gone is emptied and given back. */
    method ReturnMap(k: nat)
      requires PoolSound(maps, owner) && LinksOwned(streams, owner) && SidesOwned(connectors, owner)
      requires StreamsRead(streams, maps, nodes) && ConnectorsRead(connectors, maps, hubs)
      requires k < |maps| && !IsList(streams, connectors, owner[k], k)
      modifies this
      ensures PoolSound(maps, owner) && LinksOwned(streams, owner) && SidesOwned(connectors, owner)
      ensures StreamsRead(streams, maps, nodes) && ConnectorsRead(connectors, maps, hubs)
      ensures owner == old(owner)[k := Nobody] && pa.paths == old(pa.paths)
      ensures streams == old(streams) && connectors == old(connectors) && nextRef == old(nextRef)
      ensures nodes == old(nodes) && hubs == old(hubs)
    {
      EmptiedLinks(streams, maps, owner, nodes, k);
      EmptiedSides(connectors, maps, owner, hubs, k);
      ReleaseHashMapElement(k);
    }

    /** The connector goes and gives its maps back. */
    method RemoveConnector(c: nat)
      requires Valid() && c in connectors
      modifies this
      ensures Valid() && nodes == old(nodes) && hubs == old(hubs) - {c}
      ensures streams == old(streams) && nextRef == old(nextRef) && pa.paths == old(pa.paths)
    {
      var i, o := connectors[c].streamInList, connectors[c].streamOutList;
      ConnectorLeft(streams, connectors, owner, c);
      connectors := connectors - {c};
      hubs := hubs - {c};
      ReturnMap(i);
      ReturnMap(o);
    }

    /** `le_audio_DeleteConnector`. */
    method DeleteConnector(c: nat)
      requires Valid() && Sided(Value())
      modifies this, pa
      ensures Valid() && Value() == Delete(old(Value()), c)
      ensures old(TwoWay(Value())) ==> AudioEffects.DeleteEffect(old(Value()), c, Value())
    {
      if TwoWay(Value()) {
        AudioEffects.DeleteHasEffect(Value(), c);
      }
      Lookup(c, 0);
      if c !in connectors {
        return;
      }
      var ins, outs := maps[connectors[c].streamInList].keys, maps[connectors[c].streamOutList].keys;
      MembersLive(c);
      ghost var before := Value();
      CloseAllConnectorPaths(ins, outs);
      DeleteInSteps(before, c, pa.paths);
      ClearMembers(ins, outs, c);
      RemoveConnector(c);
    }

    /** The members of a connector are live streams, on their sides. */
    lemma MembersLive(c: nat)
      requires Valid() && Sided(Value()) && c in connectors
      ensures c in hubs
      ensures forall i :: i in hubs[c].ins ==> i in streams && IsInput(streams[i].iface)
      ensures forall i :: i in hubs[c].outs ==> i in streams
    {
    }

    // ---- opening a stream ------------------------------------------------------------------

    /** The session nodes and the reference count of a stream are assigned. */
    method SetSessions(s: nat, list: seq<nat>, refs: nat, ghost now: map<nat, Stream>)
      requires Valid() && s in streams && s in nodes
      requires now == nodes[s := nodes[s].(sessions := list, refs := refs)]
      modifies this
      ensures Valid() && nodes == now
      ensures hubs == old(hubs) && pa.paths == old(pa.paths) && nextRef == old(nextRef)
      ensures streams.Keys == old(streams).Keys
    {
      var st := streams[s].(sessionRefList := list, refs := refs);
      StreamEntered(streams, maps, owner, nodes, s, st);
      StreamLive(streams, connectors, owner, s, st);
      streams := streams[s := st];
      nodes := now;
    }

    /** A new stream with the map taken for it. */
    method EnterStream(i: Interface, session: nat, k: nat)
      requires PoolSound(maps, owner) && LinksOwned(streams, owner) && SidesOwned(connectors, owner)
      requires StreamsRead(streams, maps, nodes) && ConnectorsRead(connectors, maps, hubs)
      requires OwnersLive(streams, connectors, owner, {k}) && nextRef !in streams
      requires k < |maps| && owner[k] == LinksOf(nextRef) && maps[k].keys == {}
      modifies this
      ensures Valid() && hubs == old(hubs) && pa.paths == old(pa.paths)
      ensures nodes == old(nodes)[old(nextRef) := Stream(i, {}, [session], 1)]
      ensures nextRef == old(nextRef) + 1
    {
      var st := StreamRec(i, k, [session], 1);
      StreamEntered(streams, maps, owner, nodes, nextRef, st);
      StreamLive(streams, connectors, owner, nextRef, st);
      streams := streams[nextRef := st];
      nodes := nodes[nextRef := Stream(i, {}, [session], 1)];
      nextRef := nextRef + 1;
    }

    /** `OpenAudioStream` when the interface is not open, or not physical. */
    method OpenNewStream(i: Interface, session: nat, granted: bool) returns (ref: Option<nat>)
      requires Valid() && nextRef !in streams
      modifies this
      ensures Valid() && Value() == OpenNew(old(Value()), i, session, granted)
      ensures ref == if NeedsSetup(i) && !granted then None else Some(old(nextRef))
    {
      var s := nextRef;
      var k := GetHashMapElement(LinksOf(s));
      AfterTaking(old(maps), old(owner), k, LinksOf(s), {});
      assert {} + {k} == {k};
      if NeedsSetup(i) && !granted {
        ReturnedLive(streams, connectors, owner, k);
        ReturnMap(k);
        return None;
      }
      EnterStream(i, session, k);
      ref := Some(s);
    }

    /** The search of `OpenAudioStream` through the open streams. */
    method FindOpen(i: Interface) returns (ref: Option<nat>)
      requires Valid()
      ensures ref.Some? ==> ref.value in streams && IsOpen(Value(), i, ref.value)
      ensures ref.None? ==> forall s :: !IsOpen(Value(), i, s)
    {
      var todo := streams.Keys;
      while todo != {}
        invariant todo <= streams.Keys
        invariant forall s :: s in streams && s !in todo ==> streams[s].iface != i
      {
        var s :| s in todo;
        if streams[s].iface == i {
          return Some(s);
        }
        todo := todo - {s};
      }
      ref := None;
    }

    /** One more session holds an open stream. */
    method ReopenStream(s: nat, session: nat)
      requires Valid() && s in streams && s in Value().streams
      modifies this
      ensures Valid() && Value() == Reopen(old(Value()), s, session)
    {
      Lookup(s, s);
      var list, refs := streams[s].sessionRefList, streams[s].refs;
      SetSessions(s, list + [session], refs + 1, Reopen(Value(), s, session).streams);
    }

    /** `OpenAudioStream`. */
    method OpenAudioStream(i: Interface, session: nat, granted: bool) returns (ref: Option<nat>)
      requires Valid() && Below(Value())
      modifies this
      ensures Valid() && AudioRuns.Opens(old(Value()), i, session, granted, Value())
      ensures old(Counted(Value())) ==>
                AudioEffects.OpenEffect(old(Value()), i, session, granted, Value())
      ensures ref.Some? ==> IsOpen(Value(), i, ref.value)
      ensures ref.None? ==> Value() == old(Value())
    {
      ref := OpenOrReopen(i, session, granted);
      if old(Counted(Value())) {
        AudioEffects.OpenHasEffect(old(Value()), i, session, granted, Value());
      }
    }

    method OpenOrReopen(i: Interface, session: nat, granted: bool) returns (ref: Option<nat>)
      requires Valid() && Below(Value())
      modifies this
      ensures Valid() && AudioRuns.Opens(old(Value()), i, session, granted, Value())
      ensures ref.Some? ==> IsOpen(Value(), i, ref.value)
      ensures ref.None? ==> Value() == old(Value())
    {
      Lookup(nextRef, nextRef);
      var found := None;
      if Physical(i) {
        found := FindOpen(i);
      }
      if found.None? {
        ref := OpenNewStream(i, session, granted);
      } else {
        ReopenStream(found.value, session);
        ref := found;
      }
    }

    // ---- releasing a stream ----------------------------------------------------------------

    /** The graph `start` with the stream disconnected from the connectors among `done`. */
    ghost predicate DetachedSoFar(start: Graph, s: nat, done: set<nat>)
      reads this, pa
    {
      Valid() && s in streams && s in start.streams && Value() == Detached(start, s, done)
    }

    /** A turn of the loop below. */
    method DisconnectTurn(c: nat, s: nat, ghost start: LinkedGraph, ghost done: set<nat>)
      requires DetachedSoFar(start, s, done) && c in start.streams[s].links && c !in done
      modifies this, pa
      ensures DetachedSoFar(start, s, done + {c}) && streams == old(streams)
    {
      DetachedStep(start, s, done, c);
      TakeOff(c, s);
    }

    /** The iterator over the stream's live list: a connector still on it, if there is one. */
    method NextLink(s: nat, ghost start: LinkedGraph, ghost done: set<nat>) returns (c: Option<nat>)
      requires DetachedSoFar(start, s, done)
      ensures c.None? <==> start.streams[s].links <= done
      ensures c.Some? ==> c.value in start.streams[s].links - done
    {
      Lookup(s, s);
      assert nodes[s].links == start.streams[s].links - done;
      var list := maps[streams[s].connectorList].keys;
      if list == {} {
        NothingLeft(start.streams[s].links, done);
        return None;
      }
      var first :| first in list;
      c := Some(first);
    }

    /** A turn of the loop below, if the list is not empty yet. */
    method DisconnectNext(s: nat, ghost start: LinkedGraph, ghost done: set<nat>)
      returns (more: bool, ghost now: set<nat>)
      requires DetachedSoFar(start, s, done) && done <= start.streams[s].links
      modifies this, pa
      ensures DetachedSoFar(start, s, now) && streams == old(streams)
      ensures now <= start.streams[s].links
      ensures if more then |start.streams[s].links - now| < |start.streams[s].links - done|
              else now == start.streams[s].links
    {
      var c := NextLink(s, start, done);
      more, now := c.Some?, done;
      if more {
        LinkTaken(start.streams[s].links, done, c.value);
        DisconnectTurn(c.value, s, start, done);
        now := done + {c.value};
      }
    }

    /** The loop of `DisconnectStreamFromAllConnectors`: it walks the list it removes from. */
    method DisconnectEach(s: nat, ghost start: LinkedGraph)
      requires DetachedSoFar(start, s, {})
      modifies this, pa
      ensures DetachedSoFar(start, s, start.streams[s].links) && streams == old(streams)
    {
      ghost var done := {};
      var more := true;
      while more
        invariant streams == old(streams) && done <= start.streams[s].links
        invariant DetachedSoFar(start, s, done)
        invariant !more ==> done == start.streams[s].links
        decreases more, |start.streams[s].links - done|
      {
        more, done := DisconnectNext(s, start, done);
      }
    }

    lemma NothingLeft(links: set<nat>, done: set<nat>)
      requires links - done == {}
      ensures links <= done
    {
      forall x | x in links
        ensures x in done
      {
        assert x in links - done || x in done;
      }
    }

    lemma LinkTaken(links: set<nat>, done: set<nat>, c: nat)
      requires c in links - done
      ensures |links - (done + {c})| < |links - done|
    {
      assert links - done == (links - (done + {c})) + {c};
    }

    method DisconnectFromAll(s: nat)
      requires Valid() && s in streams && s in nodes && TwoWay(Value()) && Sided(Value())
      modifies this, pa
      ensures Valid() && streams == old(streams)
      ensures Value() == Detached(old(Value()), s, old(nodes)[s].links)
    {
      Lookup(s, s);
      DetachedNone(Value(), s);
      DisconnectEach(s, Value());
    }

    /** The stream goes and gives its map back. */
    method RemoveStream(s: nat)
      requires Valid() && s in streams
      modifies this
      ensures Valid() && nodes == old(nodes) - {s} && hubs == old(hubs)
      ensures nextRef == old(nextRef) && pa.paths == old(pa.paths)
      ensures streams.Keys == old(streams).Keys - {s}
    {
      var k := streams[s].connectorList;
      StreamLeft(streams, connectors, owner, s);
      streams := streams - {s};
      nodes := nodes - {s};
      ReturnMap(k);
    }

    /** `DestructStream`. */
    method DestructStream(s: nat)
      requires Valid() && s in streams && s in nodes
      requires TwoWay(Value()) && Sided(Value()) && PathsJoined(Value())
      modifies this, pa
      ensures Valid() && Value() == Destroyed(old(Value()), {s})
      ensures streams.Keys == old(streams).Keys - {s}
    {
      DetachedFromAll(Value(), s);
      DisconnectFromAll(s);
      RemoveStream(s);
    }

    /** The stream loses its last session node and is destroyed. */
    method DestroyStream(s: nat)
      requires Valid() && s in streams && s in nodes
      requires TwoWay(Value()) && Sided(Value()) && PathsJoined(Value())
      modifies this, pa
      ensures Valid() && Value() == Destroyed(old(Value()), {s})
    {
      ghost var start := Value();
      ghost var st := nodes[s].(sessions := [], refs := 0);
      LinksStay(start, s, st);
      DestroyedForgets(start, s, st);
      SetSessions(s, [], 0, nodes[s := st]);
      DestructStream(s);
    }

    /** The session nodes and the reference count go down together; the last reference destroys
        the stream. */
    method DropTo(s: nat, left: seq<nat>, refs: nat)
      requires Valid() && s in streams && s in nodes && refs == |left|
      requires TwoWay(Value()) && Sided(Value()) && PathsJoined(Value())
      modifies this, pa
      ensures Valid() && Value() == Keep(old(Value()), s, left)
    {
      if refs == 0 {
        DestroyStream(s);
      } else {
        SetSessions(s, left, refs, Keep(Value(), s, left).streams);
      }
    }

    /** `le_dls_Remove` of session node i and `le_mem_Release` of the stream. */
    method ReleaseNode(s: nat, i: nat)
      requires Valid() && Inv(Value()) && s in streams && s in nodes
      requires i < |streams[s].sessionRefList|
      modifies this, pa
      ensures var list := old(streams)[s].sessionRefList;
              Valid() && Value() == Keep(old(Value()), s, list[..i] + list[i + 1..])
    {
      Lookup(s, s);
      var list := streams[s].sessionRefList;
      DropTo(s, list[..i] + list[i + 1..], streams[s].refs - 1);
    }

    /** The release loop is about to look at node j of the list it found, now node i. */
    ghost predicate Walking(start: Graph, s: nat, session: nat, j: nat, i: nat)
      reads this, pa
    {
      Valid() && Reached(start, s, session, j, i, Value())
    }

    /** A turn of the loop below. */
    method ReleaseTurn(s: nat, session: nat, i: nat, ghost start: SoundGraph, ghost j: nat)
      returns (hit: bool, last: bool, i': nat)
      requires Walking(start, s, session, j, i) && j < |start.streams[s].sessions|
      modifies this, pa
      ensures Walking(start, s, session, j + 1, i')
      ensures hit <==> start.streams[s].sessions[j] == session
      ensures last <==> j + 1 == |start.streams[s].sessions|
    {
      TurnKeeps(start, s, session, j, i, Value());
      Lookup(s, s);
      last := i + 1 == |streams[s].sessionRefList|;
      hit := streams[s].sessionRefList[i] == session;
      i' := i;
      if hit {
        ReleaseNode(s, i);
      } else {
        i' := i + 1;
      }
    }

    /** The loop of `ReleaseAudioStream`: walks the session nodes and never looks at a destroyed
        stream, because then its list is empty. */
    method WalkSessions(s: nat, session: nat, all: bool, any: bool, ghost start: SoundGraph)
      returns (ghost j: nat, i: nat)
      requires Walking(start, s, session, 0, 0)
      requires any <==> 0 < |start.streams[s].sessions|
      modifies this, pa
      ensures Walking(start, s, session, j, i)
      ensures StopsAt(start.streams[s].sessions, j, session, all)
    {
      ghost var list := start.streams[s].sessions;
      j, i := 0, 0;
      var more := any;
      while more
        invariant Walking(start, s, session, j, i)
        invariant GoesOn(list, j, session, all, more)
        decreases |list| - j
      {
        GoesOnTurn(list, j, session, all);
        var hit, last, i' := ReleaseTurn(s, session, i, start, j);
        i, j := i', j + 1;
        more := !last && (all || !hit);
      }
    }

    method ReleaseAudioStream(s: nat, session: nat, all: bool)
      requires Valid() && Inv(Value()) && s in streams && s in nodes
      modifies this, pa
      ensures Valid() && Value() == Release(old(Value()), s, session, all)
    {
      ghost var start := Value();
      Lookup(s, s);
      KeepTwice(start, s, nodes[s].sessions, nodes[s].sessions);
      ServedEnds(nodes[s].sessions, session);
      ghost var j;
      var i;
      j, i := WalkSessions(s, session, all, |streams[s].sessionRefList| > 0, start);
      ReleasedAt(start, s, j, session, all);
    }

    /** `le_audio_Close`. */
    method CloseStream(s: nat, session: nat)
      requires Valid() && Inv(Value())
      modifies this, pa
      ensures Valid() && Value() == Close(old(Value()), s, session)
      ensures AudioEffects.CloseEffect(old(Value()), s, session, Value())
    {
      AudioEffects.CloseHasEffect(Value(), s, session);
      Lookup(s, s);
      if s in streams {
        ReleaseAudioStream(s, session, false);
      }
    }

    // ---- the end of a session --------------------------------------------------------------

    /** The session has ended for the streams among `done`. */
    ghost predicate EndedSoFar(start: Graph, session: nat, done: set<nat>)
      reads this, pa
    {
      Valid() && Value() == Ended(start, session, done)
    }

    method EndTurn(s: nat, session: nat, ghost start: SoundGraph, ghost done: set<nat>)
      requires EndedSoFar(start, session, done) && s in Ended(start, session, done).streams
      modifies this, pa
      ensures EndedSoFar(start, session, done + {s})
    {
      Lookup(s, s);
      EndedKeeps(start, session, done);
      EndedTurn(start, session, done, s);
      ReleaseAudioStream(s, session, true);
    }

    /** A pass of `CloseSessionEventHandler` over the streams, the file streams only or all. */
    method EndPass(session: nat, filesOnly: bool, ghost start: SoundGraph, ghost served: set<nat>)
      returns (ghost done: set<nat>)
      requires EndedSoFar(start, session, served)
      modifies this, pa
      ensures EndedSoFar(start, session, done)
      ensures !filesOnly ==> forall s :: s in Ended(start, session, served).streams ==> s in done
      ensures served <= done
    {
      done := served;
      Lookup(0, 0);
      var todo := streams.Keys;
      while todo != {}
        invariant EndedSoFar(start, session, done) && served <= done
        invariant forall s :: s in todo ==> s in Ended(start, session, done).streams
        invariant !filesOnly ==>
                    forall s :: s in Ended(start, session, served).streams ==> s in todo || s in done
      {
        var s :| s in todo;
        todo := todo - {s};
        Lookup(s, s);
        if !filesOnly || !Physical(streams[s].iface) {
          EndTurn(s, session, start, done);
          OthersStay(start, session, done, s, todo);
          done := done + {s};
        }
      }
    }

    /** Serving one stream leaves the others. */
    lemma OthersStay(g: Graph, session: nat, done: set<nat>, s: nat, todo: set<nat>)
      requires s !in todo && forall t :: t in todo ==> t in Ended(g, session, done).streams
      ensures forall t :: t in todo ==> t in Ended(g, session, done + {s}).streams
    {
    }

    /** `CloseSessionEventHandler`: file streams first, then all.  The loop over connectors that
        follows in the code starts at the end of the stream map and deletes none. */
    method CloseSession(session: nat)
      requires Valid() && Inv(Value())
      modifies this, pa
      ensures Valid() && Value() == Ended(old(Value()), session, old(Value()).streams.Keys)
      ensures AudioEffects.EndEffect(old(Value()), session, Value())
    {
      AudioEffects.EndHasEffect(Value(), session);
      ghost var start: SoundGraph := Value();
      EndedNone(start, session);
      ghost var first, both;
      first := EndPass(session, true, start, {});
      both := EndPass(session, false, start, first);
      AllServed(start, session, first, both);
      EndedForAll(start, session, both);
    }

    lemma AllServed(g: Graph, session: nat, first: set<nat>, both: set<nat>)
      requires first <= both
      requires forall s :: s in Ended(g, session, first).streams ==> s in both
      ensures forall s :: s in g.streams ==> s in both
    {
      forall s | s in g.streams && s !in first
        ensures s in both
      {
        EndedLeaves(g, session, first, s);
      }
    }

    // ---- whole runs ------------------------------------------------------------------------

    /** No map is the list of two owners, every list is a used map, and every used map is a
        list. */
    ghost predicate ListsApart()
      reads this
    {
      && (forall k, o, p ::
            IsList(streams, connectors, o, k) && IsList(streams, connectors, p, k) ==> o == p)
      && (forall k: nat, o ::
            IsList(streams, connectors, o, k) ==> k < |maps| && maps[k].isUsed)
      && (forall k :: 0 <= k < |maps| && maps[k].isUsed ==>
            exists o :: IsList(streams, connectors, o, k))
    }

    lemma KeepsListsApart()
      requires Valid()
      ensures ListsApart()
    {
      NoMapOwnedTwice(streams, connectors, maps, owner);
    }

    /** The call that an operation of a run stands for. */
    method Perform(op: AudioRuns.Op)
      requires Valid() && Inv(Value())
      modifies this, pa
      ensures Valid() && Inv(Value()) && AudioRuns.Next(old(Value()), op, Value())
      ensures AudioEffects.Effect(old(Value()), op, Value())
    {
      ghost var before: SoundGraph := Value();
      Call(op);
      AudioEffects.StepHasEffect(before, op, Value());
      AudioRuns.StepKeeps(before, op, Value());
    }

    method Call(op: AudioRuns.Op)
      requires Valid() && Inv(Value())
      modifies this, pa
      ensures Valid() && AudioRuns.Next(old(Value()), op, Value())
    {
      Lookup(nextRef, nextRef);
      match op {
        case OpenOp(i, session, granted) =>
          var ref := OpenAudioStream(i, session, granted);
        case CloseOp(s, session) => CloseStream(s, session);
        case SessionEnd(session) => CloseSession(session);
        case CreateOp(session) =>
          var c := CreateConnector(session);
        case DeleteOp(c) => DeleteConnector(c);
        case ConnectOp(c, s, refused) =>
          var r := ConnectStream(c, s, refused);
        case DisconnectOp(c, s) => DisconnectStream(c, s);
      }
    }
  }

  /** The tables denote the graph a run has led to. */
  ghost predicate HasRun(svc: Service, states: seq<Graph>, ops: seq<AudioRuns.Op>)
    reads svc, svc.pa
  {
    svc.Valid() && AudioRuns.IsRun(states, ops) && svc.Value() == states[|ops|]
  }

  /** One more operation of a run. */
  method ServeOne(svc: Service, op: AudioRuns.Op, ghost states: seq<Graph>,
                  ghost ops: seq<AudioRuns.Op>)
    requires HasRun(svc, states, ops)
    modifies svc, svc.pa
    ensures HasRun(svc, states + [svc.Value()], ops + [op])
  {
    AudioRuns.InvAlongRun(states, ops, |ops|);
    svc.Perform(op);
    AudioRuns.RunGoesOn(states, ops, op, svc.Value());
  }

  /** The service over a whole run: from start-up, after any operations, the tables denote a graph
      the run leads to, the routing invariant holds of it, and no pooled map has two owners. */
  method Serve(ops: seq<AudioRuns.Op>) returns (svc: Service, ghost states: seq<Graph>)
    ensures AudioRuns.IsRun(states, ops) && svc.Value() == states[|ops|]
    ensures svc.Valid() && Inv(svc.Value()) && svc.ListsApart()
  {
    svc := new Service();
    states := [svc.Value()];
    for i := 0 to |ops|
      invariant fresh(svc) && fresh(svc.pa) && HasRun(svc, states, ops[..i])
    {
      ServeOne(svc, ops[i], states, ops[..i]);
      states := states + [svc.Value()];
      assert ops[..i + 1] == ops[..i] + [ops[i]];
    }
    assert ops[..|ops|] == ops;
    AudioRuns.InvAlongRun(states, ops, |ops|);
    svc.KeepsListsApart();
  }
}
