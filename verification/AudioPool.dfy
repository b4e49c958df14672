/**
  The hash maps behind the routing graph (components/audio/le_audio.c): every list of a stream or
  connector is a map taken from a pool of reusable maps.  As long as no map has two owners, the
  tables denote a graph, and changing one map changes one list.
 */
module AudioPool {
  import opened AudioGraph

  /** An element of `AudioHashMapList`; its place in the list stands for the map's reference. */
  datatype HashMap = HashMap(isUsed: bool, keys: set<nat>)

  datatype StreamRec =
    StreamRec(iface: Interface, connectorList: nat, sessionRefList: seq<nat>, refs: nat)

  datatype ConnectorRec = ConnectorRec(streamInList: nat, streamOutList: nat, session: nat)

  type Streams = map<nat, StreamRec>

  type Connectors = map<nat, ConnectorRec>

  type Maps = seq<HashMap>

  /** Whose list a map is. */
  datatype Owner = Nobody | LinksOf(stream: nat) | InsOf(connector: nat) | OutsOf(connector: nat)

  type Owners = seq<Owner>

  // ---- ownership ---------------------------------------------------------------------------

  /** Unused maps, and only they, have no owner, and they are empty. */
  ghost predicate PoolSound(maps: Maps, owner: Owners) {
    && |owner| == |maps|
    && (forall k :: 0 <= k < |maps| ==> (maps[k].isUsed <==> owner[k] != Nobody))
    && (forall k :: 0 <= k < |maps| && !maps[k].isUsed ==> maps[k].keys == {})
  }

  /** The list of a live stream is its own. */
  ghost predicate LinksOwned(streams: Streams, owner: Owners) {
    forall s :: s in streams ==>
      streams[s].connectorList < |owner| && owner[streams[s].connectorList] == LinksOf(s)
  }

  /** The lists of a live connector are its own. */
  ghost predicate SidesOwned(connectors: Connectors, owner: Owners) {
    forall c :: c in connectors ==>
      && connectors[c].streamInList < |owner| && owner[connectors[c].streamInList] == InsOf(c)
      && connectors[c].streamOutList < |owner| && owner[connectors[c].streamOutList] == OutsOf(c)
  }

  /** The map is the list of a live stream or connector. */
  predicate IsList(streams: Streams, connectors: Connectors, o: Owner, k: nat) {
    match o
    case Nobody => false
    case LinksOf(s) => s in streams && k == streams[s].connectorList
    case InsOf(c) => c in connectors && k == connectors[c].streamInList
    case OutsOf(c) => c in connectors && k == connectors[c].streamOutList
  }

  /** Maps in use, but for some, are the lists their owners say. */
  ghost predicate OwnersLive(streams: Streams, connectors: Connectors, owner: Owners,
                             but: set<nat>)
  {
    forall k :: 0 <= k < |owner| && owner[k] != Nobody && k !in but ==>
      IsList(streams, connectors, owner[k], k)
  }

  ghost predicate Owned(streams: Streams, connectors: Connectors, maps: Maps, owner: Owners) {
    && PoolSound(maps, owner)
    && LinksOwned(streams, owner) && SidesOwned(connectors, owner)
    && OwnersLive(streams, connectors, owner, {})
  }

  /** No map is owned twice, every list is a used map, and every used map is somebody's list. */
  lemma NoMapOwnedTwice(streams: Streams, connectors: Connectors, maps: Maps, owner: Owners)
    requires Owned(streams, connectors, maps, owner)
    ensures forall k, o, p ::
              IsList(streams, connectors, o, k) && IsList(streams, connectors, p, k) ==> o == p
    ensures forall k: nat, o ::
              IsList(streams, connectors, o, k) ==> k < |maps| && maps[k].isUsed
    ensures forall k :: 0 <= k < |maps| && maps[k].isUsed ==>
              exists o :: IsList(streams, connectors, o, k)
  {
    forall k | 0 <= k < |maps| && maps[k].isUsed
      ensures exists o :: IsList(streams, connectors, o, k)
    {
      assert IsList(streams, connectors, owner[k], k);
    }
  }

  // ---- the graph the tables denote ---------------------------------------------------------

  function ReadStream(st: StreamRec, maps: Maps): Stream
    requires st.connectorList < |maps|
  {
    Stream(st.iface, maps[st.connectorList].keys, st.sessionRefList, st.refs)
  }

  function ReadConnector(k: ConnectorRec, maps: Maps): Connector
    requires k.streamInList < |maps| && k.streamOutList < |maps|
  {
    Connector(maps[k.streamInList].keys, maps[k.streamOutList].keys, k.session)
  }

  /** The stream records denote these streams. */
  ghost predicate StreamsRead(streams: Streams, maps: Maps, nodes: map<nat, Stream>) {
    && nodes.Keys == streams.Keys
    && forall s :: s in streams ==>
         streams[s].connectorList < |maps| && nodes[s] == ReadStream(streams[s], maps)
  }

  /** The connector records denote these connectors. */
  ghost predicate ConnectorsRead(connectors: Connectors, maps: Maps, hubs: map<nat, Connector>) {
    && hubs.Keys == connectors.Keys
    && forall c :: c in connectors ==>
         && connectors[c].streamInList < |maps| && connectors[c].streamOutList < |maps|
         && hubs[c] == ReadConnector(connectors[c], maps)
  }

  // ---- changing one map --------------------------------------------------------------------

  function WithKeys(maps: Maps, k: nat, keys: set<nat>): Maps
    requires k < |maps|
  {
    maps[k := maps[k].(keys := keys)]
  }

  /** A stream's list changes, and no other stream's. */
  lemma LinksChange(streams: Streams, maps: Maps, owner: Owners, nodes: map<nat, Stream>,
                    s: nat, keys: set<nat>)
    requires LinksOwned(streams, owner) && StreamsRead(streams, maps, nodes) && s in streams
    ensures StreamsRead(streams, WithKeys(maps, streams[s].connectorList, keys),
                        nodes[s := nodes[s].(links := keys)])
  {
  }

  function SideList(k: ConnectorRec, input: bool): nat {
    if input then k.streamInList else k.streamOutList
  }

  /** One side of a connector changes, and no other connector's. */
  lemma SideChange(connectors: Connectors, maps: Maps, owner: Owners, hubs: map<nat, Connector>,
                   c: nat, input: bool, keys: set<nat>)
    requires SidesOwned(connectors, owner) && ConnectorsRead(connectors, maps, hubs)
    requires c in connectors
    ensures ConnectorsRead(connectors, WithKeys(maps, SideList(connectors[c], input), keys),
                           hubs[c := WithSide(hubs[c], input, keys)])
  {
  }

  /** Connectors do not see a stream's list change. */
  lemma SidesKept(connectors: Connectors, maps: Maps, owner: Owners, hubs: map<nat, Connector>,
                  k: nat, keys: set<nat>)
    requires SidesOwned(connectors, owner) && ConnectorsRead(connectors, maps, hubs)
    requires k < |maps| == |owner| && owner[k].LinksOf?
    ensures ConnectorsRead(connectors, WithKeys(maps, k, keys), hubs)
  {
  }

  /** Streams do not see a connector's list change. */
  lemma LinksKept(streams: Streams, maps: Maps, owner: Owners, nodes: map<nat, Stream>,
                  k: nat, keys: set<nat>)
    requires LinksOwned(streams, owner) && StreamsRead(streams, maps, nodes)
    requires k < |maps| == |owner| && !owner[k].LinksOf?
    ensures StreamsRead(streams, WithKeys(maps, k, keys), nodes)
  {
  }

  lemma PoolKept(maps: Maps, owner: Owners, k: nat, keys: set<nat>)
    requires PoolSound(maps, owner) && k < |maps| && owner[k] != Nobody
    ensures PoolSound(WithKeys(maps, k, keys), owner)
  {
  }

  /** The list behind a side is the connector's own. */
  lemma SideOwned(connectors: Connectors, maps: Maps, owner: Owners, c: nat, input: bool)
    requires SidesOwned(connectors, owner) && |owner| == |maps| && c in connectors
    ensures SideList(connectors[c], input) < |maps|
    ensures owner[SideList(connectors[c], input)] == if input then InsOf(c) else OutsOf(c)
  {
  }

  /** One side of a connector is assigned: the tables stay sound and nothing else changes. */
  lemma SideAssigned(streams: Streams, connectors: Connectors, maps: Maps, owner: Owners,
                     nodes: map<nat, Stream>, hubs: map<nat, Connector>,
                     c: nat, input: bool, keys: set<nat>)
    requires Owned(streams, connectors, maps, owner)
    requires StreamsRead(streams, maps, nodes) && ConnectorsRead(connectors, maps, hubs)
    requires c in connectors
    ensures SideList(connectors[c], input) < |maps| && c in hubs
    ensures var maps' := WithKeys(maps, SideList(connectors[c], input), keys);
            && Owned(streams, connectors, maps', owner)
            && StreamsRead(streams, maps', nodes)
            && ConnectorsRead(connectors, maps', hubs[c := WithSide(hubs[c], input, keys)])
  {
    SideOwned(connectors, maps, owner, c, input);
    var k := SideList(connectors[c], input);
    PoolKept(maps, owner, k, keys);
    SideChange(connectors, maps, owner, hubs, c, input, keys);
    LinksKept(streams, maps, owner, nodes, k, keys);
  }

  // ---- taking and returning maps -----------------------------------------------------------

  /** A map was taken for a new owner. */
  ghost predicate Taken(maps: Maps, owner: Owners, maps': Maps, owner': Owners, k: nat, who: Owner)
  {
    && |owner| == |maps| <= |maps'| == |owner'| && k < |maps'|
    && PoolSound(maps', owner') && owner'[k] == who && maps'[k].keys == {}
    && (k < |maps| ==> owner[k] == Nobody)
    && (forall j :: 0 <= j < |maps'| && j != k ==>
          j < |maps| && maps'[j] == maps[j] && owner'[j] == owner[j])
  }

  lemma TakenLinks(streams: Streams, maps: Maps, owner: Owners, maps': Maps, owner': Owners,
                   nodes: map<nat, Stream>, k: nat, who: Owner)
    requires LinksOwned(streams, owner) && Taken(maps, owner, maps', owner', k, who)
    requires StreamsRead(streams, maps, nodes)
    ensures LinksOwned(streams, owner') && StreamsRead(streams, maps', nodes)
  {
  }

  lemma TakenSides(connectors: Connectors, maps: Maps, owner: Owners, maps': Maps, owner': Owners,
                   hubs: map<nat, Connector>, k: nat, who: Owner)
    requires SidesOwned(connectors, owner) && Taken(maps, owner, maps', owner', k, who)
    requires ConnectorsRead(connectors, maps, hubs)
    ensures SidesOwned(connectors, owner') && ConnectorsRead(connectors, maps', hubs)
  {
  }

  lemma TakenLive(streams: Streams, connectors: Connectors, maps: Maps, owner: Owners,
                  maps': Maps, owner': Owners, k: nat, who: Owner, but: set<nat>)
    requires OwnersLive(streams, connectors, owner, but)
    requires Taken(maps, owner, maps', owner', k, who)
    ensures OwnersLive(streams, connectors, owner', but + {k})
  {
  }

  /** A connector is entered with the two maps taken for it. */
  lemma ConnectorEntered(connectors: Connectors, maps: Maps, owner: Owners,
                         hubs: map<nat, Connector>, c: nat, ins: nat, outs: nat, session: nat)
    requires SidesOwned(connectors, owner) && ConnectorsRead(connectors, maps, hubs)
    requires |owner| == |maps|
    requires ins < |maps| && owner[ins] == InsOf(c) && maps[ins].keys == {}
    requires outs < |maps| && owner[outs] == OutsOf(c) && maps[outs].keys == {}
    ensures SidesOwned(connectors[c := ConnectorRec(ins, outs, session)], owner)
    ensures ConnectorsRead(connectors[c := ConnectorRec(ins, outs, session)], maps,
                           hubs[c := Connector({}, {}, session)])
  {
  }

  lemma ConnectorLive(streams: Streams, connectors: Connectors, owner: Owners,
                      c: nat, ins: nat, outs: nat, session: nat)
    requires OwnersLive(streams, connectors, owner, {ins, outs}) && c !in connectors
    requires ins < |owner| && outs < |owner| && owner[ins] == InsOf(c) && owner[outs] == OutsOf(c)
    ensures OwnersLive(streams, connectors[c := ConnectorRec(ins, outs, session)], owner, {})
  {
  }

  /** A stream is entered with the map taken for it. */
  lemma StreamEntered(streams: Streams, maps: Maps, owner: Owners, nodes: map<nat, Stream>,
                      s: nat, st: StreamRec)
    requires LinksOwned(streams, owner) && StreamsRead(streams, maps, nodes)
    requires |owner| == |maps|
    requires st.connectorList < |maps| && owner[st.connectorList] == LinksOf(s)
    ensures LinksOwned(streams[s := st], owner)
    ensures StreamsRead(streams[s := st], maps, nodes[s := ReadStream(st, maps)])
  {
  }

  lemma StreamLive(streams: Streams, connectors: Connectors, owner: Owners, s: nat, st: StreamRec)
    requires OwnersLive(streams, connectors, owner, {st.connectorList})
    requires s in streams ==> streams[s].connectorList == st.connectorList
    requires st.connectorList < |owner| && owner[st.connectorList] == LinksOf(s)
    ensures OwnersLive(streams[s := st], connectors, owner, {})
  {
  }

  /** A map was given back, emptied. */
  function Emptied(maps: Maps, k: nat): Maps
    requires k < |maps|
  {
    maps[k := HashMap(false, {})]
  }

  lemma EmptiedLinks(streams: Streams, maps: Maps, owner: Owners, nodes: map<nat, Stream>, k: nat)
    requires LinksOwned(streams, owner) && StreamsRead(streams, maps, nodes)
    requires k < |maps| == |owner| && !IsList(streams, map[], owner[k], k)
    ensures LinksOwned(streams, owner[k := Nobody])
    ensures StreamsRead(streams, Emptied(maps, k), nodes)
  {
  }

  lemma EmptiedSides(connectors: Connectors, maps: Maps, owner: Owners,
                     hubs: map<nat, Connector>, k: nat)
    requires SidesOwned(connectors, owner) && ConnectorsRead(connectors, maps, hubs)
    requires k < |maps| == |owner|
    requires !IsList(map[], connectors, owner[k], k)
    ensures SidesOwned(connectors, owner[k := Nobody])
    ensures ConnectorsRead(connectors, Emptied(maps, k), hubs)
  {
  }

  /** The owners after a connector has gone and its maps are given back. */
  lemma ConnectorLeft(streams: Streams, connectors: Connectors, owner: Owners, c: nat)
    requires OwnersLive(streams, connectors, owner, {}) && SidesOwned(connectors, owner)
    requires c in connectors
    ensures var i, o := connectors[c].streamInList, connectors[c].streamOutList;
            OwnersLive(streams, connectors - {c}, owner[i := Nobody][o := Nobody], {})
  {
  }

  lemma StreamLeft(streams: Streams, connectors: Connectors, owner: Owners, s: nat)
    requires OwnersLive(streams, connectors, owner, {}) && LinksOwned(streams, owner)
    requires s in streams
    ensures OwnersLive(streams - {s}, connectors,
                       owner[streams[s].connectorList := Nobody], {})
  {
  }

  /** The owners after a map was taken and given back. */
  lemma ReturnedLive(streams: Streams, connectors: Connectors, owner: Owners, k: nat)
    requires OwnersLive(streams, connectors, owner, {k}) && k < |owner|
    ensures OwnersLive(streams, connectors, owner[k := Nobody], {})
  {
  }
}
