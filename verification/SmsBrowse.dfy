/**
  Browsing a mailbox (components/smsInboxService/smsInbox.c, `SmsInbox_GetFirst` and
  `SmsInbox_GetNext`): a snapshot of the list is walked while messages come and go.
 */
module SmsBrowse {
  import opened SmsStore
  import opened SmsInvariant
  import opened SmsRuns
  import opened SmsInbox

  // ---- the calls ---------------------------------------------------------------------------

  /** The first position from `cur` on whose file exists, or the end. */
  function NextExisting(snapshot: seq<nat>, cur: nat, files: set<nat>): (k: nat)
    requires cur <= |snapshot|
    ensures cur <= k <= |snapshot|
    ensures forall j :: cur <= j < k ==> snapshot[j] !in files
    ensures k < |snapshot| ==> snapshot[k] in files
    decreases |snapshot| - cur
  {
    if cur == |snapshot| || snapshot[cur] in files then cur
    else NextExisting(snapshot, cur + 1, files)
  }

  class Session {
    const inbox: Inbox
    const app: string
    var snapshot: seq<nat>
    var currentMessageIndex: nat
    var maxIndex: nat

    /** Snapshot identifiers are positive: the skip loop would otherwise not end. */
    ghost predicate Valid()
      reads this
    {
      && currentMessageIndex <= maxIndex == |snapshot|
      && forall k :: 0 <= k < |snapshot| ==> snapshot[k] > 0
    }

    constructor (i: Inbox, a: string)
      ensures inbox == i && app == a && Valid() && snapshot == []
    {
      inbox, app := i, a;
      snapshot, currentMessageIndex, maxIndex := [], 0, 0;
    }

    method Reset()
      modifies this
      ensures Valid() && snapshot == []
    {
      snapshot, currentMessageIndex, maxIndex := [], 0, 0;
    }

    /** `SmsInbox_GetFirst`: takes the snapshot and returns its first identifier. */
    method GetFirst() returns (id: nat)
      requires app in inbox.mbox
      requires forall k :: k in inbox.mbox[app] ==> k > 0
      modifies this
      ensures Valid()
      ensures if inbox.mbox[app] == [] then id == 0 && snapshot == []
              else snapshot == inbox.mbox[app] && id == snapshot[0] && currentMessageIndex == 1
    {
      snapshot := inbox.mbox[app];
      assert forall k :: 0 <= k < |snapshot| ==> snapshot[k] in inbox.mbox[app];
      maxIndex := |snapshot|;
      id := 0;
      if maxIndex > 0 {
        id := snapshot[0];
        if id != 0 {
          currentMessageIndex := 1;
        }
      }
      if id == 0 {
        Reset();
      }
    }

    /** `SmsInbox_GetNext`: skips the messages whose file is gone; 0 ends the walk. */
    method GetNext() returns (id: nat)
      requires Valid()
      modifies this
      ensures Valid()
      ensures var k := NextExisting(old(snapshot), old(currentMessageIndex), inbox.files.Keys);
              if k < |old(snapshot)| then
                && id == old(snapshot)[k] && snapshot == old(snapshot)
                && currentMessageIndex == k + 1
              else id == 0 && snapshot == []
    {
      while maxIndex != currentMessageIndex
        invariant Valid() && snapshot == old(snapshot) && maxIndex == old(maxIndex)
        invariant NextExisting(snapshot, currentMessageIndex, inbox.files.Keys)
                  == NextExisting(snapshot, old(currentMessageIndex), inbox.files.Keys)
        decreases maxIndex - currentMessageIndex
      {
        var messageId := snapshot[currentMessageIndex];
        if messageId > 0 {
          currentMessageIndex := currentMessageIndex + 1;
          if messageId in inbox.files {
            return messageId;
          }
        }
      }
      Reset();
      id := 0;
    }
  }

  // ---- a whole walk ------------------------------------------------------------------------

  /** What successive `GetNext` calls return, one set of existing files per call, up to the
      first 0. */
  function Walk(snapshot: seq<nat>, cur: nat, worlds: seq<set<nat>>): seq<nat>
    requires cur <= |snapshot|
    decreases |worlds|
  {
    if worlds == [] then []
    else
      var k := NextExisting(snapshot, cur, worlds[0]);
      if k == |snapshot| then [0]
      else [snapshot[k]] + Walk(snapshot, k + 1, worlds[1..])
  }

  /** A snapshot identifier and the world in which the walk came to it. */
  datatype Visit = Visit(id: nat, world: set<nat>)

  function Visits(snapshot: seq<nat>, cur: nat, worlds: seq<set<nat>>): seq<Visit>
    requires cur <= |snapshot|
    decreases |snapshot| - cur
  {
    if cur == |snapshot| || worlds == [] then []
    else
      [Visit(snapshot[cur], worlds[0])]
      + Visits(snapshot, cur + 1, if snapshot[cur] in worlds[0] then worlds[1..] else worlds)
  }

  /** The visits that found a file. */
  function Found(visits: seq<Visit>): seq<nat> {
    if visits == [] then []
    else (if visits[0].id in visits[0].world then [visits[0].id] else []) + Found(visits[1..])
  }

  function Ids(visits: seq<Visit>): seq<nat> {
    if visits == [] then [] else [visits[0].id] + Ids(visits[1..])
  }

  predicate Complete(results: seq<nat>) {
    results != [] && results[|results| - 1] == 0
  }

  /** Passing over a missing file changes nothing but the place. */
  lemma WalkSkips(snapshot: seq<nat>, cur: nat, worlds: seq<set<nat>>)
    requires cur < |snapshot| && worlds != [] && snapshot[cur] !in worlds[0]
    ensures Walk(snapshot, cur, worlds) == Walk(snapshot, cur + 1, worlds)
  {
  }

  /** A walk over n identifiers ends within n calls: each returns one of them, or is the last. */
  lemma {:induction false} WalkEnds(snapshot: seq<nat>, cur: nat, worlds: seq<set<nat>>)
    requires cur <= |snapshot| && |worlds| > |snapshot| - cur
    ensures Complete(Walk(snapshot, cur, worlds))
    ensures |Walk(snapshot, cur, worlds)| <= |snapshot| - cur + 1
    decreases |worlds|
  {
    var k := NextExisting(snapshot, cur, worlds[0]);
    if k < |snapshot| {
      WalkEnds(snapshot, k + 1, worlds[1..]);
    }
  }

  /** What is left of a walk that ends is a walk that ends. */
  lemma WalkGoesOn(snapshot: seq<nat>, cur: nat, worlds: seq<set<nat>>)
    requires cur < |snapshot| && worlds != [] && snapshot[cur] in worlds[0] && snapshot[cur] > 0
    requires Complete(Walk(snapshot, cur, worlds))
    ensures Walk(snapshot, cur, worlds) == [snapshot[cur]] + Walk(snapshot, cur + 1, worlds[1..])
    ensures Complete(Walk(snapshot, cur + 1, worlds[1..]))
  {
    assert Walk(snapshot, cur, worlds)[|Walk(snapshot, cur + 1, worlds[1..])|] == 0;
  }

  lemma VisitsStep(snapshot: seq<nat>, cur: nat, worlds: seq<set<nat>>, rest: seq<set<nat>>)
    requires cur < |snapshot| && worlds != []
    requires rest == if snapshot[cur] in worlds[0] then worlds[1..] else worlds
    ensures Ids(Visits(snapshot, cur, worlds))
            == [snapshot[cur]] + Ids(Visits(snapshot, cur + 1, rest))
    ensures Found(Visits(snapshot, cur, worlds))
            == (if snapshot[cur] in worlds[0] then [snapshot[cur]] else [])
               + Found(Visits(snapshot, cur + 1, rest))
  {
    assert Visits(snapshot, cur, worlds)[1..] == Visits(snapshot, cur + 1, rest);
  }

  /** A walk that ends has visited every later identifier of the snapshot once, in order... */
  lemma {:induction false} WalkVisitsAll(snapshot: seq<nat>, cur: nat, worlds: seq<set<nat>>)
    requires cur <= |snapshot| && Complete(Walk(snapshot, cur, worlds))
    requires forall k :: 0 <= k < |snapshot| ==> snapshot[k] > 0
    ensures Ids(Visits(snapshot, cur, worlds)) == snapshot[cur..]
    decreases |snapshot| - cur
  {
    if cur < |snapshot| {
      var rest := if snapshot[cur] in worlds[0] then worlds[1..] else worlds;
      if snapshot[cur] in worlds[0] {
        WalkGoesOn(snapshot, cur, worlds);
      } else {
        WalkSkips(snapshot, cur, worlds);
      }
      WalkVisitsAll(snapshot, cur + 1, rest);
      VisitsStep(snapshot, cur, worlds, rest);
      assert snapshot[cur..] == [snapshot[cur]] + snapshot[cur + 1..];
    } else {
      assert snapshot[cur..] == [];
    }
  }

  /** ...and returned exactly those whose file existed when visited. */
  lemma {:induction false} WalkIsExact(snapshot: seq<nat>, cur: nat, worlds: seq<set<nat>>)
    requires cur <= |snapshot| && Complete(Walk(snapshot, cur, worlds))
    requires forall k :: 0 <= k < |snapshot| ==> snapshot[k] > 0
    ensures Walk(snapshot, cur, worlds) == Found(Visits(snapshot, cur, worlds)) + [0]
    decreases |snapshot| - cur
  {
    if cur < |snapshot| {
      var rest := if snapshot[cur] in worlds[0] then worlds[1..] else worlds;
      if snapshot[cur] in worlds[0] {
        WalkGoesOn(snapshot, cur, worlds);
      } else {
        WalkSkips(snapshot, cur, worlds);
      }
      WalkIsExact(snapshot, cur + 1, rest);
      VisitsStep(snapshot, cur, worlds, rest);
    }
  }

  /** The promise to a caller: one `GetFirst` and `GetNext` until 0 return the first snapshot
      identifier and then, in order and once each, exactly the later ones whose file existed when
      the walk came to them. */
  lemma BrowseIsExact(snapshot: seq<nat>, worlds: seq<set<nat>>)
    requires snapshot != [] && Complete(Walk(snapshot, 1, worlds))
    requires forall k :: 0 <= k < |snapshot| ==> snapshot[k] > 0
    ensures [snapshot[0]] + Ids(Visits(snapshot, 1, worlds)) == snapshot
    ensures Walk(snapshot, 1, worlds) == Found(Visits(snapshot, 1, worlds)) + [0]
  {
    WalkVisitsAll(snapshot, 1, worlds);
    WalkIsExact(snapshot, 1, worlds);
  }

  /** From one call to the next, files only disappear. */
  ghost predicate Shrinking(worlds: seq<set<nat>>, ids: seq<nat>) {
    |worlds| >= 2 ==>
      && (forall id :: id in ids && id in worlds[1] ==> id in worlds[0])
      && Shrinking(worlds[1..], ids)
  }

  lemma {:induction false} FoundMembers(visits: seq<Visit>, id: nat)
    ensures id in Found(visits) <==> exists k :: 0 <= k < |visits| && visits[k].id == id
                                                 && id in visits[k].world
  {
    if visits != [] {
      FoundMembers(visits[1..], id);
      if id in Found(visits[1..]) {
        var k :| 0 <= k < |visits[1..]| && visits[1..][k].id == id && id in visits[1..][k].world;
        assert visits[k + 1].id == id && id in visits[k + 1].world;
      }
      if exists k :: 0 <= k < |visits| && visits[k].id == id && id in visits[k].world {
        var k :| 0 <= k < |visits| && visits[k].id == id && id in visits[k].world;
        if k > 0 {
          assert visits[1..][k - 1].id == id && id in visits[1..][k - 1].world;
        }
      }
    }
  }

  lemma {:induction false} VisitsAre(snapshot: seq<nat>, cur: nat, worlds: seq<set<nat>>, k: nat)
    requires cur <= |snapshot| && k < |Visits(snapshot, cur, worlds)|
    ensures cur + k < |snapshot| && Visits(snapshot, cur, worlds)[k].id == snapshot[cur + k]
    ensures Visits(snapshot, cur, worlds)[k].world in worlds
    decreases |snapshot| - cur
  {
    if k > 0 {
      var rest := if snapshot[cur] in worlds[0] then worlds[1..] else worlds;
      VisitsAre(snapshot, cur + 1, rest, k - 1);
      assert Visits(snapshot, cur, worlds)[k] == Visits(snapshot, cur + 1, rest)[k - 1];
    }
  }

  lemma {:induction false} IdsLength(visits: seq<Visit>)
    ensures |Ids(visits)| == |visits|
  {
    if visits != [] {
      IdsLength(visits[1..]);
    }
  }

  /** A message that exists in the last world exists in every one. */
  lemma {:induction false} Outlives(worlds: seq<set<nat>>, ids: seq<nat>, id: nat, world: set<nat>)
    requires Shrinking(worlds, ids) && id in ids && world in worlds
    ensures id in worlds[|worlds| - 1] ==> id in world
    ensures id in world ==> id in worlds[0]
  {
    if |worlds| >= 2 {
      var later := worlds[1..];
      assert later[|later| - 1] == worlds[|worlds| - 1];
      Outlives(later, ids, id, if world == worlds[0] then worlds[1] else world);
    }
  }

  /** With files that only disappear, a complete walk misses no message that outlives it and
      returns none that was gone before it began. */
  lemma SurvivorsAreReturned(snapshot: seq<nat>, worlds: seq<set<nat>>, p: nat)
    requires 1 <= p < |snapshot| && worlds != [] && Complete(Walk(snapshot, 1, worlds))
    requires forall k :: 0 <= k < |snapshot| ==> snapshot[k] > 0
    requires Shrinking(worlds, snapshot)
    ensures snapshot[p] in worlds[|worlds| - 1] ==> snapshot[p] in Walk(snapshot, 1, worlds)
    ensures snapshot[p] in Walk(snapshot, 1, worlds) ==> snapshot[p] in worlds[0]
  {
    VisitsComplete(snapshot, worlds);
    SurvivorsFound(snapshot, worlds, Visits(snapshot, 1, worlds), p - 1, snapshot[p]);
  }

  lemma VisitsComplete(snapshot: seq<nat>, worlds: seq<set<nat>>)
    requires snapshot != [] && Complete(Walk(snapshot, 1, worlds))
    requires forall k :: 0 <= k < |snapshot| ==> snapshot[k] > 0
    ensures var v := Visits(snapshot, 1, worlds);
            && Walk(snapshot, 1, worlds) == Found(v) + [0]
            && |v| == |snapshot| - 1
            && forall k :: 0 <= k < |v| ==> v[k].id == snapshot[1 + k] && v[k].world in worlds
  {
    WalkVisitsAll(snapshot, 1, worlds);
    WalkIsExact(snapshot, 1, worlds);
    var v := Visits(snapshot, 1, worlds);
    IdsLength(v);
    forall k | 0 <= k < |v|
      ensures v[k].id == snapshot[1 + k] && v[k].world in worlds
    {
      VisitsAre(snapshot, 1, worlds, k);
    }
  }

  lemma SurvivorsFound(snapshot: seq<nat>, worlds: seq<set<nat>>, v: seq<Visit>, q: nat, id: nat)
    requires worlds != [] && id in snapshot && Shrinking(worlds, snapshot)
    requires q < |v| && v[q].id == id
    requires forall k :: 0 <= k < |v| ==> v[k].world in worlds
    ensures id in worlds[|worlds| - 1] ==> id in Found(v)
    ensures id in Found(v) ==> id in worlds[0]
  {
    FoundMembers(v, id);
    Outlives(worlds, snapshot, id, v[q].world);
    if id in Found(v) {
      var k :| 0 <= k < |v| && v[k].id == id && id in v[k].world;
      Outlives(worlds, snapshot, id, v[k].world);
    }
  }

  // ---- walks inside runs of the service ----------------------------------------------------

  /** Operations while the service stays up, none of which breaks the store. */
  ghost predicate Served(s: Store, ops: seq<Op>)
    requires IsRun(s, ops)
    decreases |ops|
  {
    ops != [] ==>
      !ops[0].Restart? && Safe(s, ops[0]) && Served(Next(s, ops[0]), ops[1..])
  }

  lemma NumbersOnlyGrow(s: Store, op: Op)
    requires Inv(s) && !op.Restart? && Safe(s, op)
    ensures Next(s, op).next >= s.next
  {
    match op {
      case Arrival(content) => ArriveNumber(s, content);
      case Deletion(app, id) => DeleteFrame(s, app, id);
      case Marking(app, id, unread) => MarkEffect(s, app, id, unread);
      case Limiting(app, n) =>
    }
  }

  /** A file that is gone stays gone. */
  lemma {:induction false} GoneForGood(s: Store, ops: seq<Op>, id: nat)
    requires Inv(s) && IsRun(s, ops) && Served(s, ops) && id < s.next
    ensures Inv(After(s, ops)) && id < After(s, ops).next
    ensures id in After(s, ops).files ==> id in s.files
    decreases |ops|
  {
    if ops != [] {
      StepIff(s, ops[0]);
      NumbersOnlyGrow(s, ops[0]);
      if id !in s.files {
        FilesOnlyShrink(s, ops[0], id);
      }
      GoneForGood(Next(s, ops[0]), ops[1..], id);
    }
  }

  /** Operations between the calls of a walk: those before the first `GetNext`, those between
      the first and the second, and so on. */
  ghost predicate Interleaved(s: Store, segments: seq<seq<Op>>)
    decreases |segments|
  {
    segments != [] ==>
      && IsRun(s, segments[0]) && Served(s, segments[0])
      && Interleaved(After(s, segments[0]), segments[1..])
  }

  /** The files that exist at each `GetNext`. */
  ghost function Worlds(s: Store, segments: seq<seq<Op>>): seq<set<nat>>
    requires Interleaved(s, segments)
    decreases |segments|
  {
    if segments == [] then []
    else
      var t := After(s, segments[0]);
      [t.files.Keys] + Worlds(t, segments[1..])
  }

  lemma {:induction false} WorldsShrink(s: Store, segments: seq<seq<Op>>, ids: seq<nat>)
    requires Inv(s) && Interleaved(s, segments) && forall id :: id in ids ==> id < s.next
    ensures Shrinking(Worlds(s, segments), ids)
    ensures |Worlds(s, segments)| == |segments|
    ensures segments != [] ==>
              forall id :: id in ids && id in Worlds(s, segments)[0] ==> id in s.files
    decreases |segments|
  {
    if segments != [] {
      var t := After(s, segments[0]);
      GoneForGood(s, segments[0], 0);
      forall id | id in ids
        ensures id < t.next && (id in t.files ==> id in s.files)
      {
        GoneForGood(s, segments[0], id);
      }
      WorldsShrink(t, segments[1..], ids);
      assert Worlds(s, segments)[1..] == Worlds(t, segments[1..]);
    }
  }

  /** A walk over a mailbox while the service goes on: from a sound store, with any operations
      between the calls, a walk that ends returned the first identifier of the list and then, in
      order and once each, exactly those later ones whose file existed when visited; in
      particular every message that is still there at the end. */
  lemma BrowsingInRuns(s: Store, app: string, segments: seq<seq<Op>>)
    requires Inv(s) && app in s.box && s.box[app] != []
    requires Interleaved(s, segments) && segments != []
    requires Complete(Walk(s.box[app], 1, Worlds(s, segments)))
    ensures var list, worlds := s.box[app], Worlds(s, segments);
            && [list[0]] + Ids(Visits(list, 1, worlds)) == list
            && Walk(list, 1, worlds) == Found(Visits(list, 1, worlds)) + [0]
            && worlds != []
            && forall p :: 1 <= p < |list| && list[p] in worlds[|worlds| - 1] ==>
                 list[p] in Walk(list, 1, worlds)
  {
    ListNumbers(s, app);
    WorldsShrink(s, segments, s.box[app]);
    BrowseIsExact(s.box[app], Worlds(s, segments));
    AllSurvivorsAreReturned(s.box[app], Worlds(s, segments));
  }

  lemma ListNumbers(s: Store, app: string)
    requires ListsOrdered(s, s.next) && app in s.box
    ensures forall k :: 0 <= k < |s.box[app]| ==> s.box[app][k] > 0
    ensures forall id :: id in s.box[app] ==> id < s.next
  {
    assert forall k :: 0 <= k < |s.box[app]| ==> s.box[app][k] in s.box[app];
  }

  lemma AllSurvivorsAreReturned(list: seq<nat>, worlds: seq<set<nat>>)
    requires list != [] && worlds != [] && Complete(Walk(list, 1, worlds))
    requires Shrinking(worlds, list) && forall k :: 0 <= k < |list| ==> list[k] > 0
    ensures forall p :: 1 <= p < |list| && list[p] in worlds[|worlds| - 1] ==>
              list[p] in Walk(list, 1, worlds)
  {
    forall p | 1 <= p < |list| && list[p] in worlds[|worlds| - 1]
      ensures list[p] in Walk(list, 1, worlds)
    {
      SurvivorsAreReturned(list, worlds, p);
    }
  }

  /** One `GetFirst` and as many `GetNext` calls as the mailbox then held messages always reach
      the end, and so return all that is promised. */
  lemma BrowsingEnds(s: Store, app: string, segments: seq<seq<Op>>)
    requires Inv(s) && app in s.box && s.box[app] != []
    requires Interleaved(s, segments) && |segments| >= |s.box[app]|
    ensures var list, worlds := s.box[app], Worlds(s, segments);
            && Complete(Walk(list, 1, worlds)) && worlds != []
            && Walk(list, 1, worlds) == Found(Visits(list, 1, worlds)) + [0]
            && forall p :: 1 <= p < |list| && list[p] in worlds[|worlds| - 1] ==>
                 list[p] in Walk(list, 1, worlds)
  {
    WorldsShrink(s, segments, s.box[app]);
    WalkEnds(s.box[app], 1, Worlds(s, segments));
    BrowsingInRuns(s, app, segments);
  }
}
