/**
  What every operation of the SMS inbox keeps: no leak, no dangling entry, increasing lists of
  fresh identifiers.
 */
module SmsInvariant {
  import opened Basics
  import opened SmsNames
  import opened SmsStore

  // ---- dropping one message from one mailbox -----------------------------------------------

  /** Flagging a listed message in one mailbox and unlinking it if it was the last. */
  function Dropped(s: Store, app: string, o: nat): Store {
    PerformDeletion(FlagDeleted(s, app, o), o)
  }

  /** Flagging touches one flag of one file. */
  lemma FlagEffect(s: Store, app: string, o: nat)
    requires o in s.files && app in s.files[o].deleted
    ensures var t := FlagDeleted(s, app, o);
            && t.files.Keys == s.files.Keys
            && (forall i :: i in s.files && i != o ==> t.files[i] == s.files[i])
            && (forall a :: a != app ==> Flagged(t.files[o], a) == Flagged(s.files[o], a))
            && Flagged(t.files[o], app)
            && t.files[o].deleted.Keys == s.files[o].deleted.Keys
            && t.files[o].unread == s.files[o].unread && t.files[o].content == s.files[o].content
  {
  }

  lemma DroppedFiles(s: Store, app: string, o: nat)
    requires o in s.files && app in s.files[o].deleted
    ensures var t := Dropped(s, app, o);
            && t == s.(files := t.files)
            && t.files.Keys <= s.files.Keys && s.files.Keys - {o} <= t.files.Keys
            && (forall i :: i in t.files && i != o ==> t.files[i] == s.files[i])
            && (o in t.files ==>
                  && Flagged(t.files[o], app)
                  && (forall a :: a != app ==> Flagged(t.files[o], a) == Flagged(s.files[o], a))
                  && t.files[o].deleted.Keys == s.files[o].deleted.Keys
                  && t.files[o].unread == s.files[o].unread
                  && t.files[o].content == s.files[o].content
                  && exists a :: a in s.apps && a != app && !Flagged(s.files[o], a))
            && (o !in t.files ==> forall a :: a in s.apps && a != app ==> Flagged(s.files[o], a))
  {
    FlagEffect(s, app, o);
    var f := FlagDeleted(s, app, o);
    if !AllFlagged(f, o) {
      var a :| a in f.apps && !Flagged(f.files[o], a);
      assert a != app;
    }
  }

  /** The relation between the stores before and after a drop. */
  ghost predicate IsDrop(s: Store, u: Store, app: string, o: nat) {
    && app in s.box && o in s.files && !Flagged(s.files[o], app)
    && u.apps == s.apps && u.limit == s.limit && u.box.Keys == s.box.Keys
    && (forall a :: a in s.box && a != app ==> u.box[a] == s.box[a])
    && (forall x :: x in u.box[app] <==> x in s.box[app] && x != o)
    && u.files.Keys <= s.files.Keys && s.files.Keys - {o} <= u.files.Keys
    && (forall i :: i in u.files && i != o ==> u.files[i] == s.files[i])
    && (o in u.files ==>
          && Flagged(u.files[o], app)
          && (forall a :: a != app ==> Flagged(u.files[o], a) == Flagged(s.files[o], a))
          && u.files[o].deleted.Keys == s.files[o].deleted.Keys
          && u.files[o].unread == s.files[o].unread
          && exists a :: a in s.apps && a != app && !Flagged(s.files[o], a))
    && (o !in u.files ==> forall a :: a in s.apps && a != app ==> Flagged(s.files[o], a))
  }

  lemma DropIsDrop(s: Store, app: string, o: nat, list: seq<nat>)
    requires app in s.box && o in s.files && !Flagged(s.files[o], app)
    requires forall x :: x in list <==> x in s.box[app] && x != o
    ensures var t := Dropped(s, app, o);
            t.box == s.box && IsDrop(s, t.(box := t.box[app := list]), app, o)
  {
    DroppedFiles(s, app, o);
  }

  lemma DropKeepsShape(s: Store, u: Store, bound: nat, app: string, o: nat)
    requires WellFormed(s) && FlagsComplete(s) && FilesBelow(s, bound) && IsDrop(s, u, app, o)
    ensures WellFormed(u) && FlagsComplete(u) && FilesBelow(u, bound)
  {
  }

  lemma DropKeepsOrder(s: Store, u: Store, bound: nat, app: string, o: nat)
    requires ListsOrdered(s, bound) && app in s.box && u.box.Keys == s.box.Keys
    requires forall a :: a in s.box && a != app ==> u.box[a] == s.box[a]
    requires Increasing(u.box[app]) && forall x :: x in u.box[app] ==> x in s.box[app]
    ensures ListsOrdered(u, bound)
  {
    forall a | a in u.box
      ensures Increasing(u.box[a]) && forall i :: i in u.box[a] ==> 0 < i < bound
    {
      assert a in s.box;
    }
  }

  /** The heart of the store: dropping a message from one mailbox keeps lists and files
      together. */
  lemma DropKeeps(s: Store, id: nat, reached: set<string>, bound: nat, app: string, o: nat,
                  list: seq<nat>)
    requires Mid(s, id, reached, bound)
    requires app in s.box && o in s.box[app] && o != id
    requires Increasing(list) && forall x :: x in list <==> x in s.box[app] && x != o
    ensures var t := Dropped(s, app, o);
            t.box == s.box && Mid(t.(box := t.box[app := list]), id, reached, bound)
  {
    assert o in s.files && !Flagged(s.files[o], app);
    DropIsDrop(s, app, o, list);
    var t := Dropped(s, app, o);
    var u := t.(box := t.box[app := list]);
    DropKeepsLists(s, u, id, reached, app, o);
    DropKeepsFiles(s, u, id, reached, app, o);
    DropKeepsShape(s, u, bound, app, o);
    DropKeepsOrder(s, u, bound, app, o);
  }

  lemma DropKeepsLists(s: Store, u: Store, id: nat, reached: set<string>, app: string, o: nat)
    requires WellFormed(s) && ListsMatch(s, id, reached) && o != id && IsDrop(s, u, app, o)
    ensures ListsMatch(u, id, reached)
  {
    forall a, i | a in u.box
      ensures i in u.box[a] <==> i in u.files && !Flagged(u.files[i], a)
                                 && (i == id ==> a in reached)
    {
      assert i in s.box[a] <==> i in s.files && !Flagged(s.files[i], a)
                                && (i == id ==> a in reached);
      if i == o && a != app && o !in u.files {
        assert a in s.apps;
      }
    }
  }

  lemma DropKeepsFiles(s: Store, u: Store, id: nat, reached: set<string>, app: string, o: nat)
    requires WellFormed(s) && ListsMatch(s, id, reached) && FilesListed(s, id) && o != id
    requires IsDrop(s, u, app, o)
    ensures FilesListed(u, id)
  {
    forall i | i in u.files && i != id
      ensures exists a :: a in u.box && i in u.box[a]
    {
      if i == o {
        var a :| a in s.apps && a != app && !Flagged(s.files[o], a);
        assert a in s.box && o in s.box[a];
        assert a in u.box && o in u.box[a];
      } else {
        var a :| a in s.box && i in s.box[a];
        assert a in u.box && i in u.box[a];
      }
    }
  }

  // ---- arrival -----------------------------------------------------------------------------

  /** A mailbox takes a new message unless its size is zero and it is empty. */
  predicate Accepts(s: Store, app: string)
    requires app in s.box && app in s.limit
  {
    s.limit[app] != 0 || s.box[app] != []
  }

  function Accepting(s: Store, apps: seq<string>): set<string> {
    set a | a in apps && a in s.box && a in s.limit && Accepts(s, a)
  }

  /** What a bounded queue does on arrival: a full box drops its oldest. */
  function Pushed(list: seq<nat>, limit: nat, id: nat): seq<nat> {
    if |list| == limit then (if list == [] then [] else list[1..] + [id]) else list + [id]
  }

  ghost predicate NewFile(s: Store, id: nat) {
    id in s.files && forall a :: a in s.box ==> !Flagged(s.files[id], a)
  }

  /** The store with one more identifier at the end of a list. */
  function Appended(s: Store, app: string, id: nat): Store
    requires app in s.box
  {
    s.(box := s.box[app := s.box[app] + [id]])
  }

  lemma AppendKeepsLists(s: Store, id: nat, reached: set<string>, app: string)
    requires ListsMatch(s, id, reached) && NewFile(s, id) && app in s.box
    ensures ListsMatch(Appended(s, app, id), id, reached + {app})
  {
    var u := Appended(s, app, id);
    forall a, i | a in u.box
      ensures i in u.box[a] <==> i in u.files && !Flagged(u.files[i], a)
                                 && (i == id ==> a in reached + {app})
    {
      assert i in s.box[a] <==> i in s.files && !Flagged(s.files[i], a)
                                && (i == id ==> a in reached);
    }
  }

  lemma AppendKeepsFiles(s: Store, id: nat, app: string)
    requires FilesListed(s, id) && app in s.box
    ensures FilesListed(Appended(s, app, id), id)
  {
    var u := Appended(s, app, id);
    forall i | i in u.files && i != id
      ensures exists a :: a in u.box && i in u.box[a]
    {
      var a :| a in s.box && i in s.box[a];
      assert a in u.box && i in u.box[a];
    }
  }

  lemma AppendKeepsOrder(s: Store, id: nat, app: string)
    requires ListsOrdered(s, id + 1) && app in s.box && 0 < id && id !in s.box[app]
    ensures ListsOrdered(Appended(s, app, id), id + 1)
  {
    var u, list := Appended(s, app, id), s.box[app];
    forall k | 0 <= k < |list|
      ensures list[k] < id
    {
      assert list[k] in list;
    }
    assert Increasing(list + [id]);
    forall a | a in u.box
      ensures Increasing(u.box[a]) && forall i :: i in u.box[a] ==> 0 < i < id + 1
    {
      assert a in s.box;
    }
  }

  lemma AppendKeeps(s: Store, id: nat, reached: set<string>, app: string)
    requires Mid(s, id, reached, id + 1) && NewFile(s, id) && 0 < id
    requires app in s.box && app !in reached
    ensures Mid(Appended(s, app, id), id, reached + {app}, id + 1)
  {
    AppendKeepsLists(s, id, reached, app);
    AppendKeepsFiles(s, id, app);
    assert id !in s.box[app];
    AppendKeepsOrder(s, id, app);
    AppendKeepsShape(s, id, app);
  }

  lemma AppendKeepsShape(s: Store, id: nat, app: string)
    requires WellFormed(s) && FlagsComplete(s) && FilesBelow(s, id + 1) && app in s.box
    ensures var u := Appended(s, app, id);
            WellFormed(u) && FlagsComplete(u) && FilesBelow(u, id + 1)
  {
  }

  /** A full box drops its oldest and then appends. */
  lemma AddMsgToFull(s: Store, app: string, id: nat)
    requires app in s.box && app in s.limit
    requires |s.box[app]| == s.limit[app] && s.box[app] != [] && s.box[app][0] != 0
    requires s.box[app][0] in s.files
    ensures var list := s.box[app];
            var t := Dropped(s, app, list[0]);
            && t.box == s.box
            && AddMsg(s, app, id) == Appended(t.(box := t.box[app := list[1..]]), app, id)
  {
    var list := s.box[app];
    var t := Dropped(s, app, list[0]);
    var u := t.(box := t.box[app := list[1..]]);
    assert u.box[app] + [id] == list[1..] + [id];
    assert t.box[app := list[1..]][app := list[1..] + [id]] == t.box[app := list[1..] + [id]];
  }

  /** One mailbox takes the new message. */
  lemma AddMsgKeeps(s: Store, id: nat, reached: set<string>, app: string)
    requires Mid(s, id, reached, id + 1) && NewFile(s, id) && 0 < id
    requires app in s.box && app !in reached
    ensures var t := AddMsg(s, app, id);
            && Mid(t, id, if Accepts(s, app) then reached + {app} else reached, id + 1)
            && NewFile(t, id)
            && t.box == s.box[app := Pushed(s.box[app], s.limit[app], id)]
            && t.limit == s.limit && t.apps == s.apps && t.next == s.next
            && t.files[id] == s.files[id]
  {
    var list := s.box[app];
    if |list| == s.limit[app] && list != [] {
      FullBoxKeeps(s, id, reached, app);
    } else if |list| != s.limit[app] {
      AppendKeeps(s, id, reached, app);
    }
  }

  lemma TailMembers(list: seq<nat>)
    requires Increasing(list) && list != []
    ensures Increasing(list[1..]) && forall x :: x in list[1..] <==> x in list && x != list[0]
  {
    assert list == [list[0]] + list[1..];
    forall x | x in list[1..]
      ensures x != list[0]
    {
      var k :| 0 <= k < |list[1..]| && list[1..][k] == x;
      assert list[k + 1] == x;
    }
  }

  lemma FullBoxKeeps(s: Store, id: nat, reached: set<string>, app: string)
    requires Mid(s, id, reached, id + 1) && NewFile(s, id) && 0 < id
    requires app in s.box && app !in reached
    requires |s.box[app]| == s.limit[app] && s.box[app] != []
    ensures var t := AddMsg(s, app, id);
            && Mid(t, id, reached + {app}, id + 1) && NewFile(t, id)
            && t.box == s.box[app := Pushed(s.box[app], s.limit[app], id)]
            && t.limit == s.limit && t.apps == s.apps && t.next == s.next
            && t.files[id] == s.files[id]
  {
    var list := s.box[app];
    var o := list[0];
    assert o in list && o in s.files && o != id && 0 < o;
    assert app in s.files[o].deleted;
    TailMembers(list);
    DroppedFiles(s, app, o);
    DropKeeps(s, id, reached, id + 1, app, o, list[1..]);
    AddMsgToFull(s, app, id);
    var t := Dropped(s, app, o);
    var u := t.(box := t.box[app := list[1..]]);
    assert NewFile(u, id);
    AppendKeeps(u, id, reached, app);
  }

  /** Every mailbox among `apps` has done what a bounded queue does. */
  ghost predicate PushedAll(s: Store, t: Store, apps: seq<string>, id: nat) {
    && t.box.Keys == s.box.Keys && t.limit == s.limit && s.box.Keys == s.limit.Keys
    && forall a :: a in s.box ==>
         t.box[a] == if a in apps then Pushed(s.box[a], s.limit[a], id) else s.box[a]
  }

  lemma PushedStep(s: Store, t: Store, u: Store, apps: seq<string>, id: nat)
    requires apps != [] && apps[0] in s.box && s.box.Keys == s.limit.Keys && t.limit == s.limit
    requires apps[0] !in apps[1..] && forall a :: a in apps <==> a == apps[0] || a in apps[1..]
    requires t.box == s.box[apps[0] := Pushed(s.box[apps[0]], s.limit[apps[0]], id)]
    requires PushedAll(t, u, apps[1..], id)
    ensures PushedAll(s, u, apps, id)
  {
  }

  /** All of them take it, in order. */
  lemma {:induction false} AddMsgsKeeps(s: Store, id: nat, reached: set<string>, apps: seq<string>)
    requires Mid(s, id, reached, id + 1) && NewFile(s, id) && 0 < id
    requires forall a :: a in apps ==> a in s.box && a !in reached
    requires Distinct(apps)
    ensures var t := AddMsgs(s, apps, id);
            Mid(t, id, reached + Accepting(s, apps), id + 1) && NewFile(t, id)
    decreases |apps|
  {
    if apps != [] {
      var t, reached' := AddMsgsFirst(s, id, reached, apps);
      AddMsgsKeeps(t, id, reached', apps[1..]);
    } else {
      assert reached + Accepting(s, apps) == reached;
    }
  }

  lemma AddMsgsFirst(s: Store, id: nat, reached: set<string>, apps: seq<string>)
    returns (t: Store, reached': set<string>)
    requires Mid(s, id, reached, id + 1) && NewFile(s, id) && 0 < id
    requires apps != [] && forall a :: a in apps ==> a in s.box && a !in reached
    requires Distinct(apps)
    ensures Mid(t, id, reached', id + 1) && NewFile(t, id) && Distinct(apps[1..])
    ensures forall a :: a in apps[1..] ==> a in t.box && a !in reached'
    ensures AddMsgs(s, apps, id) == AddMsgs(t, apps[1..], id)
    ensures reached' + Accepting(t, apps[1..]) == reached + Accepting(s, apps)
  {
    var app := apps[0];
    t := AddMsg(s, app, id);
    reached' := if Accepts(s, app) then reached + {app} else reached;
    AddMsgKeeps(s, id, reached, app);
    FirstApart(apps);
    AcceptingStep(s, t, apps, reached);
  }

  lemma {:induction false} AddMsgsPush(s: Store, id: nat, reached: set<string>, apps: seq<string>)
    requires Mid(s, id, reached, id + 1) && NewFile(s, id) && 0 < id
    requires forall a :: a in apps ==> a in s.box && a !in reached
    requires Distinct(apps)
    ensures var t := AddMsgs(s, apps, id);
            && PushedAll(s, t, apps, id)
            && t.apps == s.apps && t.next == s.next
            && id in t.files && t.files[id] == s.files[id]
    decreases |apps|
  {
    if apps != [] {
      var app := apps[0];
      var t := AddMsg(s, app, id);
      AddMsgKeeps(s, id, reached, app);
      FirstApart(apps);
      AddMsgsPush(t, id, if Accepts(s, app) then reached + {app} else reached, apps[1..]);
      PushedStep(s, t, AddMsgs(t, apps[1..], id), apps, id);
    }
  }

  lemma FirstApart(apps: seq<string>)
    requires apps != [] && Distinct(apps)
    ensures apps[0] !in apps[1..] && Distinct(apps[1..])
    ensures forall a :: a in apps <==> a == apps[0] || a in apps[1..]
  {
    assert apps == [apps[0]] + apps[1..];
  }

  lemma AcceptingStep(s: Store, t: Store, apps: seq<string>, reached: set<string>)
    requires apps != [] && apps[0] in s.box && apps[0] in s.limit
    requires apps[0] !in apps[1..] && forall a :: a in apps <==> a == apps[0] || a in apps[1..]
    requires t.limit == s.limit && t.box.Keys == s.box.Keys
    requires forall a :: a in s.box && a != apps[0] ==> t.box[a] == s.box[a]
    ensures (if Accepts(s, apps[0]) then reached + {apps[0]} else reached)
            + Accepting(t, apps[1..]) == reached + Accepting(s, apps)
  {
  }

  lemma CreatedLists(s: Store, content: string)
    requires ListsMatch(s, 0, {}) && FilesListed(s, 0) && s.next !in s.files && 0 !in s.files
    ensures var t := Created(s, content); ListsMatch(t, s.next, {}) && FilesListed(t, s.next)
  {
    var t := Created(s, content);
    forall a, i | a in t.box
      ensures i in t.box[a] <==> i in t.files && !Flagged(t.files[i], a) && (i == s.next ==> a in {})
    {
      assert i in s.box[a] <==> i in s.files && !Flagged(s.files[i], a) && (i == 0 ==> a in {});
    }
    forall i | i in t.files && i != s.next
      ensures exists a :: a in t.box && i in t.box[a]
    {
      var a :| a in s.box && i in s.box[a];
      assert a in t.box && i in t.box[a];
    }
  }

  lemma CreatedShape(s: Store, content: string)
    requires WellFormed(s) && FlagsComplete(s) && ListsOrdered(s, s.next) && FilesBelow(s, s.next)
    requires 0 < s.next
    ensures var t := Created(s, content);
            && WellFormed(t) && FlagsComplete(t) && NewFile(t, s.next)
            && ListsOrdered(t, s.next + 1) && FilesBelow(t, s.next + 1)
  {
    var t := Created(s, content);
    forall a | a in t.box
      ensures Increasing(t.box[a]) && forall i :: i in t.box[a] ==> 0 < i < s.next + 1
    {
      assert a in s.box;
    }
  }

  lemma CreatedIsMid(s: Store, content: string)
    requires Inv(s)
    ensures Mid(Created(s, content), s.next, {}, s.next + 1) && NewFile(Created(s, content), s.next)
  {
    assert s.next !in s.files && 0 !in s.files;
    CreatedLists(s, content);
    CreatedShape(s, content);
  }

  /** The invariant does not look at the limits' values, the next number or the contents. */
  lemma MidFrame(s: Store, t: Store, id: nat, reached: set<string>, bound: nat)
    requires Mid(s, id, reached, bound)
    requires t.apps == s.apps && t.box == s.box && t.limit.Keys == s.limit.Keys
    requires t.files.Keys == s.files.Keys
    requires forall i :: i in s.files ==> t.files[i].deleted == s.files[i].deleted
                                          && t.files[i].unread.Keys == s.files[i].unread.Keys
    ensures Mid(t, id, reached, bound)
  {
    MidFrameLists(s, t, id, reached);
  }

  lemma MidFrameLists(s: Store, t: Store, id: nat, reached: set<string>)
    requires ListsMatch(s, id, reached) && FilesListed(s, id)
    requires t.box == s.box && t.files.Keys == s.files.Keys
    requires forall i :: i in s.files ==> t.files[i].deleted == s.files[i].deleted
    ensures ListsMatch(t, id, reached) && FilesListed(t, id)
  {
    forall a, i | a in t.box
      ensures i in t.box[a] <==> i in t.files && !Flagged(t.files[i], a) && (i == id ==> a in reached)
    {
      assert i in s.box[a] <==> i in s.files && !Flagged(s.files[i], a) && (i == id ==> a in reached);
    }
    forall i | i in t.files && i != id
      ensures exists a :: a in t.box && i in t.box[a]
    {
      var a :| a in s.box && i in s.box[a];
      assert a in t.box && i in t.box[a];
    }
  }

  /** The mailboxes after an arrival. */
  lemma ArriveBoxes(s: Store, content: string)
    requires Inv(s)
    ensures var t := Arrive(s, content);
            && PushedAll(s, t, s.apps, s.next)
            && t.apps == s.apps && t.next == (s.next + 1) % TWO32
            && s.next in t.files && NewEntry(t.files[s.next], content, s.apps)
  {
    CreatedIsMid(s, content);
    PushToAll(s, Created(s, content), Arrive(s, content));
  }

  /** A message file as it is first written: the content, and for every mailbox and no other name
      that it is unread and not deleted. */
  ghost predicate NewEntry(e: Entry, content: string, apps: seq<string>) {
    && e.content == content
    && (forall a :: a in e.unread <==> a in apps) && (forall a :: a in e.deleted <==> a in apps)
    && (forall a :: a in apps ==> e.unread[a] && !e.deleted[a])
  }

  /** No file but `id` is new, and those that remain keep their content and unread flags. */
  ghost predicate OthersKept(s: Store, t: Store, id: nat) {
    forall i :: i in t.files && i != id ==>
      && i in s.files && t.files[i].content == s.files[i].content
      && t.files[i].unread == s.files[i].unread
  }

  lemma {:induction false} AddMsgsKeepOthers(s: Store, apps: seq<string>, new_id: nat, id: nat)
    requires forall a :: a in apps ==> a in s.box && a in s.limit
    ensures OthersKept(s, AddMsgs(s, apps, new_id), id)
    decreases |apps|
  {
    if apps != [] {
      assert apps[0] in apps;
      AddMsgsKeepOthers(AddMsg(s, apps[0], new_id), apps[1..], new_id, id);
    }
  }

  /** An arrival leaves the content and the unread flags of every older file that remains. */
  lemma ArrivalKeepsOthers(s: Store, content: string)
    requires WellFormed(s)
    ensures OthersKept(s, Arrive(s, content), s.next)
  {
    AddMsgsKeepOthers(Created(s, content), s.apps, s.next, s.next);
  }

  lemma PushToAll(s: Store, c: Store, t: Store)
    requires Mid(c, s.next, {}, s.next + 1) && NewFile(c, s.next) && 0 < s.next
    requires s.box == c.box && s.limit == c.limit && s.apps == c.apps
    requires t == AddMsgs(c, c.apps, s.next).(next := (s.next + 1) % TWO32)
    ensures PushedAll(s, t, s.apps, s.next) && t.apps == s.apps
    ensures s.next in t.files && t.files[s.next] == c.files[s.next]
  {
    AddMsgsPush(c, s.next, {}, c.apps);
    PushedFrame(c, AddMsgs(c, c.apps, s.next), s, t, s.apps, s.next);
  }

  lemma PushedFrame(c: Store, u: Store, s: Store, t: Store, apps: seq<string>, id: nat)
    requires PushedAll(c, u, apps, id)
    requires s.box == c.box && s.limit == c.limit && t.box == u.box && t.limit == u.limit
    ensures PushedAll(s, t, apps, id)
  {
  }

  lemma ArriveMid(s: Store, content: string)
    requires Inv(s)
    ensures var t := Arrive(s, content);
            Mid(t, s.next, Accepting(s, s.apps), s.next + 1) && NewFile(t, s.next)
  {
    CreatedIsMid(s, content);
    var c := Created(s, content);
    AddMsgsKeeps(c, s.next, {}, c.apps);
    assert {} + Accepting(c, c.apps) == Accepting(s, s.apps);
    var u := AddMsgs(c, c.apps, s.next);
    MidFrame(u, Arrive(s, content), s.next, Accepting(s, s.apps), s.next + 1);
  }

  /** An arrival can go well: the identifiers do not run out and every mailbox takes it. */
  ghost predicate CanArrive(s: Store) {
    s.next + 1 < TWO32 && forall a :: a in s.box && a in s.limit ==> Accepts(s, a)
  }

  lemma MidToInv(t: Store, id: nat, reached: set<string>)
    requires Mid(t, id, reached, id + 1) && NewFile(t, id) && 0 < id && id + 1 < TWO32
    requires t.next == id + 1 && forall a :: a in t.box ==> a in reached
    ensures Inv(t)
  {
    assert t.apps[0] in t.apps;
    var first := t.apps[0];
    assert id in t.box[first];
    forall a, i | a in t.box
      ensures i in t.box[a] <==> i in t.files && !Flagged(t.files[i], a) && (i == 0 ==> a in {})
    {
      assert i in t.box[a] <==> i in t.files && !Flagged(t.files[i], a) && (i == id ==> a in reached);
    }
    forall i | i in t.files && i != 0
      ensures exists a :: a in t.box && i in t.box[a]
    {
      if i == id {
        assert first in t.box && id in t.box[first];
      }
    }
  }

  /** Arrival keeps the invariant exactly when it can go well: a mailbox of size zero that is
      empty leaves a file nobody lists and nobody will delete, and the 2^32-th identifier wraps
      to a used one. */
  lemma ArriveKeepsInvIff(s: Store, content: string)
    requires Inv(s)
    ensures Inv(Arrive(s, content)) <==> CanArrive(s)
  {
    ArriveBoxes(s, content);
    if CanArrive(s) {
      ArriveKeepsInv(s, content);
    } else if s.next + 1 < TWO32 {
      RefusalLeaks(s, Arrive(s, content), s.next);
    }
  }

  lemma ArriveKeepsInv(s: Store, content: string)
    requires Inv(s) && CanArrive(s)
    ensures Inv(Arrive(s, content))
  {
    ArriveMid(s, content);
    ArriveBoxes(s, content);
    ArrivedInv(s, Arrive(s, content));
  }

  lemma ArrivedInv(s: Store, t: Store)
    requires WellFormed(s) && 0 < s.next && CanArrive(s)
    requires Mid(t, s.next, Accepting(s, s.apps), s.next + 1) && NewFile(t, s.next)
    requires t.box.Keys == s.box.Keys && t.next == (s.next + 1) % TWO32
    ensures Inv(t)
  {
    AllAccept(s);
    assert t.next == s.next + 1;
    MidToInv(t, s.next, Accepting(s, s.apps));
  }

  lemma AllAccept(s: Store)
    requires WellFormed(s) && forall a :: a in s.box && a in s.limit ==> Accepts(s, a)
    ensures forall a :: a in s.box ==> a in Accepting(s, s.apps)
  {
  }

  /** A mailbox that refuses the message leaves it flagged as kept yet unlisted. */
  lemma RefusalLeaks(s: Store, t: Store, id: nat)
    requires WellFormed(s) && PushedAll(s, t, s.apps, id)
    requires !(forall a :: a in s.box && a in s.limit ==> Accepts(s, a))
    requires id in t.files && id != 0
    requires forall a :: a in s.apps ==> a in t.files[id].deleted && !t.files[id].deleted[a]
    ensures !ListsMatch(t, 0, {})
  {
    var a :| a in s.box && a in s.limit && !Accepts(s, a);
    assert a in s.apps && t.box[a] == [];
    UnlistedFile(t, a, id);
  }

  lemma UnlistedFile(t: Store, a: string, id: nat)
    requires a in t.box && id in t.files && !Flagged(t.files[id], a) && id !in t.box[a] && id != 0
    ensures !ListsMatch(t, 0, {})
  {
  }

  // ---- the other operations ----------------------------------------------------------------

  lemma DeleteUnfolds(s: Store, app: string, id: nat)
    requires Listed(s, app, id) && id in s.files && Increasing(s.box[app])
    ensures var t := Dropped(s, app, id);
            t.box == s.box
            && Delete(s, app, id) == t.(box := t.box[app := Without(s.box[app], id)])
  {
    RemovalOnIncreasing(s.box[app], id);
  }

  lemma DeleteKeepsInv(s: Store, app: string, id: nat)
    requires Inv(s)
    ensures Inv(Delete(s, app, id))
  {
    if Listed(s, app, id) {
      var list := Without(s.box[app], id);
      WithoutMembers(s.box[app], id);
      WithoutIncreasing(s.box[app], id);
      DropKeeps(s, 0, {}, s.next, app, id, list);
      DeleteUnfolds(s, app, id);
    }
  }

  lemma MarkKeepsInv(s: Store, app: string, id: nat, unread: bool)
    requires Inv(s)
    ensures Inv(Mark(s, app, id, unread))
  {
    MarkEffect(s, app, id, unread);
    MidFrame(s, Mark(s, app, id, unread), 0, {}, s.next);
  }

  /** Marking changes at most one unread flag. */
  lemma MarkEffect(s: Store, app: string, id: nat, unread: bool)
    ensures var t := Mark(s, app, id, unread);
            && t == s.(files := t.files) && t.files.Keys == s.files.Keys
            && (forall i :: i in s.files ==>
                  && t.files[i].deleted == s.files[i].deleted
                  && t.files[i].content == s.files[i].content
                  && t.files[i].unread.Keys == s.files[i].unread.Keys
                  && forall a :: a in s.files[i].unread && (a != app || i != id) ==>
                       t.files[i].unread[a] == s.files[i].unread[a])
  {
  }

  lemma InvIgnores(s: Store, limit: map<string, nat>, next: nat)
    requires Inv(s) && limit.Keys == s.limit.Keys
    requires 0 < next < TWO32 && forall i :: i in s.files ==> i < next
    ensures Inv(s.(limit := limit, next := next))
  {
    var t := s.(limit := limit, next := next);
    MidFrame(s, t, 0, {}, s.next);
    OrderedBelow(t, s.next, next);
  }

  lemma OrderedBelow(t: Store, bound: nat, next: nat)
    requires ListsMatch(t, 0, {}) && ListsOrdered(t, bound) && FilesBelow(t, bound)
    requires forall i :: i in t.files ==> i < next
    ensures ListsOrdered(t, next) && FilesBelow(t, next)
  {
    forall a | a in t.box
      ensures Increasing(t.box[a]) && forall i :: i in t.box[a] ==> 0 < i < next
    {
      forall i | i in t.box[a]
        ensures 0 < i < next
      {
        assert i in t.files;
      }
    }
  }

  /** A restart re-seeds the next identifier from the files. */
  ghost predicate Restarted(s: Store, t: Store) {
    t == s.(next := t.next) && IsReseed(s.files.Keys, t.next)
  }

  /** Identifiers stay fresh across a restart exactly when every file number can be read back:
      from 2^31 on the parser refuses it and numbering starts again at 1. */
  lemma RestartKeepsInvIff(s: Store, t: Store)
    requires Inv(s) && Restarted(s, t)
    ensures Inv(t) <==> forall i :: i in s.files ==> i < TWO31
  {
    var ids := s.files.Keys;
    if ids == {} {
      InvIgnores(s, s.limit, t.next);
    } else {
      var m :| m in ids && (forall i :: i in ids ==> i <= m)
               && t.next == if m < TWO31 then m + 1 else 1;
      if m < TWO31 {
        InvIgnores(s, s.limit, t.next);
      } else {
        assert m in t.files && !(m < t.next);
      }
    }
  }
}
