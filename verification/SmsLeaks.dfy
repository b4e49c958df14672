/**
  Where the SMS inbox (components/smsInboxService/smsInbox.c) parts from its promises: concrete
  stores, and the fate of a message that a mailbox of size zero refuses.
 */
module SmsLeaks {
  import opened Basics
  import opened SmsNames
  import opened SmsStore
  import opened SmsInvariant
  import opened SmsRuns

  // ---- a refused message stays for ever ----------------------------------------------------

  /** The file exists, and mailbox a neither lists it nor has it flagged deleted. */
  ghost predicate Stranded(s: Store, id: nat, a: string) {
    && WellFormed(s) && a in s.box && id !in s.box[a]
    && id in s.files && !Flagged(s.files[id], a)
  }

  lemma {:induction false} RemoveFromMembers(list: seq<nat>, i: nat, id: nat, x: nat)
    requires x !in list
    ensures x !in RemoveFrom(list, i, id)
    decreases |list| - i
  {
    if i < |list| {
      RemoveFromMembers(if list[i] == id then list[..i] + list[i + 1..] else list, i + 1, id, x);
    }
  }

  lemma PerformDeletionStrands(s: Store, o: nat, id: nat, a: string)
    requires Stranded(s, id, a)
    ensures Stranded(PerformDeletion(s, o), id, a)
  {
    RemoveFromMembers(s.box[a], 0, o, id);
    assert a in s.apps;
  }

  /** Flagging for another mailbox, or another message. */
  lemma FlagStrands(s: Store, app: string, o: nat, id: nat, a: string)
    requires Stranded(s, id, a) && (app == a ==> o != id)
    ensures Stranded(FlagDeleted(s, app, o), id, a)
  {
  }

  lemma BoxStrands(s: Store, app: string, list: seq<nat>, id: nat, a: string)
    requires Stranded(s, id, a) && app in s.box && (app == a ==> id !in list)
    ensures Stranded(s.(box := s.box[app := list]), id, a)
  {
  }

  lemma DeleteStrands(s: Store, app: string, o: nat, id: nat, a: string)
    requires Stranded(s, id, a)
    ensures Stranded(Delete(s, app, o), id, a)
  {
    if Listed(s, app, o) {
      var f := FlagDeleted(s, app, o);
      FlagStrands(s, app, o, id, a);
      if app == a {
        RemoveFromMembers(s.box[a], 0, o, id);
      }
      BoxStrands(f, app, RemoveFrom(f.box[app], 0, o), id, a);
      PerformDeletionStrands(f.(box := f.box[app := RemoveFrom(f.box[app], 0, o)]), o, id, a);
    }
  }

  /** Another message is added to a mailbox; or this one, but not to a. */
  lemma AddMsgStrands(s: Store, app: string, new_id: nat, id: nat, a: string)
    requires Stranded(s, id, a) && app in s.box && app in s.limit
    requires app == a ==> new_id != id || (s.limit[a] == 0 && s.box[a] == [])
    ensures Stranded(AddMsg(s, app, new_id), id, a)
  {
    var list := s.box[app];
    if |list| == s.limit[app] {
      if list != [] && list[0] != 0 {
        var f := FlagDeleted(s, app, list[0]);
        FlagStrands(s, app, list[0], id, a);
        PerformDeletionStrands(f, list[0], id, a);
        BoxStrands(PerformDeletion(f, list[0]), app, list[1..] + [new_id], id, a);
      }
    } else {
      BoxStrands(s, app, list + [new_id], id, a);
    }
  }

  /** An empty mailbox of size zero stays one while others take a message. */
  lemma AddMsgRefused(s: Store, app: string, new_id: nat, a: string)
    requires app in s.box && app in s.limit
    requires a in s.box && a in s.limit && s.limit[a] == 0 && s.box[a] == []
    ensures var t := AddMsg(s, app, new_id);
            a in t.box && t.limit == s.limit && t.box.Keys == s.box.Keys && t.box[a] == []
  {
    if app != a && s.box[app] != [] {
      PerformDeletionShrinks(FlagDeleted(s, app, s.box[app][0]), s.box[app][0]);
    }
  }

  lemma {:induction false} AddMsgsStrands(s: Store, apps: seq<string>, new_id: nat, id: nat, a: string)
    requires Stranded(s, id, a) && forall b :: b in apps ==> b in s.box && b in s.limit
    requires new_id != id || (s.limit[a] == 0 && s.box[a] == [])
    ensures Stranded(AddMsgs(s, apps, new_id), id, a)
    decreases |apps|
  {
    if apps != [] {
      assert apps[0] in apps;
      var t := AddMsg(s, apps[0], new_id);
      AddMsgStrands(s, apps[0], new_id, id, a);
      if new_id == id {
        AddMsgRefused(s, apps[0], new_id, a);
      }
      AddMsgKeys(s, apps[0], new_id);
      AddMsgsStrands(t, apps[1..], new_id, id, a);
    }
  }

  lemma AddMsgKeys(s: Store, app: string, id: nat)
    requires app in s.box && app in s.limit
    ensures var t := AddMsg(s, app, id); t.limit == s.limit && t.box.Keys == s.box.Keys
  {
  }

  /** A message that arrives while an empty mailbox has size zero is stranded there. */
  lemma RefusedIsStranded(s: Store, content: string, a: string)
    requires WellFormed(s) && a in s.box && s.limit[a] == 0 && s.box[a] == []
    ensures Stranded(Arrive(s, content), s.next, a)
  {
    var c := Created(s, content);
    assert a in s.apps;
    assert c.files[s.next].deleted[a] == false;
    AddMsgsStrands(c, s.apps, s.next, s.next, a);
    StrandedIgnoresNext(AddMsgs(c, s.apps, s.next), (s.next + 1) % TWO32, s.next, a);
  }

  lemma StrandedIgnoresNext(s: Store, next: nat, id: nat, a: string)
    requires Stranded(s, id, a)
    ensures Stranded(s.(next := next), id, a)
  {
  }

  lemma ArriveStrands(s: Store, content: string, id: nat, a: string)
    requires Stranded(s, id, a) && s.next != id
    ensures Stranded(Arrive(s, content), id, a)
  {
    var c := Created(s, content);
    assert Stranded(c, id, a);
    AddMsgsStrands(c, s.apps, s.next, id, a);
    StrandedIgnoresNext(AddMsgs(c, s.apps, s.next), (s.next + 1) % TWO32, id, a);
  }

  lemma StepStrands(s: Store, op: Op, id: nat, a: string)
    requires Stranded(s, id, a) && (op.Arrival? ==> s.next != id)
    ensures Stranded(Next(s, op), id, a)
  {
    match op {
      case Arrival(content) => ArriveStrands(s, content, id, a);
      case Deletion(app, o) => DeleteStrands(s, app, o, id, a);
      case Marking(app, o, unread) =>
      case Limiting(app, n) =>
      case Restart(next) => StrandedIgnoresNext(s, next, id, a);
    }
  }

  /** No arrival of the run is given the number. */
  ghost predicate Spares(s: Store, ops: seq<Op>, id: nat)
    requires IsRun(s, ops)
    decreases |ops|
  {
    ops != [] ==>
      (ops[0].Arrival? ==> s.next != id) && Spares(Next(s, ops[0]), ops[1..], id)
  }

  /** The leak is for ever: a message that an empty mailbox of size zero refused is never unlinked
      in any later run, with deletions through every mailbox, other limits and restarts, until its
      number is given out again. */
  lemma {:induction false} StrandedForEver(s: Store, ops: seq<Op>, id: nat, a: string)
    requires Stranded(s, id, a) && IsRun(s, ops) && Spares(s, ops, id)
    ensures id in After(s, ops).files && Stranded(After(s, ops), id, a)
    decreases |ops|
  {
    if ops != [] {
      StepStrands(s, ops[0], id, a);
      StrandedForEver(Next(s, ops[0]), ops[1..], id, a);
    }
  }

  // ---- concrete stores ---------------------------------------------------------------------

  /** A store with one mailbox. */
  function OneBox(limit: nat, list: seq<nat>, files: map<nat, Entry>, next: nat): Store {
    Store(["a"], map["a" := limit], map["a" := list], files, next)
  }

  const NEW: Entry := Entry("", map["a" := true], map["a" := false])

  /** A limit of zero: the store is sound, the arriving message is listed nowhere, and its file
      stays. */
  lemma ZeroLimitLeaks()
    ensures var s := OneBox(0, [], map[], 1);
            && Inv(s)
            && var t := Arrive(s, ""); 1 in t.files && "a" in t.box && 1 !in t.box["a"] && !Inv(t)
  {
    var s := OneBox(0, [], map[], 1);
    assert s.apps[0] == "a";
    RefusedIsStranded(s, "", "a");
    ArriveKeepsInvIff(s, "");
    assert !Accepts(s, "a");
  }

  /** A limit lowered below the length: a sound store within its limits holds three messages
      against a limit of one after the next arrival. */
  lemma LoweredLimitIsExceeded()
    ensures var s := OneBox(2, [1, 2], map[1 := NEW, 2 := NEW], 3);
            && Inv(s) && WithinLimits(s)
            && var t := Arrive(SetMax(s, "a", 1), "");
               && "a" in t.box && t.box["a"] == [1, 2, 3]
               && "a" in t.limit && t.limit["a"] == 1
  {
    TwoMessages();
    LoweredGrows(OneBox(2, [1, 2], map[1 := NEW, 2 := NEW], 3));
  }

  lemma TwoMessages()
    ensures Inv(OneBox(2, [1, 2], map[1 := NEW, 2 := NEW], 3))
  {
    OneBoxInv([1, 2], map[1 := NEW, 2 := NEW], 2, 3);
  }

  /** One mailbox that lists exactly its new files. */
  lemma OneBoxInv(list: seq<nat>, files: map<nat, Entry>, limit: nat, next: nat)
    requires Increasing(list) && 0 < next < TWO32
    requires forall i :: i in list <==> i in files
    requires forall i :: i in files ==> 0 < i < next && files[i] == NEW
    ensures Inv(OneBox(limit, list, files, next))
  {
    var s := OneBox(limit, list, files, next);
    assert s.apps[0] == "a";
    forall i | i in s.files && i != 0
      ensures exists a :: a in s.box && i in s.box[a]
    {
      assert "a" in s.box && i in s.box["a"];
    }
  }

  lemma LoweredGrows(s: Store)
    requires Inv(s) && "a" in s.box && |s.box["a"]| == 2
    ensures var t := Arrive(SetMax(s, "a", 1), "");
            && "a" in t.box && t.box["a"] == s.box["a"] + [s.next]
            && "a" in t.limit && t.limit["a"] == 1
  {
    LimitKeepsInv(s, "a", 1);
    OverLimitGrows(SetMax(s, "a", 1), "", "a");
    ArriveBoxes(SetMax(s, "a", 1), "");
  }

  /** A message number that cannot be read back: after a restart the sound store gives out the
      number 1 although message 2^31 is listed. */
  lemma LargeNumberRestarts()
    ensures var s := OneBox(1, [TWO31], map[TWO31 := NEW], TWO31 + 1);
            && Inv(s) && IsReseed(s.files.Keys, 1) && !Inv(s.(next := 1))
  {
    var s := OneBox(1, [TWO31], map[TWO31 := NEW], TWO31 + 1);
    OneBoxInv([TWO31], map[TWO31 := NEW], 1, TWO31 + 1);
    assert TWO31 in s.files;
    var t := s.(next := 1);
    RestartKeepsInvIff(s, t);
  }
}
