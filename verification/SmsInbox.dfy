/**
  The SMS inbox service itself (components/smsInboxService/smsInbox.c): the global `Apps`, the
  mailbox lists, the message files and `NextMessageId`, changed in place.  `SmsStore` says what
  each operation does to the whole.
 */
module SmsInbox {
  import opened Basics
  import opened SmsNames
  import opened SmsStore
  import opened SmsInvariant
  import opened SmsRuns
  import SmsViews

  datatype Result = Ok | BadParameter | Overflow | Fault

  /** The stored payload does not fit into a buffer for two digits a byte. */
  predicate TooLong(payload: Option<string>, room: nat) {
    payload.Some? && |payload.value| > 2 * room
  }

  lemma AddMsgShape(s: Store, app: string, id: nat)
    requires app in s.box && app in s.limit
    ensures var t := AddMsg(s, app, id);
            t.apps == s.apps && t.limit == s.limit && t.box.Keys == s.box.Keys
  {
  }

  /** One turn of the loop over the mailboxes on arrival. */
  lemma AddMsgsTurn(s: Store, i: nat, id: nat)
    requires WellFormed(s) && i < |s.apps|
    ensures s.apps[i] in s.box && s.apps[i] in s.limit
    ensures var t := AddMsg(s, s.apps[i], id);
            && t.apps == s.apps && t.limit == s.limit && t.box.Keys == s.box.Keys
            && AddMsgs(s, s.apps[i..], id) == AddMsgs(t, s.apps[i + 1..], id)
  {
    assert s.apps[i] in s.apps && s.apps[i..][1..] == s.apps[i + 1..];
    AddMsgShape(s, s.apps[i], id);
  }

  lemma ArrivalEnds(s: Store, content: string, u: Store)
    requires WellFormed(s)
    requires u == AddMsgs(Created(s, content), s.apps, s.next)
    ensures Arrive(s, content) == u.(next := (s.next + 1) % TWO32)
  {
  }

  class Inbox {
    const apps: seq<string>
    var inboxSize: map<string, nat>
    var mbox: map<string, seq<nat>>
    var files: map<nat, Entry>
    var nextMessageId: nat

    function Value(): Store
      reads this
    {
      Store(apps, inboxSize, mbox, files, nextMessageId)
    }

    /** The service starts: limits and lists come from its files, the next identifier from the
        message directory. */
    constructor (s: Store, names: seq<string>)
      requires WellFormed(s)
      requires (forall i :: i in s.files ==> i < TWO32) && Listing(names, s.files.Keys)
      ensures Value() == s.(next := nextMessageId)
      ensures IsReseed(s.files.Keys, nextMessageId)
    {
      apps := s.apps;
      inboxSize, mbox, files := s.limit, s.box, s.files;
      var next := InitSmsInBoxDirectory(names, s.files.Keys);
      nextMessageId := next;
    }

    // ---- lists and flags -------------------------------------------------------------------

    /** `DeleteMsgInAppCfg`: removes while indexing. */
    method DeleteMsgInAppCfg(app: string, id: nat)
      requires app in mbox
      modifies `mbox
      ensures mbox == old(mbox)[app := RemoveFrom(old(mbox)[app], 0, id)]
    {
      var list := mbox[app];
      var i := 0;
      while i < |list|
        invariant RemoveFrom(list, i, id) == RemoveFrom(mbox[app], 0, id)
        invariant mbox == old(mbox)
        decreases |list| - i
      {
        if list[i] == id {
          list := list[..i] + list[i + 1..];
        }
        i := i + 1;
      }
      mbox := mbox[app := list];
    }

    /** `CheckMessageIdInMbox`. */
    method CheckMessageIdInMbox(app: string, id: nat) returns (found: bool)
      requires app in mbox
      ensures found <==> id in mbox[app]
    {
      var i := 0;
      while i < |mbox[app]|
        invariant i <= |mbox[app]| && id !in mbox[app][..i]
      {
        if mbox[app][i] == id {
          return true;
        }
        i := i + 1;
      }
      found := false;
    }

    /** `ModifyMsgEntry` on the deleted flag. */
    method SetDeleted(app: string, id: nat)
      modifies `files
      ensures Value() == FlagDeleted(old(Value()), app, id)
    {
      if id in files && app in files[id].deleted {
        var e := files[id];
        files := files[id := e.(deleted := e.deleted[app := true])];
      }
    }

    /** `IsDeleted`: an unreadable file counts as deleted and leaves the list. */
    method IsDeleted(app: string, id: nat) returns (deleted: bool)
      requires app in mbox
      modifies `mbox
      ensures id in files ==> mbox == old(mbox) && deleted == Flagged(files[id], app)
      ensures id !in files ==>
                deleted && mbox == old(mbox)[app := RemoveFrom(old(mbox)[app], 0, id)]
    {
      if id !in files {
        DeleteMsgInAppCfg(app, id);
        return true;
      }
      deleted := if app in files[id].deleted then files[id].deleted[app] else true;
    }

    /** The question `PerformDeletion` puts to every mailbox. */
    method AskEveryMailbox(id: nat) returns (deleted: bool)
      requires WellFormed(Value())
      modifies `mbox
      ensures id in files ==> mbox == old(mbox) && deleted == AllFlagged(old(Value()), id)
      ensures id !in files ==>
                deleted && mbox == map a | a in old(mbox) :: RemoveFrom(old(mbox)[a], 0, id)
    {
      deleted := true;
      for i := 0 to |apps|
        invariant mbox.Keys == old(mbox).Keys
        invariant id in files ==> mbox == old(mbox)
        invariant id in files ==> (deleted <==> forall j :: 0 <= j < i ==> Flagged(files[id], apps[j]))
        invariant forall j :: i <= j < |apps| ==> apps[j] in mbox && mbox[apps[j]] == old(mbox)[apps[j]]
        invariant id !in files ==> deleted && forall j :: 0 <= j < i ==>
                    apps[j] in mbox && mbox[apps[j]] == RemoveFrom(old(mbox)[apps[j]], 0, id)
      {
        var d := IsDeleted(apps[i], id);
        deleted := deleted && d;
      }
    }

    /** `PerformDeletion`: unlinks a file that every mailbox has flagged. */
    method PerformDeletionOf(id: nat)
      requires WellFormed(Value())
      modifies `mbox, `files
      ensures Value() == PerformDeletion(old(Value()), id)
    {
      var deleted := AskEveryMailbox(id);
      assert id !in files ==> files - {id} == files;
      if deleted {
        files := files - {id};
      }
    }

    // ---- operations ------------------------------------------------------------------------

    /** `AddMsgInAppCfg`. */
    method AddMsgInAppCfg(app: string, id: nat)
      requires WellFormed(Value()) && app in mbox
      modifies `mbox, `files
      ensures Value() == AddMsg(old(Value()), app, id)
      ensures WellFormed(Value())
    {
      var list := mbox[app];
      if |list| == inboxSize[app] {
        var oldest := if list == [] then 0 else list[0];
        if oldest == 0 {
          return;
        }
        list := list[1..];
        SetDeleted(app, oldest);
        PerformDeletionOf(oldest);
      }
      mbox := mbox[app := list + [id]];
    }

    /** The loop over `Apps` on arrival. */
    method AddMsgInAllCfgs(id: nat)
      requires WellFormed(Value())
      modifies `mbox, `files
      ensures Value() == AddMsgs(old(Value()), apps, id)
    {
      for i := 0 to |apps|
        invariant WellFormed(Value())
        invariant AddMsgs(Value(), apps[i..], id) == AddMsgs(old(Value()), apps, id)
      {
        AddMsgsTurn(Value(), i, id);
        AddMsgInAppCfg(apps[i], id);
      }
      assert apps[|apps|..] == [];
    }

    /** The new message file. */
    method EncodeMsgEntry(content: string)
      modifies `files
      ensures Value() == Created(old(Value()), content)
    {
      var e := Entry(content, FlagsFor(apps, true), FlagsFor(apps, false));
      files := files[nextMessageId := e];
    }

    /** The new file and the new entry in every list. */
    method EnterMessage(content: string) returns (id: nat)
      requires WellFormed(Value())
      modifies this
      ensures id == old(nextMessageId)
      ensures Value() == Arrive(old(Value()), content)
    {
      ghost var before := Value();
      id := nextMessageId;
      EncodeMsgEntry(content);
      AddMsgInAllCfgs(id);
      ghost var added := Value();
      ArrivalEnds(before, content, added);
      nextMessageId := (nextMessageId + 1) % TWO32;
    }

    /** `CreateMsgEntry` followed by `EncodeMsgEntry`: a sound store stays sound exactly when the
        identifiers do not run out and every mailbox takes the message. */
    method CreateMsgEntry(content: string) returns (id: nat)
      requires WellFormed(Value())
      modifies this
      ensures id == old(nextMessageId)
      ensures Value() == Arrive(old(Value()), content)
      ensures old(Inv(Value())) ==> (Inv(Value()) <==> old(CanArrive(Value())))
      ensures old(Inv(Value())) ==> id in files && NewEntry(files[id], content, apps)
      ensures OthersKept(old(Value()), Value(), id)
      ensures old(Inv(Value())) && id + 1 < TWO32 ==>
                SmsViews.ViewsStep(old(Value()), Arrival(content), Value())
    {
      ArrivalKeepsOthers(Value(), content);
      if Inv(Value()) {
        ArriveKeepsInvIff(Value(), content);
        ArriveBoxes(Value(), content);
        if nextMessageId + 1 < TWO32 {
          SmsViews.ViewsStepAll(Value(), Arrival(content));
        }
      }
      id := EnterMessage(content);
    }

    /** `SmsInbox_DeleteMsg`. */
    method DeleteMsg(app: string, id: nat)
      requires WellFormed(Value()) && app in mbox
      modifies `mbox, `files
      ensures Value() == Delete(old(Value()), app, id)
      ensures old(Inv(Value())) ==> Inv(Value()) && id !in mbox[app]
      ensures old(Inv(Value())) ==>
                SmsViews.ViewsStep(old(Value()), Deletion(app, id), Value())
      ensures id !in old(mbox)[app] ==> Value() == old(Value())
    {
      if Inv(Value()) {
        SmsViews.ViewsStepAll(Value(), Deletion(app, id));
        DeleteKeepsInv(Value(), app, id);
        MailboxIsQueue(Value(), Deletion(app, id), app);
        WithoutMembers(mbox[app], id);
      }
      var found := CheckMessageIdInMbox(app, id);
      if !found {
        return;
      }
      SetDeleted(app, id);
      DeleteMsgInAppCfg(app, id);
      PerformDeletionOf(id);
    }

    /** `SmsInbox_MarkRead` and `SmsInbox_MarkUnread`: a sound store stays sound, the flag of this
        mailbox is what was asked for, and no other mailbox sees a difference. */
    method MarkMessage(app: string, id: nat, unread: bool)
      requires app in mbox
      modifies `files
      ensures Value() == Mark(old(Value()), app, id, unread)
      ensures old(Inv(Value())) ==> Inv(Value())
      ensures old(Inv(Value())) && id in mbox[app] ==>
                id in files && app in files[id].unread && files[id].unread[app] == unread
      ensures old(Inv(Value())) ==>
                SmsViews.ViewsStep(old(Value()), Marking(app, id, unread), Value())
      ensures id !in old(mbox)[app] ==> Value() == old(Value())
    {
      if Inv(Value()) {
        MarkKeepsInv(Value(), app, id, unread);
        SmsViews.ViewsStepAll(Value(), Marking(app, id, unread));
      }
      var found := CheckMessageIdInMbox(app, id);
      if found && id in files && app in files[id].unread {
        var e := files[id];
        files := files[id := e.(unread := e.unread[app := unread])];
      }
    }

    /** `SmsInbox_IsUnread`: the mailbox's own flag.  An identifier that is not listed gives the
        negative code of a bad parameter, which as a truth value is true; a missing file gives
        false and leaves the list. */
    method IsUnread(app: string, id: nat) returns (unread: bool)
      requires app in mbox
      modifies `mbox
      ensures id !in old(mbox)[app] ==> unread
      ensures id in old(mbox)[app] ==>
                (unread <==> id in files && app in files[id].unread && files[id].unread[app])
      ensures mbox == if id in old(mbox)[app] && id !in files
                      then old(mbox)[app := RemoveFrom(old(mbox)[app], 0, id)] else old(mbox)
      ensures old(Inv(Value())) && id in old(mbox)[app] ==>
                && SmsViews.Visible(old(Value()), app)
                && SmsViews.MessageOf(old(Value()), app, id).unread == unread
    {
      if Inv(Value()) {
        SmsViews.InvVisible(Value(), app);
      }
      var found := CheckMessageIdInMbox(app, id);
      if !found {
        return true;
      }
      if id !in files {
        DeleteMsgInAppCfg(app, id);
        return false;
      }
      unread := if app in files[id].unread then files[id].unread[app] else false;
    }

    /** `SmsInbox_GetText` and the other getters: read the payload out of the file, decode it and
        mark the message as read.  An unreadable file leaves the list; a payload that is missing,
        longer than twice the caller's room or not decodable changes nothing. */
    method GetText(app: string, id: nat, payload: string -> Option<string>, room: nat,
                   decode: string -> Option<string>)
      returns (r: Result, text: string)
      requires app in mbox
      modifies `files, `mbox
      ensures r == BadParameter <==> id !in old(mbox)[app]
      ensures r == Ok || r == BadParameter || r == Overflow || r == Fault
      ensures r == Overflow <==> id in old(mbox)[app] && id in old(files)
                                 && TooLong(payload(old(files)[id].content), room)
      ensures r == Ok <==> id in old(mbox)[app] && id in old(files)
                           && payload(old(files)[id].content).Some?
                           && !TooLong(payload(old(files)[id].content), room)
                           && decode(payload(old(files)[id].content).value).Some?
      ensures r == Ok ==> decode(payload(old(files)[id].content).value) == Some(text)
      ensures r == Ok || r == BadParameter ==> Value() == Mark(old(Value()), app, id, false)
      ensures (r == Fault && id in old(files)) || r == Overflow ==> Value() == old(Value())
      ensures r == Fault && id !in old(files) ==>
                Value() == old(Value()).(box := old(mbox)[app := RemoveFrom(old(mbox)[app], 0, id)])
    {
      text := "";
      var found := CheckMessageIdInMbox(app, id);
      if !found {
        return BadParameter, "";
      }
      if id !in files {
        DeleteMsgInAppCfg(app, id);
        return Fault, "";
      }
      var stored := payload(files[id].content);
      if stored.None? {
        return Fault, "";
      }
      if |stored.value| >= 2 * room + 1 {
        return Overflow, "";
      }
      var decoded := decode(stored.value);
      if decoded.None? {
        return Fault, "";
      }
      text := decoded.value;
      MarkMessage(app, id, false);
      r := Ok;
    }

    /** `SmsInbox_SetMaxMessages`: a sound store stays sound, and mailboxes within their limits
        stay so exactly when the new limit is not below the length. */
    method SetMaxMessages(app: string, n: nat) returns (r: Result)
      modifies `inboxSize
      ensures old(Inv(Value())) ==> Inv(Value())
      ensures old(WellFormed(Value())) && old(WithinLimits(Value())) ==>
                (WithinLimits(Value()) <==>
                   (n <= MAX_MBOX_SIZE && app in mbox ==> |mbox[app]| <= n))
      ensures Value() == SetMax(old(Value()), app, n)
      ensures r == if n > 100 then Overflow else if app in inboxSize then Ok else Fault
    {
      if WellFormed(Value()) && WithinLimits(Value()) {
        BoundIff(Value(), Limiting(app, n));
      }
      if Inv(Value()) {
        LimitKeepsInv(Value(), app, n);
      }
      if n > MAX_MBOX_SIZE {
        return Overflow;
      }
      if app in inboxSize {
        inboxSize := inboxSize[app := n];
        return Ok;
      }
      r := Fault;
    }
  }
}
