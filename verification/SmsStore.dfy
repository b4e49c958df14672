/**
  The SMS inbox store (components/smsInboxService/smsInbox.c) as a value: message files shared
  by all mailboxes, each with a deleted and an unread flag per mailbox, and one list of
  identifiers per mailbox.  A file is physically removed once every mailbox has flagged it.
 */
module SmsStore {
  import opened Basics

  const MAX_MBOX_SIZE: nat := 100

  /** A message file. */
  datatype Entry = Entry(content: string, unread: map<string, bool>, deleted: map<string, bool>)

  datatype Store = Store(
    apps: seq<string>,              // mailbox names, in the order of `Apps`
    limit: map<string, nat>,        // `inboxSize`
    box: map<string, seq<nat>>,     // the identifiers each mailbox lists
    files: map<nat, Entry>,
    next: nat)                      // `NextMessageId`

  ghost predicate Distinct(names: seq<string>) {
    forall i, j :: 0 <= i < j < |names| ==> names[i] != names[j]
  }

  /** Mailboxes are named once each and all have a limit and a list. */
  ghost predicate WellFormed(s: Store) {
    && s.apps != [] && Distinct(s.apps)
    && (forall a :: a in s.apps <==> a in s.box)
    && s.limit.Keys == s.box.Keys
  }

  // ---- lists -------------------------------------------------------------------------------

  /** The removal loop from index i: after a removal the next element slides under the index and
      is passed over. */
  function RemoveFrom(list: seq<nat>, i: nat, id: nat): seq<nat>
    decreases |list| - i
  {
    if i >= |list| then list
    else if list[i] == id then RemoveFrom(list[..i] + list[i + 1..], i + 1, id)
    else RemoveFrom(list, i + 1, id)
  }

  ghost predicate Increasing(list: seq<nat>) {
    forall i, j :: 0 <= i < j < |list| ==> list[i] < list[j]
  }

  lemma {:induction false} WithoutIncreasing(list: seq<nat>, id: nat)
    requires Increasing(list)
    ensures Increasing(Without(list, id))
  {
    if list != [] {
      WithoutIncreasing(list[1..], id);
      WithoutMembers(list[1..], id);
      var rest := Without(list[1..], id);
      forall k | 0 <= k < |rest|
        ensures list[0] < rest[k]
      {
        assert rest[k] in rest;
      }
    }
  }

  /** Two neighbours that both hold the identifier: the loop misses the second. */
  ghost predicate HasTwins(list: seq<nat>, id: nat) {
    exists i :: 0 <= i < |list| - 1 && list[i] == id == list[i + 1]
  }

  /** The loop from index i leaves the identifier out of the rest of the list, unless twins stand
      there. */
  lemma {:induction false} RemoveFromIs(list: seq<nat>, i: nat, id: nat)
    requires i <= |list| && !HasTwins(list[i..], id)
    ensures RemoveFrom(list, i, id) == list[..i] + Without(list[i..], id)
    decreases |list| - i
  {
    if i < |list| {
      var rest := list[i..];
      assert rest[1..] == list[i + 1..];
      if list[i] == id {
        var shorter := list[..i] + list[i + 1..];
        if i + 1 < |list| {
          assert list[i + 1] != id by {
            assert rest[0] == id && rest[1] == list[i + 1];
          }
          assert shorter[i + 1..] == list[i + 2..];
          assert list[i + 1..] == [list[i + 1]] + list[i + 2..];
          NoTwinsLater(rest, 2, id);
          assert rest[2..] == list[i + 2..];
          RemoveFromIs(shorter, i + 1, id);
          assert shorter[..i + 1] == list[..i] + [list[i + 1]];
          assert Without(list[i + 1..], id) == [list[i + 1]] + Without(list[i + 2..], id) by {
            assert list[i + 1..][1..] == list[i + 2..];
          }
        } else {
          assert list[i + 1..] == [];
        }
      } else {
        NoTwinsLater(rest, 1, id);
        RemoveFromIs(list, i + 1, id);
        assert list[..i + 1] == list[..i] + [list[i]];
      }
    } else {
      assert list[..i] == list && list[i..] == [];
    }
  }

  lemma NoTwinsLater(list: seq<nat>, k: nat, id: nat)
    requires !HasTwins(list, id) && k <= |list|
    ensures !HasTwins(list[k..], id)
  {
  }

  lemma {:induction false} PrefixKept(list: seq<nat>, i: nat, id: nat)
    requires i <= |list|
    ensures i <= |RemoveFrom(list, i, id)| && RemoveFrom(list, i, id)[..i] == list[..i]
    decreases |list| - i
  {
    if i < |list| {
      if list[i] == id {
        var shorter := list[..i] + list[i + 1..];
        if i + 1 <= |shorter| {
          PrefixKept(shorter, i + 1, id);
          var r := RemoveFrom(shorter, i + 1, id);
          assert r[..i] == r[..i + 1][..i] == shorter[..i + 1][..i] == list[..i];
        } else {
          assert shorter == list[..i];
        }
      } else {
        PrefixKept(list, i + 1, id);
        var r := RemoveFrom(list, i + 1, id);
        assert r[..i] == r[..i + 1][..i] == list[..i + 1][..i];
      }
    }
  }

  /** Twins survive the loop. */
  lemma {:induction false} TwinsSurvive(list: seq<nat>, i: nat, id: nat)
    requires i <= |list| && HasTwins(list[i..], id)
    ensures id in RemoveFrom(list, i, id)
    decreases |list| - i
  {
    var rest := list[i..];
    var k :| 0 <= k < |rest| - 1 && rest[k] == id == rest[k + 1];
    if list[i] != id {
      assert list[i + 1..][k - 1] == id == list[i + 1..][k];
      TwinsSurvive(list, i + 1, id);
    } else {
      var shorter := list[..i] + list[i + 1..];
      if list[i + 1] == id {
        PrefixKept(shorter, i + 1, id);
        var r := RemoveFrom(shorter, i + 1, id);
        assert r[i] == r[..i + 1][i] == shorter[..i + 1][i] == id;
      } else {
        assert shorter[i + 1..] == list[i + 2..];
        assert list[i + 2..][k - 2] == id == list[i + 2..][k - 1];
        TwinsSurvive(shorter, i + 1, id);
      }
    }
  }

  /** The removal loop removes every occurrence exactly when no two stand side by side. */
  lemma RemovalIff(list: seq<nat>, id: nat)
    ensures RemoveFrom(list, 0, id) == Without(list, id) <==> !HasTwins(list, id)
    ensures id !in RemoveFrom(list, 0, id) <==> !HasTwins(list, id)
  {
    assert list[0..] == list;
    WithoutMembers(list, id);
    if HasTwins(list, id) {
      TwinsSurvive(list, 0, id);
    } else {
      RemoveFromIs(list, 0, id);
    }
  }

  /** An increasing list has no twins, so the loop removes exactly the identifier. */
  lemma RemovalOnIncreasing(list: seq<nat>, id: nat)
    requires Increasing(list)
    ensures RemoveFrom(list, 0, id) == Without(list, id)
  {
    RemovalIff(list, id);
  }

  // ---- operations --------------------------------------------------------------------------

  /** `IsDeleted` on a file: a missing key counts as deleted. */
  predicate Flagged(e: Entry, app: string) {
    app in e.deleted ==> e.deleted[app]
  }

  /** `ModifyMsgEntry` on the deleted flag: without the file or the key nothing changes. */
  function FlagDeleted(s: Store, app: string, id: nat): Store {
    if id in s.files && app in s.files[id].deleted then
      var e := s.files[id];
      s.(files := s.files[id := e.(deleted := e.deleted[app := true])])
    else s
  }

  /** `ModifyMsgEntry` on the unread flag. */
  function FlagUnread(s: Store, app: string, id: nat, unread: bool): Store {
    if id in s.files && app in s.files[id].unread then
      var e := s.files[id];
      s.(files := s.files[id := e.(unread := e.unread[app := unread])])
    else s
  }

  predicate AllFlagged(s: Store, id: nat)
    requires id in s.files
  {
    forall a :: a in s.apps ==> Flagged(s.files[id], a)
  }

  /** `PerformDeletion`: unlinks a file every mailbox has flagged.  When the file is missing each
      mailbox drops the identifier from its list. */
  function PerformDeletion(s: Store, id: nat): Store {
    if id !in s.files then s.(box := map a | a in s.box :: RemoveFrom(s.box[a], 0, id))
    else if AllFlagged(s, id) then s.(files := s.files - {id})
    else s
  }

  /** `AddMsgInAppCfg`: a full box first drops its oldest message; a box of size zero that is
      empty refuses the new one. */
  function AddMsg(s: Store, app: string, id: nat): Store
    requires app in s.box && app in s.limit
  {
    var list := s.box[app];
    if |list| == s.limit[app] then
      if list == [] || list[0] == 0 then s
      else
        var s' := PerformDeletion(FlagDeleted(s, app, list[0]), list[0]);
        s'.(box := s'.box[app := list[1..] + [id]])
    else s.(box := s.box[app := list + [id]])
  }

  function AddMsgs(s: Store, apps: seq<string>, id: nat): Store
    requires forall a :: a in apps ==> a in s.box && a in s.limit
    decreases |apps|
  {
    if apps == [] then s
    else
      assert apps[0] in apps;
      var s' := AddMsg(s, apps[0], id);
      AddMsgs(s', apps[1..], id)
  }

  function FlagsFor(apps: seq<string>, value: bool): map<string, bool> {
    map a | a in apps :: value
  }

  /** The store just after the new file is created. */
  function Created(s: Store, content: string): Store {
    s.(files := s.files[s.next := Entry(content, FlagsFor(s.apps, true), FlagsFor(s.apps, false))])
  }

  /** `CreateMsgEntry` and `EncodeMsgEntry`: a new file, unread and not deleted for all, its
      identifier in every list, and the next identifier in 32-bit arithmetic. */
  function Arrive(s: Store, content: string): Store
    requires WellFormed(s)
  {
    var s' := AddMsgs(Created(s, content), s.apps, s.next);
    s'.(next := (s.next + 1) % TWO32)
  }

  /** `CheckMessageIdInMbox`. */
  predicate Listed(s: Store, app: string, id: nat) {
    app in s.box && id in s.box[app]
  }

  /** `SmsInbox_DeleteMsg`. */
  function Delete(s: Store, app: string, id: nat): Store {
    if !Listed(s, app, id) then s
    else
      var s' := FlagDeleted(s, app, id);
      PerformDeletion(s'.(box := s'.box[app := RemoveFrom(s'.box[app], 0, id)]), id)
  }

  /** `SmsInbox_MarkRead` and `SmsInbox_MarkUnread`; the getters mark as read. */
  function Mark(s: Store, app: string, id: nat, unread: bool): Store {
    if !Listed(s, app, id) then s else FlagUnread(s, app, id, unread)
  }

  /** `SmsInbox_SetMaxMessages`. */
  function SetMax(s: Store, app: string, n: nat): Store {
    if n > MAX_MBOX_SIZE || app !in s.limit then s else s.(limit := s.limit[app := n])
  }

  // ---- the invariant -----------------------------------------------------------------------

  /** Files carry a flag for every mailbox. */
  ghost predicate FlagsComplete(s: Store) {
    forall i, a :: i in s.files && a in s.box ==>
      a in s.files[i].deleted && a in s.files[i].unread
  }

  /** No dangling entry: a mailbox lists exactly the files it has not flagged, where `id` counts
      only for the mailboxes in `reached`. */
  ghost predicate ListsMatch(s: Store, id: nat, reached: set<string>) {
    forall a, i :: a in s.box ==>
      (i in s.box[a] <==> i in s.files && !Flagged(s.files[i], a) && (i == id ==> a in reached))
  }

  /** No leak: every file but `id` is listed by some mailbox. */
  ghost predicate FilesListed(s: Store, id: nat) {
    forall i :: i in s.files && i != id ==> exists a :: a in s.box && i in s.box[a]
  }

  /** Lists are increasing and their identifiers positive and below a bound. */
  ghost predicate ListsOrdered(s: Store, bound: nat) {
    forall a :: a in s.box ==>
      Increasing(s.box[a]) && forall i :: i in s.box[a] ==> 0 < i < bound
  }

  ghost predicate FilesBelow(s: Store, bound: nat) {
    forall i :: i in s.files ==> 0 < i < bound
  }

  /** The invariant in the middle of the arrival of `id`, which `reached` mailboxes list. */
  ghost predicate Mid(s: Store, id: nat, reached: set<string>, bound: nat) {
    && WellFormed(s) && FlagsComplete(s)
    && ListsMatch(s, id, reached) && FilesListed(s, id)
    && ListsOrdered(s, bound) && FilesBelow(s, bound)
  }

  /** The store invariant: nothing is arriving (no file has number 0). */
  ghost predicate Inv(s: Store) {
    Mid(s, 0, {}, s.next) && 0 < s.next < TWO32
  }
}
