/**
  What one mailbox sees of the SMS inbox (components/smsInboxService/smsInbox.c), and that it is
  a bounded inbox of its own: `Mailbox` knows nothing of files, flags or other mailboxes.
 */
module SmsViews {
  import opened Basics
  import opened SmsStore
  import opened SmsInvariant
  import opened SmsRuns

  /** A message as its reader sees it. */
  datatype Message = Message(id: nat, content: string, unread: bool)

  // ---- a mailbox by itself -----------------------------------------------------------------

  /** A private inbox: its messages, oldest first, its limit and the next number. */
  datatype Mailbox = Mailbox(messages: seq<Message>, limit: nat, next: nat)

  /** A full inbox drops its oldest message; one of size zero takes nothing. */
  function Enter(messages: seq<Message>, limit: nat, m: Message): seq<Message> {
    if |messages| != limit then messages + [m]
    else if limit == 0 then []
    else messages[1..] + [m]
  }

  function Erase(messages: seq<Message>, id: nat): seq<Message> {
    if messages == [] then []
    else if messages[0].id == id then Erase(messages[1..], id)
    else [messages[0]] + Erase(messages[1..], id)
  }

  function SetUnread(messages: seq<Message>, id: nat, unread: bool): (r: seq<Message>)
    ensures |r| == |messages|
    ensures forall k :: 0 <= k < |messages| ==>
              r[k] == if messages[k].id == id then messages[k].(unread := unread) else messages[k]
  {
    seq(|messages|, k requires 0 <= k < |messages| =>
          if messages[k].id == id then messages[k].(unread := unread) else messages[k])
  }

  /** What an operation does to the inbox of a: an arriving message is unread, and operations
      through other mailboxes do nothing. */
  function Step(m: Mailbox, a: string, op: Op): Mailbox {
    match op
    case Arrival(content) =>
      m.(messages := Enter(m.messages, m.limit, Message(m.next, content, true)),
         next := m.next + 1)
    case Deletion(app, id) =>
      if app == a then m.(messages := Erase(m.messages, id)) else m
    case Marking(app, id, unread) =>
      if app == a then m.(messages := SetUnread(m.messages, id, unread)) else m
    case Limiting(app, n) =>
      if app == a && n <= 100 then m.(limit := n) else m
    case Restart(next) => m.(next := next)
  }

  function Replay(m: Mailbox, a: string, ops: seq<Op>): Mailbox
    decreases |ops|
  {
    if ops == [] then m else Replay(Step(m, a, ops[0]), a, ops[1..])
  }

  // ---- what a mailbox of the store sees ----------------------------------------------------

  /** The messages on the list of b, with b's unread flag. */
  ghost function Messages(s: Store, b: string): (r: seq<Message>)
    requires SeenComplete(s, b)
    ensures |r| == |s.box[b]|
    ensures forall k :: 0 <= k < |r| ==> r[k] == MessageOf(s, b, s.box[b][k])
  {
    seq(|s.box[b]|, k requires 0 <= k < |s.box[b]| => MessageOf(s, b, s.box[b][k]))
  }

  ghost function MessageOf(s: Store, b: string, i: nat): Message
    requires SeenComplete(s, b) && i in s.box[b]
  {
    Message(i, s.files[i].content, s.files[i].unread[b])
  }

  ghost predicate Visible(s: Store, b: string) {
    SeenComplete(s, b) && b in s.limit
  }

  ghost function View(s: Store, b: string): Mailbox
    requires Visible(s, b)
  {
    Mailbox(Messages(s, b), s.limit[b], s.next)
  }

  lemma InvVisible(s: Store, b: string)
    requires Inv(s) && b in s.box
    ensures Visible(s, b)
  {
    ListedComplete(s, b);
  }

  // ---- one step ----------------------------------------------------------------------------

  lemma ArrivalView(s: Store, content: string, b: string)
    requires Inv(s) && b in s.box && s.next + 1 < TWO32
    ensures Visible(s, b) && Visible(Arrive(s, content), b)
    ensures View(Arrive(s, content), b) == Step(View(s, b), b, Arrival(content))
  {
    ArrivalEntersAt(s, content, b);
    EnteredView(s, Arrive(s, content), content, b);
  }

  lemma ArrivalEntersAt(s: Store, content: string, b: string)
    requires Inv(s) && b in s.box
    ensures var t := Arrive(s, content);
            EntersAt(s, t, content, b) && t.limit == s.limit && t.next == (s.next + 1) % TWO32
  {
    InvVisible(s, b);
    ArriveBoxes(s, content);
    ArrivalKeepsOthers(s, content);
    ArrivedSeen(s, content, b);
  }

  lemma EnteredView(s: Store, t: Store, content: string, b: string)
    requires EntersAt(s, t, content, b) && t.limit == s.limit && t.next == s.next + 1
    ensures View(t, b) == Step(View(s, b), b, Arrival(content))
  {
    EnteredMessages(s, t, content, b);
  }

  /** Mailbox b before and after an arrival. */
  ghost predicate EntersAt(s: Store, t: Store, content: string, b: string) {
    && Visible(s, b) && Visible(t, b) && b in s.apps
    && t.box[b] == Pushed(s.box[b], s.limit[b], s.next)
    && (forall i :: i in s.box[b] ==> i < s.next)
    && OthersKept(s, t, s.next)
    && s.next in t.files && NewEntry(t.files[s.next], content, s.apps)
  }

  lemma EnteredMessages(s: Store, t: Store, content: string, b: string)
    requires EntersAt(s, t, content, b)
    ensures Messages(t, b) == Enter(Messages(s, b), s.limit[b], Message(s.next, content, true))
  {
    var entered := Enter(Messages(s, b), s.limit[b], Message(s.next, content, true));
    assert |entered| == |t.box[b]|;
    forall k | 0 <= k < |entered|
      ensures Messages(t, b)[k] == entered[k]
    {
      EnteredAt(s, t, content, b, k);
    }
  }

  lemma ArrivedSeen(s: Store, content: string, b: string)
    requires Inv(s) && b in s.box
    ensures Visible(Arrive(s, content), b)
  {
    ArriveBoxes(s, content);
    ArriveMid(s, content);
    MidSeen(Arrive(s, content), s.next, Accepting(s, s.apps), b);
  }

  lemma MidSeen(t: Store, id: nat, reached: set<string>, b: string)
    requires ListsMatch(t, id, reached) && FlagsComplete(t) && b in t.box && b in t.limit
    ensures Visible(t, b)
  {
  }

  lemma EnteredAt(s: Store, t: Store, content: string, b: string, k: nat)
    requires EntersAt(s, t, content, b) && k < |t.box[b]|
    ensures Messages(t, b)[k]
            == Enter(Messages(s, b), s.limit[b], Message(s.next, content, true))[k]
  {
    var i := t.box[b][k];
    assert i in t.box[b] && i in t.files;
    var shift := if |s.box[b]| == s.limit[b] then 1 else 0;
    if k < |t.box[b]| - 1 {
      assert i == s.box[b][k + shift];
      assert i in s.box[b] && i < s.next;
    } else {
      assert i == s.next;
    }
  }

  lemma DeletionView(s: Store, app: string, id: nat, b: string)
    requires Inv(s) && b in s.box
    ensures Visible(s, b) && Visible(Delete(s, app, id), b)
    ensures View(Delete(s, app, id), b) == Step(View(s, b), b, Deletion(app, id))
  {
    var t := Delete(s, app, id);
    InvVisible(s, b);
    DeleteKeepsInv(s, app, id);
    DeleteFrame(s, app, id);
    InvVisible(t, b);
    MailboxIsQueue(s, Deletion(app, id), b);
    if app == b {
      DeletionKeepsEntries(s, app, id);
      ErasedMessages(s, t, b, id, s.box[b], t.box[b], Messages(s, b), Messages(t, b));
    } else {
      Isolation(s, Deletion(app, id), b);
      SameMessages(s, t, b);
    }
  }

  /** A deletion leaves the content and the unread flags of the files that remain. */
  lemma DeletionKeepsEntries(s: Store, app: string, id: nat)
    ensures OthersKept(s, Delete(s, app, id), s.next)
  {
    if Listed(s, app, id) {
      var f := FlagDeleted(s, app, id);
      assert OthersKept(s, f, s.next);
      UnlinkKeepsEntries(f.(box := f.box[app := RemoveFrom(f.box[app], 0, id)]), id, s.next);
    }
  }

  lemma UnlinkKeepsEntries(s: Store, id: nat, other: nat)
    ensures OthersKept(s, PerformDeletion(s, id), other)
  {
  }

  lemma {:induction false} ErasedMessages(s: Store, t: Store, b: string, id: nat, list: seq<nat>,
                                          list': seq<nat>, ms: seq<Message>, ms': seq<Message>)
    requires Visible(s, b) && Visible(t, b) && OthersKept(s, t, s.next)
    requires list' == Without(list, id) && |ms| == |list| && |ms'| == |list'|
    requires forall k :: 0 <= k < |list| ==> list[k] in s.box[b] && list[k] != s.next
                                             && ms[k] == MessageOf(s, b, list[k])
    requires forall k :: 0 <= k < |list'| ==> list'[k] in t.box[b]
                                              && ms'[k] == MessageOf(t, b, list'[k])
    ensures ms' == Erase(ms, id)
    decreases |list|
  {
    if list != [] {
      if list[0] == id {
        ErasedMessages(s, t, b, id, list[1..], list', ms[1..], ms');
      } else {
        assert list' == [list[0]] + Without(list[1..], id);
        ErasedMessages(s, t, b, id, list[1..], list'[1..], ms[1..], ms'[1..]);
        assert ms' == [ms'[0]] + ms'[1..];
        assert list'[0] == list[0] && list[0] in s.box[b] && list[0] in t.box[b];
      }
    }
  }

  lemma MarkingView(s: Store, app: string, id: nat, unread: bool, b: string)
    requires Inv(s) && b in s.box
    ensures Visible(s, b) && Visible(Mark(s, app, id, unread), b)
    ensures View(Mark(s, app, id, unread), b) == Step(View(s, b), b, Marking(app, id, unread))
  {
    var t := Mark(s, app, id, unread);
    MarkVisible(s, app, id, unread, b);
    if app == b {
      MarkedMessages(s, t, b, id, unread);
    } else {
      Isolation(s, Marking(app, id, unread), b);
      SameMessages(s, t, b);
    }
  }

  lemma MarkVisible(s: Store, app: string, id: nat, unread: bool, b: string)
    requires Inv(s) && b in s.box
    ensures var t := Mark(s, app, id, unread);
            && Visible(s, b) && Visible(t, b)
            && t.box == s.box && t.limit == s.limit && t.next == s.next
  {
    InvVisible(s, b);
    MarkKeepsInv(s, app, id, unread);
    MarkEffect(s, app, id, unread);
    InvVisible(Mark(s, app, id, unread), b);
  }

  lemma SameMessages(s: Store, t: Store, b: string)
    requires Visible(s, b) && Visible(t, b) && SameView(s, t, b)
    ensures Messages(t, b) == Messages(s, b)
  {
    forall k | 0 <= k < |s.box[b]|
      ensures Messages(t, b)[k] == Messages(s, b)[k]
    {
      assert SeenAlike(s, t, b, s.box[b][k]);
    }
  }

  lemma MarkedMessages(s: Store, t: Store, b: string, id: nat, unread: bool)
    requires Visible(s, b) && t == Mark(s, b, id, unread) && Visible(t, b) && t.box == s.box
    ensures Messages(t, b) == SetUnread(Messages(s, b), id, unread)
  {
    forall k | 0 <= k < |s.box[b]|
      ensures Messages(t, b)[k] == SetUnread(Messages(s, b), id, unread)[k]
    {
      assert s.box[b][k] in s.box[b];
    }
  }

  lemma LimitView(s: Store, app: string, n: nat, b: string)
    requires Inv(s) && b in s.box
    ensures Visible(s, b) && Visible(SetMax(s, app, n), b)
    ensures View(SetMax(s, app, n), b) == Step(View(s, b), b, Limiting(app, n))
  {
    InvVisible(s, b);
    assert Messages(SetMax(s, app, n), b) == Messages(s, b);
  }

  /** Every operation does to what a mailbox sees exactly what it does to an inbox of its own, as
      long as the 32-bit numbers last. */
  lemma ViewStep(s: Store, op: Op, b: string)
    requires Inv(s) && Enabled(s, op) && b in s.box && (op.Arrival? ==> s.next + 1 < TWO32)
    ensures Visible(s, b) && Visible(Next(s, op), b)
    ensures View(Next(s, op), b) == Step(View(s, b), b, op)
  {
    match op {
      case Arrival(content) => ArrivalView(s, content, b);
      case Deletion(app, id) => DeletionView(s, app, id, b);
      case Marking(app, id, unread) => MarkingView(s, app, id, unread, b);
      case Limiting(app, n) => LimitView(s, app, n, b);
      case Restart(next) =>
        InvVisible(s, b);
        assert Messages(s.(next := next), b) == Messages(s, b);
    }
  }

  /** The mailboxes of s after an operation that led to t. */
  ghost predicate ViewsStep(s: Store, op: Op, t: Store) {
    forall b :: b in s.box ==>
      Visible(s, b) && Visible(t, b) && View(t, b) == Step(View(s, b), b, op)
  }

  lemma ViewsStepAll(s: Store, op: Op)
    requires Inv(s) && Enabled(s, op) && (op.Arrival? ==> s.next + 1 < TWO32)
    ensures ViewsStep(s, op, Next(s, op))
  {
    forall b | b in s.box
      ensures Visible(s, b) && Visible(Next(s, op), b)
              && View(Next(s, op), b) == Step(View(s, b), b, op)
    {
      ViewStep(s, op, b);
    }
  }

  // ---- whole runs --------------------------------------------------------------------------

  /** Every mailbox is a bounded inbox of its own in every safe run: what it sees at the end is
      what a private inbox holds after the same operations, although all mailboxes share files
      that are deleted only when the last of them lets go. */
  lemma {:induction false} MailboxIsPrivate(s: Store, ops: seq<Op>, b: string)
    requires Inv(s) && IsRun(s, ops) && SafeAlong(s, ops) && b in s.box
    ensures Visible(s, b) && Visible(After(s, ops), b)
    ensures View(After(s, ops), b) == Replay(View(s, b), b, ops)
    decreases |ops|
  {
    InvVisible(s, b);
    if ops != [] {
      ViewStep(s, ops[0], b);
      StepIff(s, ops[0]);
      MailboxIsPrivate(Next(s, ops[0]), ops[1..], b);
    }
  }
}
