/** Whole runs of the SMS inbox: arrivals, deletions, marks, limit changes and restarts. */
module SmsRuns {
  import opened Basics
  import opened SmsNames
  import opened SmsStore
  import opened SmsInvariant

  datatype Op =
    | Arrival(content: string)
    | Deletion(app: string, id: nat)
    | Marking(app: string, id: nat, unread: bool)
    | Limiting(app: string, n: nat)
    | Restart(next: nat)             // with the identifier the directory gives

  ghost predicate Enabled(s: Store, op: Op) {
    op.Restart? ==> IsReseed(s.files.Keys, op.next)
  }

  ghost function Next(s: Store, op: Op): Store
    requires WellFormed(s)
  {
    match op
    case Arrival(content) => Arrive(s, content)
    case Deletion(app, id) => Delete(s, app, id)
    case Marking(app, id, unread) => Mark(s, app, id, unread)
    case Limiting(app, n) => SetMax(s, app, n)
    case Restart(next) => s.(next := next)
  }

  // ---- one step ----------------------------------------------------------------------------

  /** What a caller can check before an operation. */
  ghost predicate Safe(s: Store, op: Op) {
    match op
    case Arrival(_) => CanArrive(s)
    case Restart(_) => forall i :: i in s.files ==> i < TWO31
    case _ => true
  }

  /** Every operation keeps the invariant exactly when it is safe. */
  lemma StepIff(s: Store, op: Op)
    requires Inv(s) && Enabled(s, op)
    ensures Inv(Next(s, op)) <==> Safe(s, op)
  {
    match op {
      case Arrival(content) => ArriveKeepsInvIff(s, content);
      case Deletion(app, id) => DeleteKeepsInv(s, app, id);
      case Marking(app, id, unread) => MarkKeepsInv(s, app, id, unread);
      case Limiting(app, n) => LimitKeepsInv(s, app, n);
      case Restart(next) => RestartKeepsInvIff(s, s.(next := next));
    }
  }

  lemma LimitKeepsInv(s: Store, app: string, n: nat)
    requires Inv(s)
    ensures Inv(SetMax(s, app, n))
  {
    var t := SetMax(s, app, n);
    assert t.limit.Keys == s.limit.Keys;
    InvIgnores(s, t.limit, s.next);
  }

  /** Identifiers of files only ever disappear while the service runs: none comes back. */
  lemma FilesOnlyShrink(s: Store, op: Op, id: nat)
    requires Inv(s) && id < s.next && id !in s.files && !op.Restart?
    ensures id !in Next(s, op).files
  {
    match op {
      case Arrival(content) =>
        CreatedIsMid(s, content);
        ArrivalFiles(Created(s, content), s.apps, s.next, id);
      case Deletion(app, i) =>
      case Marking(app, i, unread) =>
      case Limiting(app, n) =>
    }
  }

  lemma {:induction false} ArrivalFiles(s: Store, apps: seq<string>, new_id: nat, id: nat)
    requires forall a :: a in apps ==> a in s.box && a in s.limit
    requires id !in s.files
    ensures id !in AddMsgs(s, apps, new_id).files
    decreases |apps|
  {
    if apps != [] {
      assert apps[0] in apps;
      var t := AddMsg(s, apps[0], new_id);
      assert t.files.Keys <= s.files.Keys;
      ArrivalFiles(t, apps[1..], new_id, id);
    }
  }

  // ---- each mailbox is a bounded queue -----------------------------------------------------

  /** What an operation does to one bounded first-in-first-out queue with deletions. */
  function QueueStep(q: seq<nat>, limit: nat, a: string, op: Op, next: nat): seq<nat> {
    match op
    case Arrival(_) => Pushed(q, limit, next)
    case Deletion(app, id) => if app == a then Without(q, id) else q
    case _ => q
  }

  lemma MailboxIsQueue(s: Store, op: Op, a: string)
    requires Inv(s) && a in s.box
    ensures a in Next(s, op).box
    ensures Next(s, op).box[a] == QueueStep(s.box[a], s.limit[a], a, op, s.next)
  {
    match op {
      case Arrival(content) => ArriveBoxes(s, content);
      case Deletion(app, id) =>
        if Listed(s, app, id) {
          assert id in s.files;
          DeleteUnfolds(s, app, id);
        } else if app == a {
          WithoutMembers(s.box[a], id);
        }
      case Marking(app, id, unread) => MarkEffect(s, app, id, unread);
      case Limiting(app, n) =>
      case Restart(next) =>
    }
  }

  ghost predicate WithinLimits(s: Store) {
    forall a :: a in s.box && a in s.limit ==> |s.box[a]| <= s.limit[a]
  }

  /** The caller does not lower a limit below what the mailbox holds. */
  predicate LimitsHeld(s: Store, op: Op) {
    op.Limiting? && op.n <= MAX_MBOX_SIZE && op.app in s.limit && op.app in s.box ==>
      |s.box[op.app]| <= op.n
  }

  lemma DeleteFrame(s: Store, app: string, id: nat)
    ensures var t := Delete(s, app, id);
            t.limit == s.limit && t.next == s.next && t.apps == s.apps && t.box.Keys == s.box.Keys
  {
    if Listed(s, app, id) {
      var f := FlagDeleted(s, app, id);
      var u := f.(box := f.box[app := RemoveFrom(f.box[app], 0, id)]);
      assert u.box.Keys == s.box.Keys;
      assert PerformDeletion(u, id).box.Keys == u.box.Keys;
    }
  }

  lemma {:induction false} RemoveFromShrinks(list: seq<nat>, i: nat, id: nat)
    ensures |RemoveFrom(list, i, id)| <= |list|
    decreases |list| - i
  {
    if i < |list| {
      if list[i] == id {
        RemoveFromShrinks(list[..i] + list[i + 1..], i + 1, id);
      } else {
        RemoveFromShrinks(list, i + 1, id);
      }
    }
  }

  /** The same mailboxes and limits, and no list longer. */
  ghost predicate Shrunk(s: Store, t: Store) {
    && t.limit == s.limit && t.box.Keys == s.box.Keys
    && forall a :: a in s.box ==> |t.box[a]| <= |s.box[a]|
  }

  lemma PerformDeletionShrinks(s: Store, id: nat)
    ensures Shrunk(s, PerformDeletion(s, id))
  {
    forall a | a in s.box
      ensures |PerformDeletion(s, id).box[a]| <= |s.box[a]|
    {
      RemoveFromShrinks(s.box[a], 0, id);
    }
  }

  lemma DeleteShrinks(s: Store, app: string, id: nat)
    ensures Shrunk(s, Delete(s, app, id))
  {
    if Listed(s, app, id) {
      var f := FlagDeleted(s, app, id);
      RemoveFromShrinks(s.box[app], 0, id);
      PerformDeletionShrinks(f.(box := f.box[app := RemoveFrom(f.box[app], 0, id)]), id);
    }
  }

  /** A mailbox that takes a message stays within its limit, and so do all others. */
  lemma AddMsgBound(s: Store, app: string, id: nat)
    requires app in s.box && app in s.limit && WithinLimits(s)
    ensures var t := AddMsg(s, app, id);
            t.limit == s.limit && t.box.Keys == s.box.Keys && WithinLimits(t)
  {
    var list := s.box[app];
    if |list| == s.limit[app] && list != [] && list[0] != 0 {
      PerformDeletionShrinks(FlagDeleted(s, app, list[0]), list[0]);
    }
  }

  lemma {:induction false} AddMsgsBound(s: Store, apps: seq<string>, id: nat)
    requires forall a :: a in apps ==> a in s.box && a in s.limit
    requires WithinLimits(s)
    ensures var t := AddMsgs(s, apps, id);
            t.limit == s.limit && t.box.Keys == s.box.Keys && WithinLimits(t)
    decreases |apps|
  {
    if apps != [] {
      assert apps[0] in apps;
      AddMsgBound(s, apps[0], id);
      AddMsgsBound(AddMsg(s, apps[0], id), apps[1..], id);
    }
  }

  lemma ArriveBound(s: Store, content: string)
    requires WellFormed(s) && WithinLimits(s)
    ensures WithinLimits(Arrive(s, content))
  {
    AddMsgsBound(Created(s, content), s.apps, s.next);
  }

  lemma ShrunkWithin(s: Store, t: Store)
    requires Shrunk(s, t) && WithinLimits(s)
    ensures WithinLimits(t)
  {
  }

  /** In any store whose mailboxes are within their limits an operation keeps them so exactly
      when it does not set a limit below the length of its mailbox. */
  lemma BoundIff(s: Store, op: Op)
    requires WellFormed(s) && WithinLimits(s)
    ensures WithinLimits(Next(s, op)) <==> LimitsHeld(s, op)
  {
    match op {
      case Arrival(content) => ArriveBound(s, content);
      case Deletion(app, id) =>
        DeleteShrinks(s, app, id);
        ShrunkWithin(s, Next(s, op));
      case Marking(app, id, unread) => ShrunkWithin(s, Next(s, op));
      case Limiting(app, n) =>
        var t := Next(s, op);
        if !LimitsHeld(s, op) {
          assert app in t.box && app in t.limit && |t.box[app]| > t.limit[app];
        }
      case Restart(next) =>
    }
  }

  /** No operation of the run lowers a limit below what the mailbox then holds. */
  ghost predicate LimitsHeldAlong(s: Store, ops: seq<Op>)
    requires IsRun(s, ops)
    decreases |ops|
  {
    ops != [] ==> LimitsHeld(s, ops[0]) && LimitsHeldAlong(Next(s, ops[0]), ops[1..])
  }

  /** In every run, whatever the store, the limits and the number of arrivals, in which no limit
      is set below the current length, the lengths stay within the limits. */
  lemma {:induction false} LengthsStayWithinLimits(s: Store, ops: seq<Op>)
    requires IsRun(s, ops) && WithinLimits(s) && LimitsHeldAlong(s, ops)
    ensures WithinLimits(After(s, ops))
    decreases |ops|
  {
    if ops != [] {
      BoundIff(s, ops[0]);
      LengthsStayWithinLimits(Next(s, ops[0]), ops[1..]);
    }
  }

  // ---- above the limit -----------------------------------------------------------------------

  ghost predicate Above(s: Store, a: string) {
    a in s.box && a in s.limit && |s.box[a]| > s.limit[a]
  }

  /** The mailbox is full: the next arrival drops its oldest message. */
  ghost predicate Full(s: Store, a: string) {
    a in s.box && a in s.limit && |s.box[a]| == s.limit[a]
  }

  /** A mailbox above its limit only grows with arrivals, because fullness is an equality. */
  lemma OverLimitGrows(s: Store, content: string, a: string)
    requires Inv(s) && Above(s, a)
    ensures var t := Arrive(s, content); a in t.box && t.box[a] == s.box[a] + [s.next]
  {
    ArriveBoxes(s, content);
  }

  /** A full mailbox of positive size drops exactly its oldest message on arrival. */
  lemma FullEvicts(s: Store, content: string, a: string)
    requires Inv(s) && Full(s, a) && s.limit[a] > 0
    ensures var t := Arrive(s, content);
            a in t.box && t.box[a] == s.box[a][1..] + [s.next] && Full(t, a)
  {
    ArriveBoxes(s, content);
  }

  /** What brings a mailbox that is one above its limit, or any above it, back to full. */
  predicate MakesFull(s: Store, op: Op, a: string)
    requires a in s.box && a in s.limit
  {
    || (op.Deletion? && op.app == a && op.id in s.box[a] && |s.box[a]| == s.limit[a] + 1)
    || (op.Limiting? && op.app == a && op.n <= MAX_MBOX_SIZE && op.n == |s.box[a]|)
  }

  /** What brings it to or below its limit. */
  predicate EndsAbove(s: Store, op: Op, a: string)
    requires a in s.box && a in s.limit
  {
    || (op.Deletion? && op.app == a && op.id in s.box[a] && |s.box[a]| == s.limit[a] + 1)
    || (op.Limiting? && op.app == a && |s.box[a]| <= op.n <= MAX_MBOX_SIZE)
  }

  lemma {:induction false} WithoutLength(list: seq<nat>, id: nat)
    requires Increasing(list)
    ensures |Without(list, id)| == |list| - if id in list then 1 else 0
  {
    if list != [] {
      assert list == [list[0]] + list[1..];
      WithoutLength(list[1..], id);
      if list[0] == id {
        WithoutMembers(list[1..], id);
      }
    }
  }

  /** A mailbox above its limit leaves that state exactly by a deletion of its own that takes it
      down to the limit or by a limit of at least its length, and is full again, so that the
      limit is enforced again, exactly when the two then agree. */
  lemma AboveIff(s: Store, op: Op, a: string)
    requires Inv(s) && Above(s, a) && Enabled(s, op)
    ensures Above(Next(s, op), a) <==> !EndsAbove(s, op, a)
    ensures Full(Next(s, op), a) <==> MakesFull(s, op, a)
  {
    MailboxIsQueue(s, op, a);
    LimitsFrame(s, op);
    WithoutLength(s.box[a], if op.Deletion? then op.id else 0);
    assert a in Next(s, op).limit;
  }

  lemma LimitsFrame(s: Store, op: Op)
    requires Inv(s)
    ensures Next(s, op).limit
            == if op.Limiting? && op.n <= MAX_MBOX_SIZE && op.app in s.limit
               then s.limit[op.app := op.n] else s.limit
    ensures Next(s, op).box.Keys == s.box.Keys
  {
    match op {
      case Arrival(content) => ArriveBoxes(s, content);
      case Deletion(app, id) =>
        DeleteFrame(s, app, id);
      case Marking(app, id, unread) => MarkEffect(s, app, id, unread);
      case Limiting(app, n) =>
      case Restart(next) =>
    }
  }

  // ---- isolation ---------------------------------------------------------------------------

  /** Message i looks the same to mailbox b: its content and b's two flags. */
  ghost predicate SeenAlike(s: Store, t: Store, b: string, i: nat) {
    && i in s.files && i in t.files
    && t.files[i].content == s.files[i].content
    && b in s.files[i].unread && b in t.files[i].unread
    && t.files[i].unread[b] == s.files[i].unread[b]
    && b in s.files[i].deleted && b in t.files[i].deleted
    && t.files[i].deleted[b] == s.files[i].deleted[b]
  }

  /** What mailbox b sees is the same in both stores: its list and every message on it. */
  ghost predicate SameView(s: Store, t: Store, b: string) {
    && b in s.box && b in t.box && t.box[b] == s.box[b]
    && forall i :: i in s.box[b] ==> SeenAlike(s, t, b, i)
  }

  /** Deleting, marking or reading through one mailbox is invisible to every other. */
  lemma Isolation(s: Store, op: Op, b: string)
    requires Inv(s) && b in s.box
    requires (op.Deletion? || op.Marking?) && op.app != b
    ensures SameView(s, Next(s, op), b)
  {
    if op.Marking? {
      MarkingIsolated(s, op.app, op.id, op.unread, b);
    } else if Listed(s, op.app, op.id) {
      DeletionIsolated(s, op.app, op.id, b);
    } else {
      ListedComplete(s, b);
    }
  }

  /** A listed message has a file with both flags of its mailbox, not flagged deleted. */
  ghost predicate SeenComplete(s: Store, b: string) {
    b in s.box && forall i :: i in s.box[b] ==>
      && i in s.files && b in s.files[i].unread && b in s.files[i].deleted
      && !Flagged(s.files[i], b)
  }

  lemma ListedComplete(s: Store, b: string)
    requires ListsMatch(s, 0, {}) && FlagsComplete(s) && b in s.box
    ensures SeenComplete(s, b)
  {
  }

  lemma MarkingIsolated(s: Store, app: string, id: nat, unread: bool, b: string)
    requires Inv(s) && b in s.box && app != b
    ensures SameView(s, Mark(s, app, id, unread), b)
  {
    ListedComplete(s, b);
    MarkEffect(s, app, id, unread);
  }

  lemma DeletionIsolated(s: Store, app: string, id: nat, b: string)
    requires Inv(s) && b in s.box && app != b && Listed(s, app, id)
    ensures SameView(s, Delete(s, app, id), b)
  {
    ListedComplete(s, app);
    ListedComplete(s, b);
    DeleteUnfolds(s, app, id);
    DropAllSeen(s, app, id, b);
    SeenMeansSame(s, Dropped(s, app, id), Delete(s, app, id), b);
  }

  lemma DropAllSeen(s: Store, app: string, id: nat, b: string)
    requires id in s.files && app in s.files[id].deleted && app != b && b in s.apps
    requires SeenComplete(s, b)
    ensures forall i :: i in s.box[b] ==> SeenAlike(s, Dropped(s, app, id), b, i)
  {
    forall i | i in s.box[b]
      ensures SeenAlike(s, Dropped(s, app, id), b, i)
    {
      DropSeen(s, app, id, b, i);
    }
  }

  lemma DropSeen(s: Store, app: string, id: nat, b: string, i: nat)
    requires id in s.files && app in s.files[id].deleted && app != b && b in s.apps
    requires i in s.files && !Flagged(s.files[i], b)
    requires b in s.files[i].unread && b in s.files[i].deleted
    ensures SeenAlike(s, Dropped(s, app, id), b, i)
  {
    DroppedFiles(s, app, id);
  }

  lemma SeenMeansSame(s: Store, t: Store, u: Store, b: string)
    requires b in s.box && b in u.box && u.box[b] == s.box[b] && u.files == t.files
    requires forall i :: i in s.box[b] ==> SeenAlike(s, t, b, i)
    ensures SameView(s, u, b)
  {
  }

  // ---- runs --------------------------------------------------------------------------------

  ghost predicate IsRun(s: Store, ops: seq<Op>)
    decreases |ops|
  {
    ops == [] || (WellFormed(s) && Enabled(s, ops[0]) && IsRun(Next(s, ops[0]), ops[1..]))
  }

  ghost function After(s: Store, ops: seq<Op>): Store
    requires IsRun(s, ops)
    decreases |ops|
  {
    if ops == [] then s else After(Next(s, ops[0]), ops[1..])
  }

  function Arrivals(ops: seq<Op>): nat {
    if ops == [] then 0 else (if ops[0].Arrival? then 1 else 0) + Arrivals(ops[1..])
  }

  /** A newly installed service. */
  ghost predicate Fresh(s: Store) {
    && WellFormed(s) && s.files == map[] && s.next == 1
    && (forall a :: a in s.box ==> s.box[a] == [])
  }

  ghost predicate RoomEverywhere(s: Store) {
    forall a :: a in s.limit ==> s.limit[a] >= 1
  }

  predicate GivesRoom(op: Op) {
    op.Limiting? ==> op.n >= 1
  }

  predicate RoomKeeping(ops: seq<Op>) {
    forall i :: 0 <= i < |ops| ==> GivesRoom(ops[i])
  }

  lemma NextNumber(s: Store, op: Op)
    requires Inv(s) && Enabled(s, op) && s.next + 1 < TWO32
    ensures Next(s, op).next <= s.next + if op.Arrival? then 1 else 0
  {
    if op.Arrival? {
      ArriveNumber(s, op.content);
    } else if op.Deletion? {
      DeleteFrame(s, op.app, op.id);
    } else if op.Marking? {
      MarkEffect(s, op.app, op.id, op.unread);
    } else if op.Restart? {
      ReseedBelow(s.files.Keys, s.next, op.next);
    }
  }

  lemma ArriveNumber(s: Store, content: string)
    requires WellFormed(s) && s.next + 1 < TWO32
    ensures Arrive(s, content).next == s.next + 1
  {
    assert (s.next + 1) % TWO32 == s.next + 1;
  }

  lemma ReseedBelow(ids: set<nat>, bound: nat, next: nat)
    requires IsReseed(ids, next) && 0 < bound && forall i :: i in ids ==> i < bound
    ensures next <= bound
  {
  }

  lemma RoomKept(s: Store, op: Op)
    requires Inv(s) && RoomEverywhere(s) && GivesRoom(op)
    ensures RoomEverywhere(Next(s, op))
  {
    LimitsFrame(s, op);
  }

  lemma RoomMeansAccept(s: Store)
    requires RoomEverywhere(s)
    ensures forall a :: a in s.box && a in s.limit ==> Accepts(s, a)
  {
  }

  /** The invariant holds in every state of a run. */
  ghost predicate InvAlong(s: Store, ops: seq<Op>)
    requires IsRun(s, ops)
    decreases |ops|
  {
    Inv(s) && (ops != [] ==> InvAlong(Next(s, ops[0]), ops[1..]))
  }

  /** Every operation of a run is safe where it is taken. */
  ghost predicate SafeAlong(s: Store, ops: seq<Op>)
    requires IsRun(s, ops)
    decreases |ops|
  {
    ops != [] ==> Safe(s, ops[0]) && SafeAlong(Next(s, ops[0]), ops[1..])
  }

  lemma BrokenFrom(s: Store, ops: seq<Op>)
    requires IsRun(s, ops) && !Inv(s)
    ensures !InvAlong(s, ops)
  {
  }

  /** The invariant holds in every state of a run if and only if every operation is safe: each
      arrival finds a mailbox with room for it and an identifier left, and each restart finds the
      identifiers below 2^31. */
  lemma {:induction false} InvAlongIff(s: Store, ops: seq<Op>)
    requires Inv(s) && IsRun(s, ops)
    ensures InvAlong(s, ops) <==> SafeAlong(s, ops)
    ensures SafeAlong(s, ops) ==> Inv(After(s, ops))
    decreases |ops|
  {
    if ops != [] {
      StepIff(s, ops[0]);
      if Safe(s, ops[0]) {
        InvAlongIff(Next(s, ops[0]), ops[1..]);
      } else {
        BrokenFrom(Next(s, ops[0]), ops[1..]);
      }
    }
  }

  lemma RoomIsSafe(s: Store, op: Op)
    requires Inv(s) && RoomEverywhere(s) && s.next < TWO31 + (if op.Arrival? then 0 else 1)
    ensures Safe(s, op)
  {
    RoomMeansAccept(s);
    forall i | i in s.files
      ensures i < s.next
    {
    }
  }

  /** Room in the mailboxes and identifiers below 2^31 are enough. */
  lemma {:induction false} RunKeepsInv(s: Store, ops: seq<Op>)
    requires Inv(s) && RoomEverywhere(s) && RoomKeeping(ops) && IsRun(s, ops)
    requires s.next + Arrivals(ops) <= TWO31
    ensures SafeAlong(s, ops) && Inv(After(s, ops))
    decreases |ops|
  {
    if ops != [] {
      var op := ops[0];
      RoomIsSafe(s, op);
      StepIff(s, op);
      NextNumber(s, op);
      RoomKept(s, op);
      RunKeepsInv(Next(s, op), ops[1..]);
    }
  }

  lemma FreshInv(s: Store)
    requires Fresh(s)
    ensures Inv(s)
  {
  }

  /** No leak and no dangling entry after every safe run: a mailbox lists a message exactly when
      its file exists and is not flagged deleted for it, a file exists exactly when some mailbox
      lists it, and lists are increasing, positive and below the next identifier. */
  lemma NoLeakNoDangling(s: Store, ops: seq<Op>)
    requires Fresh(s) && IsRun(s, ops)
    ensures InvAlong(s, ops) <==> SafeAlong(s, ops)
    ensures var t := After(s, ops);
            SafeAlong(s, ops) ==>
              && (forall a, i :: a in t.box ==>
                    (i in t.box[a] <==> i in t.files && a in t.files[i].deleted
                                        && !t.files[i].deleted[a]))
              && (forall i :: i in t.files <==> exists a :: a in t.box && i in t.box[a])
              && (forall a :: a in t.box ==>
                    Increasing(t.box[a]) && forall i :: i in t.box[a] ==> 0 < i < t.next)
    ensures RoomEverywhere(s) && RoomKeeping(ops) && Arrivals(ops) < TWO31 ==> SafeAlong(s, ops)
  {
    FreshInv(s);
    InvAlongIff(s, ops);
    if SafeAlong(s, ops) {
      InvMeans(After(s, ops));
    }
    if RoomEverywhere(s) && RoomKeeping(ops) && Arrivals(ops) < TWO31 {
      RunKeepsInv(s, ops);
    }
  }

  lemma InvMeans(t: Store)
    requires Inv(t)
    ensures forall a, i :: a in t.box ==>
              (i in t.box[a] <==> i in t.files && a in t.files[i].deleted
                                  && !t.files[i].deleted[a])
    ensures forall i :: i in t.files <==> exists a :: a in t.box && i in t.box[a]
    ensures forall a :: a in t.box ==>
              Increasing(t.box[a]) && forall i :: i in t.box[a] ==> 0 < i < t.next
  {
    forall i
      ensures i in t.files <==> exists a :: a in t.box && i in t.box[a]
    {
      if i in t.files {
        assert i != 0;
      }
    }
  }
}
