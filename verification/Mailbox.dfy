/** The agent mailbox: messages addressed by session, project or agent, one receipt
    per message and recipient session, and the delivery that renders undelivered
    messages and stamps their receipts. Calls do not overlap, each call reads one
    clock value, and database statements do not fail. */
module Mailbox {

  import opened Common

  datatype Message = Message(
    toSession: Option<string>, toProject: Option<int>, toAgent: Option<string>,
    expires: Option<int>, body: string)

  datatype Receipt = Receipt(
    agent: Option<string>, delivered: Option<int>, read: Option<int>, acked: Option<int>, channel: Option<string>)

  datatype Recipient = Recipient(session: Option<string>, project: Option<int>, agent: Option<string>)

  datatype Mark = Delivered | Read | Acked

  /** The two tables. Messages are numbered in insertion order, which is also their
      creation order. The unique key on (message, session) does not apply to rows
      without a session, so those are a plain list. */
  datatype Box = Box(
    messages: seq<Message>, receipts: map<(nat, string), Receipt>, anonymous: seq<(nat, Receipt)>)

  // ---------------------------------------------------------------- receipts

  function NewReceipt(agent: Option<string>, channel: Option<string>, mark: Mark, now: int): Receipt {
    Receipt(agent, Some(now), if mark.Delivered? then None else Some(now),
            if mark.Acked? then Some(now) else None, channel)
  }

  function Upserted(was: Receipt, stamp: Receipt): Receipt {
    Receipt(Coalesce(stamp.agent, was.agent), Coalesce(was.delivered, stamp.delivered),
            Coalesce(was.read, stamp.read), Coalesce(was.acked, stamp.acked),
            Coalesce(was.channel, stamp.channel))
  }

  function Recorded(
    box: Box, id: nat, session: Option<string>, agent: Option<string>, channel: Option<string>, mark: Mark,
    now: int): Box
  {
    var r := NewReceipt(agent, channel, mark, now);
    match session
    case None => box.(anonymous := box.anonymous + [(id, r)])
    case Some(s) =>
      var key := (id, s);
      box.(receipts := box.receipts[key := if key in box.receipts then Upserted(box.receipts[key], r) else r])
  }

  /** acked implies read implies delivered, in that order of time, none in the future. */
  predicate Ordered(r: Receipt, now: int) {
    && (r.read.Some? ==> r.delivered.Some? && r.delivered.value <= r.read.value)
    && (r.acked.Some? ==> r.read.Some? && r.read.value <= r.acked.value)
    && (r.delivered.Some? ==> r.delivered.value <= now)
    && (r.read.Some? ==> r.read.value <= now)
    && (r.acked.Some? ==> r.acked.value <= now)
  }

  /** No stamp of the earlier receipt was changed or lost. */
  predicate Keeps(before: Receipt, after: Receipt) {
    && (before.delivered.Some? ==> after.delivered == before.delivered)
    && (before.read.Some? ==> after.read == before.read)
    && (before.acked.Some? ==> after.acked == before.acked)
    && (before.channel.Some? ==> after.channel == before.channel)
  }

  ghost predicate BoxOrdered(box: Box, now: int) {
    && (forall key | key in box.receipts :: Ordered(box.receipts[key], now))
    && forall i | 0 <= i < |box.anonymous| :: Ordered(box.anonymous[i].1, now)
  }

  ghost predicate BoxKeeps(before: Box, after: Box) {
    && before.messages <= after.messages
    && before.anonymous <= after.anonymous
    && forall key | key in before.receipts :: key in after.receipts && Keeps(before.receipts[key], after.receipts[key])
  }

  // ------------------------------------------------------------------ queries

  predicate Addressed(m: Message, to: Recipient, now: int) {
    && (m.expires.None? || m.expires.value > now)
    && (|| (to.session.Some? && m.toSession == to.session)
        || (to.project.Some? && m.toProject == to.project)
        || (to.agent.Some? && m.toAgent == to.agent))
  }

  /** The receipt the queries join on; nothing joins without a session. */
  function Joined(box: Box, id: nat, to: Recipient): Option<Receipt> {
    if to.session.Some? && (id, to.session.value) in box.receipts
    then Some(box.receipts[(id, to.session.value)]) else None
  }

  predicate IsPending(box: Box, id: nat, to: Recipient, now: int)
    requires id < |box.messages|
  {
    && Addressed(box.messages[id], to, now)
    && (Joined(box, id, to).None? || Joined(box, id, to).value.delivered.None?)
  }

  predicate IsUnread(box: Box, id: nat, to: Recipient, now: int)
    requires id < |box.messages|
  {
    && Addressed(box.messages[id], to, now)
    && (Joined(box, id, to).None? || Joined(box, id, to).value.read.None?)
  }

  /** The positions below n whose flag is set, oldest first. */
  function Below(flags: seq<bool>, n: nat): seq<nat>
    requires n <= |flags|
  {
    if n == 0 then [] else Below(flags, n - 1) + if flags[n - 1] then [n - 1] else []
  }

  /** The same positions, newest first. */
  function Descending(flags: seq<bool>, n: nat): seq<nat>
    requires n <= |flags|
  {
    if n == 0 then [] else (if flags[n - 1] then [n - 1] else []) + Descending(flags, n - 1)
  }

  function PendingFlags(box: Box, to: Recipient, now: int): seq<bool> {
    seq(|box.messages|, id requires 0 <= id < |box.messages| => IsPending(box, id, to, now))
  }

  function UnreadFlags(box: Box, to: Recipient, now: int): seq<bool> {
    seq(|box.messages|, id requires 0 <= id < |box.messages| => IsUnread(box, id, to, now))
  }

  /** The undelivered messages, oldest first. */
  function Pending(box: Box, to: Recipient, now: int): seq<nat> {
    Below(PendingFlags(box, to, now), |box.messages|)
  }

  /** The unread messages, newest first. */
  function UnreadInbox(box: Box, to: Recipient, now: int): seq<nat> {
    Descending(UnreadFlags(box, to, now), |box.messages|)
  }

  function Take(ids: seq<nat>, limit: nat): seq<nat> { if |ids| <= limit then ids else ids[..limit] }

  lemma {:induction false} BelowIff(flags: seq<bool>, n: nat, id: nat)
    requires n <= |flags|
    ensures id in Below(flags, n) <==> id < n && flags[id]
    ensures id in Descending(flags, n) <==> id < n && flags[id]
  {
    if n > 0 { BelowIff(flags, n - 1, id); }
  }

  lemma PendingIff(box: Box, to: Recipient, now: int, id: nat)
    ensures id in Pending(box, to, now) <==> id < |box.messages| && IsPending(box, id, to, now)
  {
    BelowIff(PendingFlags(box, to, now), |box.messages|, id);
  }

  /** Every pending message is in the unread inbox. */
  lemma PendingIsUnread(box: Box, to: Recipient, now: int, id: nat)
    requires BoxOrdered(box, now) && id in Pending(box, to, now)
    ensures id in UnreadInbox(box, to, now)
  {
    PendingIff(box, to, now, id);
    BelowIff(UnreadFlags(box, to, now), |box.messages|, id);
  }

  predicate Ascending(ids: seq<nat>) { forall i, j | 0 <= i < j < |ids| :: ids[i] < ids[j] }

  lemma {:induction false} BelowAscends(flags: seq<bool>, n: nat)
    requires n <= |flags|
    ensures Ascending(Below(flags, n))
  {
    if n > 0 {
      BelowAscends(flags, n - 1);
      var ids := Below(flags, n - 1);
      forall i | 0 <= i < |ids| ensures ids[i] < n - 1 {
        BelowIff(flags, n - 1, ids[i]);
      }
    }
  }

  predicate NewestFirst(ids: seq<nat>) { forall i, j | 0 <= i < j < |ids| :: ids[j] < ids[i] }

  /** The unread inbox lists the newest first. */
  lemma {:induction false} InboxDescends(flags: seq<bool>, n: nat)
    requires n <= |flags|
    ensures NewestFirst(Descending(flags, n))
  {
    if n > 0 {
      InboxDescends(flags, n - 1);
      var ids := Descending(flags, n - 1);
      forall i | 0 <= i < |ids| ensures ids[i] < n - 1 {
        assert ids[i] in ids;
        BelowIff(flags, n - 1, ids[i]);
      }
    }
  }

  lemma {:induction false} BelowGrows(flags: seq<bool>, n: nat)
    requires n <= |flags|
    ensures Below(flags, n) <= Below(flags, |flags|)
    decreases |flags| - n
  {
    if n < |flags| { BelowGrows(flags, n + 1); }
  }

  /** Taking from the front is a matter of rank. */
  lemma RankDecides(flags: seq<bool>, limit: nat, n: nat)
    requires n < |flags| && flags[n]
    ensures n in Take(Below(flags, |flags|), limit) <==> |Below(flags, n)| < limit
  {
    var k, all := |Below(flags, n)|, Below(flags, |flags|);
    BelowGrows(flags, n);
    BelowGrows(flags, n + 1);
    assert Below(flags, n + 1)[k] == n == all[k];
    var batch := Take(all, limit);
    if k < limit {
      assert batch[k] == n;
    } else {
      assert n in batch ==> n in Below(flags, n);
      BelowIff(flags, n, n);
    }
  }

  /** Only the set flags of rank limit and above are kept. */
  predicate KeepsLate(flags: seq<bool>, after: seq<bool>, limit: nat) {
    && |after| == |flags|
    && forall i | 0 <= i < |flags| :: after[i] == (flags[i] && limit <= |Below(flags, i)|)
  }

  function Rest(p: seq<nat>, limit: nat): seq<nat> { p[|Take(p, limit)|..] }

  lemma RestSnoc(p: seq<nat>, x: nat, limit: nat)
    ensures Rest(p + [x], limit) == if |p| < limit then Rest(p, limit) else Rest(p, limit) + [x]
  {
  }

  /** Clearing the flags of a batch leaves the rest of the list. */
  lemma {:induction false} BatchLeavesTheRest(flags: seq<bool>, after: seq<bool>, limit: nat, n: nat)
    requires KeepsLate(flags, after, limit) && n <= |flags|
    ensures Below(after, n) == Rest(Below(flags, n), limit)
  {
    if n > 0 {
      BatchLeavesTheRest(flags, after, limit, n - 1);
      assert after[n - 1] == (flags[n - 1] && limit <= |Below(flags, n - 1)|);
      RestSnoc(Below(flags, n - 1), n - 1, limit);
      assert !flags[n - 1] ==> Below(flags, n) == Below(flags, n - 1) && Below(after, n) == Below(after, n - 1);
    }
  }

  lemma {:induction false} FewerBelow(a: seq<bool>, b: seq<bool>, n: nat)
    requires |a| == |b| && n <= |a| && forall i | 0 <= i < n :: a[i] ==> b[i]
    ensures |Below(a, n)| <= |Below(b, n)|
  {
    if n > 0 { FewerBelow(a, b, n - 1); }
  }

  // ------------------------------------------------ what is due, and recorded

  /** The message has not expired and names the recipient's session, project or agent. */
  predicate IsFor(m: Message, to: Recipient, now: int) {
    && (m.expires == None || now < m.expires.value)
    && (|| (to.session != None && m.toSession == to.session)
        || (to.project != None && m.toProject == to.project)
        || (to.agent != None && m.toAgent == to.agent))
  }

  /** This session has a receipt for the message that carries the stamp. */
  predicate Stamped(box: Box, id: nat, session: Option<string>, mark: Mark) {
    && session.Some? && (id, session.value) in box.receipts
    && var r := box.receipts[(id, session.value)];
    match mark
    case Delivered => r.delivered.Some?
    case Read => r.read.Some?
    case Acked => r.acked.Some?
  }

  /** A message is pending exactly if it is for the recipient and not stamped delivered,
      and in the unread inbox exactly if it is for the recipient and not stamped read. */
  lemma DueMeans(box: Box, to: Recipient, now: int, id: nat)
    ensures id in Pending(box, to, now) <==>
      id < |box.messages| && IsFor(box.messages[id], to, now) && !Stamped(box, id, to.session, Delivered)
    ensures id in UnreadInbox(box, to, now) <==>
      id < |box.messages| && IsFor(box.messages[id], to, now) && !Stamped(box, id, to.session, Read)
  {
    PendingIff(box, to, now, id);
    BelowIff(UnreadFlags(box, to, now), |box.messages|, id);
  }

  /** A delivery renders the oldest due messages up to the limit: each is due, they come
      in order of age, no due message older than a rendered one is passed over, and
      fewer than the limit are rendered only if no due message is left out. */
  lemma BatchMeans(box: Box, to: Recipient, now: int, limit: nat)
    ensures var batch := Take(Pending(box, to, now), limit);
      && |batch| <= limit && Ascending(batch)
      && (forall id | id in batch :: id in Pending(box, to, now))
      && (forall id, later | id in Pending(box, to, now) && later in batch && id < later :: id in batch)
      && (|batch| < limit ==> forall id | id in Pending(box, to, now) :: id in batch)
  {
    var pending := Pending(box, to, now);
    var batch := Take(pending, limit);
    BelowAscends(PendingFlags(box, to, now), |box.messages|);
    forall id, later | id in pending && later in batch && id < later ensures id in batch {
      var i :| 0 <= i < |pending| && pending[i] == id;
      var j :| 0 <= j < |batch| && batch[j] == later;
      assert pending[j] == later;
      assert i < j;
      assert batch[i] == id;
    }
  }

  /** What recording a receipt leaves for its session: delivered at any rate, read and
      acked if so marked, each at the time of the first such mark; a mark sets no more
      than it says. Other receipts stay as they were. */
  lemma RecordMeans(
    box: Box, id: nat, session: string, agent: Option<string>, channel: Option<string>, mark: Mark, now: int)
    ensures var after, key := Recorded(box, id, Some(session), agent, channel, mark, now), (id, session);
      && key in after.receipts
      && var r := after.receipts[key];
      var was := if key in box.receipts then box.receipts[key] else Receipt(None, None, None, None, None);
      && r.delivered == (if was.delivered.Some? then was.delivered else Some(now))
      && r.read == (if was.read.Some? || mark == Delivered then was.read else Some(now))
      && r.acked == (if was.acked.Some? || mark != Acked then was.acked else Some(now))
      && r.agent == (if agent.Some? then agent else was.agent)
      && r.channel == (if was.channel.Some? then was.channel else channel)
      && after.messages == box.messages && after.anonymous == box.anonymous
      && forall other | other != key ::
           (other in after.receipts <==> other in box.receipts)
           && (other in box.receipts ==> after.receipts[other] == box.receipts[other])
  {
  }

  /** Without a session a receipt is only added, and matches no later query. */
  lemma AnonymousRecordMeans(
    box: Box, id: nat, agent: Option<string>, channel: Option<string>, mark: Mark, now: int)
    ensures var after := Recorded(box, id, None, agent, channel, mark, now);
      && after.messages == box.messages && after.receipts == box.receipts
      && |after.anonymous| == |box.anonymous| + 1 && box.anonymous <= after.anonymous
      && after.anonymous[|box.anonymous|].0 == id
  {
  }

  // ----------------------------------------------------------------- delivery

  function StampAll(box: Box, ids: seq<nat>, to: Recipient, channel: string, now: int): Box {
    if ids == [] then box
    else
      Recorded(StampAll(box, ids[..|ids| - 1], to, channel, now),
               ids[|ids| - 1], to.session, to.agent, Some(channel), Delivered, now)
  }

  function Batch(box: Box, to: Recipient, now: int, limit: nat): seq<nat> {
    Take(Pending(box, to, now), limit)
  }

  function DeliveredBox(box: Box, to: Recipient, channel: string, limit: nat, now: int): Box {
    StampAll(box, Batch(box, to, now, limit), to, channel, now)
  }

  lemma {:induction false} StampedPending(
    box: Box, ids: seq<nat>, to: Recipient, channel: string, now: int, id: nat, later: int)
    requires id < |box.messages| && to.session.Some?
    ensures StampAll(box, ids, to, channel, now).messages == box.messages
    ensures IsPending(StampAll(box, ids, to, channel, now), id, to, later) <==>
      IsPending(box, id, to, later) && id !in ids
    decreases |ids|
  {
    if ids != [] {
      StampedPending(box, ids[..|ids| - 1], to, channel, now, id, later);
      assert ids == ids[..|ids| - 1] + [ids[|ids| - 1]];
    }
  }

  /** Delivery removes exactly its batch from the front of the pending list. */
  lemma DeliveryConsumes(box: Box, to: Recipient, channel: string, limit: nat, now: int)
    requires to.session.Some?
    ensures var after := DeliveredBox(box, to, channel, limit, now);
      && after.messages == box.messages
      && Pending(after, to, now) == Pending(box, to, now)[|Batch(box, to, now, limit)|..]
  {
    var batch := Batch(box, to, now, limit);
    var after := StampAll(box, batch, to, channel, now);
    StampedMessages(box, batch, to, channel, now);
    forall id | 0 <= id < |box.messages|
      ensures PendingFlags(after, to, now)[id] ==
        (PendingFlags(box, to, now)[id] && limit <= |Below(PendingFlags(box, to, now), id)|)
    {
      StampedPending(box, batch, to, channel, now, id, now);
      if PendingFlags(box, to, now)[id] { RankDecides(PendingFlags(box, to, now), limit, id); }
    }
    BatchLeavesTheRest(PendingFlags(box, to, now), PendingFlags(after, to, now), limit, |box.messages|);
  }

  lemma {:induction false} StampedMessages(box: Box, ids: seq<nat>, to: Recipient, channel: string, now: int)
    ensures StampAll(box, ids, to, channel, now).messages == box.messages
    decreases |ids|
  {
    if ids != [] { StampedMessages(box, ids[..|ids| - 1], to, channel, now); }
  }

  /** Without a session nothing is remembered: the pending list stays as it was. */
  lemma {:induction false} AnonymousStampsNothing(box: Box, ids: seq<nat>, to: Recipient, channel: string, now: int)
    requires to.session.None?
    ensures var after := StampAll(box, ids, to, channel, now);
      after.messages == box.messages && after.receipts == box.receipts
    decreases |ids|
  {
    if ids != [] { AnonymousStampsNothing(box, ids[..|ids| - 1], to, channel, now); }
  }

  /** Delivering twice in a row repeats no message exactly when the recipient has a
      session to record receipts under. */
  lemma RepeatsIff(box: Box, to: Recipient, channel: string, limit: nat, now: int)
    requires limit > 0 && Pending(box, to, now) != []
    ensures var first := Batch(box, to, now, limit);
      var second := Batch(DeliveredBox(box, to, channel, limit, now), to, now, limit);
      (forall id | id in first :: id !in second) <==> to.session.Some?
  {
    var first := Batch(box, to, now, limit);
    var after := DeliveredBox(box, to, channel, limit, now);
    var second := Batch(after, to, now, limit);
    if to.session.Some? {
      StampedMessages(box, first, to, channel, now);
      forall id | id in first ensures id !in second {
        PendingIff(box, to, now, id);
        PendingIff(after, to, now, id);
        StampedPending(box, first, to, channel, now, id, now);
      }
    } else {
      AnonymousStampsNothing(box, first, to, channel, now);
      assert PendingFlags(after, to, now) == PendingFlags(box, to, now);
      assert first[0] in first && first[0] in second;
    }
  }

  // -------------------------------------------------------------------- drain

  function DeliverAt(box: Box, to: Recipient, channel: string, limit: nat, times: seq<int>): Box {
    if times == [] then box
    else DeliveredBox(DeliverAt(box, to, channel, limit, times[..|times| - 1]), to, channel, limit, times[|times| - 1])
  }

  lemma OneCallDrains(box: Box, to: Recipient, channel: string, limit: nat, now: int, at: int)
    requires to.session.Some? && now <= at
    ensures var left := |Pending(DeliveredBox(box, to, channel, limit, at), to, at)|;
      left == 0 || left + limit <= |Pending(box, to, now)|
  {
    FewerBelow(PendingFlags(box, to, at), PendingFlags(box, to, now), |box.messages|);
    DeliveryConsumes(box, to, channel, limit, at);
  }

  lemma OneMore(limit: nat, k: nat)
    ensures limit * (k + 1) == limit * k + limit
  {
  }

  function LastTime(now: int, times: seq<int>): int { if times == [] then now else times[|times| - 1] }

  /** With no new messages, each call takes `limit` messages off the pending list,
      and expiry only shortens it. */
  lemma {:induction false} CallsDrain(box: Box, to: Recipient, channel: string, limit: nat, now: int, times: seq<int>)
    requires to.session.Some?
    requires forall i, j | 0 <= i < j < |times| :: times[i] <= times[j]
    requires forall i | 0 <= i < |times| :: now <= times[i]
    ensures var left := |Pending(DeliverAt(box, to, channel, limit, times), to, LastTime(now, times))|;
      left == 0 || left + limit * |times| <= |Pending(box, to, now)|
    decreases |times|
  {
    if times == [] {
      assert limit * 0 == 0;
    } else {
      var earlier, at := times[..|times| - 1], times[|times| - 1];
      CallsDrain(box, to, channel, limit, now, earlier);
      OneCallDrains(DeliverAt(box, to, channel, limit, earlier), to, channel, limit, LastTime(now, earlier), at);
      OneMore(limit, |earlier|);
    }
  }

  /** n pending messages are gone after any number of calls that covers n. */
  lemma DrainsInEnoughCalls(box: Box, to: Recipient, channel: string, limit: nat, now: int, times: seq<int>)
    requires to.session.Some? && times != []
    requires forall i, j | 0 <= i < j < |times| :: times[i] <= times[j]
    requires forall i | 0 <= i < |times| :: now <= times[i]
    requires limit * |times| >= |Pending(box, to, now)|
    ensures Pending(DeliverAt(box, to, channel, limit, times), to, times[|times| - 1]) == []
  {
    CallsDrain(box, to, channel, limit, now, times);
  }

  // --------------------------------------------------------------------- runs

  datatype Op =
    | Send(message: Message, now: int)
    | Deliver(to: Recipient, channel: string, limit: nat, now: int)
    | Record(id: nat, session: Option<string>, agent: Option<string>, via: Option<string>, mark: Mark, now: int)

  datatype World = World(box: Box, rendered: seq<(nat, Option<string>)>)

  function Rendered(ids: seq<nat>, session: Option<string>): seq<(nat, Option<string>)> {
    seq(|ids|, i requires 0 <= i < |ids| => (ids[i], session))
  }

  function Apply(w: World, op: Op): World {
    match op
    case Send(m, _) => w.(box := w.box.(messages := w.box.messages + [m]))
    case Deliver(to, channel, limit, now) =>
      World(DeliveredBox(w.box, to, channel, limit, now),
            w.rendered + Rendered(Batch(w.box, to, now, limit), to.session))
    case Record(id, session, agent, channel, mark, now) =>
      w.(box := Recorded(w.box, id, session, agent, channel, mark, now))
  }

  const EMPTY: World := World(Box([], map[], []), [])

  function After(ops: seq<Op>): World
    decreases |ops|
  {
    if ops == [] then EMPTY else Apply(After(ops[..|ops| - 1]), ops[|ops| - 1])
  }

  predicate ClockAdvances(ops: seq<Op>) {
    forall i, j | 0 <= i < j < |ops| :: ops[i].now <= ops[j].now
  }

  /** Recording a stamp keeps every receipt ordered and every earlier stamp. */
  lemma RecordedSafely(
    box: Box, id: nat, session: Option<string>, agent: Option<string>, channel: Option<string>, mark: Mark, now: int)
    requires BoxOrdered(box, now)
    ensures BoxOrdered(Recorded(box, id, session, agent, channel, mark, now), now)
    ensures BoxKeeps(box, Recorded(box, id, session, agent, channel, mark, now))
  {
  }

  lemma {:induction false} StampedSafely(box: Box, ids: seq<nat>, to: Recipient, channel: string, now: int)
    requires BoxOrdered(box, now)
    ensures BoxOrdered(StampAll(box, ids, to, channel, now), now)
    ensures BoxKeeps(box, StampAll(box, ids, to, channel, now))
    decreases |ids|
  {
    if ids != [] {
      var earlier := StampAll(box, ids[..|ids| - 1], to, channel, now);
      StampedSafely(box, ids[..|ids| - 1], to, channel, now);
      RecordedSafely(earlier, ids[|ids| - 1], to.session, to.agent, Some(channel), Delivered, now);
      KeepsTransitive(box, earlier, StampAll(box, ids, to, channel, now));
    }
  }

  lemma KeepsTransitive(a: Box, b: Box, c: Box)
    requires BoxKeeps(a, b) && BoxKeeps(b, c)
    ensures BoxKeeps(a, c)
  {
  }

  lemma StepSafe(w: World, op: Op)
    requires BoxOrdered(w.box, op.now)
    ensures BoxOrdered(Apply(w, op).box, op.now) && BoxKeeps(w.box, Apply(w, op).box)
  {
    match op
    case Send(_, _) =>
    case Deliver(to, channel, limit, now) =>
      StampedSafely(w.box, Batch(w.box, to, now, limit), to, channel, now);
    case Record(id, session, agent, channel, mark, now) =>
      RecordedSafely(w.box, id, session, agent, channel, mark, now);
  }

  /** Over every run: receipts stay ordered, and no stamp once set ever changes. */
  lemma {:induction false} ReceiptsStayOrdered(ops: seq<Op>, k: nat)
    requires ClockAdvances(ops) && k <= |ops|
    ensures ops != [] ==> BoxOrdered(After(ops).box, ops[|ops| - 1].now)
    ensures BoxKeeps(After(ops[..k]).box, After(ops).box)
    decreases |ops|
  {
    if k == |ops| {
      assert ops[..k] == ops;
    }
    if ops != [] {
      var earlier, op := ops[..|ops| - 1], ops[|ops| - 1];
      ReceiptsStayOrdered(earlier, if k < |ops| then k else 0);
      LaterOrdered(earlier, op.now);
      StepSafe(After(earlier), op);
      if k < |ops| {
        assert ops[..k] == earlier[..k];
        KeepsTransitive(After(ops[..k]).box, After(earlier).box, After(ops).box);
      }
    }
  }

  lemma LaterOrdered(ops: seq<Op>, now: int)
    requires ops != [] ==> BoxOrdered(After(ops).box, ops[|ops| - 1].now) && ops[|ops| - 1].now <= now
    ensures BoxOrdered(After(ops).box, now)
  {
  }

  predicate IsDelivered(box: Box, id: nat, session: string) {
    (id, session) in box.receipts && box.receipts[(id, session)].delivered.Some?
  }

  /** Everything rendered to a session is recorded as delivered to it, and nothing
      was rendered to it twice. */
  ghost predicate OnceEach(w: World) {
    && (forall i | 0 <= i < |w.rendered| ::
          w.rendered[i].1.Some? ==> IsDelivered(w.box, w.rendered[i].0, w.rendered[i].1.value))
    && forall i, j | 0 <= i < j < |w.rendered| :: w.rendered[i] == w.rendered[j] ==> w.rendered[i].1.None?
  }

  lemma {:induction false} StampedDelivered(box: Box, ids: seq<nat>, to: Recipient, channel: string, now: int, k: nat)
    requires to.session.Some? && k < |ids|
    ensures IsDelivered(StampAll(box, ids, to, channel, now), ids[k], to.session.value)
    decreases |ids|
  {
    if k < |ids| - 1 {
      StampedDelivered(box, ids[..|ids| - 1], to, channel, now, k);
    }
  }

  /** What a delivery renders is for the recipient, and afterwards stamped delivered to
      its session. */
  lemma RenderedIsDue(box: Box, to: Recipient, channel: string, limit: nat, now: int, id: nat)
    requires id in Batch(box, to, now, limit)
    ensures id < |box.messages| && IsFor(box.messages[id], to, now)
    ensures to.session.Some? ==> Stamped(DeliveredBox(box, to, channel, limit, now), id, to.session, Delivered)
  {
    BatchMeans(box, to, now, limit);
    DueMeans(box, to, now, id);
    var batch := Batch(box, to, now, limit);
    var k :| 0 <= k < |batch| && batch[k] == id;
    if to.session.Some? { StampedDelivered(box, batch, to, channel, now, k); }
  }

  lemma DeliveryIsRecorded(w: World, op: Op, i: nat)
    requires op.Deliver? && OnceEach(w) && BoxOrdered(w.box, op.now)
    requires i < |Apply(w, op).rendered| && Apply(w, op).rendered[i].1.Some?
    ensures var r := Apply(w, op).rendered[i]; IsDelivered(Apply(w, op).box, r.0, r.1.value)
  {
    if i < |w.rendered| {
      StepSafe(w, op);
    } else {
      StampedDelivered(w.box, Batch(w.box, op.to, op.now, op.limit), op.to, op.channel, op.now, i - |w.rendered|);
    }
  }

  /** What a delivery renders was not rendered to that session before, nor earlier
      in the same delivery. */
  lemma DeliveryIsNew(w: World, op: Op, i: nat, j: nat)
    requires op.Deliver? && OnceEach(w)
    requires i < j < |Apply(w, op).rendered| && |w.rendered| <= j
    requires Apply(w, op).rendered[i] == Apply(w, op).rendered[j]
    ensures op.to.session.None?
  {
    var batch := Batch(w.box, op.to, op.now, op.limit);
    var id := batch[j - |w.rendered|];
    BelowAscends(PendingFlags(w.box, op.to, op.now), |w.box.messages|);
    PendingIff(w.box, op.to, op.now, id);
    assert id in Pending(w.box, op.to, op.now);
  }

  lemma DeliverOnce(w: World, op: Op)
    requires op.Deliver? && OnceEach(w) && BoxOrdered(w.box, op.now)
    ensures OnceEach(Apply(w, op))
  {
    var r := Apply(w, op).rendered;
    forall i | 0 <= i < |r| && r[i].1.Some? ensures IsDelivered(Apply(w, op).box, r[i].0, r[i].1.value) {
      DeliveryIsRecorded(w, op, i);
    }
    forall i, j | 0 <= i < j < |r| && r[i] == r[j] ensures r[i].1.None? {
      if j >= |w.rendered| { DeliveryIsNew(w, op, i, j); }
    }
  }

  /** Over every run, no message is ever rendered twice to the same session. */
  lemma {:induction false} RenderedAtMostOnce(ops: seq<Op>)
    requires ClockAdvances(ops)
    ensures OnceEach(After(ops))
    decreases |ops|
  {
    if ops != [] {
      var earlier, op := ops[..|ops| - 1], ops[|ops| - 1];
      RenderedAtMostOnce(earlier);
      ReceiptsStayOrdered(earlier, 0);
      LaterOrdered(earlier, op.now);
      if op.Deliver? {
        DeliverOnce(After(earlier), op);
      } else {
        StepSafe(After(earlier), op);
      }
    }
  }

  // ----------------------------------------------------- the store as written

  class MailboxStore {
    var messages: seq<Message>
    var receipts: map<(nat, string), Receipt>
    var anonymous: seq<(nat, Receipt)>

    function Tables(): Box
      reads this
    {
      Box(messages, receipts, anonymous)
    }

    constructor ()
      ensures Tables() == EMPTY.box
    {
      messages, receipts, anonymous := [], map[], [];
    }

    method SendMessage(m: Message) returns (id: nat)
      modifies this`messages
      ensures messages == old(messages) + [m] && id == |old(messages)|
    {
      id := |messages|;
      messages := messages + [m];
    }

    method RecordReceipt(
      id: nat, session: Option<string>, agent: Option<string>, channel: Option<string>, mark: Mark, now: int)
      modifies this`receipts, this`anonymous
      ensures Tables() == Recorded(old(Tables()), id, session, agent, channel, mark, now)
    {
      var r := NewReceipt(agent, channel, mark, now);
      if session.None? {
        anonymous := anonymous + [(id, r)];
      } else if (id, session.value) in receipts {
        receipts := receipts[(id, session.value) := Upserted(receipts[(id, session.value)], r)];
      } else {
        receipts := receipts[(id, session.value) := r];
      }
    }

    method PendingUndelivered(to: Recipient, limit: nat, now: int) returns (ids: seq<nat>)
      ensures ids == Batch(Tables(), to, now, limit) && |ids| <= limit
    {
      ids := [];
      var i := 0;
      while i < |messages| && |ids| < limit
        invariant 0 <= i <= |messages| && |ids| <= limit
        invariant ids == Below(PendingFlags(Tables(), to, now), i)
      {
        if IsPending(Tables(), i, to, now) {
          ids := ids + [i];
        }
        i := i + 1;
      }
      BelowGrows(PendingFlags(Tables(), to, now), i);
    }

    /** Renders each pending message and stamps its receipt; nothing to deliver
        renders no block. */
    method RenderAndDeliver(to: Recipient, channel: string, limit: nat, now: int) returns (block: Option<seq<nat>>)
      modifies this`receipts, this`anonymous
      ensures Tables() == DeliveredBox(old(Tables()), to, channel, limit, now)
      ensures var batch := Batch(old(Tables()), to, now, limit); block == if batch == [] then None else Some(batch)
      ensures block.Some? ==> forall id | id in block.value ::
        && id < |messages| && IsFor(messages[id], to, now)
        && (to.session.Some? ==> Stamped(Tables(), id, to.session, Delivered))
    {
      var pending := PendingUndelivered(to, limit, now);
      if pending == [] {
        return None;
      }
      var lines: seq<nat> := [];
      for i := 0 to |pending|
        invariant lines == pending[..i]
        invariant messages == old(messages)
        invariant Tables() == StampAll(old(Tables()), pending[..i], to, channel, now)
      {
        lines := lines + [pending[i]];
        assert pending[..i + 1][..i] == pending[..i];
        RecordReceipt(pending[i], to.session, to.agent, Some(channel), Delivered, now);
      }
      assert pending[..|pending|] == pending;
      block := Some(lines);
      forall id | id in lines
        ensures id < |messages| && IsFor(messages[id], to, now)
        ensures to.session.Some? ==> Stamped(Tables(), id, to.session, Delivered)
      {
        RenderedIsDue(old(Tables()), to, channel, limit, now, id);
      }
    }
  }
}
