/**
 * The durable queue of history notifications: drained in rowid order, one transaction per notification,
 * deleted only after its batch is stored. Any step may fail and the process may die between any two steps.
 */
module HistoryQueue {
  import opened Prelude
  import opened Ordering
  import opened KeysetOrder
  import opened ResyncPaging
  import opened MessageStore

  // ------------------------------------------------ building one batch

  function PosOfMessage(m: Message): Pos {
    Pos(m.timestamp, m.key.chat, m.key.id)
  }

  /** The message a history event ends up with for one key: later copies win until a revoked one was seen. */
  function Survivor(ms: seq<Message>, k: Key): Option<Message> {
    if ms == [] then None
    else
      var before := Survivor(ms[..|ms| - 1], k);
      var m := ms[|ms| - 1];
      if m.key == k && !(before.Some? && before.value.body.revoked) then Some(m) else before
  }

  /** That is the first revoked copy if there is one, and the last copy otherwise. */
  lemma {:induction false} SurvivorIsFirstRevokedOrLast(ms: seq<Message>, k: Key, i: nat)
    requires i < |ms| && ms[i].key == k
    requires if ms[i].body.revoked then (forall j :: 0 <= j < i && ms[j].key == k ==> !ms[j].body.revoked)
             else (forall j :: 0 <= j < |ms| && ms[j].key == k ==> !ms[j].body.revoked && j <= i)
    ensures Survivor(ms, k) == Some(ms[i])
  {
    var n := |ms| - 1;
    var front := ms[..n];
    assert forall j :: 0 <= j < n ==> front[j] == ms[j];
    if i < n {
      SurvivorIsFirstRevokedOrLast(front, k, i);
    } else if ms[i].body.revoked {
      UnrevokedSurvivor(front, k);
    } else {
      UnrevokedSurvivor(front, k);
    }
  }

  lemma {:induction false} UnrevokedSurvivor(ms: seq<Message>, k: Key)
    requires forall j :: 0 <= j < |ms| && ms[j].key == k ==> !ms[j].body.revoked
    ensures Survivor(ms, k).Some? ==> !Survivor(ms, k).value.body.revoked
  {
    if ms != [] {
      var front := ms[..|ms| - 1];
      assert forall j :: 0 <= j < |front| ==> front[j] == ms[j];
      UnrevokedSurvivor(front, k);
    }
  }

  /** The value list of a keyed map in (timestamp, chat, id) order. */
  method ListByPosition(byKey: map<Key, Message>) returns (batch: seq<Message>)
    requires forall k :: k in byKey ==> byKey[k].key == k
    ensures DistinctKeys(batch)
    ensures forall m :: m in batch <==> m.key in byKey && byKey[m.key] == m
    ensures forall i, j :: 0 <= i < j < |batch| ==> Before(PosOfMessage(batch[i]), PosOfMessage(batch[j]))
  {
    hide Before, TotalOrder, SortedListing;
    BeforeIsTotalOrder();
    var rest := set k | k in byKey :: PosOfMessage(byKey[k]);
    ghost var all := SortedListing(Before, rest);
    ghost var whole := rest;
    batch := [];
    while rest != {}
      invariant rest <= whole && |batch| <= |all|
      invariant SortedListing(Before, rest) == all[|batch|..]
      invariant forall i :: 0 <= i < |batch|
                  ==> batch[i].key in byKey && byKey[batch[i].key] == batch[i] && PosOfMessage(batch[i]) == all[i]
      decreases rest
    {
      var p0 := LeastExists(Before, rest);
      var p :| p in rest && IsLeast(Before, p, rest);
      LeastIsFirst(Before, rest, p);
      assert all[|batch|] == p;
      var k :| k in byKey && PosOfMessage(byKey[k]) == p;
      batch := batch + [byKey[k]];
      rest := rest - {p};
      assert SortedListing(Before, rest) == all[|batch|..];
    }
    NothingToList(Before);
    assert |batch| == |all|;
    ListedOnce(byKey, batch, whole);
  }

  lemma ListedOnce(byKey: map<Key, Message>, batch: seq<Message>, whole: set<Pos>)
    requires TotalOrder(Before)
    requires forall k :: k in byKey ==> byKey[k].key == k
    requires whole == set k | k in byKey :: PosOfMessage(byKey[k])
    requires |batch| == |SortedListing(Before, whole)|
    requires forall i :: 0 <= i < |batch| ==>
      batch[i].key in byKey && byKey[batch[i].key] == batch[i]
          && PosOfMessage(batch[i]) == SortedListing(Before, whole)[i]
    ensures DistinctKeys(batch)
    ensures forall m :: m in batch <==> m.key in byKey && byKey[m.key] == m
    ensures forall i, j :: 0 <= i < j < |batch| ==> Before(PosOfMessage(batch[i]), PosOfMessage(batch[j]))
  {
    hide SortedListing, LexLess;
    var all := SortedListing(Before, whole);
    ListingIsAscending(Before, whole);
    forall m: Message | m.key in byKey && byKey[m.key] == m ensures m in batch {
      assert PosOfMessage(byKey[m.key]) in whole;
      assert PosOfMessage(m) in Elems(all);
      var i :| 0 <= i < |all| && all[i] == PosOfMessage(m);
      assert batch[i].key == m.key;
    }
    forall i, j | 0 <= i < j < |batch|
      ensures Before(PosOfMessage(batch[i]), PosOfMessage(batch[j])) && batch[i].key != batch[j].key {
      assert Before(all[i], all[j]);
    }
  }

  /** Collects a history event's messages by key and lists them by (timestamp, chat, id). */
  method CollectMessages(ms: seq<Message>) returns (batch: seq<Message>)
    ensures DistinctKeys(batch)
    ensures forall m :: m in batch <==> Survivor(ms, m.key) == Some(m)
    ensures forall i, j :: 0 <= i < j < |batch| ==> Before(PosOfMessage(batch[i]), PosOfMessage(batch[j]))
  {
    hide Before;
    var byKey: map<Key, Message> := map[];
    for i := 0 to |ms|
      invariant forall k :: Survivor(ms[..i], k) == if k in byKey then Some(byKey[k]) else None
      invariant forall k :: k in byKey ==> byKey[k].key == k
    {
      var m := ms[i];
      assert ms[..i + 1][..i] == ms[..i];
      if m.key !in byKey || !byKey[m.key].body.revoked {
        byKey := byKey[m.key := m];
      }
    }
    assert ms[..|ms|] == ms;
    batch := ListByPosition(byKey);
  }

  // ---------------------------------------------------------- the queue

  datatype Entry = Entry(rowId: nat, messages: seq<Message>)

  datatype Stage = Idle | Downloaded(entry: Entry) | StoredNotDeleted(entry: Entry)

  /**
   * `enqueued`, `applied` and `stored` record the run: every row ever queued, the rowid of every committed batch, and
   * each notification's batch as it was stored first, with the aliases known then.
   */
  datatype State = State(
    queue: seq<Entry>, nextRowId: nat, messages: MessageTable, stage: Stage,
    enqueued: seq<Entry>, applied: seq<nat>, stored: seq<Batch>)

  datatype Step =
    | Enqueue(messages: seq<Message>)
    | Load
    | Store(aliases: seq<Alias>, clock: nat -> int)
    | Delete
    | Fail
    | Crash
    | Live(op: Op)

  function WithoutRow(queue: seq<Entry>, rowId: nat): seq<Entry> {
    if queue == [] then []
    else (if queue[0].rowId == rowId then [] else [queue[0]]) + WithoutRow(queue[1..], rowId)
  }

  /** A failed step and a crash both leave the durable queue and table as they are and drop what was in memory. */
  function Next(s: State, step: Step): State {
    match step
    case Enqueue(messages) =>
      var e := Entry(s.nextRowId, messages);
      s.(queue := s.queue + [e], nextRowId := s.nextRowId + 1, enqueued := s.enqueued + [e])
    case Load => if s.stage.Idle? && s.queue != [] then s.(stage := Downloaded(s.queue[0])) else s
    case Store(aliases, clock) =>
      if s.stage.Downloaded? then
        var b := Batch(s.stage.entry.messages, aliases);
        s.(messages := ApplyBatch(s.messages, b, clock), stage := StoredNotDeleted(s.stage.entry),
        applied := s.applied + [s.stage.entry.rowId], stored := if HeadStored(s) then s.stored else s.stored + [b])
      else s
    case Delete =>
      if s.stage.StoredNotDeleted? then s.(queue := WithoutRow(s.queue, s.stage.entry.rowId), stage := Idle) else s
    case Fail => s.(stage := Idle)
    case Crash => s.(stage := Idle)
    case Live(op) => s.(messages := Apply(s.messages, op))
  }

  function RunSteps(s: State, steps: seq<Step>): State {
    if steps == [] then s else Next(RunSteps(s, steps[..|steps| - 1]), steps[|steps| - 1])
  }

  function Start(messages: MessageTable): State {
    State([], 1, messages, Idle, [], [], [])
  }

  function Done(s: State): int {
    |s.enqueued| - |s.queue|
  }

  /** The oldest queued notification is stored already, so storing it again would be a replay. */
  predicate HeadStored(s: State) {
    s.queue != [] && s.applied != [] && s.applied[|s.applied| - 1] == s.queue[0].rowId
  }

  /** The queue is the unfinished end of everything enqueued, in rowid order, and work in hand is its head. */
  ghost predicate QueueShape(s: State) {
    && (forall i, j :: 0 <= i < j < |s.enqueued| ==> s.enqueued[i].rowId < s.enqueued[j].rowId)
    && s.nextRowId > 0 && (forall i :: 0 <= i < |s.enqueued| ==> 0 < s.enqueued[i].rowId < s.nextRowId)
    && Done(s) >= 0 && s.queue == s.enqueued[Done(s)..]
    && (!s.stage.Idle? ==> s.queue != [] && s.stage.entry == s.queue[0])
    && (s.stage.StoredNotDeleted? ==> HeadStored(s))
  }

  /** Commits went in rowid order, never past the head, and cover everything already deleted. */
  ghost predicate AppliedShape(s: State) {
    && (forall i, j :: 0 <= i < j < |s.applied| ==> s.applied[i] <= s.applied[j])
    && (forall r :: r in s.applied ==> r < s.nextRowId && (s.queue != [] ==> r <= s.queue[0].rowId))
    && (forall j :: 0 <= j < |s.enqueued| - |s.queue| ==> s.enqueued[j].rowId in s.applied)
  }

  ghost predicate QueueInv(s: State) {
    QueueShape(s) && AppliedShape(s)
  }

  lemma {:induction false} WithoutAbsentRow(queue: seq<Entry>, rowId: nat)
    requires forall i :: 0 <= i < |queue| ==> queue[i].rowId != rowId
    ensures WithoutRow(queue, rowId) == queue
  {
    if queue != [] { WithoutAbsentRow(queue[1..], rowId); }
  }

  lemma DeleteDropsHead(s: State)
    requires QueueInv(s) && s.stage.StoredNotDeleted?
    ensures WithoutRow(s.queue, s.stage.entry.rowId) == s.queue[1..]
  {
    forall i | 0 <= i < |s.queue[1..]| ensures s.queue[1..][i].rowId != s.queue[0].rowId {
      assert s.queue[1..][i] == s.enqueued[Done(s) + 1 + i] && s.queue[0] == s.enqueued[Done(s)];
    }
    WithoutAbsentRow(s.queue[1..], s.queue[0].rowId);
  }

  lemma EnqueueKeepsQueueInv(s: State, messages: seq<Message>)
    requires QueueInv(s)
    ensures QueueInv(Next(s, Enqueue(messages)))
  {
    EnqueueKeepsShape(s, messages);
    EnqueueKeepsApplied(s, messages);
  }

  lemma EnqueueKeepsShape(s: State, messages: seq<Message>)
    requires QueueInv(s)
    ensures QueueShape(Next(s, Enqueue(messages)))
  {
    hide AppliedShape;
    var s' := Next(s, Enqueue(messages));
    var e := Entry(s.nextRowId, messages);
    assert s'.enqueued == s.enqueued + [e] && s'.queue == s.queue + [e];
    assert s'.queue == s'.enqueued[Done(s)..];
    assert !s.stage.Idle? ==> s'.queue[0] == s.queue[0];
  }

  lemma EnqueueKeepsApplied(s: State, messages: seq<Message>)
    requires QueueInv(s)
    ensures AppliedShape(Next(s, Enqueue(messages)))
  {
    var s' := Next(s, Enqueue(messages));
    assert forall j :: 0 <= j < |s.enqueued| ==> s'.enqueued[j] == s.enqueued[j];
    if s.queue != [] { assert s'.queue[0] == s.queue[0]; }
  }

  lemma StoreKeepsQueueInv(s: State, aliases: seq<Alias>, clock: nat -> int)
    requires QueueInv(s)
    ensures QueueInv(Next(s, Store(aliases, clock)))
  {
    hide ApplyBatch;
    if s.stage.Downloaded? {
      assert s.queue[0] == s.enqueued[Done(s)];
      var s' := Next(s, Store(aliases, clock));
      assert forall r :: r in s'.applied <==> r in s.applied || r == s.queue[0].rowId;
      forall i | 0 <= i < |s.applied| ensures s.applied[i] <= s.queue[0].rowId {
        assert s.applied[i] in s.applied;
      }
    }
  }

  lemma DeleteKeepsQueueInv(s: State)
    requires QueueInv(s)
    ensures QueueInv(Next(s, Delete))
  {
    if s.stage.StoredNotDeleted? {
      DeleteDropsHead(s);
      var d := Done(s);
      assert s.enqueued[d] == s.queue[0];
      assert s.queue[1..] == s.enqueued[d + 1..];
      if |s.queue| > 1 {
        assert s.queue[1] == s.enqueued[d + 1];
      }
    }
  }

  lemma StepKeepsQueueInv(s: State, step: Step)
    requires QueueInv(s)
    ensures QueueInv(Next(s, step))
  {
    match step
    case Enqueue(messages) => EnqueueKeepsQueueInv(s, messages);
    case Store(aliases, clock) => StoreKeepsQueueInv(s, aliases, clock);
    case Delete => DeleteKeepsQueueInv(s);
    case _ =>
  }

  lemma {:induction false} RunKeepsQueueInv(messages: MessageTable, steps: seq<Step>)
    ensures QueueInv(RunSteps(Start(messages), steps))
  {
    if steps != [] {
      RunKeepsQueueInv(messages, steps[..|steps| - 1]);
      StepKeepsQueueInv(RunSteps(Start(messages), steps[..|steps| - 1]), steps[|steps| - 1]);
    }
  }

  /**
   * Whatever fails, crashes or is written live: every notification ever queued is still queued or its batch was
   * committed, and batches are committed in rowid order.
   */
  lemma NothingLostAndInOrder(messages: MessageTable, steps: seq<Step>)
    ensures var s := RunSteps(Start(messages), steps);
            && (forall e :: e in s.enqueued ==> e in s.queue || e.rowId in s.applied)
            && (forall i, j :: 0 <= i < j < |s.applied| ==> s.applied[i] <= s.applied[j])
  {
    var s := RunSteps(Start(messages), steps);
    RunKeepsQueueInv(messages, steps);
    forall e | e in s.enqueued ensures e in s.queue || e.rowId in s.applied {
      var i :| 0 <= i < |s.enqueued| && s.enqueued[i] == e;
      if i >= Done(s) { assert s.queue[i - Done(s)] == e; }
    }
  }

  /** Where one pass over a notification can go wrong; a failing statement has an index in its transaction. */
  datatype Fault =
    | LoadFault
    | DownloadFault
    | AliasFault
    | CheckFault(message: nat, query: nat)
    | StoreFault(statement: nat)
    | DeleteFault

  /** The helper's side: the notification table and the message cache, with the run so far as ghost state. */
  class HistoryProcessor {
    const cache: MessageCache
    var queue: seq<Entry>
    var nextRowId: nat
    ghost var stage: Stage
    ghost var enqueued: seq<Entry>
    ghost var applied: seq<nat>
    ghost var stored: seq<Batch>

    ghost function View(): State
      reads this, cache
    {
      State(queue, nextRowId, cache.messages, stage, enqueued, applied, stored)
    }

    constructor (cache: MessageCache)
      ensures this.cache == cache && View() == Start(cache.messages) && QueueInv(View())
    {
      this.cache, queue, nextRowId := cache, [], 1;
      stage, enqueued, applied, stored := Idle, [], [], [];
    }

    method EnqueueNotification(messages: seq<Message>)
      requires QueueInv(View())
      modifies this
      ensures View() == Next(old(View()), Enqueue(messages)) && QueueInv(View())
    {
      EnqueueKeepsQueueInv(View(), messages);
      var e := Entry(nextRowId, messages);
      queue := queue + [e];
      nextRowId := nextRowId + 1;
      enqueued := enqueued + [e];
    }

    /** `ORDER BY rowid LIMIT 1`. */
    method GetNextNotification() returns (next: Option<Entry>)
      ensures next.None? <==> queue == []
      ensures next.Some? ==> next.value in queue && forall e :: e in queue ==> next.value.rowId <= e.rowId
    {
      next := None;
      for i := 0 to |queue|
        invariant next.None? <==> i == 0
        invariant next.Some? ==> next.value in queue && forall j :: 0 <= j < i ==> next.value.rowId <= queue[j].rowId
      {
        if next.None? || queue[i].rowId < next.value.rowId { next := Some(queue[i]); }
      }
    }

    /**
     * Filters the batch in place and stores what is left in one transaction. A revocation query that fails
     * (`checkFails`) or a statement of the transaction that does (`failsAt`) leaves the table as it was.
     */
    method ApplyHistorySyncData(b: Batch, clock: nat -> int, checkFails: nat -> Option<nat>, failsAt: Option<nat>)
      returns (ok: bool)
      modifies cache
      ensures cache.messages == if ok then ApplyBatch(old(cache.messages), b, clock) else old(cache.messages)
      ensures (forall i: nat :: checkFails(i).None?) && failsAt.None? ==> ok
    {
      hide Kept, UpsertAll;
      var batch := new Message[|b.messages|](i requires 0 <= i < |b.messages| => b.messages[i]);
      assert batch[..] == b.messages;
      var n, checked := cache.FilterRevokedResends(batch, b.aliases, checkFails);
      if !checked { return false; }
      ok := cache.ApplySnapshot(batch[..n], clock, failsAt);
    }

    method DeleteNotification(rowId: nat)
      modifies this`queue
      ensures queue == WithoutRow(old(queue), rowId)
    {
      var left := [];
      assert queue[0..] == queue;
      for i := 0 to |queue|
        invariant queue == old(queue)
        invariant left + WithoutRow(queue[i..], rowId) == WithoutRow(queue, rowId)
      {
        WithoutRowStep(queue, i, rowId, left);
        if queue[i].rowId != rowId { left := left + [queue[i]]; }
      }
      assert left + [] == left;
      queue := left;
    }

    /**
     * Drains the queue head by head until it is empty or something fails; `steps` is the run this amounts to. The i-th
     * pass finds the aliases `known(i)`.
     */
    method ProcessQueued(fault: nat -> Option<Fault>, known: nat -> seq<Alias>, clock: nat -> nat -> int)
      returns (processedAny: bool, ok: bool, ghost steps: seq<Step>)
      requires QueueInv(View()) && stage.Idle?
      modifies this, cache
      ensures QueueInv(View()) && stage.Idle?
      ensures View() == RunSteps(old(View()), steps)
      ensures ok ==> queue == []
      ensures (forall i: nat :: fault(i).None?) ==> ok
      ensures processedAny <==> old(queue) != [] && fault(0) != Some(LoadFault)
    {
      hide QueueInv, Next, HeadStored, Done;
      processedAny, steps := false, [];
      ghost var start := View();
      var i: nat := 0;
      while true
        invariant QueueInv(View()) && stage.Idle?
        invariant View() == RunSteps(start, steps)
        invariant i == 0 ==> View() == start && !processedAny
        invariant i > 0 ==> processedAny && start.queue != [] && fault(0) != Some(LoadFault)
        decreases |queue|
      {
        if fault(i) == Some(LoadFault) { return processedAny, false, steps; }
        var next := GetNextNotification();
        if next.None? { return processedAny, true, steps; }
        processedAny := true;
        var done, taken := ProcessOne(next.value, fault(i), known(i), clock(i));
        RunStepsConcat(start, steps, taken);
        steps := steps + taken;
        if !done { return true, false, steps; }
        i := i + 1;
      }
    }

    /** Downloads, stores and deletes one notification, or stops at the first failure; a failing alias write is one. */
    method ProcessOne(entry: Entry, fault: Option<Fault>, known: seq<Alias>, clock: nat -> int)
      returns (done: bool, ghost steps: seq<Step>)
      requires QueueInv(View()) && stage.Idle?
      requires entry in queue && forall e :: e in queue ==> entry.rowId <= e.rowId
      modifies this, cache
      ensures QueueInv(View()) && stage.Idle?
      ensures View() == RunSteps(old(View()), steps)
      ensures done ==> queue == old(queue)[1..] && old(queue) != []
      ensures fault.None? ==> done
    {
      hide QueueInv, ApplyBatch, WithoutRow, HeadStored, Done;
      ghost var start := View();
      HeadIsLeast(start, entry);
      stage := Downloaded(entry);
      steps := [Load];
      ghost var loaded := View();
      StepKeepsQueueInv(start, Load);
      RunOfOne(start, Load);
      var committed := false;
      if fault != Some(DownloadFault) && fault != Some(AliasFault) {
        var failsAt := if fault.Some? && fault.value.StoreFault? then Some(fault.value.statement) else None;
        var checkFails := (i: nat) =>
          if fault.Some? && fault.value.CheckFault? && fault.value.message == i then Some(fault.value.query) else None;
        committed := ApplyHistorySyncData(Batch(entry.messages, known), clock, checkFails, failsAt);
      }
      if !committed {
        stage := Idle;
        StepKeepsQueueInv(loaded, Fail);
        RunStepsSnoc(start, steps, Fail);
        return false, steps + [Fail];
      }
      stored := if HeadStored(loaded) then stored else stored + [Batch(entry.messages, known)];
      stage, applied := StoredNotDeleted(entry), applied + [entry.rowId];
      StepKeepsQueueInv(loaded, Store(known, clock));
      RunStepsSnoc(start, steps, Store(known, clock));
      steps := steps + [Store(known, clock)];
      ghost var kept := View();
      stage := Idle;
      if fault == Some(DeleteFault) {
        StepKeepsQueueInv(kept, Fail);
        RunStepsSnoc(start, steps, Fail);
        return false, steps + [Fail];
      }
      DeleteNotification(entry.rowId);
      StepKeepsQueueInv(kept, Delete);
      RunStepsSnoc(start, steps, Delete);
      DeleteDropsHead(kept);
      return true, steps + [Delete];
    }
  }

  lemma WithoutRowStep(queue: seq<Entry>, i: nat, rowId: nat, left: seq<Entry>)
    requires i < |queue|
    ensures left + WithoutRow(queue[i..], rowId)
            == (if queue[i].rowId != rowId then left + [queue[i]] else left) + WithoutRow(queue[i + 1..], rowId)
  {
    assert queue[i..][0] == queue[i] && queue[i..][1..] == queue[i + 1..];
    assert WithoutRow(queue[i..], rowId)
        == (if queue[i].rowId != rowId then [queue[i]] else []) + WithoutRow(queue[i + 1..], rowId);
  }

  lemma HeadIsLeast(s: State, entry: Entry)
    requires QueueInv(s) && entry in s.queue && forall e :: e in s.queue ==> entry.rowId <= e.rowId
    ensures entry == s.queue[0]
  {
    var i :| 0 <= i < |s.queue| && s.queue[i] == entry;
    assert s.queue[0] == s.enqueued[Done(s)] && s.queue[i] == s.enqueued[Done(s) + i];
  }

  lemma RunStepsSnoc(s: State, steps: seq<Step>, step: Step)
    ensures RunSteps(s, steps + [step]) == Next(RunSteps(s, steps), step)
  {
    hide Next;
    assert (steps + [step])[..|steps|] == steps;
  }

  lemma RunOfOne(s: State, step: Step)
    ensures RunSteps(s, [step]) == Next(s, step)
  {
    RunStepsSnoc(s, [], step);
    assert [] + [step] == [step];
  }

  lemma {:induction false} RunStepsConcat(s: State, steps: seq<Step>, more: seq<Step>)
    ensures RunSteps(s, steps + more) == RunSteps(RunSteps(s, steps), more)
  {
    hide Next;
    if more == [] {
      assert steps + more == steps;
    } else {
      assert (steps + more)[..|steps + more| - 1] == steps + more[..|more| - 1];
      RunStepsConcat(s, steps, more[..|more| - 1]);
    }
  }

  // ------------------------------------------------ exactly-once effect

  /** Storing batches one by one, each exactly once. */
  function StoredOnce(messages: MessageTable, batches: seq<Batch>): MessageTable {
    if batches == [] then messages
    else ApplyBatch(StoredOnce(messages, batches[..|batches| - 1]), batches[|batches| - 1], (i: nat) => 0)
  }

  lemma {:induction false} SameContentKeeps(t: MessageTable, u: MessageTable, ms: seq<Message>, aliases: seq<Alias>)
    requires SameContent(t, u)
    ensures Kept(t, ms, aliases) == Kept(u, ms, aliases)
  {
    if ms != [] {
      SameContentKeeps(t, u, ms[..|ms| - 1], aliases);
      var m := ms[|ms| - 1];
      assert forall k :: RowRevoked(t, k) <==> RowRevoked(u, k);
      if SeenRevoked(t, m, aliases) {
        var k :| k in StoredKeys(m, aliases) && RowRevoked(t, k);
        assert RowRevoked(u, k);
      }
      if SeenRevoked(u, m, aliases) {
        var k :| k in StoredKeys(m, aliases) && RowRevoked(u, k);
        assert RowRevoked(t, k);
      }
    }
  }

  lemma {:induction false} SameContentUpserts(
      t: MessageTable, u: MessageTable, ms: seq<Message>, c: nat -> int, c': nat -> int)
    requires SameContent(t, u)
    ensures SameContent(UpsertAll(t, ms, c), UpsertAll(u, ms, c'))
  {
    if ms != [] { SameContentUpserts(t, u, ms[..|ms| - 1], c, c'); }
  }

  lemma SameContentBatch(t: MessageTable, u: MessageTable, b: Batch, c: nat -> int, c': nat -> int)
    requires SameContent(t, u)
    ensures SameContent(ApplyBatch(t, b, c), ApplyBatch(u, b, c'))
  {
    SameContentKeeps(t, u, b.messages, b.aliases);
    SameContentUpserts(t, u, Kept(t, b.messages, b.aliases), c, c');
  }

  ghost predicate NoLiveWrites(steps: seq<Step>) {
    forall step | step in steps :: !step.Live?
  }

  ghost predicate DistinctBatches(steps: seq<Step>) {
    forall step :: step in steps && step.Enqueue? ==> DistinctKeys(step.messages)
  }

  /** What is known of aliases never shrinks from one store to a later one. */
  ghost predicate AliasesGrow(steps: seq<Step>) {
    forall i, j :: 0 <= i < j < |steps| && steps[i].Store? && steps[j].Store?
        ==> Extends(steps[j].aliases, steps[i].aliases)
  }

  /** The batches stored first are those of the notifications deleted and of the oldest queued one, if it was stored. */
  ghost predicate StoredShape(s: State) {
    && |s.stored| == Done(s) + (if HeadStored(s) then 1 else 0)
    && (forall i :: 0 <= i < |s.stored| ==> i < |s.enqueued| && s.stored[i].messages == s.enqueued[i].messages)
  }

  ghost predicate ContentInv(messages: MessageTable, s: State) {
    && QueueInv(s) && StoredShape(s)
    && (forall e :: e in s.enqueued ==> DistinctKeys(e.messages))
    && SameContent(s.messages, StoredOnce(messages, s.stored))
  }

  lemma StoreStep(messages: MessageTable, s: State, aliases: seq<Alias>, clock: nat -> int)
    requires ContentInv(messages, s) && s.stage.Downloaded?
    requires forall b :: b in s.stored ==> Extends(aliases, b.aliases)
    ensures var s' := Next(s, Store(aliases, clock)); SameContent(s'.messages, StoredOnce(messages, s'.stored))
  {
    hide SameContent, ApplyBatch, DistinctKeys, StoredOnce, Extends;
    var d := Done(s);
    var b := Batch(s.stage.entry.messages, aliases);
    var zero := (i: nat) => 0;
    assert s.queue[0] == s.enqueued[d] && s.enqueued[d] in s.enqueued;
    if HeadStored(s) {
      var first := s.stored[d];
      var once := StoredOnce(messages, s.stored[..d]);
      assert first in s.stored && first.messages == b.messages;
      StoredOnceLast(messages, s.stored);
      var stored := ApplyBatch(once, first, zero);
      SameContentBatch(s.messages, stored, b, clock, clock);
      ReplayChangesOnlyStamps(once, first, aliases, zero, clock);
      SameContentTransitive(stored, ApplyBatch(stored, b, clock), ApplyBatch(s.messages, b, clock));
      SameContentSymmetric(stored, ApplyBatch(s.messages, b, clock));
    } else {
      StoredOnceLast(messages, s.stored + [b]);
      assert (s.stored + [b])[..|s.stored|] == s.stored;
      SameContentBatch(s.messages, StoredOnce(messages, s.stored), b, clock, zero);
    }
  }

  lemma StoredOnceLast(messages: MessageTable, batches: seq<Batch>)
    requires batches != []
    ensures var n := |batches| - 1;
            StoredOnce(messages, batches) == ApplyBatch(StoredOnce(messages, batches[..n]), batches[n], (i: nat) => 0)
  {
    hide ApplyBatch;
  }

  lemma SameContentSymmetric(t: MessageTable, u: MessageTable)
    requires SameContent(u, t)
    ensures SameContent(t, u) && SameContent(u, t)
  {
  }

  lemma SameContentTransitive(t: MessageTable, u: MessageTable, v: MessageTable)
    requires SameContent(t, u) && SameContent(v, u)
    ensures SameContent(v, t)
  {
  }

  lemma StepKeepsContent(messages: MessageTable, s: State, step: Step)
    requires ContentInv(messages, s) && !step.Live?
    requires step.Enqueue? ==> DistinctKeys(step.messages)
    requires step.Store? ==> forall b :: b in s.stored ==> Extends(step.aliases, b.aliases)
    ensures ContentInv(messages, Next(s, step))
  {
    hide SameContent, DistinctKeys, StoredOnce, QueueInv, Next, StoredShape, Extends;
    StepKeepsQueueInv(s, step);
    match step
    case Enqueue(ms) => EnqueueKeepsContent(messages, s, ms);
    case Store(aliases, clock) => StoreKeepsContent(messages, s, aliases, clock);
    case Delete => DeleteKeepsContent(messages, s);
    case _ => OtherStepsKeepContent(messages, s, step);
  }

  lemma OtherStepsKeepContent(messages: MessageTable, s: State, step: Step)
    requires ContentInv(messages, s) && (step.Load? || step.Fail? || step.Crash?)
    ensures ContentInv(messages, Next(s, step))
  {
    hide SameContent, DistinctKeys, StoredOnce;
  }

  lemma EnqueueKeepsContent(messages: MessageTable, s: State, ms: seq<Message>)
    requires ContentInv(messages, s) && DistinctKeys(ms)
    ensures ContentInv(messages, Next(s, Enqueue(ms)))
  {
    hide SameContent, DistinctKeys, StoredOnce;
    EnqueueKeepsQueueInv(s, ms);
    var s' := Next(s, Enqueue(ms));
    if s.applied != [] { assert s.applied[|s.applied| - 1] in s.applied; }
    assert HeadStored(s') == HeadStored(s);
    assert forall i :: 0 <= i < |s.enqueued| ==> s'.enqueued[i] == s.enqueued[i];
  }

  lemma StoreKeepsContent(messages: MessageTable, s: State, aliases: seq<Alias>, clock: nat -> int)
    requires ContentInv(messages, s) && forall b :: b in s.stored ==> Extends(aliases, b.aliases)
    ensures ContentInv(messages, Next(s, Store(aliases, clock)))
  {
    hide SameContent, DistinctKeys, StoredOnce, ApplyBatch, Extends;
    StoreKeepsQueueInv(s, aliases, clock);
    if s.stage.Downloaded? {
      StoreStep(messages, s, aliases, clock);
      assert s.queue[0] == s.enqueued[Done(s)];
    }
  }

  lemma DeleteKeepsContent(messages: MessageTable, s: State)
    requires ContentInv(messages, s)
    ensures ContentInv(messages, Next(s, Delete))
  {
    hide SameContent, DistinctKeys, StoredOnce;
    DeleteKeepsQueueInv(s);
    if s.stage.StoredNotDeleted? {
      DeleteDropsHead(s);
      var s' := Next(s, Delete);
      if s'.queue != [] {
        assert s'.queue[0] == s.enqueued[Done(s) + 1] && s.queue[0] == s.enqueued[Done(s)];
      }
      assert !HeadStored(s');
    }
  }

  /** Every batch stored first was stored by some step, with the aliases known then. */
  lemma {:induction false} StoredByStep(messages: MessageTable, steps: seq<Step>)
    ensures forall b :: b in RunSteps(Start(messages), steps).stored
              ==> exists i :: 0 <= i < |steps| && StoresWith(steps[i], b.aliases)
  {
    if steps != [] {
      hide ApplyBatch, WithoutRow, Apply;
      var front, last := steps[..|steps| - 1], steps[|steps| - 1];
      StoredByStep(messages, front);
      var s, s' := RunSteps(Start(messages), front), RunSteps(Start(messages), steps);
      forall b | b in s'.stored ensures exists i :: 0 <= i < |steps| && StoresWith(steps[i], b.aliases) {
        if b in s.stored {
          var i :| 0 <= i < |front| && StoresWith(front[i], b.aliases);
          assert StoresWith(steps[i], b.aliases);
        } else {
          assert StoresWith(steps[|steps| - 1], b.aliases);
        }
      }
    }
  }

  predicate StoresWith(step: Step, aliases: seq<Alias>) {
    step.Store? && step.aliases == aliases
  }

  /**
   * With no live writes in between, the table after any run of failures, crashes and retries equals (but for
   * `updated_at`) storing a prefix of the queued notifications exactly once each: those deleted, and the oldest
   * queued one if its batch is committed already.
   */
  lemma {:induction false} ExactlyOnceEffect(messages: MessageTable, steps: seq<Step>)
    requires NoLiveWrites(steps) && DistinctBatches(steps) && AliasesGrow(steps)
    ensures ContentInv(messages, RunSteps(Start(messages), steps))
  {
    if steps == [] {
      StartContent(messages);
    } else {
      hide ContentInv, Next, DistinctKeys, Start, Extends;
      var front, last := steps[..|steps| - 1], steps[|steps| - 1];
      assert forall step :: step in front ==> step in steps;
      assert forall i :: 0 <= i < |front| ==> front[i] == steps[i];
      ExactlyOnceEffect(messages, front);
      assert last in steps;
      StoredByStep(messages, front);
      StepKeepsContent(messages, RunSteps(Start(messages), front), last);
    }
  }

  lemma StartContent(messages: MessageTable)
    ensures ContentInv(messages, Start(messages))
  {
    hide SameContent, DistinctKeys, QueueInv, ApplyBatch;
    SameContentReflexive(messages);
    StartShape(messages);
  }

  lemma SameContentReflexive(t: MessageTable)
    ensures SameContent(t, t)
  {
  }

  lemma StartShape(messages: MessageTable)
    ensures QueueInv(Start(messages))
  {
  }
}
