/**
 * A notification whose batch was stored but not yet deleted is stored again. With live receipts and messages arriving
 * in between, that is harmless exactly when the rows already agree with what the batch would write.
 */
module HistoryReplay {
  import opened Prelude
  import opened ResyncPaging
  import opened MessageStore
  import opened HistoryQueue

  // ------------------------------------------------------------ one batch

  /** A message's row already has every column an upsert of the message would write. */
  predicate Absorbs(t: MessageTable, m: Message) {
    m.key in t &&
    var r, b := t[m.key].payload, m.body;
    && t[m.key].timestamp == m.timestamp
    && r.details == StoredDetails(b.details)
    && r.status == NullableString(b.status)
    && (r.revoked || r.text == b.text)
    && (b.revoked ==> r.revoked)
    && (b.deliveredAt.Some? ==> r.deliveredAt == b.deliveredAt)
    && (b.readAt.Some? ==> r.readAt == b.readAt)
  }

  lemma AbsorbedIffUnchanged(t: MessageTable, m: Message, at: int)
    ensures Absorbs(t, m) <==> m.key in t && SameRow(t[m.key], Merged(Lookup(t, m.key), m, at))
  {
  }

  /** Storing a batch on any table changes nothing but `updated_at` exactly when every message it keeps is absorbed. */
  lemma StoringIsHarmlessIff(t: MessageTable, b: Batch, clock: nat -> int)
    requires DistinctKeys(b.messages)
    ensures SameContent(t, ApplyBatch(t, b, clock))
        <==> forall m :: m in Kept(t, b.messages, b.aliases) ==> Absorbs(t, m)
  {
    hide Absorbs, SameRow, Merged, Kept, DistinctKeys, UpsertAll;
    var kept := Kept(t, b.messages, b.aliases);
    var t' := ApplyBatch(t, b, clock);
    KeptSubsequence(t, b.messages, b.aliases);
    UpsertAllRows(t, kept, clock);
    forall i | 0 <= i < |kept|
      ensures kept[i].key in t' && (Absorbs(t, kept[i])
          <==> kept[i].key in t && SameRow(t[kept[i].key], t'[kept[i].key])) {
      AbsorbedIffUnchanged(t, kept[i], clock(i));
    }
    forall k | forall i :: 0 <= i < |kept| ==> kept[i].key != k
      ensures (k in t <==> k in t') && (k in t ==> SameRow(t[k], t'[k])) {
      assert Lookup(t', k) == Lookup(t, k);
      SameRowReflexive(t, k);
    }
    if SameContent(t, t') {
      forall m | m in kept ensures Absorbs(t, m) {
        var i :| 0 <= i < |kept| && kept[i] == m;
      }
    }
    if forall m :: m in kept ==> Absorbs(t, m) {
      assert forall i :: 0 <= i < |kept| ==> kept[i] in kept;
    }
  }

  /** Rows a batch has just stored absorb its messages, with no fewer aliases known. */
  lemma StoredIsAbsorbed(t: MessageTable, b: Batch, more: seq<Alias>, clock: nat -> int)
    requires DistinctKeys(b.messages) && Extends(more, b.aliases)
    ensures var t1 := ApplyBatch(t, b, clock);
            forall m :: m in Kept(t1, b.messages, more) ==> Absorbs(t1, m)
  {
    ReplayChangesOnlyStamps(t, b, more, clock, clock);
    StoringIsHarmlessIff(ApplyBatch(t, b, clock), Batch(b.messages, more), clock);
  }

  // ------------------------------------------- one live write in between

  /** Revocations only accumulate, so a later table keeps no more of a batch. */
  lemma KeptShrinks(t: MessageTable, t': MessageTable, ms: seq<Message>, aliases: seq<Alias>)
    requires DistinctKeys(ms) && Keeping(t, t')
    ensures forall m :: m in Kept(t', ms, aliases) ==> m in Kept(t, ms, aliases)
  {
    hide Keeps, Keeping, DistinctKeys, Kept;
    KeptSubsequence(t, ms, aliases);
    KeptSubsequence(t', ms, aliases);
    forall m | m in Kept(t', ms, aliases) ensures Keeps(t, m, aliases) {
      KeptLaterKeptBefore(t, t', m, aliases, aliases);
    }
  }

  /** A replayed upsert puts back the message's own times wherever it carries them. */
  predicate Agrees<T(==)>(live: Option<T>, fromMessage: Option<T>) {
    live.None? || fromMessage.None? || live == fromMessage
  }

  /**
   * A receipt that arrives between a batch's commit and its replay survives the replay exactly when the message of its
   * row, if the batch keeps one, has its status (unless the receipt's is blank) and does not contradict its times.
   */
  lemma ReceiptSurvivesReplayIff(
    t: MessageTable, b: Batch, more: seq<Alias>, r: Receipt, clock: nat -> int, at: int, clock': nat -> int)
    requires DistinctKeys(b.messages) && Extends(more, b.aliases)
    ensures var t2 := ApplyReceipt(ApplyBatch(t, b, clock), r, at);
            SameContent(t2, ApplyBatch(t2, Batch(b.messages, more), clock')) <==>
              forall m :: m in Kept(t2, b.messages, more) && m.key == r.key ==>
                && (NullableString(r.status).None? || NullableString(r.status) == NullableString(m.body.status))
                && Agrees(r.deliveredAt, m.body.deliveredAt)
                && Agrees(r.readAt, m.body.readAt)
  {
    hide ApplyBatch, Kept, DistinctKeys, Extends, SameContent;
    var t1 := ApplyBatch(t, b, clock);
    var t2 := ApplyReceipt(t1, r, at);
    StoredIsAbsorbed(t, b, more, clock);
    KeptShrinks(t1, t2, b.messages, more);
    StoringIsHarmlessIff(t2, Batch(b.messages, more), clock');
  }

  /**
   * A live message stored in between, an edit for instance, survives the replay exactly when the message the batch
   * keeps under its key, if any, carries the same columns; only the text of a revoked row may differ.
   */
  lemma LiveMessageSurvivesReplayIff(
    t: MessageTable, b: Batch, more: seq<Alias>, n: Message, clock: nat -> int, at: int, clock': nat -> int)
    requires DistinctKeys(b.messages) && Extends(more, b.aliases)
    ensures var t2 := Upsert(ApplyBatch(t, b, clock), n, at);
            SameContent(t2, ApplyBatch(t2, Batch(b.messages, more), clock')) <==>
              forall m :: m in Kept(t2, b.messages, more) && m.key == n.key ==>
                && m.timestamp == n.timestamp
                && StoredDetails(m.body.details) == StoredDetails(n.body.details)
                && NullableString(m.body.status) == NullableString(n.body.status)
                && (t2[n.key].payload.revoked || m.body.text == n.body.text)
                && Agrees(n.body.deliveredAt, m.body.deliveredAt)
                && Agrees(n.body.readAt, m.body.readAt)
  {
    hide ApplyBatch, Kept, DistinctKeys, Extends, SameContent, StoredDetails, NullableString;
    var t1 := ApplyBatch(t, b, clock);
    var t2 := Upsert(t1, n, at);
    StoredIsAbsorbed(t, b, more, clock);
    KeptShrinks(t1, t2, b.messages, more);
    StoringIsHarmlessIff(t2, Batch(b.messages, more), clock');
  }

  /** For instance: a live edit of a message is undone when the history batch with the old text is stored again. */
  lemma ReplayUndoesEdit(m: Message, text: string, clock: nat -> int, at: int, clock': nat -> int)
    requires !m.body.revoked && text != m.body.text
    ensures var b := Batch([m], []);
            var edited := Upsert(ApplyBatch(map[], b, clock), m.(body := m.body.(text := text)), at);
            && edited[m.key].payload.text == text
            && m.key in ApplyBatch(edited, b, clock')
                 && ApplyBatch(edited, b, clock')[m.key].payload.text == m.body.text
  {
    var b := Batch([m], []);
    var none: MessageTable := map[];
    StoringOne(none, m, clock);
    var edited := Upsert(ApplyBatch(none, b, clock), m.(body := m.body.(text := text)), at);
    assert !edited[m.key].payload.revoked;
    StoringOne(edited, m, clock');
  }

  lemma KeepsUnrevoked(t: MessageTable, m: Message)
    requires !RowRevoked(t, m.key)
    ensures Keeps(t, m, [])
  {
    assert StoredKeys(m, []) == [m.key];
  }

  lemma KeptOne(t: MessageTable, m: Message)
    requires Keeps(t, m, [])
    ensures Kept(t, [m], []) == [m]
  {
    hide Keeps;
    assert [m][..0] == [] && Kept(t, [], []) == [];
  }

  lemma UpsertOne(t: MessageTable, m: Message, clock: nat -> int)
    ensures UpsertAll(t, [m], clock) == Upsert(t, m, clock(0))
  {
    hide Upsert;
    assert [m][..0] == [] && UpsertAll(t, [], clock) == t;
  }

  lemma StoringOne(t: MessageTable, m: Message, clock: nat -> int)
    requires !RowRevoked(t, m.key)
    ensures ApplyBatch(t, Batch([m], []), clock) == Upsert(t, m, clock(0))
  {
    hide Upsert, Keeps, Kept, UpsertAll, RowRevoked;
    KeepsUnrevoked(t, m);
    KeptOne(t, m);
    UpsertOne(t, m, clock);
  }

  // ----------------------------------------------------------- whole runs

  /** The step stores a batch that was stored before. */
  predicate IsReplay(s: State, step: Step) {
    step.Store? && s.stage.Downloaded? && HeadStored(s)
  }

  /** The same run with every replay left out. */
  function OnceNext(s: State, step: Step): State {
    if IsReplay(s, step) then Next(s, step).(messages := s.messages) else Next(s, step)
  }

  function RunOnce(s: State, steps: seq<Step>): State {
    if steps == [] then s else OnceNext(RunOnce(s, steps[..|steps| - 1]), steps[|steps| - 1])
  }

  /** The replay at this step, if it is one, finds every message it keeps absorbed. */
  ghost predicate ReplayAbsorbed(s: State, step: Step) {
    IsReplay(s, step) ==>
      forall m :: m in Kept(s.messages, s.stage.entry.messages, step.aliases) ==> Absorbs(s.messages, m)
  }

  ghost predicate SameBut(s: State, u: State) {
    u.(messages := s.messages) == s && SameContent(s.messages, u.messages)
  }

  ghost predicate DistinctInv(s: State) {
    QueueInv(s) && forall e :: e in s.enqueued ==> DistinctKeys(e.messages)
  }

  lemma SameContentApply(t: MessageTable, u: MessageTable, op: Op)
    requires SameContent(t, u)
    ensures SameContent(Apply(t, op), Apply(u, op))
  {
    hide Kept, UpsertAll;
    match op
    case OpBatch(b, clock) => SameContentBatch(t, u, b, clock, clock);
    case _ =>
  }

  lemma StepKeepsDistinct(s: State, step: Step)
    requires DistinctInv(s) && (step.Enqueue? ==> DistinctKeys(step.messages))
    ensures DistinctInv(Next(s, step))
  {
    hide QueueInv, DistinctKeys;
    StepKeepsQueueInv(s, step);
    assert Next(s, step).enqueued == s.enqueued
        || (step.Enqueue? && Next(s, step).enqueued == s.enqueued + [Entry(s.nextRowId, step.messages)]);
  }

  lemma {:induction false} RunKeepsDistinct(messages: MessageTable, steps: seq<Step>)
    requires DistinctBatches(steps)
    ensures DistinctInv(RunSteps(Start(messages), steps))
  {
    if steps == [] {
      StartShape(messages);
    } else {
      hide DistinctInv, Next, Start, DistinctKeys;
      var front, last := steps[..|steps| - 1], steps[|steps| - 1];
      assert last in steps && forall step :: step in front ==> step in steps;
      RunKeepsDistinct(messages, front);
      StepKeepsDistinct(RunSteps(Start(messages), front), last);
    }
  }

  lemma DownloadedIsDistinct(s: State)
    requires DistinctInv(s) && s.stage.Downloaded?
    ensures DistinctKeys(s.stage.entry.messages)
  {
    assert s.queue[0] == s.enqueued[Done(s)];
  }

  /** From states that agree, one step agrees again exactly when it is no replay that finds something unabsorbed. */
  lemma StepAgreesIff(s: State, u: State, step: Step)
    requires DistinctInv(s) && SameBut(s, u)
    ensures SameBut(Next(s, step), OnceNext(u, step)) <==> ReplayAbsorbed(s, step)
  {
    hide SameContent, DistinctKeys, Kept, Absorbs, DistinctInv, ApplyBatch;
    assert IsReplay(s, step) <==> IsReplay(u, step);
    match step
    case Store(aliases, clock) =>
      if s.stage.Downloaded? {
        var b := Batch(s.stage.entry.messages, aliases);
        DownloadedIsDistinct(s);
        StoringIsHarmlessIff(s.messages, b, clock);
        if IsReplay(s, step) {
          AgreeingTables(s.messages, u.messages, ApplyBatch(s.messages, b, clock));
        } else {
          SameContentBatch(s.messages, u.messages, b, clock, clock);
        }
      }
    case Live(op) => SameContentApply(s.messages, u.messages, op);
    case _ =>
  }

  lemma AgreeingTables(t: MessageTable, u: MessageTable, v: MessageTable)
    requires SameContent(t, u)
    ensures SameContent(v, u) <==> SameContent(t, v)
  {
  }

  /** At every moment the run agrees with the one that stores each notification once. */
  ghost predicate AgreesThroughout(messages: MessageTable, steps: seq<Step>) {
    forall i :: 0 <= i <= |steps|
        ==> SameBut(RunSteps(Start(messages), steps[..i]), RunOnce(Start(messages), steps[..i]))
  }

  ghost predicate ReplaysAbsorbed(messages: MessageTable, steps: seq<Step>) {
    forall i :: 0 <= i < |steps| ==> ReplayAbsorbed(RunSteps(Start(messages), steps[..i]), steps[i])
  }

  lemma AgreesSnoc(messages: MessageTable, steps: seq<Step>)
    requires steps != []
    ensures AgreesThroughout(messages, steps) <==>
              AgreesThroughout(messages, steps[..|steps| - 1])
                  && SameBut(RunSteps(Start(messages), steps), RunOnce(Start(messages), steps))
  {
    hide SameBut, RunSteps, RunOnce;
    var front := steps[..|steps| - 1];
    assert forall i :: 0 <= i <= |front| ==> front[..i] == steps[..i];
    assert steps[..|steps|] == steps;
  }

  lemma AbsorbedSnoc(messages: MessageTable, steps: seq<Step>)
    requires steps != []
    ensures var n := |steps| - 1;
            ReplaysAbsorbed(messages, steps) <==>
              ReplaysAbsorbed(messages, steps[..n]) && ReplayAbsorbed(RunSteps(Start(messages), steps[..n]), steps[n])
  {
    hide ReplayAbsorbed, RunSteps;
    var front := steps[..|steps| - 1];
    assert forall i :: 0 <= i < |front| ==> front[..i] == steps[..i] && front[i] == steps[i];
  }

  /**
   * Over every run, live writes included: the table agrees at every moment, but for `updated_at`, with the same run
   * that stores each notification once, exactly when every replay finds the messages it keeps absorbed.
   */
  lemma {:induction false} LiveRunsStoreOnceIff(messages: MessageTable, steps: seq<Step>)
    requires DistinctBatches(steps)
    ensures AgreesThroughout(messages, steps) <==> ReplaysAbsorbed(messages, steps)
  {
    if steps == [] {
      StartAgrees(messages);
    } else {
      hide SameBut, ReplayAbsorbed, DistinctInv, Next, OnceNext, AgreesThroughout, ReplaysAbsorbed;
      var n := |steps| - 1;
      var front, start := steps[..n], Start(messages);
      assert forall step :: step in front ==> step in steps;
      LiveRunsStoreOnceIff(messages, front);
      RunKeepsDistinct(messages, front);
      AgreesSnoc(messages, steps);
      AbsorbedSnoc(messages, steps);
      if AgreesThroughout(messages, front) {
        AgreesAtEnd(messages, front);
        StepAgreesIff(RunSteps(start, front), RunOnce(start, front), steps[n]);
      }
    }
  }

  lemma AgreesAtEnd(messages: MessageTable, steps: seq<Step>)
    requires AgreesThroughout(messages, steps)
    ensures SameBut(RunSteps(Start(messages), steps), RunOnce(Start(messages), steps))
  {
    assert steps[..|steps|] == steps;
  }

  lemma StartAgrees(messages: MessageTable)
    ensures AgreesThroughout(messages, [])
  {
    SameContentReflexive(messages);
  }
}
