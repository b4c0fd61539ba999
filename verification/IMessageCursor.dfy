/**
 * iMessage ingest: a forward cursor over message ROWIDs and, alongside it, a sweep over edited or retracted rows
 * that starts over whenever it has reached the forward cursor.
 */
module IMessageCursor {
  import opened Prelude

  datatype MessageRow = MessageRow(rowId: int, itemType: int, editedAt: int, retractedAt: int)

  /** The source database: messages by ROWID (one chat each) and call records by primary key. */
  datatype Source = Source(messages: seq<MessageRow>, calls: seq<int>)

  ghost predicate Sorted(rows: seq<MessageRow>) {
    forall i, j :: 0 <= i < j < |rows| ==> rows[i].rowId < rows[j].rowId
  }

  ghost predicate ValidSource(db: Source) {
    && Sorted(db.messages)
    && (forall i :: 0 <= i < |db.messages| ==> db.messages[i].rowId > 0)
    && (forall i, j :: 0 <= i < j < |db.calls| ==> db.calls[i] < db.calls[j])
  }

  predicate Eligible(r: MessageRow) {
    0 <= r.itemType <= 2
  }

  predicate Mutated(r: MessageRow) {
    r.editedAt > 0 || r.retractedAt > 0
  }

  /** `through` bounds the mutation sweep; without it every eligible row qualifies. */
  predicate Admits(r: MessageRow, after: int, through: Option<int>) {
    r.rowId > after && Eligible(r) && (through.Some? ==> r.rowId <= through.value && Mutated(r))
  }

  function Matching(rows: seq<MessageRow>, after: int, through: Option<int>): (m: seq<MessageRow>)
    ensures |m| <= |rows|
  {
    if rows == [] then []
    else (if Admits(rows[0], after, through) then [rows[0]] else []) + Matching(rows[1..], after, through)
  }

  function CallsAfter(calls: seq<int>, after: int): (m: seq<int>)
    ensures |m| <= |calls|
  {
    if calls == [] then [] else (if calls[0] > after then [calls[0]] else []) + CallsAfter(calls[1..], after)
  }

  // ---------------------------------------------------------------- batches

  datatype Cursor = Cursor(rowId: int, callPk: int, mutationRowId: int)

  /** A stored cursor: each field is there when it holds a number. */
  datatype StoredCursor = StoredCursor(rowId: Option<int>, callPk: Option<int>, mutationRowId: Option<int>)

  /** Missing fields fall back to the last row id or to zero. */
  function ResolveSourceCursor(stored: StoredCursor, lastRowId: Option<int>): Cursor {
    Cursor(Coalesce(stored.rowId, Coalesce(lastRowId, Some(0))).value, Coalesce(stored.callPk, Some(0)).value,
           Coalesce(stored.mutationRowId, Some(0)).value)
  }

  datatype SyncBatch = SyncBatch(rows: seq<MessageRow>, mutations: seq<MessageRow>, cursor: int, mutationCursor: int,
      mutationHasMore: bool)

  datatype Bundle = Bundle(rows: seq<MessageRow>, mutations: seq<MessageRow>, calls: seq<int>, next: Cursor,
      hasMore: bool, sweepDone: bool)

  lemma MatchingStep(rows: seq<MessageRow>, i: nat, after: int, through: Option<int>)
    requires i < |rows|
    ensures Matching(rows[i..], after, through)
            == (if Admits(rows[i], after, through) then [rows[i]] else []) + Matching(rows[i + 1..], after, through)
  {
    assert rows[i..][0] == rows[i] && rows[i..][1..] == rows[i + 1..];
  }

  method FetchMessageRows(db: Source, after: int, limit: nat, through: Option<int>) returns (rows: seq<MessageRow>)
    ensures rows == Take(Matching(db.messages, after, through), limit)
  {
    hide Admits, Matching, Take;
    rows := [];
    var i := 0;
    ghost var rest := Matching(db.messages, after, through);
    assert db.messages[0..] == db.messages && rows + rest == rest;
    while i < |db.messages| && |rows| < limit
      invariant i <= |db.messages| && |rows| <= limit
      invariant rest == Matching(db.messages[i..], after, through)
      invariant rows + rest == Matching(db.messages, after, through)
    {
      MatchingStep(db.messages, i, after, through);
      rest := Matching(db.messages[i + 1..], after, through);
      if Admits(db.messages[i], after, through) {
        assert rows + ([db.messages[i]] + rest) == rows + [db.messages[i]] + rest;
        rows := rows + [db.messages[i]];
      } else {
        assert [] + rest == rest;
      }
      i := i + 1;
    }
    TakePrefix(rows, rest, limit);
  }

  lemma TakePrefix(rows: seq<MessageRow>, rest: seq<MessageRow>, limit: nat)
    requires |rows| <= limit && (|rows| == limit || rest == [])
    ensures Take(rows + rest, limit) == rows
  {
    assert rest == [] ==> rows + rest == rows;
  }

  /** The cursor a non-empty batch advances to. */
  function LastRowId(rows: seq<MessageRow>, otherwise: int): int {
    if rows == [] then otherwise else rows[|rows| - 1].rowId
  }

  function BatchOf(db: Source, lastRowid: int, limit: nat, mutationRowid: int): SyncBatch {
    var rows := Take(Matching(db.messages, lastRowid, None), limit);
    var mutations := Take(Matching(db.messages, mutationRowid, Some(lastRowid)), limit);
    var more := |mutations| >= limit;
    SyncBatch(rows, mutations, LastRowId(rows, lastRowid), if more then LastRowId(mutations, 0) else 0, more)
  }

  method BuildSyncBatch(
      db: Source, lastRowid: int, limit: int, mutationRowid: int) returns (r: Result<SyncBatch, string>)
    ensures r.Ok? <==> limit > 0 && lastRowid >= 0 && mutationRowid >= 0
    ensures r.Ok? ==> r.value == BatchOf(db, lastRowid, limit, mutationRowid)
  {
    if limit <= 0 || lastRowid < 0 || mutationRowid < 0 {
      return Err("iMessage requires a positive batch limit and nonnegative integer cursors");
    }
    var rows := FetchMessageRows(db, lastRowid, limit, None);
    var mutations := FetchMessageRows(db, mutationRowid, limit, Some(lastRowid));
    var mutationHasMore := |mutations| >= limit;
    var mutationCursor := 0;
    if mutationHasMore && mutations != [] { mutationCursor := mutations[|mutations| - 1].rowId; }
    var cursor := lastRowid;
    if rows != [] { cursor := rows[|rows| - 1].rowId; }
    return Ok(SyncBatch(rows, mutations, cursor, mutationCursor, mutationHasMore));
  }

  function BundleOf(db: Source, c: Cursor, limit: nat): Bundle {
    var b := BatchOf(db, c.rowId, limit, c.mutationRowId);
    var calls := Take(CallsAfter(db.calls, c.callPk), limit);
    Bundle(b.rows, b.mutations, calls,
           Cursor(b.cursor, if calls == [] then c.callPk else calls[|calls| - 1], b.mutationCursor),
           |b.rows| >= limit || |calls| >= limit || b.mutationHasMore, !b.mutationHasMore)
  }

  // --------------------------------------------------------------- ordering

  lemma {:induction false} MatchingMembers(rows: seq<MessageRow>, after: int, through: Option<int>)
    ensures forall r :: r in Matching(rows, after, through) <==> r in rows && Admits(r, after, through)
  {
    if rows != [] {
      hide Admits;
      MatchingMembers(rows[1..], after, through);
      assert rows == [rows[0]] + rows[1..];
    }
  }

  lemma FirstIsLeast(rows: seq<MessageRow>)
    requires Sorted(rows) && rows != []
    ensures Sorted(rows[1..]) && forall r :: r in rows[1..] ==> rows[0].rowId < r.rowId
  {
    forall r | r in rows[1..] ensures rows[0].rowId < r.rowId {
      var i :| 1 <= i < |rows| && rows[i] == r;
    }
  }

  lemma SortedCons(r: MessageRow, rows: seq<MessageRow>)
    requires Sorted(rows) && forall x :: x in rows ==> r.rowId < x.rowId
    ensures Sorted([r] + rows)
  {
  }

  lemma {:induction false} MatchingSorted(rows: seq<MessageRow>, after: int, through: Option<int>)
    requires Sorted(rows)
    ensures Sorted(Matching(rows, after, through))
  {
    if rows != [] {
      hide Admits, Sorted;
      FirstIsLeast(rows);
      MatchingSorted(rows[1..], after, through);
      MatchingMembers(rows[1..], after, through);
      var rest := Matching(rows[1..], after, through);
      SortedCons(rows[0], rest);
      assert [] + rest == rest;
    } else {
      assert Matching(rows, after, through) == rows;
    }
  }

  /** A range of rows splits at any row id in between. */
  lemma {:induction false} MutationRangeSplits(rows: seq<MessageRow>, after: int, mid: int, through: int)
    requires Sorted(rows) && after <= mid <= through
    ensures Matching(rows, after, Some(through))
        == Matching(rows, after, Some(mid)) + Matching(rows, mid, Some(through))
  {
    if rows != [] {
      MutationRangeSplits(rows[1..], after, mid, through);
      if rows[0].rowId > mid { NothingBelow(rows, after, mid); }
    }
  }

  lemma {:induction false} NothingBelow(rows: seq<MessageRow>, after: int, through: int)
    requires Sorted(rows) && (rows == [] || rows[0].rowId > through)
    ensures Matching(rows, after, Some(through)) == []
  {
    if rows != [] { NothingBelow(rows[1..], after, through); }
  }

  function ForwardHead(r: MessageRow, after: int, through: int): seq<MessageRow> {
    if Eligible(r) && after < r.rowId <= through then [r] else []
  }

  /** Rows up to a row id, as the forward stream emits them. */
  function Forward(rows: seq<MessageRow>, after: int, through: int): seq<MessageRow> {
    if rows == [] then [] else ForwardHead(rows[0], after, through) + Forward(rows[1..], after, through)
  }

  lemma ConsCut(r: MessageRow, rest: seq<MessageRow>, n: nat)
    requires 0 < n <= |rest| + 1
    ensures var m := [r] + rest;
            && m[..n] == [r] + rest[..n - 1] && m[n..] == rest[n - 1..]
            && m[n - 1] == (if n == 1 then r else rest[n - 2])
  {
  }

  lemma ForwardCons(rows: seq<MessageRow>, after: int, through: int)
    requires rows != []
    ensures Forward(rows, after, through) == ForwardHead(rows[0], after, through) + Forward(rows[1..], after, through)
  {
  }

  lemma MatchingCons(rows: seq<MessageRow>, after: int)
    requires rows != []
    ensures Matching(rows, after, None)
            == (if Admits(rows[0], after, None) then [rows[0]] else []) + Matching(rows[1..], after, None)
  {
  }

  /** The first n matches are those up to the n-th match's row id, and the others lie beyond it. */
  lemma {:induction false} ForwardCut(rows: seq<MessageRow>, after: int, n: nat)
    requires Sorted(rows) && 0 < n <= |Matching(rows, after, None)|
    ensures var m := Matching(rows, after, None);
            && m[..n] == Forward(rows, after, m[n - 1].rowId)
            && m[n..] == Matching(rows, m[n - 1].rowId, None)
  {
    var rest := Matching(rows[1..], after, None);
    MatchingCons(rows, after);
    hide Sorted, Eligible, Forward, Matching;
    FirstIsLeast(rows);
    MatchingMembers(rows[1..], after, None);
    if !Admits(rows[0], after, None) {
      assert [] + rest == rest;
      ForwardCut(rows[1..], after, n);
      assert rest[n - 1] in rest;
      CutBehindOther(rows, after, rest[n - 1].rowId);
    } else if n == 1 {
      ConsCut(rows[0], rest, n);
      FirstIsWholeCut(rows, after);
    } else {
      ConsCut(rows[0], rest, n);
      ForwardCut(rows[1..], after, n - 1);
      assert rest[n - 2] in rest;
      CutBehindFirst(rows, after, rest[n - 2].rowId);
    }
  }

  lemma CutBehindOther(rows: seq<MessageRow>, after: int, mid: int)
    requires rows != [] && !Admits(rows[0], after, None) && after <= mid
    ensures Forward(rows, after, mid) == Forward(rows[1..], after, mid)
    ensures Matching(rows, mid, None) == Matching(rows[1..], mid, None)
  {
  }

  lemma CutBehindFirst(rows: seq<MessageRow>, after: int, mid: int)
    requires rows != [] && Admits(rows[0], after, None) && rows[0].rowId <= mid
    ensures Forward(rows, after, mid) == [rows[0]] + Forward(rows[1..], after, mid)
    ensures Matching(rows, mid, None) == Matching(rows[1..], mid, None)
  {
  }

  lemma FirstIsWholeCut(rows: seq<MessageRow>, after: int)
    requires Sorted(rows) && rows != [] && Admits(rows[0], after, None)
    ensures Forward(rows, after, rows[0].rowId) == [rows[0]]
    ensures Matching(rows, rows[0].rowId, None) == Matching(rows[1..], after, None)
  {
    hide Sorted;
    FirstIsLeast(rows);
    assert forall i :: 0 <= i < |rows[1..]| ==> rows[1..][i] in rows[1..];
    ForwardNothing(rows[1..], after, rows[0].rowId);
    MatchingBeyond(rows[1..], after, rows[0].rowId);
    ForwardCons(rows, after, rows[0].rowId);
    MatchingCons(rows, rows[0].rowId);
  }

  lemma {:induction false} ForwardNothing(rows: seq<MessageRow>, after: int, through: int)
    requires forall i :: 0 <= i < |rows| ==> rows[i].rowId > through
    ensures Forward(rows, after, through) == []
  {
    if rows != [] {
      assert forall i :: 0 <= i < |rows[1..]| ==> rows[1..][i] == rows[i + 1];
      ForwardNothing(rows[1..], after, through);
    }
  }

  lemma {:induction false} MatchingBeyond(rows: seq<MessageRow>, after: int, mid: int)
    requires after <= mid && forall i :: 0 <= i < |rows| ==> rows[i].rowId > mid
    ensures Matching(rows, after, None) == Matching(rows, mid, None)
  {
    if rows != [] {
      assert forall i :: 0 <= i < |rows[1..]| ==> rows[1..][i] == rows[i + 1];
      MatchingBeyond(rows[1..], after, mid);
    }
  }

  lemma {:induction false} ForwardSplits(rows: seq<MessageRow>, after: int, mid: int, through: int)
    requires Sorted(rows) && after <= mid <= through
    ensures Forward(rows, after, through) == Forward(rows, after, mid) + Forward(rows, mid, through)
  {
    if rows != [] {
      hide Sorted, Eligible, Forward;
      FirstIsLeast(rows);
      var tail := rows[1..];
      ForwardSplits(tail, after, mid, through);
      ForwardCons(rows, after, through);
      ForwardCons(rows, after, mid);
      ForwardCons(rows, mid, through);
      if rows[0].rowId > mid {
        assert forall i :: 0 <= i < |tail| ==> tail[i] in tail;
        ForwardNothing(tail, after, mid);
      } else {
        Regroup(ForwardHead(rows[0], after, mid), Forward(tail, after, mid), Forward(tail, mid, through));
      }
    }
  }

  lemma Regroup(a: seq<MessageRow>, b: seq<MessageRow>, c: seq<MessageRow>)
    ensures a + (b + c) == a + b + c
  {
  }

  /** The same cut on the mutation sweep. */
  lemma MutationCut(rows: seq<MessageRow>, after: int, through: int, n: nat)
    requires Sorted(rows) && 0 < n <= |Matching(rows, after, Some(through))|
    ensures var m := Matching(rows, after, Some(through));
            && after < m[n - 1].rowId <= through
            && m[..n] == Matching(rows, after, Some(m[n - 1].rowId))
            && m[n..] == Matching(rows, m[n - 1].rowId, Some(through))
  {
    var m := Matching(rows, after, Some(through));
    MatchingMembers(rows, after, Some(through));
    MatchingSorted(rows, after, Some(through));
    assert m[n - 1] in m;
    var mid := m[n - 1].rowId;
    MutationRangeSplits(rows, after, mid, through);
    var lower := Matching(rows, after, Some(mid));
    MatchingMembers(rows, after, Some(mid));
    MatchingMembers(rows, mid, Some(through));
    CutIndex(lower, Matching(rows, mid, Some(through)), mid, n);
  }

  lemma CutIndex(lower: seq<MessageRow>, upper: seq<MessageRow>, mid: int, n: nat)
    requires Sorted(lower + upper) && 0 < n <= |lower + upper| && (lower + upper)[n - 1].rowId == mid
    requires (forall r :: r in lower ==> r.rowId <= mid) && (forall r :: r in upper ==> r.rowId > mid)
    ensures |lower| == n
  {
    var m := lower + upper;
    assert forall i :: 0 <= i < |lower| ==> m[i] in lower;
    assert forall i :: |lower| <= i < |m| ==> m[i] in upper;
    assert n < |m| ==> m[n - 1].rowId < m[n].rowId;
  }

  lemma {:induction false} CallsCut(calls: seq<int>, after: int, n: nat)
    requires (forall i, j :: 0 <= i < j < |calls| ==> calls[i] < calls[j]) && 0 < n <= |CallsAfter(calls, after)|
    ensures var m := CallsAfter(calls, after);
            m[n - 1] > after && CallsAfter(calls, m[n - 1]) == m[n..]
  {
    var m := CallsAfter(calls, after);
    var rest := CallsAfter(calls[1..], after);
    if calls[0] > after {
      assert m == [calls[0]] + rest;
      if n == 1 {
        CallsAllBeyond(calls[1..], after, calls[0]);
        assert m[1..] == rest;
      } else {
        CallsCut(calls[1..], after, n - 1);
        CallsMembers(calls[1..], after);
        assert m[n - 1] == rest[n - 2] && m[n..] == rest[n - 1..] && rest[n - 2] in rest;
      }
    } else {
      CallsCut(calls[1..], after, n);
      assert m == rest;
    }
  }

  lemma {:induction false} CallsMembers(calls: seq<int>, after: int)
    ensures forall c :: c in CallsAfter(calls, after) ==> c in calls && c > after
  {
    if calls != [] { CallsMembers(calls[1..], after); }
  }

  lemma {:induction false} CallsAllBeyond(calls: seq<int>, after: int, mid: int)
    requires after <= mid && forall i :: 0 <= i < |calls| ==> calls[i] > mid
    ensures CallsAfter(calls, after) == CallsAfter(calls, mid)
  {
    if calls != [] {
      assert forall i :: 0 <= i < |calls[1..]| ==> calls[1..][i] == calls[i + 1];
      CallsAllBeyond(calls[1..], after, mid);
    }
  }

  // ---------------------------------------------------------------- progress

  /** Rows and calls the forward streams still have to deliver. */
  function Ahead(db: Source, c: Cursor): nat {
    |Matching(db.messages, c.rowId, None)| + |CallsAfter(db.calls, c.callPk)|
  }

  /** Mutated rows the sweep still has to deliver before it starts over. */
  function Unswept(db: Source, c: Cursor): nat {
    |Matching(db.messages, c.mutationRowId, Some(c.rowId))|
  }

  lemma ForwardAdvances(db: Source, after: int, limit: nat)
    requires ValidSource(db) && limit > 0
    ensures var rows := Take(Matching(db.messages, after, None), limit);
            var next := LastRowId(rows, after);
            && next >= after
            && rows == Forward(db.messages, after, next)
            && |Matching(db.messages, next, None)| == |Matching(db.messages, after, None)| - |rows|
  {
    var m := Matching(db.messages, after, None);
    var rows := Take(m, limit);
    if rows == [] {
      ForwardEmpty(db.messages, after);
    } else {
      assert rows == m[..|rows|];
      ForwardCut(db.messages, after, |rows|);
      MatchingMembers(db.messages, after, None);
      assert m[|rows| - 1] in m;
    }
  }

  lemma {:induction false} ForwardEmpty(rows: seq<MessageRow>, after: int)
    ensures Forward(rows, after, after) == []
  {
    if rows != [] { ForwardEmpty(rows[1..], after); }
  }

  lemma CallsAdvance(db: Source, after: int, limit: nat)
    requires ValidSource(db) && limit > 0
    ensures var calls := Take(CallsAfter(db.calls, after), limit);
            calls + CallsAfter(db.calls, if calls == [] then after else calls[|calls| - 1])
                == CallsAfter(db.calls, after)
  {
    var m := CallsAfter(db.calls, after);
    if m != [] {
      var calls := Take(m, limit);
      assert calls == m[..|calls|];
      CallsCut(db.calls, after, |calls|);
    }
  }

  /**
   * While a bundle says there is more, the pair (rows and calls ahead, mutated rows before the sweep starts over)
   * decreases lexicographically, so repeating bundles ends.
   */
  lemma BundleMakesProgress(db: Source, c: Cursor, limit: nat)
    requires ValidSource(db) && limit > 0
    ensures var b := BundleOf(db, c, limit);
            && Ahead(db, b.next) == Ahead(db, c) - |b.rows| - |b.calls|
            && (b.hasMore ==> Ahead(db, b.next) < Ahead(db, c)
                              || (Ahead(db, b.next) == Ahead(db, c) && Unswept(db, b.next) < Unswept(db, c)))
  {
    hide Sorted, Matching, CallsAfter, Forward;
    var b := BundleOf(db, c, limit);
    ForwardAdvances(db, c.rowId, limit);
    CallsAdvance(db, c.callPk, limit);
    if b.hasMore && b.rows == [] && b.calls == [] {
      var m := Matching(db.messages, c.mutationRowId, Some(c.rowId));
      assert b.mutations == m[..limit];
      MutationCut(db.messages, c.mutationRowId, c.rowId, limit);
    }
  }

  // ------------------------------------------------------------------- runs

  /** The mutated rows a sweep passes on its way from one row id to another. */
  function Swept(db: Source, from: int, to: int): seq<MessageRow> {
    Matching(db.messages, from, Some(to))
  }

  /** A row is swept when it carries a message and was edited, or retracted, or both. */
  lemma SweptIff(db: Source, from: int, to: int, r: MessageRow)
    ensures r in Swept(db, from, to)
        <==> && r in db.messages && from < r.rowId <= to
             && (r.itemType == 0 || r.itemType == 1 || r.itemType == 2)
             && (r.editedAt > 0 || r.retractedAt > 0)
  {
    MatchingMembers(db.messages, from, Some(to));
  }

  /** The forward stream takes every row that carries a message, mutated or not. */
  lemma ForwardIff(db: Source, after: int, r: MessageRow)
    ensures r in Matching(db.messages, after, None)
        <==> r in db.messages && after < r.rowId && (r.itemType == 0 || r.itemType == 1 || r.itemType == 2)
  {
    MatchingMembers(db.messages, after, None);
  }

  /** A stored position is used field by field, and a fresh source starts at the row seen last, or at the beginning. */
  lemma ResolvedCursor(stored: StoredCursor, lastRowId: Option<int>)
    ensures var c := ResolveSourceCursor(stored, lastRowId);
            && (stored.rowId.Some? ==> c.rowId == stored.rowId.value)
            && (stored.rowId.None? ==> c.rowId == if lastRowId.Some? then lastRowId.value else 0)
            && c.callPk == (if stored.callPk.Some? then stored.callPk.value else 0)
            && c.mutationRowId == (if stored.mutationRowId.Some? then stored.mutationRowId.value else 0)
  {
  }

  /** Every call after the position comes once, in the order of the source. */
  lemma {:induction false} CallsAfterMembers(calls: seq<int>, after: int)
    requires forall i, j :: 0 <= i < j < |calls| ==> calls[i] < calls[j]
    ensures var m := CallsAfter(calls, after);
            && (forall pk :: pk in m <==> pk in calls && pk > after)
            && (forall i, j :: 0 <= i < j < |m| ==> m[i] < m[j])
  {
    if calls != [] {
      CallsAfterMembers(calls[1..], after);
      assert calls == [calls[0]] + calls[1..];
      var rest := CallsAfter(calls[1..], after);
      forall k | 0 <= k < |rest| ensures calls[0] < rest[k] {
        var pk := rest[k];
        assert pk in rest && pk in calls[1..];
        var i :| 1 <= i < |calls| && calls[i] == pk;
      }
    }
  }

  /** What the sweep in progress has delivered since it stood at `from`. */
  lemma SweepAdvances(db: Source, from: int, c: Cursor, limit: nat)
    requires ValidSource(db) && limit > 0 && 0 <= from <= c.mutationRowId && 0 <= c.rowId
    requires c.mutationRowId <= c.rowId || c.mutationRowId == from
    ensures var b := BundleOf(db, c, limit);
            && 0 <= b.next.mutationRowId <= b.next.rowId
            && (if b.sweepDone then b.next.mutationRowId == 0 else from <= b.next.mutationRowId)
            && Swept(db, from, c.mutationRowId) + b.mutations
                 == Swept(db, from, if b.sweepDone then c.rowId else b.next.mutationRowId)
  {
    hide Sorted, Matching, CallsAfter, Forward;
    ForwardAdvances(db, c.rowId, limit);
    if c.mutationRowId > c.rowId {
      NothingBetween(db.messages, from, c.rowId);
      NothingBetween(db.messages, from, from);
    } else {
      MutationPage(db, from, c, limit);
    }
  }

  lemma MutationPage(db: Source, from: int, c: Cursor, limit: nat)
    requires ValidSource(db) && limit > 0 && 0 <= from <= c.mutationRowId <= c.rowId
    ensures var b := BatchOf(db, c.rowId, limit, c.mutationRowId);
            && 0 <= b.mutationCursor <= c.rowId
            && (if b.mutationHasMore then from <= b.mutationCursor else b.mutationCursor == 0)
            && Swept(db, from, c.mutationRowId) + b.mutations
               == Swept(db, from, if b.mutationHasMore then b.mutationCursor else c.rowId)
  {
    hide Sorted, Matching, CallsAfter, Forward;
    var b := BatchOf(db, c.rowId, limit, c.mutationRowId);
    MutationRangeSplits(db.messages, from, c.mutationRowId, c.rowId);
    if b.mutationHasMore {
      MutationCut(db.messages, c.mutationRowId, c.rowId, limit);
      MutationRangeSplits(db.messages, from, c.mutationRowId, b.mutationCursor);
    }
  }

  /** One completed sweep: what it delivered, and how far the forward cursor had come when it finished. */
  datatype Sweep = Sweep(rows: seq<MessageRow>, through: int)

  /**
   * Every completed sweep delivered exactly the mutated rows up to where the forward cursor then stood: all of them,
   * but for the first sweep, which may have begun in the middle.
   */
  ghost predicate SweepsDelivered(db: Source, sweeps: seq<Sweep>, begun: int, from: int, to: int) {
    && (forall i :: 0 <= i < |sweeps| ==> sweeps[i].rows == Swept(db, if i == 0 then begun else 0, sweeps[i].through))
    && (forall i :: 0 <= i < |sweeps| ==> from <= sweeps[i].through <= to)
    && (forall i, j :: 0 <= i < j < |sweeps| ==> sweeps[i].through <= sweeps[j].through)
  }

  lemma NoSweepsYet(db: Source, start: Cursor)
    ensures SweepsDelivered(db, [], start.mutationRowId, start.rowId, start.rowId)
  {
  }

  lemma SweepsDeliveredLater(db: Source, sweeps: seq<Sweep>, start: Cursor, to: int, later: int)
    requires SweepsDelivered(db, sweeps, start.mutationRowId, start.rowId, to) && to <= later
    ensures SweepsDelivered(db, sweeps, start.mutationRowId, start.rowId, later)
  {
    hide Swept;
  }

  lemma SweepCompleted(db: Source, sweeps: seq<Sweep>, start: Cursor, end: Cursor, sweep: Sweep)
    requires SweepsDelivered(db, sweeps, start.mutationRowId, start.rowId, end.rowId)
    requires start.rowId <= sweep.through == end.rowId
    requires sweep.rows == Swept(db, if sweeps == [] then start.mutationRowId else 0, sweep.through)
    ensures SweepsDelivered(db, sweeps + [sweep], start.mutationRowId, start.rowId, end.rowId)
  {
    hide Swept;
  }

  predicate NothingAhead(db: Source, c: Cursor) {
    |Matching(db.messages, c.rowId, None)| == 0 && |CallsAfter(db.calls, c.callPk)| == 0
  }

  /** One bundle extends the forward deliveries, and the last one leaves nothing behind. */
  lemma BundleContinues(db: Source, start: Cursor, c: Cursor, limit: nat)
    requires ValidSource(db) && limit > 0 && start.rowId <= c.rowId
    ensures var b := BundleOf(db, c, limit);
            && c.rowId <= b.next.rowId
            && Forward(db.messages, start.rowId, c.rowId) + b.rows == Forward(db.messages, start.rowId, b.next.rowId)
            && b.calls + CallsAfter(db.calls, b.next.callPk) == CallsAfter(db.calls, c.callPk)
            && (!b.hasMore ==> b.sweepDone && b.next.mutationRowId == 0 && NothingAhead(db, b.next))
  {
    hide Matching, CallsAfter, Forward, Sorted;
    ForwardAdvances(db, c.rowId, limit);
    CallsAdvance(db, c.callPk, limit);
    ForwardSplits(db.messages, start.rowId, c.rowId, BundleOf(db, c, limit).next.rowId);
  }

  /**
   * Repeats bundles while they say there is more. The forward streams deliver every eligible row and every call behind
   * the start exactly once, in order, and every completed sweep delivered exactly the mutated rows it had to. It is
   * refused exactly for a limit that is not positive or a negative position.
   */
  method SyncUntilDone(db: Source, stored: StoredCursor, lastRowId: Option<int>, limit: int)
    returns (ok: bool, rows: seq<MessageRow>, calls: seq<int>, sweeps: seq<Sweep>, end: Cursor)
    requires ValidSource(db)
    ensures var start := ResolveSourceCursor(stored, lastRowId);
            && (ok <==> limit > 0 && start.rowId >= 0 && start.mutationRowId >= 0)
            && (ok ==>
                  && rows == Matching(db.messages, start.rowId, None) && calls == CallsAfter(db.calls, start.callPk)
                  && |sweeps| > 0 && SweepsDelivered(db, sweeps, start.mutationRowId, start.rowId, end.rowId)
                  && end.mutationRowId == 0 && NothingAhead(db, end))
  {
    hide ValidSource, Swept, Matching, CallsAfter, Forward, Admits, NothingAhead, Unswept, Ahead, SweepsDelivered;
    var start := ResolveSourceCursor(stored, lastRowId);
    ok, rows, calls, sweeps, end := true, [], [], [], start;
    if limit <= 0 || start.rowId < 0 || start.mutationRowId < 0 {
      ok := false;
      return;
    }
    var sweep: seq<MessageRow> := [];
    var more := true;
    ghost var begun := start.mutationRowId;
    NothingSwept(db, begun);
    NoSweepsYet(db, start);
    ForwardEmpty(db.messages, start.rowId);
    assert [] + CallsAfter(db.calls, start.callPk) == CallsAfter(db.calls, start.callPk);
    while more
      invariant 0 <= start.rowId <= end.rowId && 0 <= begun <= end.mutationRowId
      invariant end.mutationRowId <= end.rowId || end.mutationRowId == begun
      invariant begun == if sweeps == [] then start.mutationRowId else 0
      invariant rows == Forward(db.messages, start.rowId, end.rowId)
      invariant calls + CallsAfter(db.calls, end.callPk) == CallsAfter(db.calls, start.callPk)
      invariant sweep == Swept(db, begun, end.mutationRowId)
      invariant SweepsDelivered(db, sweeps, start.mutationRowId, start.rowId, end.rowId)
      invariant !more ==> sweeps != [] && end.mutationRowId == 0 && NothingAhead(db, end)
      decreases more, Ahead(db, end), Unswept(db, end)
    {
      var batch := BuildSyncBatch(db, end.rowId, limit, end.mutationRowId);
      var callRows := Take(CallsAfter(db.calls, end.callPk), limit);
      ghost var b := BundleOf(db, end, limit);
      BundleMakesProgress(db, end, limit);
      SweepAdvances(db, begun, end, limit);
      BundleContinues(db, start, end, limit);
      NothingSwept(db, 0);
      rows := rows + batch.value.rows;
      assert calls + callRows + CallsAfter(db.calls, b.next.callPk)
          == calls + (callRows + CallsAfter(db.calls, b.next.callPk));
      calls := calls + callRows;
      sweep := sweep + batch.value.mutations;
      if !batch.value.mutationHasMore {
        SweepCompleted(db, sweeps, start, end, Sweep(sweep, end.rowId));
        sweeps := sweeps + [Sweep(sweep, end.rowId)];
        sweep := [];
        begun := 0;
      }
      SweepsDeliveredLater(db, sweeps, start, end.rowId, b.next.rowId);
      var callPk := if callRows == [] then end.callPk else callRows[|callRows| - 1];
      end := Cursor(batch.value.cursor, callPk, batch.value.mutationCursor);
      more := |batch.value.rows| >= limit || |callRows| >= limit || batch.value.mutationHasMore;
    }
    AllForward(db, start.rowId, end);
    NoCallsAhead(db, end);
  }

  lemma NoCallsAhead(db: Source, end: Cursor)
    requires NothingAhead(db, end)
    ensures CallsAfter(db.calls, end.callPk) == []
  {
  }

  lemma NothingSwept(db: Source, at: int)
    ensures Swept(db, at, at) == []
  {
    NothingBetween(db.messages, at, at);
  }

  lemma {:induction false} NothingBetween(rows: seq<MessageRow>, after: int, through: int)
    requires through <= after
    ensures Matching(rows, after, Some(through)) == []
  {
    if rows != [] { NothingBetween(rows[1..], after, through); }
  }

  /** Once nothing lies ahead, the delivered range is everything behind the start. */
  lemma AllForward(db: Source, after: int, end: Cursor)
    requires after <= end.rowId && NothingAhead(db, end)
    ensures Forward(db.messages, after, end.rowId) == Matching(db.messages, after, None)
  {
    AllForwardRows(db.messages, after, end.rowId);
  }

  lemma {:induction false} AllForwardRows(rows: seq<MessageRow>, after: int, through: int)
    requires Matching(rows, through, None) == [] && after <= through
    ensures Forward(rows, after, through) == Matching(rows, after, None)
  {
    if rows != [] {
      assert !Admits(rows[0], through, None) && Matching(rows[1..], through, None) == [];
      AllForwardRows(rows[1..], after, through);
    }
  }
}
