/**
 * A whole resync sweep: pages fetched one after another while other writers keep changing the tables.
 * Writers stamp every row they touch above the sweep's snapshot.
 */
module ResyncSweep {
  import opened Prelude
  import opened Ordering
  import opened KeysetOrder
  import opened ResyncPaging

  /** What any number of upserts, receipts and deletions may do to a table while a sweep over `snapshot` runs. */
  ghost predicate WriterStep<P>(t: Table<P>, t': Table<P>, snapshot: int) {
    forall k :: k in t' ==> (k in t && t'[k] == t[k]) || t'[k].updatedAt > snapshot
  }

  ghost predicate Superseded<P>(t: Table<P>, k: Key, snapshot: int) {
    k !in t || t[k].updatedAt > snapshot
  }

  /**
   * Every row of the window that some other row follows has a key without a blank half: only such rows become cursors.
   */
  ghost predicate BoundariesNonblank<P>(t: Table<P>, since: Option<int>, snapshot: int) {
    forall p, q ::
      p in Candidates(t, since, snapshot, None) && q in Candidates(t, since, snapshot, None) && Before(p, q)
      ==> Nonblank(p)
  }

  /** The part of one table a sweep has handled: `ds` was delivered, everything up to `after` is behind it. */
  ghost predicate Covered<P>(
    t0: Table<P>, t: Table<P>, since: Option<int>, snapshot: int, after: Option<Pos>, ds: seq<Row<P>>)
  {
    && WriterStep(t0, t, snapshot)
    && Ascending(Before, Positions(ds))
    && (forall d :: d in ds ==>
          d.pos in Candidates(t0, since, snapshot, None) && d == RowAt(t0, d.pos) && !Beyond(after, d.pos))
    && (forall p :: p in Candidates(t0, since, snapshot, None)
                    ==> RowAt(t0, p) in ds || p in Candidates(t, since, snapshot, after)
                        || Superseded(t, KeyOf(p), snapshot))
  }

  ghost predicate Finished<P>(t0: Table<P>, t: Table<P>, since: Option<int>, snapshot: int, ds: seq<Row<P>>) {
    && WriterStep(t0, t, snapshot)
    && Ascending(Before, Positions(ds))
    && (forall d :: d in ds ==> d.pos in Candidates(t0, since, snapshot, None) && d == RowAt(t0, d.pos))
    && (forall p :: p in Candidates(t0, since, snapshot, None)
          ==> RowAt(t0, p) in ds || Superseded(t, KeyOf(p), snapshot))
  }

  lemma WindowRowsAreOriginal<P>(
      t0: Table<P>, t: Table<P>, since: Option<int>, snapshot: int, after: Option<Pos>, p: Pos)
    requires WriterStep(t0, t, snapshot) && p in Candidates(t, since, snapshot, after)
    ensures p in Candidates(t0, since, snapshot, None) && RowAt(t0, p) == RowAt(t, p) && Beyond(after, p)
  {
    CandidateRows(t, since, snapshot, after, p);
    CandidateRows(t0, since, snapshot, None, p);
  }

  lemma NothingCoveredYet<P>(t0: Table<P>, since: Option<int>, snapshot: int)
    ensures Covered(t0, t0, since, snapshot, None, [])
  {
    forall p | p in Candidates(t0, since, snapshot, None) ensures KeyOf(p) in t0 {
      CandidateRows(t0, since, snapshot, None, p);
    }
  }

  lemma WritersKeepCoverage<P>(
    t0: Table<P>, t: Table<P>, t': Table<P>, since: Option<int>, snapshot: int, after: Option<Pos>, ds: seq<Row<P>>)
    requires Covered(t0, t, since, snapshot, after, ds) && WriterStep(t, t', snapshot)
    ensures Covered(t0, t', since, snapshot, after, ds)
  {
    forall p | p in Candidates(t0, since, snapshot, None)
      ensures RowAt(t0, p) in ds || p in Candidates(t', since, snapshot, after) || Superseded(t', KeyOf(p), snapshot)
    {
      CandidateRows(t, since, snapshot, after, p);
      CandidateRows(t', since, snapshot, after, p);
    }
  }

  lemma WritersKeepFinished<P>(
      t0: Table<P>, t: Table<P>, t': Table<P>, since: Option<int>, snapshot: int, ds: seq<Row<P>>)
    requires Finished(t0, t, since, snapshot, ds) && WriterStep(t, t', snapshot)
    ensures Finished(t0, t', since, snapshot, ds)
  {
    forall p | p in Candidates(t0, since, snapshot, None)
      ensures RowAt(t0, p) in ds || Superseded(t', KeyOf(p), snapshot) {
      CandidateRows(t0, since, snapshot, None, p);
    }
  }

  lemma AppendKeepsAscending<P>(xs: seq<Row<P>>, ys: seq<Row<P>>, after: Option<Pos>)
    requires Ascending(Before, Positions(xs)) && Ascending(Before, Positions(ys))
    requires forall x :: x in xs ==> !Beyond(after, x.pos)
    requires forall y :: y in ys ==> Beyond(after, y.pos)
    ensures Ascending(Before, Positions(xs + ys))
  {
    BeforeIsTotalOrder();
    var zs := Positions(xs + ys);
    forall i, j | 0 <= i < j < |zs| ensures Before(zs[i], zs[j]) {
      if i < |xs| <= j {
        assert xs[i] in xs && ys[j - |xs|] in ys;
      } else if j < |xs| {
        assert Before(Positions(xs)[i], Positions(xs)[j]);
      } else {
        assert Before(Positions(ys)[i - |xs|], Positions(ys)[j - |xs|]);
      }
    }
  }

  lemma QueryRowsAreNew<P>(
    t0: Table<P>, t: Table<P>, since: Option<int>, snapshot: int, after: Option<Pos>, ds: seq<Row<P>>, n: nat)
    requires Covered(t0, t, since, snapshot, after, ds)
    requires n <= |Listing(t, since, snapshot, after)|
    ensures var rows := Listing(t, since, snapshot, after)[..n];
            && Ascending(Before, Positions(ds + rows))
            && forall d :: d in rows ==> d.pos in Candidates(t0, since, snapshot, None) && d == RowAt(t0, d.pos)
  {
    var all := Listing(t, since, snapshot, after);
    var rows := all[..n];
    ListingProperties(t, since, snapshot, after);
    forall d | d in rows
      ensures d.pos in Candidates(t0, since, snapshot, None) && d == RowAt(t0, d.pos) && Beyond(after, d.pos) {
      assert d in all;
      WindowRowsAreOriginal(t0, t, since, snapshot, after, d.pos);
    }
    assert Positions(rows) == Positions(all)[..n];
    AppendKeepsAscending(ds, rows, after);
  }

  /** The query that is not cut by its limit finishes the table. */
  lemma LastQueryFinishes<P>(
    t0: Table<P>, t: Table<P>, since: Option<int>, snapshot: int, after: Option<Pos>, limit: nat, ds: seq<Row<P>>)
    requires Covered(t0, t, since, snapshot, after, ds)
    requires !Query(t, since, snapshot, after, limit).hasMore
    ensures Finished(t0, t, since, snapshot, ds + Query(t, since, snapshot, after, limit).rows)
  {
    var all := Listing(t, since, snapshot, after);
    assert all[..|all|] == all;
    QueryRowsAreNew(t0, t, since, snapshot, after, ds, |all|);
    ListingProperties(t, since, snapshot, after);
    forall p | p in Candidates(t0, since, snapshot, None)
      ensures RowAt(t0, p) in ds + all || Superseded(t, KeyOf(p), snapshot) {
      if p in Candidates(t, since, snapshot, after) {
        WindowRowsAreOriginal(t0, t, since, snapshot, after, p);
      }
    }
  }

  /** The rows before a cut are those up to its last row; the later window holds exactly the others. */
  lemma CutSplitsWindow<P>(t: Table<P>, since: Option<int>, snapshot: int, after: Option<Pos>, limit: nat)
    requires 0 < limit <= |Listing(t, since, snapshot, after)|
    ensures var rows := Listing(t, since, snapshot, after)[..limit];
            var last := rows[limit - 1].pos;
            && last in Candidates(t, since, snapshot, after)
            && (forall d :: d in rows ==> !Before(last, d.pos))
            && (forall p :: p in Candidates(t, since, snapshot, after) ==> RowAt(t, p) in rows || Before(last, p))
  {
    hide Candidates;
    BeforeIsTotalOrder();
    var all := Listing(t, since, snapshot, after);
    var rows := all[..limit];
    var last := rows[limit - 1].pos;
    ListingProperties(t, since, snapshot, after);
    assert all[limit - 1] in all;
    forall i | 0 <= i < |all|
      ensures (i < limit ==> !Before(last, all[i].pos)) && (i >= limit ==> Before(last, all[i].pos)) {
      assert Positions(all)[i] == all[i].pos && Positions(all)[limit - 1] == last;
    }
    forall p | p in Candidates(t, since, snapshot, after) ensures RowAt(t, p) in rows || Before(last, p) {
      var i :| 0 <= i < |all| && all[i] == RowAt(t, p);
      assert i < limit ==> rows[i] == all[i];
    }
  }

  lemma LaterWindow<P>(t: Table<P>, since: Option<int>, snapshot: int, after: Option<Pos>, last: Pos)
    requires last in Candidates(t, since, snapshot, after)
    ensures forall p :: p in Candidates(t, since, snapshot, Some(last))
              <==> p in Candidates(t, since, snapshot, after) && Before(last, p)
    ensures Candidates(t, since, snapshot, Some(last)) < Candidates(t, since, snapshot, after)
  {
    BeforeIsTotalOrder();
    CandidateRows(t, since, snapshot, after, last);
    forall p
      ensures p in Candidates(t, since, snapshot, Some(last))
              <==> p in Candidates(t, since, snapshot, after) && Before(last, p) {
      CandidateRows(t, since, snapshot, after, p);
      CandidateRows(t, since, snapshot, Some(last), p);
    }
    assert last !in Candidates(t, since, snapshot, Some(last));
  }

  /** A query cut by its limit covers everything up to its last row and leaves strictly less behind that row. */
  lemma CutQueryAdvances<P>(
    t0: Table<P>, t: Table<P>, since: Option<int>, snapshot: int, after: Option<Pos>, limit: nat, ds: seq<Row<P>>)
    requires Covered(t0, t, since, snapshot, after, ds) && limit > 0
    requires Query(t, since, snapshot, after, limit).hasMore
    ensures var rows := Query(t, since, snapshot, after, limit).rows;
            && |rows| == limit
            && rows[limit - 1].pos in Candidates(t0, since, snapshot, None)
            && Covered(t0, t, since, snapshot, Some(rows[limit - 1].pos), ds + rows)
            && Candidates(t, since, snapshot, Some(rows[limit - 1].pos)) < Candidates(t, since, snapshot, after)
  {
    hide Listing, Candidates;
    var rows := Listing(t, since, snapshot, after)[..limit];
    var last := rows[limit - 1].pos;
    QueryRowsAreNew(t0, t, since, snapshot, after, ds, limit);
    CutSplitsWindow(t, since, snapshot, after, limit);
    LaterWindow(t, since, snapshot, after, last);
    DeliveredIsBehind(t, since, snapshot, after, last, ds);
    WindowRowsAreOriginal(t0, t, since, snapshot, after, last);
    assert rows[limit - 1] in rows;
    forall p | p in Candidates(t0, since, snapshot, None)
      ensures KeyOf(p) in t0
      ensures RowAt(t0, p) in ds + rows || p in Candidates(t, since, snapshot, Some(last))
          || Superseded(t, KeyOf(p), snapshot) {
      CandidateRows(t0, since, snapshot, None, p);
      if p in Candidates(t, since, snapshot, after) {
        WindowRowsAreOriginal(t0, t, since, snapshot, after, p);
      }
    }
  }

  lemma DeliveredIsBehind<P>(
      t: Table<P>, since: Option<int>, snapshot: int, after: Option<Pos>, last: Pos, ds: seq<Row<P>>)
    requires last in Candidates(t, since, snapshot, after) && forall d :: d in ds ==> !Beyond(after, d.pos)
    ensures forall d :: d in ds ==> !Beyond(Some(last), d.pos)
  {
    BeforeIsTotalOrder();
    CandidateRows(t, since, snapshot, after, last);
    forall d | d in ds ensures !Beyond(Some(last), d.pos) {
      if after.Some? { assert !Before(after.value, d.pos) && Before(after.value, last); }
    }
  }

  // ------------------------------------------------------------ whole sweeps

  /**
   * A client's sweep: the cursor to send next (None once a page said there is no more), what it got so far, and the
   * `completedAt` of its last page.
   */
  datatype Sweep<M, C> = Sweep(
    next: Option<CursorText>, messages: seq<Row<M>>, calls: seq<Row<C>>, completedAt: Option<int>)

  datatype System<M, C> = System(messages: Table<M>, calls: Table<C>, sweep: Sweep<M, C>)

  datatype Params = Params(since: Option<int>, snapshot: int, limit: int)

  /** What a client has after one more page. */
  function AfterReading<M, C>(sweep: Sweep<M, C>, page: Page<M, C>): Sweep<M, C> {
    Sweep(page.next, sweep.messages + page.messages, sweep.calls + page.calls, Some(page.completedAt))
  }

  ghost predicate Write<M, C>(s: System<M, C>, s': System<M, C>, snapshot: int) {
    && s'.sweep == s.sweep
    && WriterStep(s.messages, s'.messages, snapshot)
    && WriterStep(s.calls, s'.calls, snapshot)
  }

  /** One page. Writers may also run between its two queries, so the call query sees the later call table. */
  ghost predicate FetchPage<M, C>(s: System<M, C>, s': System<M, C>, ps: Params) {
    && s.sweep.next.Some?
    && WriterStep(s.messages, s'.messages, ps.snapshot)
    && WriterStep(s.calls, s'.calls, ps.snapshot)
    && var r := ResyncPage(s.messages, s'.calls, ps.since, s.sweep.next.value, ps.limit, ps.snapshot);
    && r.Ok?
    && s'.sweep == AfterReading(s.sweep, r.value)
  }

  ghost predicate Starts<M, C>(s: System<M, C>, ps: Params) {
    && ps.snapshot > 0
    && s.sweep == Sweep(Some(NoCursor), [], [], None)
    && BoundariesNonblank(s.messages, ps.since, ps.snapshot)
    && BoundariesNonblank(s.calls, ps.since, ps.snapshot)
  }

  ghost predicate IsRun<M, C>(run: seq<System<M, C>>, ps: Params) {
    && |run| > 0
    && Starts(run[0], ps)
    && forall i :: 0 <= i < |run| - 1 ==> Write(run[i], run[i + 1], ps.snapshot) || FetchPage(run[i], run[i + 1], ps)
  }

  /** The stage a cursor text stands for: still in messages (behind a position), or already in calls. */
  datatype Stage = InMessages(after: Option<Pos>) | InCalls(after: Option<Pos>) | Completed | Lost

  function StageOf(next: Option<CursorText>, snapshot: int): Stage {
    match next
    case None => Completed
    case Some(NoCursor) => InMessages(None)
    case Some(Unreadable) => Lost
    case Some(Encoded(c)) =>
      if c.snapshotUpdatedAt != snapshot || (c.chatJID == "") != (c.messageID == "") then Lost
      else if c.phase == "" || c.phase == "messages" then InMessages(After(c))
      else if c.phase == "calls" then InCalls(After(c))
      else Lost
  }

  ghost predicate SweepInv<M, C>(s0: System<M, C>, s: System<M, C>, ps: Params) {
    match StageOf(s.sweep.next, ps.snapshot)
    case InMessages(after) =>
      && Covered(s0.messages, s.messages, ps.since, ps.snapshot, after, s.sweep.messages)
      && s.sweep.calls == []
      && Covered(s0.calls, s.calls, ps.since, ps.snapshot, None, [])
    case InCalls(after) =>
      && Finished(s0.messages, s.messages, ps.since, ps.snapshot, s.sweep.messages)
      && Covered(s0.calls, s.calls, ps.since, ps.snapshot, after, s.sweep.calls)
    case Completed =>
      && Finished(s0.messages, s.messages, ps.since, ps.snapshot, s.sweep.messages)
      && Finished(s0.calls, s.calls, ps.since, ps.snapshot, s.sweep.calls)
    case Lost => false
  }

  /** Rows a sweep still has in front of it. */
  ghost function Remaining<M, C>(s: System<M, C>, ps: Params): nat {
    match StageOf(s.sweep.next, ps.snapshot)
    case InMessages(after) =>
      |Candidates(s.messages, ps.since, ps.snapshot, after)| + |Candidates(s.calls, ps.since, ps.snapshot, None)|
    case InCalls(after) => |Candidates(s.calls, ps.since, ps.snapshot, after)|
    case _ => 0
  }

  lemma SubsetIsSmaller<T>(a: set<T>, b: set<T>)
    requires a <= b
    ensures |a| <= |b|
    ensures a < b ==> |a| < |b|
  {
    var c := b - a;
    assert b == a + c;
    assert |b| == |a| + |c|;
  }

  lemma WritersShrinkWindow<P>(t: Table<P>, t': Table<P>, since: Option<int>, snapshot: int, after: Option<Pos>)
    requires WriterStep(t, t', snapshot)
    ensures Candidates(t', since, snapshot, after) <= Candidates(t, since, snapshot, after)
    ensures |Candidates(t', since, snapshot, after)| <= |Candidates(t, since, snapshot, after)|
  {
    forall p | p in Candidates(t', since, snapshot, after) ensures p in Candidates(t, since, snapshot, after) {
      CandidateRows(t', since, snapshot, after, p);
      CandidateRows(t, since, snapshot, after, p);
    }
    SubsetIsSmaller(Candidates(t', since, snapshot, after), Candidates(t, since, snapshot, after));
  }

  /** The last row of a cut query is followed by another row of the original window. */
  lemma BoundaryIsNonblank<P>(
    t0: Table<P>, t: Table<P>, since: Option<int>, snapshot: int, after: Option<Pos>, ds: seq<Row<P>>, limit: nat)
    requires Covered(t0, t, since, snapshot, after, ds) && BoundariesNonblank(t0, since, snapshot) && limit > 0
    requires Query(t, since, snapshot, after, limit).hasMore
    ensures Nonblank(Query(t, since, snapshot, after, limit).rows[limit - 1].pos)
  {
    var all := Listing(t, since, snapshot, after);
    ListingProperties(t, since, snapshot, after);
    var p, q := all[limit - 1], all[limit];
    assert p in all && q in all;
    WindowRowsAreOriginal(t0, t, since, snapshot, after, p.pos);
    WindowRowsAreOriginal(t0, t, since, snapshot, after, q.pos);
    assert Before(Positions(all)[limit - 1], Positions(all)[limit]);
  }

  lemma WriteKeepsInv<M, C>(s0: System<M, C>, s: System<M, C>, s': System<M, C>, ps: Params)
    requires SweepInv(s0, s, ps) && Write(s, s', ps.snapshot)
    ensures SweepInv(s0, s', ps) && Remaining(s', ps) <= Remaining(s, ps)
  {
    match StageOf(s.sweep.next, ps.snapshot)
    case InMessages(after) =>
      WritersKeepCoverage(s0.messages, s.messages, s'.messages, ps.since, ps.snapshot, after, s.sweep.messages);
      WritersKeepCoverage(s0.calls, s.calls, s'.calls, ps.since, ps.snapshot, None, []);
      WritersShrinkWindow(s.messages, s'.messages, ps.since, ps.snapshot, after);
      WritersShrinkWindow(s.calls, s'.calls, ps.since, ps.snapshot, None);
    case InCalls(after) =>
      WritersKeepFinished(s0.messages, s.messages, s'.messages, ps.since, ps.snapshot, s.sweep.messages);
      WritersKeepCoverage(s0.calls, s.calls, s'.calls, ps.since, ps.snapshot, after, s.sweep.calls);
      WritersShrinkWindow(s.calls, s'.calls, ps.since, ps.snapshot, after);
    case Completed =>
      WritersKeepFinished(s0.messages, s.messages, s'.messages, ps.since, ps.snapshot, s.sweep.messages);
      WritersKeepFinished(s0.calls, s.calls, s'.calls, ps.since, ps.snapshot, s.sweep.calls);
  }

  function EffectiveLimit(limit: int): (n: nat)
    ensures n > 0
  {
    if limit <= 0 then DEFAULT_RESYNC_LIMIT else limit
  }

  /** A page over tables that do not change while it is read. */
  lemma PageKeepsInv<M, C>(s0: System<M, C>, s: System<M, C>, s': System<M, C>, ps: Params)
    requires Starts(s0, ps) && SweepInv(s0, s, ps) && FetchPage(s, s', ps)
    requires s'.messages == s.messages && s'.calls == s.calls
    ensures SweepInv(s0, s', ps)
    ensures s'.sweep.next.Some? ==> Remaining(s', ps) < Remaining(s, ps)
  {
    hide Covered, Finished, Listing, Candidates, BoundariesNonblank;
    var limit := EffectiveLimit(ps.limit);
    match StageOf(s.sweep.next, ps.snapshot)
    case InMessages(after) =>
      var q := Query(s.messages, ps.since, ps.snapshot, after, limit);
      if q.hasMore {
        CutQueryAdvances(s0.messages, s.messages, ps.since, ps.snapshot, after, limit, s.sweep.messages);
        var last := q.rows[limit - 1].pos;
        BoundaryIsNonblank(s0.messages, s.messages, ps.since, ps.snapshot, after, s.sweep.messages, limit);
        CursorResumesIffNonblank(ps.snapshot, "", last);
        SubsetIsSmaller(Candidates(s.messages, ps.since, ps.snapshot, Some(last)),
            Candidates(s.messages, ps.since, ps.snapshot, after));
      } else {
        LastQueryFinishes(s0.messages, s.messages, ps.since, ps.snapshot, after, limit, s.sweep.messages);
        ListingProperties(s.messages, ps.since, ps.snapshot, after);
        CallsAfterMessages(s0, s, s', ps, after,
            MessagesPage(s.messages, s.calls, ps.since, ps.snapshot, after, limit));
      }
    case InCalls(after) =>
      CallQueryStep(s0.calls, s.calls, ps, after, limit, s.sweep.calls);
      assert s'.sweep.messages == s.sweep.messages;
    case Completed => assert false;
  }

  lemma CallQueryStep<P>(t0: Table<P>, t: Table<P>, ps: Params, after: Option<Pos>, limit: nat, ds: seq<Row<P>>)
    requires ps.snapshot > 0 && BoundariesNonblank(t0, ps.since, ps.snapshot) && limit > 0
    requires Covered(t0, t, ps.since, ps.snapshot, after, ds)
    ensures var q := Query(t, ps.since, ps.snapshot, after, limit);
            if q.hasMore then
              var last := q.rows[limit - 1].pos;
              && StageOf(Some(Encoded(CursorAt(ps.snapshot, "calls", last))), ps.snapshot) == InCalls(Some(last))
              && Covered(t0, t, ps.since, ps.snapshot, Some(last), ds + q.rows)
              && |Candidates(t, ps.since, ps.snapshot, Some(last))| < |Candidates(t, ps.since, ps.snapshot, after)|
            else Finished(t0, t, ps.since, ps.snapshot, ds + q.rows)
  {
    var q := Query(t, ps.since, ps.snapshot, after, limit);
    if q.hasMore {
      CutQueryAdvances(t0, t, ps.since, ps.snapshot, after, limit, ds);
      var last := q.rows[limit - 1].pos;
      BoundaryIsNonblank(t0, t, ps.since, ps.snapshot, after, ds, limit);
      CursorResumesIffNonblank(ps.snapshot, "calls", last);
      SubsetIsSmaller(Candidates(t, ps.since, ps.snapshot, Some(last)), Candidates(t, ps.since, ps.snapshot, after));
    } else {
      LastQueryFinishes(t0, t, ps.since, ps.snapshot, after, limit, ds);
    }
  }

  /** The message phase is over on this page: fill it up with calls, or hand over when messages fill it exactly. */
  lemma CallsAfterMessages<M, C>(
    s0: System<M, C>, s: System<M, C>, s': System<M, C>, ps: Params, after: Option<Pos>, page: Page<M, C>)
    requires Starts(s0, ps) && StageOf(s.sweep.next, ps.snapshot) == InMessages(after)
    requires s'.messages == s.messages && s'.calls == s.calls
    requires !Query(s.messages, ps.since, ps.snapshot, after, EffectiveLimit(ps.limit)).hasMore
    requires page == MessagesPage(s.messages, s.calls, ps.since, ps.snapshot, after, EffectiveLimit(ps.limit))
    requires s'.sweep == Sweep(page.next, s.sweep.messages + page.messages, page.calls, Some(page.completedAt))
    requires |page.messages| == |Candidates(s.messages, ps.since, ps.snapshot, after)|
    requires Finished(s0.messages, s.messages, ps.since, ps.snapshot, s.sweep.messages + page.messages)
    requires Covered(s0.calls, s.calls, ps.since, ps.snapshot, None, [])
    ensures SweepInv(s0, s', ps)
    ensures s'.sweep.next.Some? ==> Remaining(s', ps) < Remaining(s, ps)
  {
    hide Covered, Finished, Listing, Candidates, BoundariesNonblank, Query, SweepInv, Remaining;
    var limit := EffectiveLimit(ps.limit);
    if |page.messages| >= limit {
      if Query(s.calls, ps.since, ps.snapshot, None, 1).rows == [] {
        NothingToFetch(s0, s, s', ps);
      } else {
        HandOver(s0, s, s', ps, after);
      }
    } else {
      FillWithCalls(s0, s, s', ps, after, page, limit - |page.messages|);
    }
  }

  lemma NothingToFetch<M, C>(s0: System<M, C>, s: System<M, C>, s': System<M, C>, ps: Params)
    requires Starts(s0, ps) && s'.messages == s.messages && s'.calls == s.calls
    requires Query(s.calls, ps.since, ps.snapshot, None, 1).rows == []
    requires Finished(s0.messages, s.messages, ps.since, ps.snapshot, s'.sweep.messages)
    requires Covered(s0.calls, s.calls, ps.since, ps.snapshot, None, [])
    requires s'.sweep.next == None && s'.sweep.calls == []
    ensures SweepInv(s0, s', ps)
  {
    hide Covered, Finished, Listing, Candidates, BoundariesNonblank;
    LastQueryFinishes(s0.calls, s.calls, ps.since, ps.snapshot, None, 1, []);
    assert [] + Query(s.calls, ps.since, ps.snapshot, None, 1).rows == [];
  }

  lemma HandOver<M, C>(s0: System<M, C>, s: System<M, C>, s': System<M, C>, ps: Params, after: Option<Pos>)
    requires Starts(s0, ps) && StageOf(s.sweep.next, ps.snapshot) == InMessages(after)
    requires s'.messages == s.messages && s'.calls == s.calls
    requires Finished(s0.messages, s.messages, ps.since, ps.snapshot, s'.sweep.messages)
    requires Covered(s0.calls, s.calls, ps.since, ps.snapshot, None, [])
    requires s'.sweep.next == Some(Encoded(ResyncCursor(ps.snapshot, "calls", 0, "", ""))) && s'.sweep.calls == []
    requires |Candidates(s.messages, ps.since, ps.snapshot, after)| > 0
    ensures SweepInv(s0, s', ps)
    ensures Remaining(s', ps) < Remaining(s, ps)
  {
    hide Covered, Finished, Listing, Candidates, BoundariesNonblank, Query;
    assert IsBlank("");
    assert StageOf(s'.sweep.next, ps.snapshot) == InCalls(None);
  }

  lemma FillWithCalls<M, C>(
    s0: System<M, C>, s: System<M, C>, s': System<M, C>, ps: Params, after: Option<Pos>, page: Page<M, C>, limit: nat)
    requires Starts(s0, ps) && StageOf(s.sweep.next, ps.snapshot) == InMessages(after) && limit > 0
    requires s'.messages == s.messages && s'.calls == s.calls
    requires page == CallsPage(page.messages, s.calls, ps.since, ps.snapshot, None, limit)
    requires s'.sweep == Sweep(page.next, s.sweep.messages + page.messages, page.calls, Some(page.completedAt))
    requires Finished(s0.messages, s.messages, ps.since, ps.snapshot, s.sweep.messages + page.messages)
    requires Covered(s0.calls, s.calls, ps.since, ps.snapshot, None, [])
    ensures SweepInv(s0, s', ps)
    ensures s'.sweep.next.Some? ==> Remaining(s', ps) < Remaining(s, ps)
  {
    hide Covered, Finished, Listing, Candidates, BoundariesNonblank, Query;
    CallQueryStep(s0.calls, s.calls, ps, None, limit, []);
    var q := Query(s.calls, ps.since, ps.snapshot, None, limit);
    assert [] + q.rows == q.rows == page.calls;
  }

  /** A page keeps the invariant and makes progress, whatever writers do before, between and after its two queries. */
  lemma FetchKeepsInv<M, C>(s0: System<M, C>, s: System<M, C>, s': System<M, C>, ps: Params)
    requires Starts(s0, ps) && SweepInv(s0, s, ps) && FetchPage(s, s', ps)
    ensures SweepInv(s0, s', ps)
    ensures s'.sweep.next.Some? ==> Remaining(s', ps) < Remaining(s, ps)
  {
    hide Covered, Finished, SweepInv, ResyncPage, Remaining;
    var queried := s.(calls := s'.calls);
    assert Write(s, queried, ps.snapshot);
    WriteKeepsInv(s0, s, queried, ps);
    var fetched := queried.(sweep := s'.sweep);
    assert FetchPage(queried, fetched, ps);
    PageKeepsInv(s0, queried, fetched, ps);
    WriteKeepsInv(s0, fetched, s', ps);
  }

  lemma SweepPageIsOk<M, C>(s0: System<M, C>, s: System<M, C>, ps: Params)
    requires Starts(s0, ps) && SweepInv(s0, s, ps) && s.sweep.next.Some?
    ensures ResyncPage(s.messages, s.calls, ps.since, s.sweep.next.value, ps.limit, ps.snapshot).Ok?
  {
    hide Covered, Finished;
  }

  lemma StartsInv<M, C>(s0: System<M, C>, ps: Params)
    requires Starts(s0, ps)
    ensures SweepInv(s0, s0, ps)
  {
    NothingCoveredYet(s0.messages, ps.since, ps.snapshot);
    NothingCoveredYet(s0.calls, ps.since, ps.snapshot);
  }

  lemma {:induction false} RunKeepsInv<M, C>(run: seq<System<M, C>>, ps: Params, i: nat)
    requires IsRun(run, ps) && i < |run|
    ensures SweepInv(run[0], run[i], ps)
  {
    hide SweepInv, FetchPage, Write;
    if i == 0 {
      StartsInv(run[0], ps);
    } else {
      RunKeepsInv(run, ps, i - 1);
      if Write(run[i - 1], run[(i - 1) + 1], ps.snapshot) {
        WriteKeepsInv(run[0], run[i - 1], run[i], ps);
      } else {
        FetchKeepsInv(run[0], run[i - 1], run[i], ps);
      }
    }
  }

  /** The rows that were in the window when the sweep began, in listing order. */
  ghost predicate DeliversExactly<P>(t0: Table<P>, t: Table<P>, ps: Params, ds: seq<Row<P>>) {
    && Ascending(Before, Positions(ds))
    && (forall d :: d in ds ==> d in Listing(t0, ps.since, ps.snapshot, None))
    && (forall d :: d in Listing(t0, ps.since, ps.snapshot, None)
          ==> d in ds || Superseded(t, KeyOf(d.pos), ps.snapshot))
  }

  lemma FinishedDelivers<P>(t0: Table<P>, t: Table<P>, ps: Params, ds: seq<Row<P>>)
    requires Finished(t0, t, ps.since, ps.snapshot, ds)
    ensures DeliversExactly(t0, t, ps, ds)
  {
    ListingProperties(t0, ps.since, ps.snapshot, None);
  }

  /**
   * When a sweep with writers interleaved anywhere ends, it has delivered rows of the original window only, in
   * strictly ascending order (so none twice), with their original contents, and every row it missed has since
   * been deleted or stamped above the snapshot.
   */
  lemma InterleavedSweepDelivers<M, C>(run: seq<System<M, C>>, ps: Params)
    requires IsRun(run, ps) && run[|run| - 1].sweep.next == None
    ensures var s0, s := run[0], run[|run| - 1];
            && DeliversExactly(s0.messages, s.messages, ps, s.sweep.messages)
            && DeliversExactly(s0.calls, s.calls, ps, s.sweep.calls)
  {
    var s0, s := run[0], run[|run| - 1];
    RunKeepsInv(run, ps, |run| - 1);
    FinishedDelivers(s0.messages, s.messages, ps, s.sweep.messages);
    FinishedDelivers(s0.calls, s.calls, ps, s.sweep.calls);
  }

  /** A row stamped above a time is matched by any later sweep that starts from that time. */
  lemma NextSweepPicksUp<P>(t: Table<P>, k: Key, snapshot: int, next: int)
    requires k in t && Superseded(t, k, snapshot) && t[k].updatedAt <= next
    ensures RowAt(t, PosOf(k, t[k])) in Listing(t, Some(snapshot), next, None)
  {
    CandidateRows(t, Some(snapshot), next, None, PosOf(k, t[k]));
    ListingProperties(t, Some(snapshot), next, None);
  }

  /** A page of a sweep names the sweep's snapshot as its `completedAt`, whatever the tables hold. */
  lemma PageNamesSnapshot<M, C>(messages: Table<M>, calls: Table<C>, ps: Params, text: CursorText)
    requires ps.snapshot > 0 && StageOf(Some(text), ps.snapshot) != Lost
    ensures var r := ResyncPage(messages, calls, ps.since, text, ps.limit, ps.snapshot);
            r.Ok? && r.value.completedAt == ps.snapshot
  {
    hide MessagesPage, CallsPage, Listing;
    PageCompletedAt(messages, calls, ps.since, text, ps.limit, ps.snapshot);
  }

  /** So the client knows the snapshot from its first page on, and always when its sweep has finished. */
  lemma {:induction false} CompletedAtIsSnapshot<M, C>(run: seq<System<M, C>>, ps: Params, i: nat)
    requires IsRun(run, ps) && i < |run|
    ensures run[i].sweep.completedAt.Some? ==> run[i].sweep.completedAt == Some(ps.snapshot)
    ensures run[i].sweep.next == None ==> run[i].sweep.completedAt == Some(ps.snapshot)
  {
    if i > 0 {
      hide SweepInv, ResyncPage, WriterStep;
      var k := i - 1;
      CompletedAtIsSnapshot(run, ps, k);
      RunKeepsInv(run, ps, k);
      InvIsNotLost(run[0], run[k], ps);
      assert Write(run[k], run[k + 1], ps.snapshot) || FetchPage(run[k], run[k + 1], ps);
      if run[k].sweep.next.Some? { PageNamesSnapshot(run[k].messages, run[i].calls, ps, run[k].sweep.next.value); }
    }
  }

  lemma InvIsNotLost<M, C>(s0: System<M, C>, s: System<M, C>, ps: Params)
    requires SweepInv(s0, s, ps)
    ensures StageOf(s.sweep.next, ps.snapshot) != Lost
  {
  }

  /**
   * Nothing falls between two sweeps: every row of the final table newer than `since` was delivered, as it is now, by
   * the finished sweep, or is matched by a next one that starts from the `completedAt` the client was given.
   */
  lemma NoGapBetweenSweeps<M, C>(run: seq<System<M, C>>, ps: Params, next: int)
    requires IsRun(run, ps) && run[|run| - 1].sweep.next == None
    ensures var s := run[|run| - 1];
            && (forall k :: k in s.messages && InWindow(s.messages[k], ps.since, next) ==>
                  var row := RowAt(s.messages, PosOf(k, s.messages[k]));
                  row in s.sweep.messages || row in Listing(s.messages, s.sweep.completedAt, next, None))
            && (forall k :: k in s.calls && InWindow(s.calls[k], ps.since, next) ==>
                  var row := RowAt(s.calls, PosOf(k, s.calls[k]));
                  row in s.sweep.calls || row in Listing(s.calls, s.sweep.completedAt, next, None))
  {
    hide SweepInv, Finished;
    var s0, s := run[0], run[|run| - 1];
    RunKeepsInv(run, ps, |run| - 1);
    CompletedAtIsSnapshot(run, ps, |run| - 1);
    CompletedInv(s0, s, ps);
    NoGapInTable(s0.messages, s.messages, ps, s.sweep.messages, next);
    NoGapInTable(s0.calls, s.calls, ps, s.sweep.calls, next);
  }

  lemma CompletedInv<M, C>(s0: System<M, C>, s: System<M, C>, ps: Params)
    requires SweepInv(s0, s, ps) && s.sweep.next == None
    ensures Finished(s0.messages, s.messages, ps.since, ps.snapshot, s.sweep.messages)
    ensures Finished(s0.calls, s.calls, ps.since, ps.snapshot, s.sweep.calls)
  {
  }

  lemma NoGapInTable<P>(t0: Table<P>, t: Table<P>, ps: Params, ds: seq<Row<P>>, next: int)
    requires Finished(t0, t, ps.since, ps.snapshot, ds)
    ensures forall k :: k in t && InWindow(t[k], ps.since, next) ==>
              RowAt(t, PosOf(k, t[k])) in ds || RowAt(t, PosOf(k, t[k])) in Listing(t, Some(ps.snapshot), next, None)
  {
    hide Listing;
    forall k | k in t && InWindow(t[k], ps.since, next)
      ensures RowAt(t, PosOf(k, t[k])) in ds || RowAt(t, PosOf(k, t[k])) in Listing(t, Some(ps.snapshot), next, None) {
      if t[k].updatedAt > ps.snapshot {
        NextSweepPicksUp(t, k, ps.snapshot, next);
      } else {
        CandidateRows(t0, ps.since, ps.snapshot, None, PosOf(k, t[k]));
      }
    }
  }

  /** How many steps of a run fetched a page: only those change the sweep. */
  ghost function FetchCount<M, C>(run: seq<System<M, C>>): nat {
    if |run| < 2 then 0
    else FetchCount(run[..|run| - 1]) + (if run[|run| - 1].sweep != run[|run| - 2].sweep then 1 else 0)
  }

  /**
   * However writers interleave, the cursor never becomes unreadable and pages run out: each page that says there is
   * more leaves fewer rows ahead.
   */
  lemma {:induction false} SweepTerminates<M, C>(run: seq<System<M, C>>, ps: Params)
    requires IsRun(run, ps)
    ensures StageOf(run[|run| - 1].sweep.next, ps.snapshot) != Lost
    ensures run[|run| - 1].sweep.next.Some? ==> FetchCount(run) + Remaining(run[|run| - 1], ps) <= Remaining(run[0], ps)
    ensures FetchCount(run) <= Remaining(run[0], ps) + 1
    decreases |run|
  {
    var n := |run|;
    RunKeepsInv(run, ps, n - 1);
    if n > 1 {
      var front := run[..n - 1];
      SweepTerminates(front, ps);
      RunKeepsInv(run, ps, n - 2);
      assert front[n - 2] == run[n - 2];
      SweepStep(run[0], run[n - 2], run[(n - 2) + 1], ps);
    }
  }

  lemma SweepStep<M, C>(s0: System<M, C>, s: System<M, C>, s': System<M, C>, ps: Params)
    requires Starts(s0, ps) && SweepInv(s0, s, ps)
    requires Write(s, s', ps.snapshot) || FetchPage(s, s', ps)
    ensures s'.sweep.next.Some? ==> s.sweep.next.Some?
    ensures s'.sweep == s.sweep ==> Remaining(s', ps) <= Remaining(s, ps)
    ensures s'.sweep != s.sweep ==> s.sweep.next.Some? && (s'.sweep.next.Some? ==> Remaining(s', ps) < Remaining(s, ps))
  {
    hide SweepInv, Remaining;
    if Write(s, s', ps.snapshot) {
      WriteKeepsInv(s0, s, s', ps);
    } else {
      FetchKeepsInv(s0, s, s', ps);
    }
  }
}
