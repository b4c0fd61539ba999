/**
 * Sweeps beside writers of any kind. A transaction reads the clock before it commits, so a row may appear, stamped at
 * or before a sweep's snapshot, while the sweep runs: exactly when such a row is delivered, and when it is lost.
 */
module LateWrites {
  import opened Prelude
  import opened Ordering
  import opened KeysetOrder
  import opened ResyncPaging
  import opened ResyncSweep

  // ------------------------------------------------------------------- runs

  /** One page. Its call query sees the tables after whatever committed between its two queries. */
  ghost predicate AnyPage<M, C>(s: System<M, C>, s': System<M, C>, ps: Params) {
    && s.sweep.next.Some?
    && var r := ResyncPage(s.messages, s'.calls, ps.since, s.sweep.next.value, ps.limit, ps.snapshot);
    && r.Ok?
    && s'.sweep == AfterReading(s.sweep, r.value)
  }

  ghost predicate Nonblanks<M, C>(s: System<M, C>, ps: Params) {
    && BoundariesNonblank(s.messages, ps.since, ps.snapshot)
    && BoundariesNonblank(s.calls, ps.since, ps.snapshot)
  }

  /** A sweep with tables that change arbitrarily from step to step, but for blank keys that would stop it. */
  ghost predicate IsAnyRun<M, C>(run: seq<System<M, C>>, ps: Params) {
    && |run| > 0 && ps.snapshot > 0
    && run[0].sweep == Sweep(Some(NoCursor), [], [], None)
    && (forall i :: 0 <= i < |run| ==> Nonblanks(run[i], ps))
    && (forall i :: 0 <= i < |run| - 1 ==> run[i + 1].sweep == run[i].sweep || AnyPage(run[i], run[i + 1], ps))
  }

  /** Runs whose writers stamp above the snapshot are among them. */
  lemma {:induction false} StampedRunIsAnyRun<M, C>(run: seq<System<M, C>>, ps: Params)
    requires IsRun(run, ps)
    ensures IsAnyRun(run, ps)
  {
    forall i | 0 <= i < |run| ensures Nonblanks(run[i], ps) { StampedRunStaysNonblank(run, ps, i); }
    forall i | 0 <= i < |run| - 1 ensures run[i + 1].sweep == run[i].sweep || AnyPage(run[i], run[i + 1], ps) {
      assert Write(run[i], run[i + 1], ps.snapshot) || FetchPage(run[i], run[i + 1], ps);
    }
  }

  lemma {:induction false} StampedRunStaysNonblank<M, C>(run: seq<System<M, C>>, ps: Params, i: nat)
    requires IsRun(run, ps) && i < |run|
    ensures Nonblanks(run[i], ps)
  {
    if i > 0 {
      hide BoundariesNonblank, WriterStep, Candidates, ResyncPage;
      StampedRunStaysNonblank(run, ps, i - 1);
      assert Write(run[i - 1], run[(i - 1) + 1], ps.snapshot) || FetchPage(run[i - 1], run[(i - 1) + 1], ps);
      SmallerWindowStaysNonblank(run[i - 1].messages, run[i].messages, ps);
      SmallerWindowStaysNonblank(run[i - 1].calls, run[i].calls, ps);
    }
  }

  lemma SmallerWindowStaysNonblank<P>(t: Table<P>, t': Table<P>, ps: Params)
    requires WriterStep(t, t', ps.snapshot) && BoundariesNonblank(t, ps.since, ps.snapshot)
    ensures BoundariesNonblank(t', ps.since, ps.snapshot)
  {
    WritersShrinkWindow(t, t', ps.since, ps.snapshot, None);
  }

  // ---------------------------------------------------------------- queries

  /** What a query adds to the rows `ds` delivered up to `after`, and what it leaves. */
  ghost predicate Advances<P>(t: Table<P>, ps: Params, after: Option<Pos>, limit: nat, ds: seq<Row<P>>)
    requires limit > 0
  {
    var q := Query(t, ps.since, ps.snapshot, after, limit);
    && Ascending(Before, Positions(ds + q.rows))
    && (forall d :: d in q.rows ==> Beyond(after, d.pos))
    && |q.rows| <= limit
    && if q.hasMore then
         |q.rows| == limit &&
         var last := q.rows[limit - 1].pos;
         && Nonblank(last)
         && (forall d :: d in ds + q.rows ==> !Beyond(Some(last), d.pos))
         && (forall p :: !Beyond(after, p) ==> !Beyond(Some(last), p))
         && (forall p :: p in Candidates(t, ps.since, ps.snapshot, after) ==> RowIn(t, p, q.rows) || Before(last, p))
         && |Candidates(t, ps.since, ps.snapshot, Some(last))| < |Candidates(t, ps.since, ps.snapshot, after)|
       else
         forall p :: p in Candidates(t, ps.since, ps.snapshot, after) ==> RowIn(t, p, q.rows)
  }

  predicate RowIn<P(==)>(t: Table<P>, p: Pos, ds: seq<Row<P>>) {
    KeyOf(p) in t && RowAt(t, p) in ds
  }

  lemma QueryAdvances<P>(t: Table<P>, ps: Params, after: Option<Pos>, limit: nat, ds: seq<Row<P>>)
    requires limit > 0 && BoundariesNonblank(t, ps.since, ps.snapshot)
    requires Ascending(Before, Positions(ds)) && forall d :: d in ds ==> !Beyond(after, d.pos)
    ensures Advances(t, ps, after, limit, ds)
  {
    hide Candidates, Listing;
    BeforeIsTotalOrder();
    var all := Listing(t, ps.since, ps.snapshot, after);
    var q := Query(t, ps.since, ps.snapshot, after, limit);
    ListingProperties(t, ps.since, ps.snapshot, after);
    assert q.rows == all[..|q.rows|];
    forall d | d in q.rows ensures d in all && Beyond(after, d.pos) {
      CandidateRows(t, ps.since, ps.snapshot, after, d.pos);
    }
    assert Positions(q.rows) == Positions(all)[..|q.rows|];
    AppendKeepsAscending(ds, q.rows, after);
    if q.hasMore {
      CutAdvances(t, ps, after, limit, ds);
    } else {
      assert q.rows == all;
    }
  }

  lemma CutAdvances<P>(t: Table<P>, ps: Params, after: Option<Pos>, limit: nat, ds: seq<Row<P>>)
    requires limit > 0 && BoundariesNonblank(t, ps.since, ps.snapshot)
    requires Query(t, ps.since, ps.snapshot, after, limit).hasMore
    requires forall d :: d in ds ==> !Beyond(after, d.pos)
    ensures var q := Query(t, ps.since, ps.snapshot, after, limit);
            var last := q.rows[limit - 1].pos;
            && Nonblank(last)
            && (forall d :: d in ds + q.rows ==> !Beyond(Some(last), d.pos))
            && (forall p :: !Beyond(after, p) ==> !Beyond(Some(last), p))
            && (forall p :: p in Candidates(t, ps.since, ps.snapshot, after) ==> RowIn(t, p, q.rows) || Before(last, p))
            && |Candidates(t, ps.since, ps.snapshot, Some(last))| < |Candidates(t, ps.since, ps.snapshot, after)|
  {
    hide Candidates, Listing;
    BeforeIsTotalOrder();
    var all := Listing(t, ps.since, ps.snapshot, after);
    var last := all[limit - 1].pos;
    ListingProperties(t, ps.since, ps.snapshot, after);
    CutSplitsWindow(t, ps.since, ps.snapshot, after, limit);
    LaterWindow(t, ps.since, ps.snapshot, after, last);
    SubsetIsSmaller(Candidates(t, ps.since, ps.snapshot, Some(last)), Candidates(t, ps.since, ps.snapshot, after));
    DeliveredIsBehind(t, ps.since, ps.snapshot, after, last, ds);
    CandidateRows(t, ps.since, ps.snapshot, after, last);
    assert forall p :: !Beyond(after, p) ==> !Beyond(Some(last), p);
    assert Before(Positions(all)[limit - 1], Positions(all)[limit]);
    assert all[limit] in all;
    LastIsFollowed(t, ps, after, last, all[limit].pos);
  }

  lemma LastIsFollowed<P>(t: Table<P>, ps: Params, after: Option<Pos>, p: Pos, q: Pos)
    requires BoundariesNonblank(t, ps.since, ps.snapshot) && Before(p, q)
    requires p in Candidates(t, ps.since, ps.snapshot, after) && q in Candidates(t, ps.since, ps.snapshot, after)
    ensures Nonblank(p)
  {
    CandidateRows(t, ps.since, ps.snapshot, after, p);
    CandidateRows(t, ps.since, ps.snapshot, after, q);
    CandidateRows(t, ps.since, ps.snapshot, None, p);
    CandidateRows(t, ps.since, ps.snapshot, None, q);
  }

  // -------------------------------------------------------------- the sweep

  /**
   * What holds of a sweep whatever happened to the tables: what it delivered is strictly ascending and lies behind its
   * cursor.
   */
  ghost predicate AnyInv<M, C>(s: System<M, C>, ps: Params) {
    && Ascending(Before, Positions(s.sweep.messages))
    && Ascending(Before, Positions(s.sweep.calls))
    && match StageOf(s.sweep.next, ps.snapshot)
       case InMessages(after) => s.sweep.calls == [] && forall d :: d in s.sweep.messages ==> !Beyond(after, d.pos)
       case InCalls(after) => forall d :: d in s.sweep.calls ==> !Beyond(after, d.pos)
       case Completed => true
       case Lost => false
  }

  /** A message position the sweep has still in front of it. */
  predicate MessageAhead<M, C>(s: System<M, C>, ps: Params, p: Pos) {
    match StageOf(s.sweep.next, ps.snapshot)
    case InMessages(after) => Beyond(after, p)
    case _ => false
  }

  predicate CallAhead<M, C>(s: System<M, C>, ps: Params, p: Pos) {
    match StageOf(s.sweep.next, ps.snapshot)
    case InMessages(_) => true
    case InCalls(after) => Beyond(after, p)
    case _ => false
  }

  /** How one page treats a position of the message table, and one of the call table. */
  ghost predicate TreatsMessages<M, C>(s: System<M, C>, s': System<M, C>, ps: Params) {
    && s.sweep.messages <= s'.sweep.messages
    && (forall p :: !MessageAhead(s, ps, p) ==>
          !MessageAhead(s', ps, p) && forall d :: d in s'.sweep.messages && d.pos == p ==> d in s.sweep.messages)
    && (forall p :: MessageAhead(s, ps, p) && p in Candidates(s.messages, ps.since, ps.snapshot, None) ==>
          MessageAhead(s', ps, p) || RowIn(s.messages, p, s'.sweep.messages))
  }

  ghost predicate TreatsCalls<M, C>(s: System<M, C>, s': System<M, C>, ps: Params) {
    && s.sweep.calls <= s'.sweep.calls
    && (forall p :: !CallAhead(s, ps, p) ==>
          !CallAhead(s', ps, p) && forall d :: d in s'.sweep.calls && d.pos == p ==> d in s.sweep.calls)
    && (forall p :: CallAhead(s, ps, p) && p in Candidates(s'.calls, ps.since, ps.snapshot, None) ==>
          CallAhead(s', ps, p) || RowIn(s'.calls, p, s'.sweep.calls))
  }

  ghost predicate PageTreats<M, C>(s: System<M, C>, s': System<M, C>, ps: Params) {
    TreatsMessages(s, s', ps) && TreatsCalls(s, s', ps)
  }

  lemma AheadIsCandidate<P>(t: Table<P>, ps: Params, after: Option<Pos>, p: Pos)
    requires p in Candidates(t, ps.since, ps.snapshot, None) && Beyond(after, p)
    ensures p in Candidates(t, ps.since, ps.snapshot, after)
  {
    CandidateRows(t, ps.since, ps.snapshot, None, p);
    CandidateRows(t, ps.since, ps.snapshot, after, p);
  }

  lemma PageStep<M, C>(s: System<M, C>, s': System<M, C>, ps: Params)
    requires ps.snapshot > 0 && AnyInv(s, ps) && AnyPage(s, s', ps)
    requires BoundariesNonblank(s.messages, ps.since, ps.snapshot)
        && BoundariesNonblank(s'.calls, ps.since, ps.snapshot)
    ensures AnyInv(s', ps) && PageTreats(s, s', ps)
  {
    hide BoundariesNonblank, Candidates, Listing;
    var limit := EffectiveLimit(ps.limit);
    match StageOf(s.sweep.next, ps.snapshot)
    case InMessages(after) => MessagesPageStep(s, s', ps, after, limit);
    case InCalls(after) => CallsPageStep(s, s', ps, after, limit);
    case Completed => assert false;
  }

  /** The call query of a page, from behind `after` or, right after the messages, from the start. */
  lemma CallQueryTreats<M, C>(s: System<M, C>, s': System<M, C>, ps: Params, after: Option<Pos>, limit: nat)
    requires ps.snapshot > 0 && limit > 0 && BoundariesNonblank(s'.calls, ps.since, ps.snapshot)
    requires StageOf(s.sweep.next, ps.snapshot) == InCalls(after)
             || (StageOf(s.sweep.next, ps.snapshot).InMessages? && after == None)
    requires Ascending(Before, Positions(s.sweep.calls)) && forall d :: d in s.sweep.calls ==> !Beyond(after, d.pos)
    requires var q := Query(s'.calls, ps.since, ps.snapshot, after, limit);
             && s'.sweep.calls == s.sweep.calls + q.rows
             && s'.sweep.next == if q.hasMore
                  then Some(Encoded(CursorAt(ps.snapshot, "calls", q.rows[limit - 1].pos))) else None
    ensures TreatsCalls(s, s', ps) && Ascending(Before, Positions(s'.sweep.calls))
    ensures StageOf(s'.sweep.next, ps.snapshot).Completed?
            || (StageOf(s'.sweep.next, ps.snapshot).InCalls?
                && forall d :: d in s'.sweep.calls ==> !Beyond(StageOf(s'.sweep.next, ps.snapshot).after, d.pos))
  {
    hide BoundariesNonblank, Candidates, Listing;
    var q := Query(s'.calls, ps.since, ps.snapshot, after, limit);
    QueryAdvances(s'.calls, ps, after, limit, s.sweep.calls);
    if q.hasMore { CursorResumesIffNonblank(ps.snapshot, "calls", q.rows[limit - 1].pos); }
    hide Query;
    forall p | CallAhead(s, ps, p) && p in Candidates(s'.calls, ps.since, ps.snapshot, None)
      ensures CallAhead(s', ps, p) || RowIn(s'.calls, p, s'.sweep.calls) {
      AheadIsCandidate(s'.calls, ps, after, p);
    }
  }

  lemma CallsPageStep<M, C>(s: System<M, C>, s': System<M, C>, ps: Params, after: Option<Pos>, limit: nat)
    requires ps.snapshot > 0 && limit > 0 && AnyInv(s, ps) && StageOf(s.sweep.next, ps.snapshot) == InCalls(after)
    requires BoundariesNonblank(s'.calls, ps.since, ps.snapshot)
    requires var page := CallsPage<M, C>([], s'.calls, ps.since, ps.snapshot, after, limit);
             s'.sweep == AfterReading(s.sweep, page)
    ensures AnyInv(s', ps) && PageTreats(s, s', ps)
  {
    hide BoundariesNonblank, Candidates, Listing, Query, TreatsCalls;
    assert s.sweep.messages + [] == s.sweep.messages;
    CallQueryTreats(s, s', ps, after, limit);
  }

  lemma MessagesPageStep<M, C>(s: System<M, C>, s': System<M, C>, ps: Params, after: Option<Pos>, limit: nat)
    requires ps.snapshot > 0 && limit > 0 && AnyInv(s, ps) && StageOf(s.sweep.next, ps.snapshot) == InMessages(after)
    requires BoundariesNonblank(s.messages, ps.since, ps.snapshot)
        && BoundariesNonblank(s'.calls, ps.since, ps.snapshot)
    requires var page := MessagesPage(s.messages, s'.calls, ps.since, ps.snapshot, after, limit);
             s'.sweep == AfterReading(s.sweep, page)
    ensures AnyInv(s', ps) && PageTreats(s, s', ps)
  {
    hide BoundariesNonblank, Candidates, Listing, Query, Advances, AnyInv, TreatsMessages, TreatsCalls;
    var q := Query(s.messages, ps.since, ps.snapshot, after, limit);
    if q.hasMore {
      MoreMessages(s, s', ps, after, limit);
    } else if |q.rows| >= limit {
      MessagesFillPage(s, s', ps, after, limit);
    } else {
      CallsFillPage(s, s', ps, after, limit, limit - |q.rows|);
    }
  }

  /** The message query of a page, whatever comes after it on the page. */
  lemma MessageQueryStep<M, C>(s: System<M, C>, s': System<M, C>, ps: Params, after: Option<Pos>, limit: nat)
    requires limit > 0 && AnyInv(s, ps) && StageOf(s.sweep.next, ps.snapshot) == InMessages(after)
    requires BoundariesNonblank(s.messages, ps.since, ps.snapshot)
    requires var q := Query(s.messages, ps.since, ps.snapshot, after, limit);
             && s'.sweep.messages == s.sweep.messages + q.rows
             && (!q.hasMore ==> !StageOf(s'.sweep.next, ps.snapshot).InMessages?)
             && (q.hasMore ==>
                   |q.rows| == limit && StageOf(s'.sweep.next, ps.snapshot) == InMessages(Some(q.rows[limit - 1].pos)))
    ensures TreatsMessages(s, s', ps) && Advances(s.messages, ps, after, limit, s.sweep.messages)
    ensures Ascending(Before, Positions(s'.sweep.messages))
  {
    hide BoundariesNonblank, Candidates, Listing, Query;
    QueryAdvances(s.messages, ps, after, limit, s.sweep.messages);
    forall p | MessageAhead(s, ps, p) && p in Candidates(s.messages, ps.since, ps.snapshot, None)
      ensures MessageAhead(s', ps, p) || RowIn(s.messages, p, s'.sweep.messages) {
      AheadIsCandidate(s.messages, ps, after, p);
    }
  }

  lemma MoreMessages<M, C>(s: System<M, C>, s': System<M, C>, ps: Params, after: Option<Pos>, limit: nat)
    requires ps.snapshot > 0 && limit > 0 && AnyInv(s, ps) && StageOf(s.sweep.next, ps.snapshot) == InMessages(after)
    requires BoundariesNonblank(s.messages, ps.since, ps.snapshot)
    requires var q := Query(s.messages, ps.since, ps.snapshot, after, limit);
             && q.hasMore
             && s'.sweep.next == Some(Encoded(CursorAt(ps.snapshot, "", q.rows[limit - 1].pos)))
             && s'.sweep.messages == s.sweep.messages + q.rows && s'.sweep.calls == s.sweep.calls + []
    ensures AnyInv(s', ps) && PageTreats(s, s', ps)
  {
    hide BoundariesNonblank, Candidates, Listing, TreatsMessages;
    var q := Query(s.messages, ps.since, ps.snapshot, after, limit);
    QueryAdvances(s.messages, ps, after, limit, s.sweep.messages);
    hide Query;
    CursorResumesIffNonblank(ps.snapshot, "", q.rows[limit - 1].pos);
    MessageQueryStep(s, s', ps, after, limit);
    assert s.sweep.calls + [] == [];
  }

  lemma MessagesFillPage<M, C>(s: System<M, C>, s': System<M, C>, ps: Params, after: Option<Pos>, limit: nat)
    requires ps.snapshot > 0 && limit > 0 && AnyInv(s, ps) && StageOf(s.sweep.next, ps.snapshot) == InMessages(after)
    requires BoundariesNonblank(s.messages, ps.since, ps.snapshot)
        && BoundariesNonblank(s'.calls, ps.since, ps.snapshot)
    requires var q := Query(s.messages, ps.since, ps.snapshot, after, limit);
             var more := Query(s'.calls, ps.since, ps.snapshot, None, 1).rows != [];
             && !q.hasMore
             && s'.sweep.next == (if more then Some(Encoded(ResyncCursor(ps.snapshot, "calls", 0, "", ""))) else None)
             && s'.sweep.messages == s.sweep.messages + q.rows && s'.sweep.calls == s.sweep.calls + []
    ensures AnyInv(s', ps) && PageTreats(s, s', ps)
  {
    hide BoundariesNonblank, Candidates, Listing, Query, TreatsMessages;
    assert IsBlank("");
    MessageQueryStep(s, s', ps, after, limit);
    QueryAdvances(s'.calls, ps, None, 1, []);
    assert s.sweep.calls + [] == [];
    forall p | p in Candidates(s'.calls, ps.since, ps.snapshot, None) ensures CallAhead(s', ps, p) {
      assert RowIn(s'.calls, p, Query(s'.calls, ps.since, ps.snapshot, None, 1).rows) || s'.sweep.next.Some?;
    }
  }

  lemma CallsFillPage<M, C>(s: System<M, C>, s': System<M, C>, ps: Params, after: Option<Pos>, limit: nat, rest: nat)
    requires ps.snapshot > 0 && limit > 0 && rest > 0 && AnyInv(s, ps)
        && StageOf(s.sweep.next, ps.snapshot) == InMessages(after)
    requires BoundariesNonblank(s.messages, ps.since, ps.snapshot)
        && BoundariesNonblank(s'.calls, ps.since, ps.snapshot)
    requires var q := Query(s.messages, ps.since, ps.snapshot, after, limit);
             var page := CallsPage(q.rows, s'.calls, ps.since, ps.snapshot, None, rest);
             && !q.hasMore
             && s'.sweep == AfterReading(s.sweep, page)
    ensures AnyInv(s', ps) && PageTreats(s, s', ps)
  {
    hide BoundariesNonblank, Candidates, Listing, Query, TreatsMessages, TreatsCalls, Advances;
    assert Ascending(Before, Positions(s.sweep.calls));
    CallQueryTreats(s, s', ps, None, rest);
    MessageQueryStep(s, s', ps, after, limit);
  }

  // -------------------------------------------------------- over whole runs

  lemma {:induction false} AnyRunKeepsInv<M, C>(run: seq<System<M, C>>, ps: Params, i: nat)
    requires IsAnyRun(run, ps) && i < |run|
    ensures AnyInv(run[i], ps)
  {
    hide AnyInv, AnyPage, BoundariesNonblank;
    if i == 0 {
      FreshSweepInv(run[0], ps);
    } else {
      AnyRunKeepsInv(run, ps, i - 1);
      RunStep(run, ps, i - 1);
    }
  }

  lemma FreshSweepInv<M, C>(s: System<M, C>, ps: Params)
    requires s.sweep == Sweep(Some(NoCursor), [], [], None)
    ensures AnyInv(s, ps)
  {
  }

  lemma SameSweep<M, C>(s: System<M, C>, s': System<M, C>, ps: Params)
    requires s'.sweep == s.sweep && AnyInv(s, ps)
    ensures AnyInv(s', ps)
    ensures forall p :: MessageAhead(s', ps, p) == MessageAhead(s, ps, p) && CallAhead(s', ps, p) == CallAhead(s, ps, p)
  {
  }

  lemma RunStep<M, C>(run: seq<System<M, C>>, ps: Params, i: nat)
    requires IsAnyRun(run, ps) && i < |run| - 1 && AnyInv(run[i], ps)
    ensures AnyInv(run[i + 1], ps)
    ensures run[i + 1].sweep == run[i].sweep || PageTreats(run[i], run[i + 1], ps)
  {
    hide AnyInv, AnyPage, BoundariesNonblank, PageTreats;
    assert Nonblanks(run[i], ps) && Nonblanks(run[i + 1], ps);
    if run[i + 1].sweep == run[i].sweep {
      SameSweep(run[i], run[i + 1], ps);
    } else {
      PageStep(run[i], run[i + 1], ps);
    }
  }

  /**
   * Whatever writers do, a sweep never delivers a message or a call twice: its rows are strictly ascending throughout.
   */
  lemma AnySweepAscends<M, C>(run: seq<System<M, C>>, ps: Params, i: nat)
    requires IsAnyRun(run, ps) && i < |run|
    ensures Ascending(Before, Positions(run[i].sweep.messages)) && Ascending(Before, Positions(run[i].sweep.calls))
    ensures StageOf(run[i].sweep.next, ps.snapshot) != Lost
  {
    AnyRunKeepsInv(run, ps, i);
  }

  /** The row at this position stays in the window, and the same, from step i on. */
  ghost predicate StaysListed<P>(tables: seq<Table<P>>, ps: Params, i: nat, p: Pos)
    requires i < |tables|
  {
    forall n :: i <= n < |tables| ==>
      p in Candidates(tables[n], ps.since, ps.snapshot, None) && At(tables[i], p) && At(tables[n], p)
          && RowAt(tables[n], p) == RowAt(tables[i], p)
  }

  function MessageTables<M, C>(run: seq<System<M, C>>): (ts: seq<Table<M>>)
    ensures |ts| == |run| && forall i :: 0 <= i < |run| ==> ts[i] == run[i].messages
  {
    seq(|run|, i requires 0 <= i < |run| => run[i].messages)
  }

  function CallTables<M, C>(run: seq<System<M, C>>): (ts: seq<Table<C>>)
    ensures |ts| == |run| && forall i :: 0 <= i < |run| ==> ts[i] == run[i].calls
  {
    seq(|run|, i requires 0 <= i < |run| => run[i].calls)
  }

  lemma {:induction false} MessageFate<M, C>(run: seq<System<M, C>>, ps: Params, i: nat, j: nat, p: Pos)
    requires IsAnyRun(run, ps) && i <= j < |run| && StaysListed(MessageTables(run), ps, i, p)
    requires RowAt(run[i].messages, p) !in run[i].sweep.messages
    ensures MessageAhead(run[i], ps, p)
        ==> MessageAhead(run[j], ps, p) || RowIn(run[i].messages, p, run[j].sweep.messages)
    ensures !MessageAhead(run[i], ps, p)
        ==> !MessageAhead(run[j], ps, p) && !RowIn(run[i].messages, p, run[j].sweep.messages)
    decreases j - i
  {
    hide IsAnyRun, AnyInv, MessageAhead, Candidates, TreatsCalls;
    assert MessageTables(run)[i] == run[i].messages;
    if i < j {
      var k := j - 1;
      MessageFate(run, ps, i, k, p);
      AnyRunKeepsInv(run, ps, k);
      RunStep(run, ps, k);
      SameSweepAhead(run[k], run[k + 1], ps, p);
      assert MessageTables(run)[k] == run[k].messages;
    }
  }

  lemma SameSweepAhead<M, C>(s: System<M, C>, s': System<M, C>, ps: Params, p: Pos)
    ensures s'.sweep == s.sweep ==>
              MessageAhead(s', ps, p) == MessageAhead(s, ps, p) && CallAhead(s', ps, p) == CallAhead(s, ps, p)
  {
  }

  lemma {:induction false} CallFate<M, C>(run: seq<System<M, C>>, ps: Params, i: nat, j: nat, p: Pos)
    requires IsAnyRun(run, ps) && i <= j < |run| && StaysListed(CallTables(run), ps, i, p)
    requires RowAt(run[i].calls, p) !in run[i].sweep.calls
    ensures CallAhead(run[i], ps, p) ==> CallAhead(run[j], ps, p) || RowIn(run[i].calls, p, run[j].sweep.calls)
    ensures !CallAhead(run[i], ps, p) ==> !CallAhead(run[j], ps, p) && !RowIn(run[i].calls, p, run[j].sweep.calls)
    decreases j - i
  {
    hide IsAnyRun, AnyInv, CallAhead, Candidates, TreatsMessages;
    assert CallTables(run)[i] == run[i].calls;
    if i < j {
      var k := j - 1;
      CallFate(run, ps, i, k, p);
      AnyRunKeepsInv(run, ps, k);
      RunStep(run, ps, k);
      SameSweepAhead(run[k], run[k + 1], ps, p);
      assert CallTables(run)[k + 1] == run[k + 1].calls;
    }
  }

  /**
   * With writers of any kind: a message in the window that stays as it is from some moment on, and was not delivered
   * before, is delivered by the end of the sweep exactly when the sweep is then still in its messages and before it.
   */
  lemma MessageDeliveredIff<M, C>(run: seq<System<M, C>>, ps: Params, i: nat, p: Pos)
    requires IsAnyRun(run, ps) && i < |run| && run[|run| - 1].sweep.next == None
    requires StaysListed(MessageTables(run), ps, i, p) && RowAt(run[i].messages, p) !in run[i].sweep.messages
    ensures RowAt(run[i].messages, p) in run[|run| - 1].sweep.messages <==> MessageAhead(run[i], ps, p)
  {
    MessageFate(run, ps, i, |run| - 1, p);
  }

  /** The same for a call: while the sweep is still in its messages, or in its calls and before it. */
  lemma CallDeliveredIff<M, C>(run: seq<System<M, C>>, ps: Params, i: nat, p: Pos)
    requires IsAnyRun(run, ps) && i < |run| && run[|run| - 1].sweep.next == None
    requires StaysListed(CallTables(run), ps, i, p) && RowAt(run[i].calls, p) !in run[i].sweep.calls
    ensures RowAt(run[i].calls, p) in run[|run| - 1].sweep.calls <==> CallAhead(run[i], ps, p)
  {
    CallFate(run, ps, i, |run| - 1, p);
  }

  /** Whatever writers do, the client is told the sweep's snapshot as `completedAt`. */
  lemma {:induction false} AnyCompletedAtIsSnapshot<M, C>(run: seq<System<M, C>>, ps: Params, i: nat)
    requires IsAnyRun(run, ps) && i < |run|
    ensures run[i].sweep.completedAt.Some? ==> run[i].sweep.completedAt == Some(ps.snapshot)
    ensures run[i].sweep.next == None ==> run[i].sweep.completedAt == Some(ps.snapshot)
  {
    if i > 0 {
      hide AnyInv, ResyncPage, BoundariesNonblank;
      var k := i - 1;
      AnyCompletedAtIsSnapshot(run, ps, k);
      AnySweepAscends(run, ps, k);
      assert run[k + 1].sweep == run[k].sweep || AnyPage(run[k], run[k + 1], ps);
      if run[k].sweep.next.Some? { PageNamesSnapshot(run[k].messages, run[i].calls, ps, run[k].sweep.next.value); }
    }
  }

  /**
   * The next sweep matches a row exactly when it is stamped above this sweep's `completedAt`, so no row this one missed
   * late.
   */
  lemma NextSweepMatchesIff<P>(t: Table<P>, k: Key, snapshot: int, next: int)
    requires k in t
    ensures RowAt(t, PosOf(k, t[k])) in Listing(t, Some(snapshot), next, None) <==> snapshot < t[k].updatedAt <= next
  {
    CandidateRows(t, Some(snapshot), next, None, PosOf(k, t[k]));
    ListingProperties(t, Some(snapshot), next, None);
  }

  /**
   * So a message that commits late, stamped within the window, reaches the client, in this sweep or a next one that
   * starts from its `completedAt`, exactly when it lies ahead of the sweep when it commits.
   */
  lemma LateMessageReachesClientIff<M, C>(run: seq<System<M, C>>, ps: Params, i: nat, p: Pos, next: int)
    requires IsAnyRun(run, ps) && i < |run| && run[|run| - 1].sweep.next == None
    requires StaysListed(MessageTables(run), ps, i, p) && RowAt(run[i].messages, p) !in run[i].sweep.messages
    ensures var s := run[|run| - 1];
            (RowAt(run[i].messages, p) in s.sweep.messages
             || RowAt(run[i].messages, p) in Listing(s.messages, s.sweep.completedAt, next, None))
            <==> MessageAhead(run[i], ps, p)
  {
    var s := run[|run| - 1];
    MessageDeliveredIff(run, ps, i, p);
    AnyCompletedAtIsSnapshot(run, ps, |run| - 1);
    assert MessageTables(run)[|run| - 1] == s.messages;
    CandidateRows(s.messages, ps.since, ps.snapshot, None, p);
    NextSweepMatchesIff(s.messages, KeyOf(p), ps.snapshot, next);
  }

  lemma LateCallReachesClientIff<M, C>(run: seq<System<M, C>>, ps: Params, i: nat, p: Pos, next: int)
    requires IsAnyRun(run, ps) && i < |run| && run[|run| - 1].sweep.next == None
    requires StaysListed(CallTables(run), ps, i, p) && RowAt(run[i].calls, p) !in run[i].sweep.calls
    ensures var s := run[|run| - 1];
            (RowAt(run[i].calls, p) in s.sweep.calls
                || RowAt(run[i].calls, p) in Listing(s.calls, s.sweep.completedAt, next, None))
            <==> CallAhead(run[i], ps, p)
  {
    var s := run[|run| - 1];
    CallDeliveredIff(run, ps, i, p);
    AnyCompletedAtIsSnapshot(run, ps, |run| - 1);
    assert CallTables(run)[|run| - 1] == s.calls;
    CandidateRows(s.calls, ps.since, ps.snapshot, None, p);
    NextSweepMatchesIff(s.calls, KeyOf(p), ps.snapshot, next);
  }

  // ------------------------------------------------------------ termination

  /** The positions that newly enter the windows between two states. */
  ghost function Entering<P>(t: Table<P>, t': Table<P>, ps: Params): set<Pos> {
    Candidates(t', ps.since, ps.snapshot, None) - Candidates(t, ps.since, ps.snapshot, None)
  }

  ghost function Arrivals<M, C>(run: seq<System<M, C>>, ps: Params): nat {
    if |run| < 2 then 0
    else
      var s, s' := run[|run| - 2], run[|run| - 1];
      Arrivals(run[..|run| - 1], ps) + |Entering(s.messages, s'.messages, ps)| + |Entering(s.calls, s'.calls, ps)|
  }

  lemma WindowGrowsByArrivals<P>(t: Table<P>, t': Table<P>, ps: Params, after: Option<Pos>)
    ensures |Candidates(t', ps.since, ps.snapshot, after)| <= |Candidates(t, ps.since, ps.snapshot, after)|
        + |Entering(t, t', ps)|
  {
    var old', new', entering := Candidates(t, ps.since, ps.snapshot, after),
        Candidates(t', ps.since, ps.snapshot, after), Entering(t, t', ps);
    forall p | p in new' ensures p in old' + entering {
      CandidateRows(t', ps.since, ps.snapshot, after, p);
      CandidateRows(t', ps.since, ps.snapshot, None, p);
      if p in Candidates(t, ps.since, ps.snapshot, None) { AheadIsCandidate(t, ps, after, p); }
    }
    SubsetIsSmaller(new', old' + entering);
    UnionIsNoLarger(old', entering);
  }

  lemma UnionIsNoLarger<T>(a: set<T>, b: set<T>)
    ensures |a + b| <= |a| + |b|
  {
    assert a + b == a + (b - a);
    SubsetIsSmaller(b - a, b);
  }

  lemma TablesGrowByArrivals<M, C>(s: System<M, C>, s': System<M, C>, ps: Params)
    requires s'.sweep == s.sweep
    ensures Remaining(s', ps)
            <= Remaining(s, ps) + |Entering(s.messages, s'.messages, ps)| + |Entering(s.calls, s'.calls, ps)|
  {
    hide Candidates, Entering;
    match StageOf(s.sweep.next, ps.snapshot)
    case InMessages(after) =>
      WindowGrowsByArrivals(s.messages, s'.messages, ps, after);
      WindowGrowsByArrivals(s.calls, s'.calls, ps, None);
    case InCalls(after) => WindowGrowsByArrivals(s.calls, s'.calls, ps, after);
    case _ =>
  }

  /** A page over the tables its queries see leaves fewer rows ahead. */
  lemma PageShrinksRemaining<M, C>(s: System<M, C>, s': System<M, C>, ps: Params)
    requires ps.snapshot > 0 && AnyInv(s, ps) && AnyPage(s, s', ps) && s'.messages == s.messages && s'.calls == s.calls
    requires Nonblanks(s, ps)
    ensures s'.sweep.next.Some? ==> Remaining(s', ps) < Remaining(s, ps)
  {
    hide BoundariesNonblank, Candidates, Listing;
    var limit := EffectiveLimit(ps.limit);
    match StageOf(s.sweep.next, ps.snapshot)
    case InMessages(after) => MessagesPageShrinks(s, s', ps, after, limit);
    case InCalls(after) => CallsPageShrinks<M, C>([], s.calls, ps, after, limit, s.sweep.calls);
    case Completed => assert false;
  }

  lemma CallsPageShrinks<M, C>(
    ms: seq<Row<M>>, calls: Table<C>, ps: Params, after: Option<Pos>, limit: nat, ds: seq<Row<C>>)
    requires ps.snapshot > 0 && limit > 0 && BoundariesNonblank(calls, ps.since, ps.snapshot)
    requires Ascending(Before, Positions(ds)) && forall d :: d in ds ==> !Beyond(after, d.pos)
    ensures var next := CallsPage(ms, calls, ps.since, ps.snapshot, after, limit).next;
            next.Some? ==>
              && StageOf(next, ps.snapshot).InCalls?
              && |Candidates(calls, ps.since, ps.snapshot, StageOf(next, ps.snapshot).after)|
                 < |Candidates(calls, ps.since, ps.snapshot, after)|
  {
    hide BoundariesNonblank, Candidates, Listing;
    QueryAdvances(calls, ps, after, limit, ds);
    var q := Query(calls, ps.since, ps.snapshot, after, limit);
    if q.hasMore { CursorResumesIffNonblank(ps.snapshot, "calls", q.rows[limit - 1].pos); }
  }

  lemma MessagesPageShrinks<M, C>(s: System<M, C>, s': System<M, C>, ps: Params, after: Option<Pos>, limit: nat)
    requires ps.snapshot > 0 && limit > 0 && AnyInv(s, ps) && StageOf(s.sweep.next, ps.snapshot) == InMessages(after)
    requires Nonblanks(s, ps) && s'.messages == s.messages && s'.calls == s.calls
    requires s'.sweep.next == MessagesPage(s.messages, s.calls, ps.since, ps.snapshot, after, limit).next
    ensures s'.sweep.next.Some? ==> Remaining(s', ps) < Remaining(s, ps)
  {
    hide BoundariesNonblank, Candidates, Listing;
    var q := Query(s.messages, ps.since, ps.snapshot, after, limit);
    if q.hasMore {
      QueryAdvances(s.messages, ps, after, limit, s.sweep.messages);
      CursorResumesIffNonblank(ps.snapshot, "", q.rows[limit - 1].pos);
    } else if |q.rows| >= limit {
      assert IsBlank("");
      ListingProperties(s.messages, ps.since, ps.snapshot, after);
    } else {
      CallsPageShrinks(q.rows, s.calls, ps, None, limit - |q.rows|, []);
    }
  }

  lemma StepBoundsRemaining<M, C>(s: System<M, C>, s': System<M, C>, ps: Params)
    requires ps.snapshot > 0 && AnyInv(s, ps) && Nonblanks(s, ps) && Nonblanks(s', ps)
    requires s'.sweep == s.sweep || AnyPage(s, s', ps)
    ensures var more := |Entering(s.messages, s'.messages, ps)| + |Entering(s.calls, s'.calls, ps)|;
            if s'.sweep == s.sweep then Remaining(s', ps) <= Remaining(s, ps) + more
            else s.sweep.next.Some? && (s'.sweep.next.Some? ==> Remaining(s', ps) < Remaining(s, ps) + more)
  {
    hide BoundariesNonblank, Candidates, ResyncPage, Remaining, AnyInv;
    if s'.sweep == s.sweep {
      TablesGrowByArrivals(s, s', ps);
    } else {
      var queried := s.(calls := s'.calls);
      var fetched := queried.(sweep := s'.sweep);
      NothingEnters(s.messages, ps);
      NothingEnters(s'.calls, ps);
      TablesGrowByArrivals(s, queried, ps);
      SameSweep(s, queried, ps);
      PageShrinksRemaining(queried, fetched, ps);
      TablesGrowByArrivals(fetched, s', ps);
    }
  }

  lemma NothingEnters<P>(t: Table<P>, ps: Params)
    ensures |Entering(t, t, ps)| == 0
  {
    assert Entering(t, t, ps) == {};
  }

  /**
   * The pages of a sweep never outnumber the rows it had in front of it at first and those that arrived late, and one
   * more.
   */
  lemma {:induction false} AnySweepEnds<M, C>(run: seq<System<M, C>>, ps: Params)
    requires IsAnyRun(run, ps)
    ensures run[|run| - 1].sweep.next.Some? ==>
              FetchCount(run) + Remaining(run[|run| - 1], ps) <= Remaining(run[0], ps) + Arrivals(run, ps)
    ensures FetchCount(run) <= Remaining(run[0], ps) + Arrivals(run, ps) + 1
    decreases |run|
  {
    var n := |run|;
    if n > 1 {
      hide IsAnyRun, AnyInv, AnyPage, BoundariesNonblank, Remaining, Entering;
      var front := run[..n - 1];
      LastStep(run, ps);
      AnySweepEnds(front, ps);
      AnyRunKeepsInv(run, ps, n - 2);
      StepBoundsRemaining(run[n - 2], run[n - 1], ps);
    }
  }

  /** A run is a shorter run and one step. */
  lemma LastStep<M, C>(run: seq<System<M, C>>, ps: Params)
    requires IsAnyRun(run, ps) && |run| > 1
    ensures ps.snapshot > 0 && IsAnyRun(run[..|run| - 1], ps)
    ensures var s, s' := run[|run| - 2], run[|run| - 1];
            Nonblanks(s, ps) && Nonblanks(s', ps) && (s'.sweep == s.sweep || AnyPage(s, s', ps))
  {
    hide AnyPage, BoundariesNonblank;
    var n := |run|;
    var front := run[..n - 1];
    assert forall i :: 0 <= i < |front| ==> front[i] == run[i];
    assert run[(n - 2) + 1].sweep == run[n - 2].sweep || AnyPage(run[n - 2], run[(n - 2) + 1], ps);
  }

  // -------------------------------------------------------------- an instance

  /** The state after a page that is read while nothing else happens. */
  ghost function AfterPage<M, C>(s: System<M, C>, ps: Params): System<M, C>
    requires s.sweep.next.Some?
    requires ResyncPage(s.messages, s.calls, ps.since, s.sweep.next.value, ps.limit, ps.snapshot).Ok?
  {
    var page := ResyncPage(s.messages, s.calls, ps.since, s.sweep.next.value, ps.limit, ps.snapshot).value;
    s.(sweep := AfterReading(s.sweep, page))
  }

  const EARLY: Key := Key("a", "1")
  const MIDDLE: Key := Key("b", "2")
  const LATE: Key := Key("c", "3")

  lemma ExampleKeysAreNonblank(t: Table<string>, ps: Params)
    requires t.Keys <= {EARLY, MIDDLE, LATE}
    ensures BoundariesNonblank(t, ps.since, ps.snapshot)
  {
    forall p | p in Candidates(t, ps.since, ps.snapshot, None) ensures Nonblank(p) {
      CandidateRows(t, ps.since, ps.snapshot, None, p);
      assert "a"[0] == 'a' && "b"[0] == 'b' && "c"[0] == 'c' && "1"[0] == '1' && "2"[0] == '2' && "3"[0] == '3';
      assert p.chat[0] in p.chat && p.id[0] in p.id;
    }
  }

  /** With two messages and pages of one, the first page ends behind the earlier of them. */
  lemma FirstPageOfTwo(t: Table<string>, x: string, y: string)
    requires t == map[MIDDLE := Stored(5, 1, x), LATE := Stored(6, 1, y)]
    ensures var q := Query(t, None, 2, None, 1);
            q.hasMore && q.rows == [Row(Pos(5, "b", "2"), x)]
  {
    var all := Listing(t, None, 2, None);
    ListingProperties(t, None, 2, None);
    var p, q := Pos(5, "b", "2"), Pos(6, "c", "3");
    forall r ensures r in Candidates(t, None, 2, None) <==> r in {p, q} {
      CandidateRows(t, None, 2, None, r);
    }
    assert Candidates(t, None, 2, None) == {p, q};
    assert all[0] in all && all[1] in all;
    assert Before(Positions(all)[0], Positions(all)[1]);
  }

  /** Behind it only the later one is left, whatever commits before it. */
  lemma LastPageOfTwo(t: Table<string>, none: Table<string>, x: string, y: string, z: string)
    requires t == map[EARLY := Stored(4, 1, z), MIDDLE := Stored(5, 1, x), LATE := Stored(6, 1, y)] && none == map[]
    ensures MessagesPage(t, none, None, 2, Some(Pos(5, "b", "2")), 1).next == None
  {
    var after := Some(Pos(5, "b", "2"));
    ListingProperties(t, None, 2, after);
    forall r | r in Candidates(t, None, 2, after) ensures r == Pos(6, "c", "3") {
      CandidateRows(t, None, 2, after, r);
    }
    SubsetIsSmaller(Candidates(t, None, 2, after), {Pos(6, "c", "3")});
    ListingProperties(none, None, 2, None);
    assert Candidates(none, None, 2, None) == {};
  }

  /**
   * For instance: a message stamped 1 commits after a sweep with snapshot 2 has passed its place. It is in the window
   * from then on, and neither this sweep delivers it nor does any later one match it.
   */
  lemma LateCommitIsLost(x: string, y: string, z: string) returns (run: seq<System<string, string>>)
    ensures |run| == 4 && IsAnyRun(run, Params(None, 2, 1)) && run[3].sweep.next == None
    ensures run[2].messages == run[1].messages[EARLY := Stored(4, 1, z)] == run[3].messages
    ensures Row(Pos(4, "a", "1"), z) !in run[3].sweep.messages
    ensures forall next :: Row(Pos(4, "a", "1"), z) !in Listing(run[3].messages, run[3].sweep.completedAt, next, None)
  {
    hide Candidates, Listing, BoundariesNonblank, Query;
    var ps := Params(None, 2, 1);
    var t: Table<string> := map[MIDDLE := Stored(5, 1, x), LATE := Stored(6, 1, y)];
    var t': Table<string> := t[EARLY := Stored(4, 1, z)];
    var none: Table<string> := map[];
    ExampleKeysAreNonblank(t, ps);
    ExampleKeysAreNonblank(t', ps);
    ExampleKeysAreNonblank(none, ps);
    var s0 := System(t, none, Sweep(Some(NoCursor), [], [], None));
    FirstPageOfTwo(t, x, y);
    var s1 := AfterPage(s0, ps);
    var s2 := s1.(messages := t');
    CursorResumesIffNonblank(2, "", Pos(5, "b", "2"));
    assert Nonblank(Pos(5, "b", "2")) by { assert "b"[0] in "b" && "2"[0] in "2"; }
    LastPageOfTwo(t', none, x, y, z);
    var s3 := AfterPage(s2, ps);
    run := [s0, s1, s2, s3];
    var p := Pos(4, "a", "1");
    assert !MessageAhead(s2, ps, p);
    forall n | 2 <= n < 4 ensures p in Candidates(MessageTables(run)[n], None, 2, None) {
      CandidateRows(MessageTables(run)[n], None, 2, None, p);
    }
    assert s2.sweep.messages == [] + [Row(Pos(5, "b", "2"), x)];
    MessageDeliveredIff(run, ps, 2, p);
    AnyCompletedAtIsSnapshot(run, ps, 3);
    forall next ensures Row(p, z) !in Listing(t', Some(2), next, None) { NextSweepMatchesIff(t', EARLY, 2, next); }
  }
}
