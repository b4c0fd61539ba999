/**
 * Which tables a sweep can get through: a cursor whose chat or id is blank does not resume behind its row,
 * so a blank key in front of another row makes small pages repeat for ever or fail.
 */
module ResyncBlankKeys {
  import opened Prelude
  import opened Ordering
  import opened KeysetOrder
  import opened ResyncPaging
  import opened ResyncSweep

  datatype Progress = Running(text: CursorText) | Ended | Failed

  /** Where a client stands after `n` pages of a sweep over unchanging tables. */
  ghost function AfterPages<M, C>(messages: Table<M>, calls: Table<C>, ps: Params, n: nat): Progress {
    if n == 0 then Running(NoCursor)
    else PageFrom(messages, calls, ps, AfterPages(messages, calls, ps, n - 1))
  }

  ghost function PageFrom<M, C>(messages: Table<M>, calls: Table<C>, ps: Params, at: Progress): Progress {
    if !at.Running? then at else
    var r := ResyncPage(messages, calls, ps.since, at.text, ps.limit, ps.snapshot);
    if r.Err? then Failed else if r.value.next.Some? then Running(r.value.next.value) else Ended
  }

  ghost predicate Completes<M, C>(messages: Table<M>, calls: Table<C>, ps: Params) {
    exists n: nat :: AfterPages(messages, calls, ps, n).Ended?
  }

  /** Behind the k-th row of a listing lies exactly the rest of the listing. */
  lemma ListingSuffix<P>(t: Table<P>, since: Option<int>, snapshot: int, k: nat)
    requires k < |Listing(t, since, snapshot, None)|
    ensures Listing(t, since, snapshot, Some(Listing(t, since, snapshot, None)[k].pos))
        == Listing(t, since, snapshot, None)[k + 1..]
  {
    BeforeIsTotalOrder();
    var whole := Candidates(t, since, snapshot, None);
    ListingRows(t, since, snapshot, None);
    var p := SortedListing(Before, whole)[k];
    forall x ensures x in Candidates(t, since, snapshot, Some(p)) <==> x in whole && Before(p, x) {
      CandidateRows(t, since, snapshot, None, x);
      CandidateRows(t, since, snapshot, Some(p), x);
    }
    ListingAbove(Before, whole, Candidates(t, since, snapshot, Some(p)), k);
    ListingRows(t, since, snapshot, Some(p));
  }

  lemma ListedPositions<P>(t: Table<P>, since: Option<int>, snapshot: int, after: Option<Pos>, p: Pos)
    ensures p in Positions(Listing(t, since, snapshot, after)) <==> p in Candidates(t, since, snapshot, after)
  {
    var rows := Listing(t, since, snapshot, after);
    ListingProperties(t, since, snapshot, after);
    if p in Positions(rows) {
      var i :| 0 <= i < |rows| && Positions(rows)[i] == p;
      assert rows[i] in rows;
    }
    if p in Candidates(t, since, snapshot, after) {
      var i :| 0 <= i < |rows| && rows[i] == RowAt(t, p);
      assert Positions(rows)[i] == p;
    }
  }

  /** The index of the first row with a blank key half that another row follows. */
  ghost predicate FirstBlank<P>(rows: seq<Row<P>>, i: nat) {
    i < |rows| - 1 && !Nonblank(rows[i].pos) && forall k :: 0 <= k < i ==> Nonblank(rows[k].pos)
  }

  lemma RowsInOrder<P>(t: Table<P>, since: Option<int>, snapshot: int, p: Pos, q: Pos) returns (a: nat, b: nat)
    requires p in Candidates(t, since, snapshot, None) && q in Candidates(t, since, snapshot, None) && Before(p, q)
    ensures var rows := Listing(t, since, snapshot, None);
            a < b < |rows| && rows[a].pos == p && rows[b].pos == q
  {
    hide Listing, Candidates;
    BeforeIsTotalOrder();
    var ps := Positions(Listing(t, since, snapshot, None));
    ListingProperties(t, since, snapshot, None);
    ListedPositions(t, since, snapshot, None, p);
    ListedPositions(t, since, snapshot, None, q);
    a :| 0 <= a < |ps| && ps[a] == p;
    b :| 0 <= b < |ps| && ps[b] == q;
  }

  lemma BoundaryBlankHasFirst<P>(t: Table<P>, since: Option<int>, snapshot: int) returns (i: nat)
    requires !BoundariesNonblank(t, since, snapshot)
    ensures FirstBlank(Listing(t, since, snapshot, None), i)
  {
    hide Listing, Candidates, Nonblank;
    var rows := Listing(t, since, snapshot, None);
    var p, q :| p in Candidates(t, since, snapshot, None) && q in Candidates(t, since, snapshot, None) && Before(p, q)
        && !Nonblank(p);
    var a, b := RowsInOrder(t, since, snapshot, p, q);
    i := 0;
    while Nonblank(rows[i].pos)
      invariant i <= a && forall k :: 0 <= k < i ==> Nonblank(rows[k].pos)
      decreases a - i
    {
      i := i + 1;
    }
  }

  /** With one row per page, the places a sweep visits while it is stuck before row i + 1 of a table. */
  ghost predicate StuckAt<P>(rows: seq<Row<P>>, i: nat, ps: Params, phase: string, at: Progress)
    requires i < |rows|
  {
    exists k: nat :: k <= i && at == Running(Encoded(CursorAt(ps.snapshot, phase, rows[k].pos)))
  }

  ghost predicate Looping<M>(messages: Table<M>, i: nat, ps: Params, at: Progress)
    requires FirstBlank(Listing(messages, ps.since, ps.snapshot, None), i)
  {
    at == Running(NoCursor) || at == Failed || StuckAt(Listing(messages, ps.since, ps.snapshot, None), i, ps, "", at)
  }

  /** One page of one row, from behind a position of the listing or from its start. */
  lemma OneRowQuery<P>(t: Table<P>, ps: Params, after: Option<Pos>, k: nat)
    requires var rows := Listing(t, ps.since, ps.snapshot, None);
             k < |rows| - 1 && if k == 0 then after == None else after == Some(rows[k - 1].pos)
    ensures Query(t, ps.since, ps.snapshot, after, 1)
            == QueryResult([Listing(t, ps.since, ps.snapshot, None)[k]], true)
  {
    var rows := Listing(t, ps.since, ps.snapshot, None);
    if k > 0 { ListingSuffix(t, ps.since, ps.snapshot, k - 1); }
    assert rows[k..][..1] == [rows[k]];
  }

  /** The row a stuck cursor leads to next, or no readable cursor at all. */
  lemma StuckCursor<P>(rows: seq<Row<P>>, i: nat, ps: Params, phase: string, k: nat)
    requires FirstBlank(rows, i) && k <= i && ps.snapshot > 0
    ensures var c := CursorAt(ps.snapshot, phase, rows[k].pos);
            if k < i then ParseResyncCursor(Encoded(c)) == Ok(Some(c)) && After(c) == Some(rows[k].pos)
            else
              ParseResyncCursor(Encoded(c)).Err? || (ParseResyncCursor(Encoded(c)) == Ok(Some(c)) && After(c) == None)
  {
    CursorResumesIffNonblank(ps.snapshot, phase, rows[k].pos);
  }

  lemma FreshCursorHasNoPosition(snapshot: int)
    ensures After(ResyncCursor(snapshot, "messages", 0, "", "")) == None
    ensures After(ResyncCursor(snapshot, "calls", 0, "", "")) == None
  {
    assert IsBlank("");
  }

  lemma MessagePageLoops<M, C>(messages: Table<M>, calls: Table<C>, i: nat, ps: Params, at: Progress)
    requires ps.snapshot > 0 && ps.limit == 1
    requires FirstBlank(Listing(messages, ps.since, ps.snapshot, None), i)
    requires Looping(messages, i, ps, at)
    ensures Looping(messages, i, ps, PageFrom(messages, calls, ps, at))
  {
    hide Listing, After, CallsPage;
    var rows := Listing(messages, ps.since, ps.snapshot, None);
    var next := 0;
    if at == Running(NoCursor) {
      FreshCursorHasNoPosition(ps.snapshot);
      OneRowQuery(messages, ps, None, 0);
      assert StuckAt(rows, i, ps, "", Running(Encoded(CursorAt(ps.snapshot, "", rows[0].pos))));
    } else if at != Failed {
      var k: nat :| k <= i && at == Running(Encoded(CursorAt(ps.snapshot, "", rows[k].pos)));
      StuckCursor(rows, i, ps, "", k);
      next := if k < i then k + 1 else 0;
      OneRowQuery(messages, ps, if k < i then Some(rows[k].pos) else None, next);
      assert StuckAt(rows, i, ps, "", Running(Encoded(CursorAt(ps.snapshot, "", rows[next].pos))));
    }
  }

  /** Where a one-row-per-page sweep can be while a blank call key lies ahead of it. */
  ghost predicate CallLooping<C>(calls: Table<C>, i: nat, ps: Params, at: Progress)
    requires FirstBlank(Listing(calls, ps.since, ps.snapshot, None), i)
  {
    || at == Failed
    || at == Running(NoCursor)
    || (at.Running? && at.text.Encoded? && at.text.cursor.phase == ""
         && at.text.cursor.snapshotUpdatedAt == ps.snapshot)
    || at == Running(Encoded(ResyncCursor(ps.snapshot, "calls", 0, "", "")))
    || StuckAt(Listing(calls, ps.since, ps.snapshot, None), i, ps, "calls", at)
  }

  lemma MessagesPageReachesCalls<M, C>(messages: Table<M>, calls: Table<C>, i: nat, ps: Params, after: Option<Pos>)
    requires FirstBlank(Listing(calls, ps.since, ps.snapshot, None), i)
    ensures var page := MessagesPage(messages, calls, ps.since, ps.snapshot, after, 1);
            page.next.Some? && CallLooping(calls, i, ps, Running(page.next.value))
  {
    hide Listing;
    OneRowQuery(calls, ps, None, 0);
    var rows := Listing(calls, ps.since, ps.snapshot, None);
    assert StuckAt(rows, i, ps, "calls", Running(Encoded(CursorAt(ps.snapshot, "calls", rows[0].pos))));
  }

  lemma CallPageLoops<M, C>(messages: Table<M>, calls: Table<C>, i: nat, ps: Params, at: Progress)
    requires ps.snapshot > 0 && ps.limit == 1
    requires FirstBlank(Listing(calls, ps.since, ps.snapshot, None), i)
    requires CallLooping(calls, i, ps, at)
    ensures CallLooping(calls, i, ps, PageFrom(messages, calls, ps, at))
  {
    hide Listing, After, MessagesPage;
    var rows := Listing(calls, ps.since, ps.snapshot, None);
    FreshCursorHasNoPosition(ps.snapshot);
    if at == Failed {
    } else if at == Running(NoCursor) {
      MessagesPageReachesCalls(messages, calls, i, ps, None);
    } else if at.text.cursor.phase == "" {
      MessagesPageReachesCalls(messages, calls, i, ps, After(at.text.cursor));
    } else {
      var handover := at == Running(Encoded(ResyncCursor(ps.snapshot, "calls", 0, "", "")));
      var k: nat := if handover then 0 else
        var j: nat :| j <= i && at == Running(Encoded(CursorAt(ps.snapshot, "calls", rows[j].pos))); j;
      StuckCursor(rows, i, ps, "calls", k);
      var next := if !handover && k < i then k + 1 else 0;
      OneRowQuery(calls, ps, if !handover && k < i then Some(rows[k].pos) else None, next);
      assert StuckAt(rows, i, ps, "calls", Running(Encoded(CursorAt(ps.snapshot, "calls", rows[next].pos))));
    }
  }

  lemma {:induction false} BlankBoundaryNeverCompletes<M, C>(messages: Table<M>, calls: Table<C>, ps: Params, n: nat)
    requires ps.snapshot > 0 && ps.limit == 1
    requires !BoundariesNonblank(messages, ps.since, ps.snapshot) || !BoundariesNonblank(calls, ps.since, ps.snapshot)
    ensures !AfterPages(messages, calls, ps, n).Ended?
  {
    hide Listing, PageFrom, FirstBlank;
    if !BoundariesNonblank(messages, ps.since, ps.snapshot) {
      var i := BoundaryBlankHasFirst(messages, ps.since, ps.snapshot);
      var m := 0;
      while m < n
        invariant m <= n && Looping(messages, i, ps, AfterPages(messages, calls, ps, m))
      {
        MessagePageLoops(messages, calls, i, ps, AfterPages(messages, calls, ps, m));
        m := m + 1;
      }
    } else {
      var i := BoundaryBlankHasFirst(calls, ps.since, ps.snapshot);
      var m := 0;
      while m < n
        invariant m <= n && CallLooping(calls, i, ps, AfterPages(messages, calls, ps, m))
      {
        CallPageLoops(messages, calls, i, ps, AfterPages(messages, calls, ps, m));
        m := m + 1;
      }
    }
  }

  lemma {:induction false} StaticProgress<M, C>(
      messages: Table<M>, calls: Table<C>, ps: Params, n: nat) returns (s: System<M, C>)
    requires var s0 := System(messages, calls, Sweep(Some(NoCursor), [], [], None));
             Starts(s0, ps)
    ensures var s0 := System(messages, calls, Sweep(Some(NoCursor), [], [], None));
            var at := AfterPages(messages, calls, ps, n);
            at.Ended? ||
              (&& at.Running? && s.messages == messages && s.calls == calls && s.sweep.next == Some(at.text)
               && SweepInv(s0, s, ps) && Remaining(s, ps) + n <= Remaining(s0, ps))
  {
    hide SweepInv, Remaining, ResyncPage, Starts;
    var s0 := System(messages, calls, Sweep(Some(NoCursor), [], [], None));
    if n == 0 {
      s := s0;
      StartsInv(s0, ps);
    } else {
      s := StaticProgress(messages, calls, ps, n - 1);
      if !AfterPages(messages, calls, ps, n - 1).Ended? {
        SweepPageIsOk(s0, s, ps);
        var page := ResyncPage(messages, calls, ps.since, s.sweep.next.value, ps.limit, ps.snapshot).value;
        var s' := s.(sweep := AfterReading(s.sweep, page));
        assert FetchPage(s, s', ps);
        FetchKeepsInv(s0, s, s', ps);
        s := s';
      }
    }
  }

  /**
   * Sweeps over unchanging tables complete at every positive page size exactly when no row with a blank chat or id
   * is followed by another row of its table's window.
   */
  lemma SweepsCompleteIffBoundariesNonblank<M, C>(
      messages: Table<M>, calls: Table<C>, since: Option<int>, snapshot: int)
    requires snapshot > 0
    ensures (forall limit: int :: limit > 0 ==> Completes(messages, calls, Params(since, snapshot, limit)))
            <==> BoundariesNonblank(messages, since, snapshot) && BoundariesNonblank(calls, since, snapshot)
  {
    hide AfterPages, BoundariesNonblank;
    if BoundariesNonblank(messages, since, snapshot) && BoundariesNonblank(calls, since, snapshot) {
      forall limit: int | limit > 0 ensures Completes(messages, calls, Params(since, snapshot, limit)) {
        var ps := Params(since, snapshot, limit);
        var n := Remaining(System(messages, calls, Sweep(Some(NoCursor), [], [], None)), ps) + 1;
        var s := StaticProgress(messages, calls, ps, n);
        assert AfterPages(messages, calls, ps, n).Ended?;
      }
    } else {
      var ps := Params(since, snapshot, 1);
      forall n: nat ensures !AfterPages(messages, calls, ps, n).Ended? {
        BlankBoundaryNeverCompletes(messages, calls, ps, n);
      }
      assert !Completes(messages, calls, ps);
    }
  }

  /** For instance: a message with a blank id before another one, read one per page, is served for ever. */
  lemma BlankIdExample(since: int, snapshot: int, n: nat)
    requires 0 < snapshot && since < 1 <= snapshot
    ensures var t: Table<string> := map[Key("a", " ") := Stored(5, 1, "x"), Key("b", "2") := Stored(6, 1, "y")];
            var none: Table<string> := map[];
            !AfterPages(t, none, Params(Some(since), snapshot, 1), n).Ended?
  {
    var t: Table<string> := map[Key("a", " ") := Stored(5, 1, "x"), Key("b", "2") := Stored(6, 1, "y")];
    var none: Table<string> := map[];
    var p, q := Pos(5, "a", " "), Pos(6, "b", "2");
    CandidateRows(t, Some(since), snapshot, None, p);
    CandidateRows(t, Some(since), snapshot, None, q);
    assert Before(p, q) && IsBlank(" ") && !Nonblank(p);
    BlankBoundaryNeverCompletes(t, none, Params(Some(since), snapshot, 1), n);
  }
}
