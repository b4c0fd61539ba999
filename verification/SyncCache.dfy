/** The helper's cache object: the queries and the page operation as the Go methods run them. */
module SyncCache {
  import opened Prelude
  import opened Ordering
  import opened KeysetOrder
  import opened ResyncPaging
  import opened ResyncSweep

  /** `SELECT … WHERE … ORDER BY timestamp, chat, id LIMIT n`, row by row. */
  method SelectRows<P>(
      t: Table<P>, since: Option<int>, snapshot: int, after: Option<Pos>, n: nat) returns (rows: seq<Row<P>>)
    ensures rows == Take(Listing(t, since, snapshot, after), n)
  {
    hide Listing, Before, TotalOrder, SortedListing;
    BeforeIsTotalOrder();
    var matching := Candidates(t, since, snapshot, after);
    ghost var all := SortedListing(Before, matching);
    ghost var listing := Listing(t, since, snapshot, after);
    ListingRows(t, since, snapshot, after);
    rows := [];
    while matching != {} && |rows| < n
      invariant |rows| <= n && |rows| <= |all|
      invariant rows == listing[..|rows|]
      invariant matching <= Candidates(t, since, snapshot, after)
      invariant SortedListing(Before, matching) == all[|rows|..]
      decreases matching
    {
      var p0 := LeastExists(Before, matching);
      var p :| p in matching && IsLeast(Before, p, matching);
      LeastIsFirst(Before, matching, p);
      assert all[|rows|] == p;
      assert KeyOf(p) in t by { CandidateRows(t, since, snapshot, after, p); }
      rows := rows + [RowAt(t, p)];
      matching := matching - {p};
      assert SortedListing(Before, matching) == all[|rows|..];
    }
    if matching == {} {
      NothingToList(Before);
      assert listing[..|rows|] == listing;
    }
  }

  class Cache<M, C> {
    var messages: Table<M>
    var calls: Table<C>

    constructor ()
      ensures messages == map[] && calls == map[]
    {
      messages, calls := map[], map[];
    }

    method QueryMessages(since: Option<int>, cursor: ResyncCursor, limit: int)
      returns (rows: seq<Row<M>>, next: Option<CursorText>, hasMore: bool, ok: bool)
      ensures ok <==> cursor.snapshotUpdatedAt > 0
      ensures ok ==>
        var q := Query(messages, since, cursor.snapshotUpdatedAt, After(cursor), EffectiveLimit(limit));
        && rows == q.rows && hasMore == q.hasMore
        && next == if q.hasMore then Some(Encoded(CursorAt(cursor.snapshotUpdatedAt, "", q.rows[|q.rows| - 1].pos)))
             else None
    {
      if cursor.snapshotUpdatedAt <= 0 { return [], None, false, false; }
      ok := true;
      var n := if limit <= 0 then DEFAULT_RESYNC_LIMIT else limit;
      rows := SelectRows(messages, since, cursor.snapshotUpdatedAt, After(cursor), n + 1);
      hasMore := |rows| > n;
      next := None;
      if hasMore {
        var last := rows[n - 1].pos;
        rows := rows[..n];
        var text := EncodeResyncCursor(CursorAt(cursor.snapshotUpdatedAt, "", last));
        next := Some(text.value);
      }
    }

    method QueryCalls(since: Option<int>, cursor: ResyncCursor, limit: int)
      returns (rows: seq<Row<C>>, next: Option<CursorText>, hasMore: bool, ok: bool)
      ensures ok <==> cursor.snapshotUpdatedAt > 0
      ensures ok && limit > 0 ==>
        var q := Query(calls, since, cursor.snapshotUpdatedAt, if cursor.phase == "calls" then After(cursor)
            else None, limit);
        && rows == q.rows && hasMore == q.hasMore
        && next == if q.hasMore
             then Some(Encoded(CursorAt(cursor.snapshotUpdatedAt, "calls", q.rows[|q.rows| - 1].pos))) else None
      ensures ok && limit <= 0 ==> rows == [] && next == None && !hasMore
    {
      if cursor.snapshotUpdatedAt <= 0 { return [], None, false, false; }
      if limit <= 0 { return [], None, false, true; }
      ok := true;
      var after := if cursor.phase == "calls" then After(cursor) else None;
      rows := SelectRows(calls, since, cursor.snapshotUpdatedAt, after, limit + 1);
      hasMore := |rows| > limit;
      next := None;
      if hasMore {
        var last := rows[limit - 1].pos;
        rows := rows[..limit];
        var text := EncodeResyncCursor(CursorAt(cursor.snapshotUpdatedAt, "calls", last));
        next := Some(text.value);
      }
    }

    /** The "messages" case of a page: call rows fill what the messages leave of the limit. */
    method PageFromMessages(since: Option<int>, cursor: ResyncCursor, limit: nat) returns (page: Page<M, C>, ok: bool)
      requires limit > 0 && cursor.phase == "messages"
      ensures ok <==> cursor.snapshotUpdatedAt > 0
      ensures ok ==> page == MessagesPage(messages, calls, since, cursor.snapshotUpdatedAt, After(cursor), limit)
    {
      hide Listing, Candidates, After;
      var rows, next, hasMore, valid := QueryMessages(since, cursor, limit);
      ok := valid;
      page := Page(rows, [], next, hasMore, cursor.snapshotUpdatedAt);
      if !ok || hasMore { return; }
      var remaining := limit - |rows|;
      if remaining <= 0 {
        var probe, _, _, _ := QueryCalls(since, cursor, 1);
        if |probe| > 0 {
          var handover := EncodeResyncCursor(ResyncCursor(cursor.snapshotUpdatedAt, "calls", 0, "", ""));
          page := page.(next := Some(handover.value), hasMore := true);
        }
        return;
      }
      var callRows, callNext, callsHasMore, _ := QueryCalls(since, cursor, remaining);
      page := page.(calls := callRows, next := callNext, hasMore := callsHasMore);
    }

    /**
     * One page, on tables nobody changes meanwhile; `now` is the clock reading that becomes the snapshot of a first
     * page.
     */
    method GetResyncPage(
        since: Option<int>, text: CursorText, limit: int, now: int) returns (r: Result<Page<M, C>, string>)
      ensures r == ResyncPage(messages, calls, since, text, limit, now)
    {
      hide Listing, Candidates, IsBlank;
      var parsed := ParseResyncCursor(text);
      if parsed.Err? { return Err(parsed.error); }
      var lim := if limit <= 0 then DEFAULT_RESYNC_LIMIT else limit;
      var cursor := if parsed.value.Some? then parsed.value.value else ResyncCursor(now, "messages", 0, "", "");
      if cursor.phase == "" { cursor := cursor.(phase := "messages"); }
      if cursor.phase == "messages" {
        var page, ok := PageFromMessages(since, cursor, lim);
        if !ok { return Err("invalid resync cursor"); }
        return Ok(page);
      } else if cursor.phase == "calls" {
        var rows, next, hasMore, ok := QueryCalls(since, cursor, lim);
        if !ok { return Err("invalid resync cursor"); }
        return Ok(Page([], rows, next, hasMore, cursor.snapshotUpdatedAt));
      }
      return Err(if cursor.snapshotUpdatedAt <= 0 then "invalid resync cursor" else "invalid resync cursor phase");
    }

    /**
     * Following `next` until a page says there is no more: it ends, the pages add up to the two unlimited queries, and
     * the last one's `completedAt` is the snapshot they were taken at.
     */
    method Drain(since: Option<int>, limit: int, now: int)
      returns (ms: seq<Row<M>>, cs: seq<Row<C>>, completedAt: int)
      requires now > 0 && BoundariesNonblank(messages, since, now) && BoundariesNonblank(calls, since, now)
      ensures ms == Listing(messages, since, now, None)
      ensures cs == Listing(calls, since, now, None)
      ensures completedAt == now
    {
      ghost var ps := Params(since, now, limit);
      var text := Some(NoCursor);
      ms, cs, completedAt := [], [], 0;
      ghost var s0 := System(messages, calls, Sweep(text, [], [], None));
      ghost var s := s0;
      StartsInv(s0, ps);
      while text.Some?
        invariant s.messages == messages && s.calls == calls
        invariant s.sweep.next == text && s.sweep.messages == ms && s.sweep.calls == cs
        invariant SweepInv(s0, s, ps)
        invariant text.None? ==> completedAt == now
        decreases text.Some?, Remaining(s, ps)
      {
        var page := GetResyncPage(since, text.value, limit, now);
        InvIsNotLost(s0, s, ps);
        PageNamesSnapshot(messages, calls, ps, text.value);
        ms, cs, text := ms + page.value.messages, cs + page.value.calls, page.value.next;
        completedAt := page.value.completedAt;
        ghost var s' := System(messages, calls, AfterReading(s.sweep, page.value));
        assert FetchPage(s, s', ps);
        FetchKeepsInv(s0, s, s', ps);
        s := s';
      }
      StaticDelivery(messages, ps, ms);
      StaticDelivery(calls, ps, cs);
    }
  }

  /** On an unchanged table a finished sweep delivered the unlimited listing itself. */
  lemma StaticDelivery<P>(t: Table<P>, ps: Params, ds: seq<Row<P>>)
    requires Finished(t, t, ps.since, ps.snapshot, ds)
    ensures ds == Listing(t, ps.since, ps.snapshot, None)
  {
    BeforeIsTotalOrder();
    var all := Listing(t, ps.since, ps.snapshot, None);
    FinishedDelivers(t, t, ps, ds);
    ListingProperties(t, ps.since, ps.snapshot, None);
    forall p ensures p in Elems(Positions(ds)) <==> p in Elems(Positions(all)) {
      if p in Elems(Positions(ds)) {
        var i :| 0 <= i < |ds| && ds[i].pos == p;
        assert ds[i] in all;
        var j :| 0 <= j < |all| && all[j] == ds[i];
        assert Positions(all)[j] == p;
      }
      if p in Elems(Positions(all)) {
        var i :| 0 <= i < |all| && all[i].pos == p;
        assert all[i] in all;
        CandidateRows(t, ps.since, ps.snapshot, None, p);
        var j :| 0 <= j < |ds| && ds[j] == all[i];
        assert Positions(ds)[j] == p;
      }
    }
    AscendingIsUnique(Before, Positions(ds), Positions(all));
    forall i | 0 <= i < |ds| ensures ds[i] == all[i] {
      assert Positions(ds)[i] == Positions(all)[i];
      assert ds[i] in ds && all[i] in all;
    }
  }
}
