/**
 * The WhatsApp cache's resync pages: two keyset-paginated queries (messages, then calls)
 * over the rows whose `updated_at` lies in a frozen window.
 */
module ResyncPaging {
  import opened Prelude
  import opened Ordering
  import opened KeysetOrder

  const DEFAULT_RESYNC_LIMIT := 1000

  datatype Key = Key(chat: string, id: string)

  datatype Stored<P> = Stored(timestamp: int, updatedAt: int, payload: P)

  type Table<P> = map<Key, Stored<P>>

  /** A row as a page delivers it. */
  datatype Row<P> = Row(pos: Pos, payload: P)

  function PosOf<P>(k: Key, r: Stored<P>): Pos {
    Pos(r.timestamp, k.chat, k.id)
  }

  function KeyOf(p: Pos): Key {
    Key(p.chat, p.id)
  }

  predicate InWindow<P>(r: Stored<P>, since: Option<int>, snapshot: int) {
    r.updatedAt <= snapshot && (since.Some? ==> r.updatedAt > since.value)
  }

  predicate Beyond(after: Option<Pos>, p: Pos) {
    after.Some? ==> Before(after.value, p)
  }

  /** The positions a query's WHERE clause admits. */
  function Candidates<P>(t: Table<P>, since: Option<int>, snapshot: int, after: Option<Pos>): set<Pos> {
    set k | k in t && InWindow(t[k], since, snapshot) && Beyond(after, PosOf(k, t[k])) :: PosOf(k, t[k])
  }

  predicate At<P>(t: Table<P>, p: Pos) {
    KeyOf(p) in t && t[KeyOf(p)].timestamp == p.timestamp
  }

  lemma CandidateRows<P>(t: Table<P>, since: Option<int>, snapshot: int, after: Option<Pos>, p: Pos)
    ensures p in Candidates(t, since, snapshot, after)
            <==> At(t, p) && InWindow(t[KeyOf(p)], since, snapshot) && Beyond(after, p)
  {
    if At(t, p) {
      assert PosOf(KeyOf(p), t[KeyOf(p)]) == p;
    }
  }

  function RowAt<P>(t: Table<P>, p: Pos): Row<P>
    requires KeyOf(p) in t
  {
    Row(p, t[KeyOf(p)].payload)
  }

  function RowsAt<P>(t: Table<P>, ps: seq<Pos>): (rows: seq<Row<P>>)
    requires forall p :: p in ps ==> KeyOf(p) in t
    ensures |rows| == |ps| && forall i :: 0 <= i < |ps| ==> rows[i] == RowAt(t, ps[i])
  {
    seq(|ps|, i requires 0 <= i < |ps| => RowAt(t, ps[i]))
  }

  function Positions<P>(rows: seq<Row<P>>): (ps: seq<Pos>)
    ensures |ps| == |rows| && forall i :: 0 <= i < |rows| ==> ps[i] == rows[i].pos
  {
    seq(|rows|, i requires 0 <= i < |rows| => rows[i].pos)
  }

  /** Everything an unlimited query returns, in order: what a whole sweep must add up to. */
  ghost function Listing<P>(t: Table<P>, since: Option<int>, snapshot: int, after: Option<Pos>): (rows: seq<Row<P>>)
  {
    BeforeIsTotalOrder();
    var ps := SortedListing(Before, Candidates(t, since, snapshot, after));
    ListingIsAscending(Before, Candidates(t, since, snapshot, after));
    assert forall p :: p in ps ==> p in Elems(ps);
    RowsAt(t, ps)
  }

  lemma ListingProperties<P>(t: Table<P>, since: Option<int>, snapshot: int, after: Option<Pos>)
    ensures Ascending(Before, Positions(Listing(t, since, snapshot, after)))
    ensures |Listing(t, since, snapshot, after)| == |Candidates(t, since, snapshot, after)|
    ensures forall p :: p in Candidates(t, since, snapshot, after)
                        <==> KeyOf(p) in t && RowAt(t, p) in Listing(t, since, snapshot, after)
    ensures forall r :: r in Listing(t, since, snapshot, after)
                        ==> r.pos in Candidates(t, since, snapshot, after) && r == RowAt(t, r.pos)
  {
    BeforeIsTotalOrder();
    var c := Candidates(t, since, snapshot, after);
    var ps := SortedListing(Before, c);
    ListingIsAscending(Before, c);
    var rows := Listing(t, since, snapshot, after);
    assert Positions(rows) == ps;
    forall p | p in c ensures KeyOf(p) in t && RowAt(t, p) in rows {
      assert p in Elems(ps);
      var i :| 0 <= i < |ps| && ps[i] == p;
      assert rows[i] == RowAt(t, p);
    }
    forall r | r in rows ensures r.pos in c && r == RowAt(t, r.pos) {
      var i :| 0 <= i < |rows| && rows[i] == r;
      assert ps[i] in Elems(ps);
    }
  }

  lemma ListingRows<P>(t: Table<P>, since: Option<int>, snapshot: int, after: Option<Pos>)
    requires TotalOrder(Before)
    ensures var ps := SortedListing(Before, Candidates(t, since, snapshot, after));
            var rows := Listing(t, since, snapshot, after);
            && |rows| == |ps|
            && forall i :: 0 <= i < |ps| ==> KeyOf(ps[i]) in t && rows[i] == RowAt(t, ps[i])
  {
    var c := Candidates(t, since, snapshot, after);
    var ps := SortedListing(Before, c);
    ListingIsAscending(Before, c);
    forall i | 0 <= i < |ps| ensures KeyOf(ps[i]) in t {
      assert ps[i] in Elems(ps);
    }
  }

  // ---------------------------------------------------------------- cursors

  datatype ResyncCursor = ResyncCursor(snapshotUpdatedAt: int, phase: string, timestamp: int, chatJID: string,
      messageID: string)

  /** Cursor text: absent or blank, undecodable, or the base64url JSON of a cursor record. */
  datatype CursorText = NoCursor | Unreadable | Encoded(cursor: ResyncCursor)

  /** The code points Go's `strings.TrimSpace` removes. */
  predicate IsGoSpace(c: char) {
    var u := c as int;
    || 0x09 <= u <= 0x0d || u == 0x20 || u == 0x85 || u == 0xa0 || u == 0x1680 || 0x2000 <= u <= 0x200a
    || u == 0x2028 || u == 0x2029 || u == 0x202f || u == 0x205f || u == 0x3000
  }

  predicate IsBlank(s: string) {
    forall c | c in s :: IsGoSpace(c)
  }

  predicate Nonblank(p: Pos) {
    !IsBlank(p.chat) && !IsBlank(p.id)
  }

  predicate HasPosition(c: ResyncCursor) {
    !IsBlank(c.chatJID) && !IsBlank(c.messageID)
  }

  function After(c: ResyncCursor): Option<Pos> {
    if HasPosition(c) then Some(Pos(c.timestamp, c.chatJID, c.messageID)) else None
  }

  function ParseResyncCursor(text: CursorText): Result<Option<ResyncCursor>, string> {
    match text
    case NoCursor => Ok(None)
    case Unreadable => Err("invalid resync cursor")
    case Encoded(c) =>
      if c.snapshotUpdatedAt <= 0 || (c.chatJID == "") != (c.messageID == "") then Err("invalid resync cursor")
      else Ok(Some(c))
  }

  function EncodeResyncCursor(c: ResyncCursor): Result<CursorText, string> {
    if c.snapshotUpdatedAt <= 0 then Err("invalid resync cursor") else Ok(Encoded(c))
  }

  function CursorAt(snapshot: int, phase: string, p: Pos): ResyncCursor {
    ResyncCursor(snapshot, phase, p.timestamp, p.chat, p.id)
  }

  /** A cursor issued at a row resumes just behind that row exactly when neither half of the row's key is blank. */
  lemma CursorResumesIffNonblank(snapshot: int, phase: string, p: Pos)
    requires snapshot > 0
    ensures Nonblank(p) <==>
            var text := EncodeResyncCursor(CursorAt(snapshot, phase, p));
            var parsed := ParseResyncCursor(text.value);
            parsed.Ok? && parsed.value.Some? && After(parsed.value.value) == Some(p)
  {
    assert p.chat == "" ==> IsBlank(p.chat);
  }

  /** Encoding is refused exactly without a positive snapshot, and reading inverts it but for half a key. */
  lemma CursorRoundTrip(c: ResyncCursor)
    ensures EncodeResyncCursor(c).Err? <==> c.snapshotUpdatedAt <= 0
    ensures EncodeResyncCursor(c).Ok? ==>
              var parsed := ParseResyncCursor(EncodeResyncCursor(c).value);
              if c.chatJID == "" <==> c.messageID == "" then parsed == Ok(Some(c)) else parsed.Err?
  {
  }

  // ------------------------------------------------------------------ pages

  datatype QueryResult<P> = QueryResult(rows: seq<Row<P>>, hasMore: bool)

  ghost function Query<P>(
      t: Table<P>, since: Option<int>, snapshot: int, after: Option<Pos>, limit: nat): QueryResult<P> {
    var all := Listing(t, since, snapshot, after);
    QueryResult(Take(all, limit), |all| > limit)
  }

  datatype Page<M, C> = Page(messages: seq<Row<M>>, calls: seq<Row<C>>, next: Option<CursorText>, hasMore: bool,
      completedAt: int)

  /** The page that starts with the message query; `calls` is the call table at the time of the second query. */
  ghost function MessagesPage<M, C>(
    messages: Table<M>, calls: Table<C>, since: Option<int>, snapshot: int, after: Option<Pos>, limit: nat): Page<M, C>
    requires limit > 0
  {
    var q := Query(messages, since, snapshot, after, limit);
    if q.hasMore then
      Page(q.rows, [], Some(Encoded(CursorAt(snapshot, "", q.rows[limit - 1].pos))), true, snapshot)
    else if |q.rows| >= limit then
      if Query(calls, since, snapshot, None, 1).rows != [] then
        Page(q.rows, [], Some(Encoded(ResyncCursor(snapshot, "calls", 0, "", ""))), true, snapshot)
      else
        Page(q.rows, [], None, false, snapshot)
    else
      CallsPage(q.rows, calls, since, snapshot, None, limit - |q.rows|)
  }

  ghost function CallsPage<M, C>(
    messages: seq<Row<M>>, calls: Table<C>, since: Option<int>, snapshot: int, after: Option<Pos>, limit: nat)
    : Page<M, C>
    requires limit > 0
  {
    var q := Query(calls, since, snapshot, after, limit);
    if q.hasMore then
      Page(messages, q.rows, Some(Encoded(CursorAt(snapshot, "calls", q.rows[limit - 1].pos))), true, snapshot)
    else
      Page(messages, q.rows, None, false, snapshot)
  }

  ghost function ResyncPage<M, C>(
    messages: Table<M>, calls: Table<C>, since: Option<int>, text: CursorText, limit: int, now: int)
    : Result<Page<M, C>, string>
  {
    var parsed := ParseResyncCursor(text);
    if parsed.Err? then Err(parsed.error) else
    var c := if parsed.value.Some? then parsed.value.value else ResyncCursor(now, "messages", 0, "", "");
    var effective := if limit <= 0 then DEFAULT_RESYNC_LIMIT else limit;
    if c.snapshotUpdatedAt <= 0 then Err("invalid resync cursor")
    else if c.phase == "" || c.phase == "messages" then
      Ok(MessagesPage(messages, calls, since, c.snapshotUpdatedAt, After(c), effective))
    else if c.phase == "calls" then
      Ok(CallsPage([], calls, since, c.snapshotUpdatedAt, After(c), effective))
    else Err("invalid resync cursor phase")
  }

  ghost predicate WithinLimit<M, C>(page: Page<M, C>, limit: nat) {
    && |page.messages| + |page.calls| <= limit
    && (page.hasMore ==> |page.messages| + |page.calls| == limit)
    && (page.hasMore <==> page.next.Some?)
  }

  lemma CallsPageWithinLimit<M, C>(
    ms: seq<Row<M>>, calls: Table<C>, since: Option<int>, snapshot: int, after: Option<Pos>, limit: nat)
    requires limit > 0
    ensures WithinLimit(CallsPage(ms, calls, since, snapshot, after, limit), |ms| + limit)
  {
    hide Listing;
  }

  lemma MessagesPageWithinLimit<M, C>(
    messages: Table<M>, calls: Table<C>, since: Option<int>, snapshot: int, after: Option<Pos>, limit: nat)
    requires limit > 0
    ensures WithinLimit(MessagesPage(messages, calls, since, snapshot, after, limit), limit)
  {
    hide Listing, CallsPage;
    var q := Query(messages, since, snapshot, after, limit);
    if |q.rows| < limit {
      CallsPageWithinLimit(q.rows, calls, since, snapshot, None, limit - |q.rows|);
    }
  }

  /**
   * No page exceeds its limit, messages and calls together; a page that says there is more is full, and a page offers a
   * next cursor exactly when it says there is more.
   */
  lemma PageWithinLimit<M, C>(
    messages: Table<M>, calls: Table<C>, since: Option<int>, text: CursorText, limit: int, now: int)
    ensures var r := ResyncPage(messages, calls, since, text, limit, now);
            r.Ok? ==> WithinLimit(r.value, if limit <= 0 then DEFAULT_RESYNC_LIMIT else limit)
  {
    hide Listing, CallsPage, MessagesPage, WithinLimit, After;
    var parsed := ParseResyncCursor(text);
    if parsed.Ok? {
      var c := if parsed.value.Some? then parsed.value.value else ResyncCursor(now, "messages", 0, "", "");
      var effective := if limit <= 0 then DEFAULT_RESYNC_LIMIT else limit;
      MessagesPageWithinLimit(messages, calls, since, c.snapshotUpdatedAt, After(c), effective);
      CallsPageWithinLimit<M, C>([], calls, since, c.snapshotUpdatedAt, After(c), effective);
    }
  }

  /**
   * A cursor is refused exactly when it cannot be read, names no positive snapshot, holds one half of a key without the
   * other or names an unknown phase; without a cursor, when the clock reads no positive time.
   */
  lemma RefusedIff<M, C>(
    messages: Table<M>, calls: Table<C>, since: Option<int>, text: CursorText, limit: int, now: int)
    ensures ResyncPage(messages, calls, since, text, limit, now).Err? <==>
              match text
              case NoCursor => now <= 0
              case Unreadable => true
              case Encoded(c) =>
                || c.snapshotUpdatedAt <= 0
                || (c.chatJID == "" && c.messageID != "") || (c.chatJID != "" && c.messageID == "")
                || (c.phase != "" && c.phase != "messages" && c.phase != "calls")
  {
  }

  lemma MessagesPageCompletedAt<M, C>(
    messages: Table<M>, calls: Table<C>, since: Option<int>, snapshot: int, after: Option<Pos>, limit: nat)
    requires limit > 0
    ensures MessagesPage(messages, calls, since, snapshot, after, limit).completedAt == snapshot
  {
    hide Listing, Take;
  }

  /** Every page repeats its cursor's snapshot as `completedAt`, and a first page the clock it was read at. */
  lemma PageCompletedAt<M, C>(
    messages: Table<M>, calls: Table<C>, since: Option<int>, text: CursorText, limit: int, now: int)
    ensures var r := ResyncPage(messages, calls, since, text, limit, now);
            r.Ok? ==> r.value.completedAt == if text.Encoded? then text.cursor.snapshotUpdatedAt else now
  {
    hide Listing, Take, MessagesPage;
    var effective := if limit <= 0 then DEFAULT_RESYNC_LIMIT else limit;
    var snapshot := if text.Encoded? then text.cursor.snapshotUpdatedAt else now;
    MessagesPageCompletedAt(
      messages, calls, since, snapshot, if text.Encoded? then After(text.cursor) else None, effective);
  }

  lemma CallsPageTakesFirst<M, C>(
    ms: seq<Row<M>>, calls: Table<C>, since: Option<int>, snapshot: int, after: Option<Pos>, limit: nat)
    requires limit > 0
    ensures var page := CallsPage(ms, calls, since, snapshot, after, limit);
            var cs := Listing(calls, since, snapshot, after);
            page.messages == ms && page.calls == Take(cs, limit) && (page.hasMore <==> |cs| > limit)
  {
    hide Listing;
  }

  lemma MessagesPageTakesFirst<M, C>(
    messages: Table<M>, calls: Table<C>, since: Option<int>, snapshot: int, after: Option<Pos>, limit: nat)
    requires limit > 0
    ensures var page := MessagesPage(messages, calls, since, snapshot, after, limit);
            var ms, cs := Listing(messages, since, snapshot, after), Listing(calls, since, snapshot, None);
            && page.messages == Take(ms, limit)
            && page.calls == Take(cs, limit - |page.messages|)
            && (page.hasMore <==> |ms| + |cs| > limit)
  {
    hide Listing, CallsPage;
    var q := Query(messages, since, snapshot, after, limit);
    if |q.rows| < limit {
      CallsPageTakesFirst(q.rows, calls, since, snapshot, None, limit - |q.rows|);
    }
  }

  /**
   * A page is the first rows of what is left, messages before calls, up to its limit; there is more exactly when more
   * than that is left.
   */
  lemma PageTakesFirst<M, C>(
    messages: Table<M>, calls: Table<C>, since: Option<int>, text: CursorText, limit: int, now: int)
    ensures var r := ResyncPage(messages, calls, since, text, limit, now);
            var effective := if limit <= 0 then DEFAULT_RESYNC_LIMIT else limit;
            var snapshot := if text.Encoded? then text.cursor.snapshotUpdatedAt else now;
            var after := if text.Encoded? then After(text.cursor) else None;
            var inCalls := text.Encoded? && text.cursor.phase == "calls";
            var ms := if inCalls then [] else Listing(messages, since, snapshot, after);
            var cs := Listing(calls, since, snapshot, if inCalls then after else None);
            r.Ok? ==>
              && r.value.messages == Take(ms, effective)
              && r.value.calls == Take(cs, effective - |r.value.messages|)
              && (r.value.hasMore <==> |ms| + |cs| > effective)
  {
    hide Listing, CallsPage, MessagesPage, Take;
    var effective := if limit <= 0 then DEFAULT_RESYNC_LIMIT else limit;
    var snapshot := if text.Encoded? then text.cursor.snapshotUpdatedAt else now;
    var after := if text.Encoded? then After(text.cursor) else None;
    TakeIsPrefix<Row<M>>([], effective);
    CallsPageTakesFirst<M, C>([], calls, since, snapshot, after, effective);
    MessagesPageTakesFirst(messages, calls, since, snapshot, after, effective);
  }

  /** What a query lists: exactly the rows stamped within the window and behind the position, oldest messages first. */
  lemma ListingByColumns<P>(t: Table<P>, since: Option<int>, snapshot: int, after: Option<Pos>)
    ensures var rows := Listing(t, since, snapshot, after);
            && (forall k :: k in t ==>
                  (Row(Pos(t[k].timestamp, k.chat, k.id), t[k].payload) in rows <==>
                     && t[k].updatedAt <= snapshot && (since.None? || since.value < t[k].updatedAt)
                     && (after.None? || Before(after.value, Pos(t[k].timestamp, k.chat, k.id)))))
            && (forall i, j :: 0 <= i < j < |rows| ==>
                  || rows[i].pos.timestamp < rows[j].pos.timestamp
                  || (rows[i].pos.timestamp == rows[j].pos.timestamp && TextBefore(rows[i].pos.chat, rows[j].pos.chat))
                  || (rows[i].pos.timestamp == rows[j].pos.timestamp && rows[i].pos.chat == rows[j].pos.chat
                      && TextBefore(rows[i].pos.id, rows[j].pos.id)))
  {
    hide Listing, Candidates, TextBefore;
    ListingProperties(t, since, snapshot, after);
    var rows := Listing(t, since, snapshot, after);
    forall k | k in t
      ensures Row(Pos(t[k].timestamp, k.chat, k.id), t[k].payload) in rows <==>
                && t[k].updatedAt <= snapshot && (since.None? || since.value < t[k].updatedAt)
                && (after.None? || Before(after.value, Pos(t[k].timestamp, k.chat, k.id))) {
      CandidateRows(t, since, snapshot, after, PosOf(k, t[k]));
    }
    forall i, j | 0 <= i < j < |rows|
      ensures || rows[i].pos.timestamp < rows[j].pos.timestamp
              || (rows[i].pos.timestamp == rows[j].pos.timestamp && TextBefore(rows[i].pos.chat, rows[j].pos.chat))
              || (rows[i].pos.timestamp == rows[j].pos.timestamp && rows[i].pos.chat == rows[j].pos.chat
                  && TextBefore(rows[i].pos.id, rows[j].pos.id)) {
      var p, q := rows[i].pos, rows[j].pos;
      assert Before(Positions(rows)[i], Positions(rows)[j]);
      LexLessIff(p.chat, q.chat);
      LexLessIff(p.id, q.id);
    }
  }
}
