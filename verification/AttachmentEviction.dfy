/**
 * Keeping the attachment cache within its byte limit: least recently used entries go first, files with their last
 * reference.
 */
module AttachmentEviction {
  import opened Prelude
  import opened Ordering
  import opened KeysetOrder

  datatype Slot = Slot(attachmentId: string, variant: string)

  datatype Row = Row(
    id: string, slot: Slot, status: string, cachePath: Option<string>, sizeBytes: Option<int>,
    fetchedAt: Option<int>, lastAccessedAt: Option<int>, lastError: Option<string>, createdAt: int, updatedAt: int)

  type Table = map<Slot, Row>

  predicate Ready(r: Row) {
    r.status == "ready" && r.cachePath.Some?
  }

  function Size(r: Row): int {
    if r.sizeBytes.Some? then r.sizeBytes.value else 0
  }

  datatype LruKey = LruKey(usedAt: int, id: string)

  /** `COALESCE(last_accessed_at, fetched_at, updated_at, created_at), id`; the last two columns are never null. */
  function KeyOf(r: Row): LruKey {
    var used := Coalesce(r.lastAccessedAt, r.fetchedAt);
    LruKey(if used.Some? then used.value else r.updatedAt, r.id)
  }

  predicate Earlier(a: LruKey, b: LruKey) {
    a.usedAt < b.usedAt || (a.usedAt == b.usedAt && LexLess(a.id, b.id))
  }

  lemma EarlierIsTotalOrder()
    ensures TotalOrder(Earlier)
  {
    forall a: LruKey ensures !Earlier(a, a) { LexIrreflexive(a.id); }
    forall a: LruKey, b: LruKey, c: LruKey | Earlier(a, b) && Earlier(b, c) ensures Earlier(a, c) {
      if LexLess(a.id, b.id) && LexLess(b.id, c.id) { LexTransitive(a.id, b.id, c.id); }
    }
    forall a: LruKey, b: LruKey ensures a == b || Earlier(a, b) || Earlier(b, a) { LexTotal(a.id, b.id); }
  }

  predicate WellKeyed(t: Table) {
    && (forall s | s in t :: t[s].slot == s)
    && (forall s, s' | s in t && s' in t && t[s].id == t[s'].id :: s == s')
  }

  /** The ready rows, least recently used first. */
  ghost predicate IsReadyListing(t: Table, entries: seq<Row>) {
    && (forall s :: s in t && Ready(t[s]) <==> exists i :: 0 <= i < |entries| && entries[i].slot == s)
    && (forall i :: 0 <= i < |entries| ==> entries[i].slot in t && t[entries[i].slot] == entries[i])
    && (forall i, j :: 0 <= i < j < |entries|
          ==> Earlier(KeyOf(entries[i]), KeyOf(entries[j])) && entries[i].slot != entries[j].slot)
  }

  method ListReady(t: Table) returns (entries: seq<Row>)
    requires WellKeyed(t)
    ensures IsReadyListing(t, entries)
  {
    hide Earlier, TotalOrder, SortedListing;
    EarlierIsTotalOrder();
    var rest := set s | s in t && Ready(t[s]) :: KeyOf(t[s]);
    ghost var whole := rest;
    ghost var all := SortedListing(Earlier, rest);
    entries := [];
    while rest != {}
      invariant rest <= whole && |entries| <= |all|
      invariant SortedListing(Earlier, rest) == all[|entries|..]
      invariant forall i :: 0 <= i < |entries| ==>
        entries[i].slot in t && t[entries[i].slot] == entries[i] && Ready(entries[i]) && KeyOf(entries[i]) == all[i]
      decreases rest
    {
      var k0 := LeastExists(Earlier, rest);
      var k :| k in rest && IsLeast(Earlier, k, rest);
      LeastIsFirst(Earlier, rest, k);
      assert all[|entries|] == k;
      var s :| s in t && Ready(t[s]) && KeyOf(t[s]) == k;
      entries := entries + [t[s]];
      rest := rest - {k};
      assert SortedListing(Earlier, rest) == all[|entries|..];
    }
    NothingToList(Earlier);
    ListedOnce(t, entries, whole);
  }

  lemma ListedOnce(t: Table, entries: seq<Row>, whole: set<LruKey>)
    requires WellKeyed(t) && TotalOrder(Earlier)
    requires whole == set s | s in t && Ready(t[s]) :: KeyOf(t[s])
    requires |entries| == |SortedListing(Earlier, whole)|
    requires forall i :: 0 <= i < |entries| ==>
      entries[i].slot in t && t[entries[i].slot] == entries[i] && Ready(entries[i])
          && KeyOf(entries[i]) == SortedListing(Earlier, whole)[i]
    ensures IsReadyListing(t, entries)
  {
    hide SortedListing, LexLess;
    var all := SortedListing(Earlier, whole);
    ListingIsAscending(Earlier, whole);
    forall s | s in t && Ready(t[s]) ensures exists i :: 0 <= i < |entries| && entries[i].slot == s {
      assert KeyOf(t[s]) in whole && KeyOf(t[s]) in Elems(all);
      var i :| 0 <= i < |all| && all[i] == KeyOf(t[s]);
      assert entries[i].id == t[s].id;
    }
    forall i, j | 0 <= i < j < |entries|
      ensures Earlier(KeyOf(entries[i]), KeyOf(entries[j])) && entries[i].slot != entries[j].slot {
      assert Earlier(all[i], all[j]);
      assert !Earlier(all[i], all[i]);
    }
  }

  // -------------------------------------------------------- what is evicted

  function TotalSize(rows: seq<Row>): int {
    if rows == [] then 0 else Size(rows[0]) + TotalSize(rows[1..])
  }

  predicate IsProtected(r: Row, protect: Option<Slot>) {
    protect == Some(r.slot)
  }

  function Unprotected(entries: seq<Row>, protect: Option<Slot>): seq<Row> {
    if entries == [] then []
    else (if IsProtected(entries[0], protect) then [] else [entries[0]]) + Unprotected(entries[1..], protect)
  }

  /** The entries a pass evicts, and those it leaves, when `total` bytes are in use. */
  function Evicted(entries: seq<Row>, total: int, limit: int, protect: Option<Slot>): seq<Row> {
    if entries == [] || total <= limit then []
    else if IsProtected(entries[0], protect) then Evicted(entries[1..], total, limit, protect)
    else [entries[0]] + Evicted(entries[1..], total - Size(entries[0]), limit, protect)
  }

  function Spared(entries: seq<Row>, total: int, limit: int, protect: Option<Slot>): seq<Row> {
    if entries == [] || total <= limit then entries
    else if IsProtected(entries[0], protect) then [entries[0]] + Spared(entries[1..], total, limit, protect)
    else Spared(entries[1..], total - Size(entries[0]), limit, protect)
  }

  lemma TotalSizeOfCons(r: Row, rows: seq<Row>)
    ensures TotalSize([r] + rows) == Size(r) + TotalSize(rows)
  {
    assert ([r] + rows)[1..] == rows;
  }

  /**
   * Evicted entries are the shortest prefix of the unprotected ones, in LRU order, that brings the total within the
   * limit, or all of them when none does.
   */
  lemma {:induction false} EvictsShortestPrefix(entries: seq<Row>, total: int, limit: int, protect: Option<Slot>)
    ensures var order, gone := Unprotected(entries, protect), Evicted(entries, total, limit, protect);
            && gone <= order
            && (total - TotalSize(gone) <= limit || gone == order)
            && forall n :: 0 <= n < |gone| ==> total - TotalSize(order[..n]) > limit
  {
    if entries != [] && total > limit {
      var order, gone := Unprotected(entries, protect), Evicted(entries, total, limit, protect);
      var rest := entries[1..];
      if IsProtected(entries[0], protect) {
        assert order == Unprotected(rest, protect);
        EvictsShortestPrefix(rest, total, limit, protect);
      } else {
        var total' := total - Size(entries[0]);
        EvictsShortestPrefix(rest, total', limit, protect);
        var order', gone' := Unprotected(rest, protect), Evicted(rest, total', limit, protect);
        assert order == [entries[0]] + order' && gone == [entries[0]] + gone';
        TotalSizeOfCons(entries[0], gone');
        forall n | 0 <= n < |gone| ensures total - TotalSize(order[..n]) > limit {
          if n > 0 {
            assert order[..n] == [entries[0]] + order'[..n - 1];
            TotalSizeOfCons(entries[0], order'[..n - 1]);
          }
        }
      }
    }
  }

  function References(rows: seq<Row>, path: string): nat {
    if rows == [] then 0
    else (if rows[|rows| - 1].cachePath == Some(path) then 1 else 0) + References(rows[..|rows| - 1], path)
  }

  lemma {:induction false} ReferencesPositive(rows: seq<Row>, path: string)
    ensures References(rows, path) > 0 <==> exists r :: r in rows && r.cachePath == Some(path)
  {
    if rows != [] {
      ReferencesPositive(rows[..|rows| - 1], path);
      assert rows == rows[..|rows| - 1] + [rows[|rows| - 1]];
    }
  }

  lemma {:induction false} ReferencesConcat(a: seq<Row>, b: seq<Row>, path: string)
    ensures References(a + b, path) == References(a, path) + References(b, path)
  {
    if b == [] {
      assert a + b == a;
    } else {
      assert (a + b)[..|a + b| - 1] == a + b[..|b| - 1];
      ReferencesConcat(a, b[..|b| - 1], path);
    }
  }

  lemma {:induction false} ReferencesSplit(
      entries: seq<Row>, total: int, limit: int, protect: Option<Slot>, path: string)
    ensures References(entries, path)
            == References(Evicted(entries, total, limit, protect), path)
                + References(Spared(entries, total, limit, protect), path)
  {
    if entries != [] && total > limit {
      assert entries == [entries[0]] + entries[1..];
      ReferencesConcat([entries[0]], entries[1..], path);
      var total' := if IsProtected(entries[0], protect) then total else total - Size(entries[0]);
      ReferencesSplit(entries[1..], total', limit, protect, path);
      ReferencesConcat([entries[0]], Evicted(entries[1..], total', limit, protect), path);
      ReferencesConcat([entries[0]], Spared(entries[1..], total', limit, protect), path);
    }
  }

  lemma {:induction false} EvictedOrSpared(entries: seq<Row>, total: int, limit: int, protect: Option<Slot>)
    ensures forall r :: r in entries
              <==> r in Evicted(entries, total, limit, protect) || r in Spared(entries, total, limit, protect)
    ensures forall r :: r in Evicted(entries, total, limit, protect) ==> !IsProtected(r, protect)
  {
    if entries != [] && total > limit {
      assert entries == [entries[0]] + entries[1..];
      var total' := if IsProtected(entries[0], protect) then total else total - Size(entries[0]);
      EvictedOrSpared(entries[1..], total', limit, protect);
    }
  }

  // ------------------------------------------------------------- the cache

  function EvictedRow(r: Row, now: int): Row {
    r.(status := "evicted", cachePath := None, lastAccessedAt := Some(now), lastError := None, updatedAt := now)
  }

  function WithEvicted(t: Table, gone: seq<Row>, now: int): Table {
    map s | s in t :: if exists r | r in gone :: r.slot == s then EvictedRow(t[s], now) else t[s]
  }

  /** Files left when these references are gone: a file goes only if it lost references and none is left. */
  ghost predicate FilesAfter(files: set<string>, files': set<string>, entries: seq<Row>, gone: seq<Row>) {
    forall p :: p in files' <==>
      p in files && (References(gone, p) == 0 || References(gone, p) < References(entries, p))
  }

  class AttachmentCache {
    var rows: Table
    var files: set<string>

    constructor (rows: Table, files: set<string>)
      ensures this.rows == rows && this.files == files
    {
      this.rows, this.files := rows, files;
    }

    method EnsureWithinLimit(limit: int, protect: Option<Slot>, now: int) returns (ghost entries: seq<Row>)
      requires WellKeyed(rows) && "" !in files
      modifies this
      ensures IsReadyListing(old(rows), entries)
      ensures rows == WithEvicted(old(rows), Evicted(entries, TotalSize(entries), limit, protect), now)
      ensures FilesAfter(old(files), files, entries, Evicted(entries, TotalSize(entries), limit, protect))
    {
      hide WithEvicted, References, FilesAfter, WellKeyed, KeyOf, Earlier, Counted, Evicted, Ready;
      NothingGone(rows, files, now);
      var listed := ListReady(rows);
      entries := listed;
      var refs := CountReferences(listed);
      CountedAtStart(refs, files, listed);
      var totalBytes := SumSizes(listed);
      ghost var gone: seq<Row> := [];
      ghost var plan := Evicted(listed, totalBytes, limit, protect);
      var i := 0;
      assert listed[0..] == listed && gone + plan == plan;
      while i < |listed| && totalBytes > limit
        invariant i <= |listed|
        invariant plan == gone + Evicted(listed[i..], totalBytes, limit, protect)
        invariant rows == WithEvicted(old(rows), gone, now)
        invariant Counted(refs, files, listed, gone)
        invariant FilesAfter(old(files), files, listed, gone)
      {
        PlanStep(listed, i, totalBytes, limit, protect);
        var entry := listed[i];
        if !IsProtected(entry, protect) {
          ReadyEntry(old(rows), listed, i);
          refs := EvictEntry(entry, refs, now, old(rows), old(files), listed, gone);
          totalBytes := totalBytes - Size(entry);
          assert gone + ([entry] + Evicted(listed[i + 1..], totalBytes, limit, protect))
              == (gone + [entry]) + Evicted(listed[i + 1..], totalBytes, limit, protect);
          gone := gone + [entry];
        }
        i := i + 1;
      }
      PlanEnd(listed[i..], totalBytes, limit, protect);
      assert gone + [] == gone;
    }

    method EvictEntry(entry: Row, refs: map<string, nat>, now: int,
                      ghost t0: Table, ghost files0: set<string>, ghost listed: seq<Row>, ghost gone: seq<Row>)
      returns (refs': map<string, nat>)
      requires Ready(entry) && entry.slot in t0 && t0[entry.slot] == entry
      requires rows == WithEvicted(t0, gone, now)
      requires Counted(refs, files, listed, gone) && FilesAfter(files0, files, listed, gone)
      modifies this
      ensures rows == WithEvicted(t0, gone + [entry], now)
      ensures Counted(refs', files, listed, gone + [entry]) && FilesAfter(files0, files, listed, gone + [entry])
    {
      hide WithEvicted, References, FilesAfter, Counted;
      ghost var was := files;
      refs', files := DropReference(entry, refs);
      DropKeepsCounts(listed, gone, entry, files0, was, files, refs, refs');
      EvictOneMore(t0, gone, entry, now);
      rows := rows[entry.slot := entry.(status := "evicted", cachePath := None, lastAccessedAt := Some(now),
          lastError := None, updatedAt := now)];
    }

    /** Forgets one reference; the file goes with the last one. A path without a file is left alone. */
    method DropReference(entry: Row, refs: map<string, nat>) returns (refs': map<string, nat>, files': set<string>)
      requires Ready(entry)
      ensures var p := entry.cachePath.value;
              if p !in files then refs' == refs && files' == files
              else if Outstanding(refs, p) - 1 <= 0 then refs' == refs - {p} && files' == files - {p}
              else refs' == refs[p := Outstanding(refs, p) - 1] && files' == files
    {
      var p := entry.cachePath.value;
      refs', files' := refs, files;
      if p in files {
        var remaining := Outstanding(refs, p) - 1;
        if remaining <= 0 {
          files' := files - {p};
          refs' := refs - {p};
        } else {
          refs' := refs[p := remaining];
        }
      }
    }
  }

  function Outstanding(refs: map<string, nat>, p: string): nat {
    if p in refs then refs[p] else 0
  }

  method CountReferences(entries: seq<Row>) returns (refs: map<string, nat>)
    ensures forall p :: p != "" ==> Outstanding(refs, p) == References(entries, p)
  {
    refs := map[];
    for i := 0 to |entries|
      invariant forall p :: p != "" ==> Outstanding(refs, p) == References(entries[..i], p)
    {
      assert entries[..i + 1][..i] == entries[..i];
      var path := entries[i].cachePath;
      if path.Some? && path.value != "" {
        refs := refs[path.value := Outstanding(refs, path.value) + 1];
      }
    }
    assert entries[..|entries|] == entries;
  }

  method SumSizes(entries: seq<Row>) returns (total: int)
    ensures total == TotalSize(entries)
  {
    total := 0;
    assert entries[0..] == entries;
    for i := 0 to |entries|
      invariant total + TotalSize(entries[i..]) == TotalSize(entries)
    {
      assert entries[i..][1..] == entries[i + 1..];
      total := total + Size(entries[i]);
    }
  }

  lemma PlanStep(listed: seq<Row>, i: nat, total: int, limit: int, protect: Option<Slot>)
    requires i < |listed| && total > limit
    ensures Evicted(listed[i..], total, limit, protect)
            == if IsProtected(listed[i], protect) then Evicted(listed[i + 1..], total, limit, protect)
               else [listed[i]] + Evicted(listed[i + 1..], total - Size(listed[i]), limit, protect)
  {
    assert listed[i..][0] == listed[i] && listed[i..][1..] == listed[i + 1..];
  }

  lemma PlanEnd(rest: seq<Row>, total: int, limit: int, protect: Option<Slot>)
    requires rest == [] || total <= limit
    ensures Evicted(rest, total, limit, protect) == []
  {
  }

  lemma ReadyEntry(t: Table, entries: seq<Row>, i: nat)
    requires IsReadyListing(t, entries) && i < |entries|
    ensures entries[i].slot in t && t[entries[i].slot] == entries[i] && Ready(entries[i])
  {
  }

  lemma EvictOneMore(t: Table, gone: seq<Row>, r: Row, now: int)
    requires r.slot in t && t[r.slot] == r
    ensures WithEvicted(t, gone + [r], now) == WithEvicted(t, gone, now)[r.slot := EvictedRow(r, now)]
  {
    forall s | s in t
      ensures (exists x | x in gone + [r] :: x.slot == s) <==> s == r.slot || exists x | x in gone :: x.slot == s {
      if x :| x in gone && x.slot == s { assert x in gone + [r]; }
      assert r in gone + [r];
    }
  }

  /** The reference counts of paths that still have a file. */
  ghost predicate Counted(refs: map<string, nat>, files: set<string>, listed: seq<Row>, gone: seq<Row>) {
    forall p :: p in files ==> Outstanding(refs, p) == References(listed, p) - References(gone, p)
  }

  lemma NothingGone(t: Table, files: set<string>, now: int)
    ensures WithEvicted(t, [], now) == t
    ensures forall listed :: FilesAfter(files, files, listed, [])
  {
  }

  lemma CountedAtStart(refs: map<string, nat>, files: set<string>, listed: seq<Row>)
    requires "" !in files && forall p :: p != "" ==> Outstanding(refs, p) == References(listed, p)
    ensures Counted(refs, files, listed, [])
  {
  }

  lemma DropKeepsCounts(
    listed: seq<Row>, gone: seq<Row>, r: Row, files0: set<string>, files: set<string>, files': set<string>,
    refs: map<string, nat>, refs': map<string, nat>)
    requires Ready(r)
    requires var p := r.cachePath.value;
             if p !in files then refs' == refs && files' == files
             else if Outstanding(refs, p) - 1 <= 0 then refs' == refs - {p} && files' == files - {p}
             else refs' == refs[p := Outstanding(refs, p) - 1] && files' == files
    requires Counted(refs, files, listed, gone) && FilesAfter(files0, files, listed, gone)
    ensures Counted(refs', files', listed, gone + [r]) && FilesAfter(files0, files', listed, gone + [r])
  {
    forall p ensures References(gone + [r], p) == References(gone, p) + (if p == r.cachePath.value then 1 else 0) {
      assert (gone + [r])[..|gone|] == gone;
    }
  }

  /** When an entry was used last: its last access, else when it was fetched, else its last update. */
  ghost predicate UsedAt(r: Row, at: int) {
    || r.lastAccessedAt == Some(at)
    || (r.lastAccessedAt.None? && r.fetchedAt == Some(at))
    || (r.lastAccessedAt.None? && r.fetchedAt.None? && r.updatedAt == at)
  }

  lemma {:induction false} EvictedPrecedesSpared(
      entries: seq<Row>, total: int, limit: int, protect: Option<Slot>, a: Row, b: Row)
    requires forall i, j :: 0 <= i < j < |entries| ==> Earlier(KeyOf(entries[i]), KeyOf(entries[j]))
    requires a in Evicted(entries, total, limit, protect)
    requires b in Spared(entries, total, limit, protect) && protect != Some(b.slot)
    ensures Earlier(KeyOf(a), KeyOf(b))
  {
    var rest := entries[1..];
    var total' := if IsProtected(entries[0], protect) then total else total - Size(entries[0]);
    if a in Evicted(rest, total', limit, protect) {
      EvictedPrecedesSpared(rest, total', limit, protect, a, b);
    } else {
      EvictedOrSpared(rest, total', limit, protect);
      var j :| 0 <= j < |rest| && rest[j] == b;
      assert entries[j + 1] == b;
    }
  }

  /** Nothing is evicted that was used after an unprotected entry that stays; ties go by id. */
  lemma LeastRecentlyUsedGoFirst(
      t: Table, entries: seq<Row>, limit: int, protect: Option<Slot>, a: Row, b: Row, usedA: int, usedB: int)
    requires IsReadyListing(t, entries) && UsedAt(a, usedA) && UsedAt(b, usedB)
    requires a in Evicted(entries, TotalSize(entries), limit, protect)
    requires b in Spared(entries, TotalSize(entries), limit, protect) && protect != Some(b.slot)
    ensures usedA < usedB || (usedA == usedB && LexLess(a.id, b.id))
  {
    EvictedPrecedesSpared(entries, TotalSize(entries), limit, protect, a, b);
  }

  /** What becomes of each row of the table: evicted entries lose their file, everything else stays as it is. */
  lemma RowsAfterPass(t: Table, entries: seq<Row>, limit: int, protect: Option<Slot>, now: int, s: Slot)
    requires WellKeyed(t) && IsReadyListing(t, entries) && s in t
    ensures var gone := Evicted(entries, TotalSize(entries), limit, protect);
            var r, r' := t[s], WithEvicted(t, gone, now)[s];
            && (r in gone ==>
                  && r.status == "ready" && r.cachePath.Some? && protect != Some(s)
                  && r'.status == "evicted" && r'.cachePath.None? && r'.lastError.None?
                  && r'.lastAccessedAt == Some(now) && r'.updatedAt == now
                  && r'.id == r.id && r'.slot == r.slot && r'.sizeBytes == r.sizeBytes
                  && r'.fetchedAt == r.fetchedAt && r'.createdAt == r.createdAt)
            && (r !in gone ==> r' == r)
  {
    var gone := Evicted(entries, TotalSize(entries), limit, protect);
    EvictedOrSpared(entries, TotalSize(entries), limit, protect);
    forall x | x in gone ensures x.slot in t && t[x.slot] == x && Ready(x) {
      var i :| 0 <= i < |entries| && entries[i] == x;
    }
    if x :| x in gone && x.slot == s { assert x == t[s]; }
  }

  /** The bytes in use: the sizes known of the ready entries, an unknown size counting nothing. */
  lemma {:induction false} TotalSizeCounts(entries: seq<Row>, more: seq<Row>)
    ensures TotalSize(entries + more) == TotalSize(entries) + TotalSize(more)
    ensures forall r: Row :: TotalSize([r]) == match r.sizeBytes case None => 0 case Some(n) => n
  {
    if entries != [] {
      assert (entries + more)[1..] == entries[1..] + more;
      TotalSizeCounts(entries[1..], more);
    } else {
      assert entries + more == more;
    }
  }

  /** The order considers every ready entry but the protected one. */
  lemma {:induction false} UnprotectedMembers(entries: seq<Row>, protect: Option<Slot>)
    ensures forall r :: r in Unprotected(entries, protect) <==> r in entries && protect != Some(r.slot)
  {
    if entries != [] {
      UnprotectedMembers(entries[1..], protect);
      assert entries == [entries[0]] + entries[1..];
    }
  }

  /**
   * What a pass guarantees: entries still ready keep their files, a file is deleted only with its last ready reference,
   * and the protected entry stays as it was.
   */
  lemma SparedKeepTheirFiles(
    t: Table, entries: seq<Row>, files: set<string>, files': set<string>, limit: int, protect: Option<Slot>, now: int)
    requires WellKeyed(t) && IsReadyListing(t, entries)
    requires FilesAfter(files, files', entries, Evicted(entries, TotalSize(entries), limit, protect))
    ensures var t' := WithEvicted(t, Evicted(entries, TotalSize(entries), limit, protect), now);
            && (forall s :: s in t' && Ready(t'[s]) && t'[s].cachePath.value in files
                  ==> t'[s].cachePath.value in files')
            && (forall p :: p in files && p !in files'
                  ==> !exists s :: s in t' && Ready(t'[s]) && t'[s].cachePath == Some(p))
            && (protect.Some? && protect.value in t ==> t'[protect.value] == t[protect.value])
  {
    var total := TotalSize(entries);
    var gone, spared := Evicted(entries, total, limit, protect), Spared(entries, total, limit, protect);
    var t' := WithEvicted(t, gone, now);
    EvictedOrSpared(entries, total, limit, protect);
    forall s | s in t' && Ready(t'[s]) ensures t'[s] in spared && t'[s] == t[s] {
      var i :| 0 <= i < |entries| && entries[i].slot == s;
      assert entries[i] in entries && entries[i] == t[s];
    }
    forall p ensures References(gone, p) == References(entries, p) - References(spared, p)
                     && (References(spared, p) > 0 <==> exists r :: r in spared && r.cachePath == Some(p)) {
      ReferencesSplit(entries, total, limit, protect, p);
      ReferencesPositive(spared, p);
    }
  }
}
