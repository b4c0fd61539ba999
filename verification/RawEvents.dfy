/** Batched insertion of raw events, chunk by chunk, against inserting them one at a time. */
module RawEvents {
  import opened Prelude

  datatype Event = Event(id: string, platform: string, accountKey: string, dedupeKey: string, body: string)

  datatype Row = Row(rowId: nat, event: Event)

  /** The table in rowid order. */
  type Table = seq<Row>

  predicate Ascending(t: Table) {
    forall i, j :: 0 <= i < j < |t| ==> t[i].rowId < t[j].rowId
  }

  /** Either uniqueness rule: the id, or platform with account and dedupe key. */
  predicate Conflicts(a: Event, b: Event) {
    a.id == b.id || (a.platform == b.platform && a.accountKey == b.accountKey && a.dedupeKey == b.dedupeKey)
  }

  predicate Blocked(t: Table, e: Event) {
    exists i | 0 <= i < |t| :: Conflicts(t[i].event, e)
  }

  function NextRowId(t: Table): nat {
    if t == [] then 1 else t[|t| - 1].rowId + 1
  }

  /** `INSERT … ON CONFLICT DO NOTHING` of one row. */
  function InsertOne(t: Table, e: Event): Table {
    if Blocked(t, e) then t else t + [Row(NextRowId(t), e)]
  }

  /** A row is refused exactly for a taken id or dedupe key; otherwise it comes last, one rowid on. */
  lemma InsertedIff(t: Table, e: Event)
    requires Ascending(t)
    ensures var t' := InsertOne(t, e);
            var taken := exists r | r in t ::
                           || r.event.id == e.id
                           || (r.event.platform == e.platform && r.event.accountKey == e.accountKey
                               && r.event.dedupeKey == e.dedupeKey);
            && (taken ==> t' == t)
            && (!taken ==> |t'| == |t| + 1 && t <= t' && t'[|t|].event == e && Ascending(t')
                           && t'[|t|].rowId == if t == [] then 1 else t[|t| - 1].rowId + 1)
  {
    if Blocked(t, e) {
      var i :| 0 <= i < |t| && Conflicts(t[i].event, e);
      assert t[i] in t;
    } else {
      forall r | r in t ensures !Conflicts(r.event, e) {
        var i :| 0 <= i < |t| && t[i] == r;
      }
    }
  }

  function InsertAll(t: Table, es: seq<Event>): Table {
    if es == [] then t else InsertOne(InsertAll(t, es[..|es| - 1]), es[|es| - 1])
  }

  predicate HasId(t: Table, id: string) {
    exists i | 0 <= i < |t| :: t[i].event.id == id
  }

  ghost predicate UniqueIds(es: seq<Event>) {
    forall i, j :: 0 <= i < j < |es| ==> es[i].id != es[j].id
  }

  lemma {:induction false} InsertAllConcat(t: Table, es: seq<Event>, fs: seq<Event>)
    ensures InsertAll(t, es + fs) == InsertAll(InsertAll(t, es), fs)
  {
    if fs == [] {
      assert es + fs == es;
    } else {
      assert (es + fs)[..|es + fs| - 1] == es + fs[..|fs| - 1];
      InsertAllConcat(t, es, fs[..|fs| - 1]);
    }
  }

  lemma {:induction false} InsertAllAppends(t: Table, es: seq<Event>)
    requires Ascending(t)
    ensures Ascending(InsertAll(t, es))
    ensures t <= InsertAll(t, es)
  {
    if es != [] { InsertAllAppends(t, es[..|es| - 1]); }
  }

  // ------------------------------------------------------- deduplication

  /** A JavaScript Map keyed by id: first occurrences fix the order, last ones the value. */
  function UniqueEvents(es: seq<Event>): seq<Event> {
    if es == [] then []
    else Put(UniqueEvents(es[..|es| - 1]), es[|es| - 1])
  }

  function Put(es: seq<Event>, e: Event): (r: seq<Event>)
    ensures |es| <= |r| <= |es| + 1
  {
    if es == [] then [e]
    else if es[0].id == e.id then [e] + es[1..]
    else [es[0]] + Put(es[1..], e)
  }

  lemma {:induction false} PutKeepsIds(es: seq<Event>, e: Event)
    requires UniqueIds(es)
    ensures UniqueIds(Put(es, e))
    ensures forall x :: x in Put(es, e) <==> x == e || (x in es && x.id != e.id)
    ensures forall i :: 0 <= i < |es| ==> Put(es, e)[i].id == es[i].id
  {
    if es != [] && es[0].id != e.id {
      PutKeepsIds(es[1..], e);
      var r := Put(es, e);
      forall i, j | 0 <= i < j < |r| ensures r[i].id != r[j].id {
        if i == 0 { assert r[j] in Put(es[1..], e); }
      }
    }
  }

  /** The last event given with its id. */
  ghost predicate IsLastWithId(es: seq<Event>, x: Event) {
    exists i :: 0 <= i < |es| && es[i] == x && forall j :: i < j < |es| ==> es[j].id != x.id
  }

  lemma IsLastSnoc(es: seq<Event>, x: Event)
    requires es != []
    ensures var n := |es| - 1;
            IsLastWithId(es, x) <==> x == es[n] || (IsLastWithId(es[..n], x) && x.id != es[n].id)
  {
    hide IsLastWithId;
    var n := |es| - 1;
    if IsLastWithId(es, x) && x != es[n] { LastInFront(es, x); }
    if IsLastWithId(es[..n], x) && x.id != es[n].id { LastInWhole(es, x); }
    LastOfAll(es);
  }

  lemma LastOfAll(es: seq<Event>)
    requires es != []
    ensures IsLastWithId(es, es[|es| - 1])
  {
  }

  lemma LastInFront(es: seq<Event>, x: Event)
    requires es != [] && IsLastWithId(es, x) && x != es[|es| - 1]
    ensures IsLastWithId(es[..|es| - 1], x) && x.id != es[|es| - 1].id
  {
    var n := |es| - 1;
    var i :| 0 <= i < |es| && es[i] == x && forall j :: i < j < |es| ==> es[j].id != x.id;
    assert es[..n][i] == x && forall j :: i < j < n ==> es[..n][j] == es[j];
  }

  lemma LastInWhole(es: seq<Event>, x: Event)
    requires es != [] && IsLastWithId(es[..|es| - 1], x) && x.id != es[|es| - 1].id
    ensures IsLastWithId(es, x)
  {
    var n := |es| - 1;
    var i :| 0 <= i < n && es[..n][i] == x && forall j :: i < j < n ==> es[..n][j].id != x.id;
    forall j | i < j < |es| ensures es[j].id != x.id {
      if j < n { assert es[..n][j] == es[j]; }
    }
  }

  /** One event per id, the last one given with that id. */
  lemma {:induction false} UniqueEventsAreLast(es: seq<Event>)
    ensures UniqueIds(UniqueEvents(es))
    ensures forall x :: x in UniqueEvents(es) <==> IsLastWithId(es, x)
  {
    if es != [] {
      var n := |es| - 1;
      UniqueEventsAreLast(es[..n]);
      PutKeepsIds(UniqueEvents(es[..n]), es[n]);
      forall x ensures x in UniqueEvents(es) <==> IsLastWithId(es, x) {
        IsLastSnoc(es, x);
      }
    }
  }

  // -------------------------------------------------------------- new rows

  /** The events among `es` whose id is in the table after insertion but was not before. */
  function NewlyPresent(t: Table, t': Table, es: seq<Event>): seq<Event> {
    if es == [] then []
    else
      NewlyPresent(t, t', es[..|es| - 1])
      + (if !HasId(t, es[|es| - 1].id) && HasId(t', es[|es| - 1].id) then [es[|es| - 1]] else [])
  }

  function EventsOf(rows: seq<Row>): (es: seq<Event>)
    ensures |es| == |rows| && forall i :: 0 <= i < |rows| ==> es[i] == rows[i].event
  {
    seq(|rows|, i requires 0 <= i < |rows| => rows[i].event)
  }

  lemma {:induction false} NewlyPresentSameIds(t: Table, t1: Table, t2: Table, es: seq<Event>)
    requires forall i :: 0 <= i < |es| ==> HasId(t1, es[i].id) == HasId(t2, es[i].id)
    ensures NewlyPresent(t, t1, es) == NewlyPresent(t, t2, es)
  {
    if es != [] { NewlyPresentSameIds(t, t1, t2, es[..|es| - 1]); }
  }

  lemma HasIdSnoc(t: Table, r: Row, id: string)
    ensures HasId(t + [r], id) <==> HasId(t, id) || r.event.id == id
  {
    if i :| 0 <= i < |t| && t[i].event.id == id { assert (t + [r])[i] == t[i]; }
    assert (t + [r])[|t|] == r;
  }

  lemma {:induction false} InsertedIdsAreGiven(t: Table, es: seq<Event>, id: string)
    requires HasId(InsertAll(t, es), id)
    ensures HasId(t, id) || exists i :: 0 <= i < |es| && es[i].id == id
  {
    if es != [] {
      var front := InsertAll(t, es[..|es| - 1]);
      var e := es[|es| - 1];
      if !Blocked(front, e) { HasIdSnoc(front, Row(NextRowId(front), e), id); }
      if HasId(front, id) {
        InsertedIdsAreGiven(t, es[..|es| - 1], id);
        if !HasId(t, id) {
          var i :| 0 <= i < |es| - 1 && es[..|es| - 1][i].id == id;
          assert es[i].id == id;
        }
      }
    }
  }

  lemma UnblockedIsNew(t: Table, front: Table, e: Event)
    requires t <= front && !Blocked(front, e)
    ensures !HasId(t, e.id)
  {
    forall i | 0 <= i < |t| ensures t[i].event.id != e.id {
      assert front[i] == t[i] && !Conflicts(front[i].event, e);
    }
  }

  lemma FrontIdsAreOld(t: Table, es: seq<Event>)
    requires UniqueIds(es) && es != []
    ensures var n := |es| - 1;
            UniqueIds(es[..n]) && (HasId(InsertAll(t, es[..n]), es[n].id) ==> HasId(t, es[n].id))
  {
    var n := |es| - 1;
    assert forall i :: 0 <= i < n ==> es[..n][i] == es[i];
    if HasId(InsertAll(t, es[..n]), es[n].id) { InsertedIdsAreGiven(t, es[..n], es[n].id); }
  }

  lemma {:induction false} NewlyPresentSnoc(t: Table, front: Table, row: Row, es: seq<Event>)
    requires UniqueIds(es) && es != [] && row.event == es[|es| - 1] && !HasId(t, row.event.id)
    ensures NewlyPresent(t, front + [row], es) == NewlyPresent(t, front, es[..|es| - 1]) + [row.event]
  {
    hide HasId;
    var n := |es| - 1;
    forall i | 0 <= i < n ensures HasId(front, es[..n][i].id) == HasId(front + [row], es[..n][i].id) {
      HasIdSnoc(front, row, es[i].id);
    }
    NewlyPresentSameIds(t, front, front + [row], es[..n]);
    HasIdSnoc(front, row, es[n].id);
  }

  /** The rows an insertion appends carry exactly the newly present events, in the order given. */
  lemma {:induction false} AppendedRows(t: Table, es: seq<Event>)
    requires Ascending(t) && UniqueIds(es)
    ensures t <= InsertAll(t, es)
    ensures EventsOf(InsertAll(t, es)[|t|..]) == NewlyPresent(t, InsertAll(t, es), es)
  {
    hide HasId, Blocked, Ascending, UniqueIds;
    InsertAllAppends(t, es);
    if es != [] {
      var n := |es| - 1;
      var front, e := InsertAll(t, es[..n]), es[n];
      FrontIdsAreOld(t, es);
      AppendedRows(t, es[..n]);
      if Blocked(front, e) {
        assert NewlyPresent(t, front, es) == NewlyPresent(t, front, es[..n]) + [];
      } else {
        var row := Row(NextRowId(front), e);
        UnblockedIsNew(t, front, e);
        NewlyPresentSnoc(t, front, row, es);
        assert (front + [row])[|t|..] == front[|t|..] + [row];
        assert EventsOf(front[|t|..] + [row]) == EventsOf(front[|t|..]) + [e];
      }
    }
  }

  // ------------------------------------------------------------- the store

  method ChunkArray<T>(items: seq<T>, size: nat) returns (chunks: seq<seq<T>>)
    requires size > 0
    ensures Flatten(chunks) == items
    ensures forall c :: c in chunks ==> 0 < |c| <= size
  {
    chunks := [];
    var index := 0;
    assert items[..0] == [];
    while index < |items|
      invariant 0 <= index
      invariant Flatten(chunks) == items[..if index < |items| then index else |items|]
      invariant forall c :: c in chunks ==> 0 < |c| <= size
      decreases |items| - index
    {
      var end := if index + size < |items| then index + size else |items|;
      assert (chunks + [items[index..end]])[..|chunks|] == chunks;
      assert items[..end] == items[..index] + items[index..end];
      chunks := chunks + [items[index..end]];
      index := index + size;
    }
    assert items[..|items|] == items;
  }

  function Flatten<T>(chunks: seq<seq<T>>): seq<T> {
    if chunks == [] then [] else Flatten(chunks[..|chunks| - 1]) + chunks[|chunks| - 1]
  }

  lemma {:induction false} FlattenMember<T>(chunks: seq<seq<T>>, x: T)
    ensures x in Flatten(chunks) <==> exists c :: c in chunks && x in c
  {
    if chunks != [] {
      var front, last := chunks[..|chunks| - 1], chunks[|chunks| - 1];
      FlattenMember(front, x);
      assert chunks == front + [last];
    }
  }

  /** `SELECT id, rowid … WHERE id IN (…) ORDER BY rowid`. */
  function SelectByIds(t: Table, ids: set<string>): seq<Row> {
    if t == [] then []
    else SelectByIds(t[..|t| - 1], ids) + (if t[|t| - 1].event.id in ids then [t[|t| - 1]] else [])
  }

  lemma {:induction false} SelectedRows(t: Table, ids: set<string>)
    requires Ascending(t)
    ensures Ascending(SelectByIds(t, ids))
    ensures forall r :: r in SelectByIds(t, ids) <==> r in t && r.event.id in ids
  {
    if t != [] {
      var front, last := t[..|t| - 1], t[|t| - 1];
      SelectedRows(front, ids);
      assert t == front + [last];
      forall r | r in SelectByIds(front, ids) ensures r.rowId < last.rowId {
        assert r in front;
        var i :| 0 <= i < |front| && front[i] == r;
        assert t[i] == r;
      }
    }
  }

  /** The rowid stored for an id. */
  function RowIdOf(t: Table, id: string): Option<nat> {
    if t == [] then None
    else if t[|t| - 1].event.id == id then Some(t[|t| - 1].rowId)
    else RowIdOf(t[..|t| - 1], id)
  }

  lemma {:induction false} RowIdOfPresent(t: Table, id: string)
    ensures RowIdOf(t, id).Some? <==> HasId(t, id)
  {
    if t != [] {
      var front := t[..|t| - 1];
      RowIdOfPresent(front, id);
      HasIdSnoc(front, t[|t| - 1], id);
      assert front + [t[|t| - 1]] == t;
    }
  }

  predicate DistinctRowIds(t: Table) {
    forall i, j :: 0 <= i < j < |t| ==> t[i].event.id != t[j].event.id
  }

  lemma {:induction false} RowIdOfRow(t: Table, i: nat)
    requires DistinctRowIds(t) && i < |t|
    ensures RowIdOf(t, t[i].event.id) == Some(t[i].rowId)
  {
    if i < |t| - 1 { RowIdOfRow(t[..|t| - 1], i); }
  }

  /** The events of `es` present in the table. */
  function Present(t: Table, es: seq<Event>): seq<Event> {
    if es == [] then []
    else Present(t, es[..|es| - 1]) + (if HasId(t, es[|es| - 1].id) then [es[|es| - 1]] else [])
  }

  function Absent(t: Table, es: seq<Event>): seq<Event> {
    if es == [] then []
    else Absent(t, es[..|es| - 1]) + (if HasId(t, es[|es| - 1].id) then [] else [es[|es| - 1]])
  }

  lemma PresentSnoc(t: Table, es: seq<Event>, e: Event)
    ensures Present(t, es + [e]) == Present(t, es) + (if HasId(t, e.id) then [e] else [])
  {
    assert (es + [e])[..|es|] == es;
  }

  lemma {:induction false} PresentAbsent(t: Table, t': Table, es: seq<Event>)
    ensures Present(t', Absent(t, es)) == NewlyPresent(t, t', es)
  {
    hide HasId;
    if es != [] {
      var front, last := es[..|es| - 1], es[|es| - 1];
      PresentAbsent(t, t', front);
      if !HasId(t, last.id) {
        assert Absent(t, es) == Absent(t, front) + [last];
        PresentSnoc(t', Absent(t, front), last);
      } else {
        assert Absent(t, es) == Absent(t, front);
        assert NewlyPresent(t, t', es) == NewlyPresent(t, t', front);
      }
    }
  }

  lemma {:induction false} AbsentMembers(t: Table, es: seq<Event>)
    ensures forall e :: e in Absent(t, es) <==> e in es && !HasId(t, e.id)
  {
    hide HasId;
    if es != [] {
      var front, last := es[..|es| - 1], es[|es| - 1];
      AbsentMembers(t, front);
      assert es == front + [last];
    }
  }

  lemma {:induction false} NewlyPresentMembers(t: Table, t': Table, es: seq<Event>)
    ensures forall e :: e in NewlyPresent(t, t', es) <==> e in es && !HasId(t, e.id) && HasId(t', e.id)
  {
    hide HasId;
    if es != [] {
      var front, last := es[..|es| - 1], es[|es| - 1];
      NewlyPresentMembers(t, t', front);
      assert es == front + [last];
    }
  }

  /** Rows of the table with an id among the given events. */
  ghost predicate Selected(t: Table, es: seq<Event>, r: Row) {
    r in t && exists e :: e in es && e.id == r.event.id
  }

  ghost predicate IsMinimum(t: Table, es: seq<Event>, first: Option<nat>) {
    && (forall r :: Selected(t, es, r) ==> first.Some? && first.value <= r.rowId)
    && (first.Some? ==> exists r :: Selected(t, es, r) && r.rowId == first.value)
  }

  ghost predicate IsMaximum(t: Table, es: seq<Event>, last: Option<nat>) {
    && (forall r :: Selected(t, es, r) ==> last.Some? && r.rowId <= last.value)
    && (last.Some? ==> exists r :: Selected(t, es, r) && r.rowId == last.value)
  }

  /** Taking the ends of each chunk's selection keeps the overall minimum and maximum. */
  lemma ExtremesOfChunks(
      t: Table, es: seq<Event>, chunk: seq<Event>, selected: seq<Row>, first: Option<nat>, last: Option<nat>)
    requires IsMinimum(t, es, first) && IsMaximum(t, es, last) && Ascending(selected)
    requires forall r :: r in selected <==> Selected(t, chunk, r)
    ensures var n := |selected|;
            var lower := n > 0 && (first.None? || selected[0].rowId < first.value);
            var higher := n > 0 && (last.None? || selected[n - 1].rowId > last.value);
            && IsMinimum(t, es + chunk, if lower then Some(selected[0].rowId) else first)
            && IsMaximum(t, es + chunk, if higher then Some(selected[n - 1].rowId) else last)
  {
    forall r ensures Selected(t, es + chunk, r) <==> Selected(t, es, r) || r in selected {
      if Selected(t, es, r) {
        var e :| e in es && e.id == r.event.id;
        assert e in es + chunk;
      }
      if Selected(t, chunk, r) {
        var e :| e in chunk && e.id == r.event.id;
        assert e in es + chunk;
      }
    }
    if selected != [] {
      assert selected[0] in selected && selected[|selected| - 1] in selected;
      forall r | r in selected ensures selected[0].rowId <= r.rowId <= selected[|selected| - 1].rowId {
        var i :| 0 <= i < |selected| && selected[i] == r;
      }
    }
  }

  /** Rows whose events and ids are those of the appended rows are the appended rows. */
  lemma ReportedRows(t: Table, n: nat, reported: seq<Row>)
    requires DistinctRowIds(t) && n <= |t|
    requires EventsOf(reported) == EventsOf(t[n..])
    requires forall j :: 0 <= j < |reported| ==> RowIdOf(t, reported[j].event.id) == Some(reported[j].rowId)
    ensures reported == t[n..]
  {
    assert |reported| == |EventsOf(reported)| == |t[n..]|;
    forall j | 0 <= j < |reported| ensures reported[j] == t[n..][j] {
      assert EventsOf(reported)[j] == EventsOf(t[n..])[j];
      RowIdOfRow(t, n + j);
    }
  }

  /** The selected rows are the appended ones, so the extremes are the ends of the appended part. */
  lemma ExtremesAreEnds(was: Table, t: Table, unique: seq<Event>, first: Option<nat>, last: Option<nat>)
    requires Ascending(t) && was <= t
    requires EventsOf(t[|was|..]) == NewlyPresent(was, t, unique)
    requires IsMinimum(t, Absent(was, unique), first) && IsMaximum(t, Absent(was, unique), last)
    ensures var added' := t[|was|..];
            && first == (if added' == [] then None else Some(added'[0].rowId))
            && last == (if added' == [] then None else Some(added'[|added'| - 1].rowId))
  {
    hide Selected, Ascending, NewlyPresent;
    var added := t[|was|..];
    var absent := Absent(was, unique);
    forall r ensures Selected(t, absent, r) <==> r in added {
      SelectedIsAppended(was, t, unique, r);
    }
    if added != [] {
      AppendedEnds(was, t);
      assert Selected(t, absent, added[0]) && Selected(t, absent, added[|added| - 1]);
    }
  }

  lemma AppendedEnds(was: Table, t: Table)
    requires Ascending(t) && was <= t && |was| < |t|
    ensures var added := t[|was|..];
            && added[0] in added && added[|added| - 1] in added
            && forall r :: r in added ==> added[0].rowId <= r.rowId <= added[|added| - 1].rowId
  {
    var added := t[|was|..];
    forall r | r in added ensures added[0].rowId <= r.rowId <= added[|added| - 1].rowId {
      var i :| 0 <= i < |added| && added[i] == r;
      assert t[|was|] == added[0] && t[|was| + i] == r && t[|t| - 1] == added[|added| - 1];
    }
  }

  lemma SelectedIsAppended(was: Table, t: Table, unique: seq<Event>, r: Row)
    requires was <= t && EventsOf(t[|was|..]) == NewlyPresent(was, t, unique)
    ensures Selected(t, Absent(was, unique), r) <==> r in t[|was|..]
  {
    hide HasId;
    var added := t[|was|..];
    AbsentMembers(was, unique);
    NewlyPresentMembers(was, t, unique);
    if r in added {
      var i :| 0 <= i < |added| && added[i] == r;
      assert EventsOf(added)[i] == r.event;
      assert r.event in NewlyPresent(was, t, unique);
      assert t[|was| + i] == r;
    }
    if Selected(t, Absent(was, unique), r) {
      var i :| 0 <= i < |t| && t[i] == r;
      if i < |was| {
        assert was[i] == r;
        PresentId(was, i);
        assert false;
      }
      assert added[i - |was|] == r;
    }
  }

  lemma PresentId(t: Table, i: nat)
    requires i < |t|
    ensures HasId(t, t[i].event.id)
  {
  }

  datatype Inserted = Inserted(count: nat, rows: seq<Row>, first: Option<nat>, last: Option<nat>)

  class RawEventStore {
    var rows: Table

    predicate Valid()
      reads this
    {
      Ascending(rows) && DistinctRowIds(rows)
    }

    constructor ()
      ensures Valid() && rows == []
    {
      rows := [];
    }

    method InsertRawEvent(e: Event) returns (inserted: bool)
      requires Valid()
      modifies this
      ensures Valid() && rows == InsertOne(old(rows), e)
      ensures inserted <==> !Blocked(old(rows), e)
    {
      inserted := !Blocked(rows, e);
      if inserted {
        forall i | 0 <= i < |rows| ensures rows[i].event.id != e.id {
          assert !Conflicts(rows[i].event, e);
        }
        rows := rows + [Row(NextRowId(rows), e)];
      }
    }

    /**
     * Whatever the chunk size, the table ends up as if the deduplicated events had been inserted one by one, and the
     * result reports exactly the appended rows: their rowids with their events, in rowid order, with first and last.
     */
    method InsertRawEvents(events: seq<Event>, batchSize: nat) returns (r: Inserted)
      requires Valid() && batchSize > 0
      modifies this
      ensures Valid() && rows == InsertAll(old(rows), UniqueEvents(events)) && old(rows) <= rows
      ensures r.rows == rows[|old(rows)|..] && r.count == |r.rows|
      ensures r.first == if r.rows == [] then None else Some(r.rows[0].rowId)
      ensures r.last == if r.rows == [] then None else Some(r.rows[|r.rows| - 1].rowId)
      ensures forall e :: e in EventsOf(r.rows)
                <==> e in UniqueEvents(events) && HasId(rows, e.id) && !HasId(old(rows), e.id)
    {
      ghost var was := rows;
      var unique := UniqueEvents(events);
      UniqueEventsAreLast(events);
      var existing := ExistingIds(unique, batchSize);
      InsertChunks(unique, batchSize);
      AppendedRows(was, unique);
      var candidates := Candidates(unique, existing, was);
      PresentAbsent(was, rows, unique);
      var rowIds, first, last := InsertedRowIds(candidates, batchSize);
      ExtremesAreEnds(was, rows, unique, first, last);
      NewlyPresentMembers(was, rows, unique);
      var reported := Report(candidates, rowIds);
      ReportedRows(rows, |was|, reported);
      return Inserted(|reported|, reported, first, last);
    }

    method Candidates(unique: seq<Event>, existing: set<string>, ghost was: Table) returns (candidates: seq<Event>)
      requires forall e :: e in unique ==> (e.id in existing <==> HasId(was, e.id))
      ensures candidates == Absent(was, unique)
    {
      candidates := [];
      for i := 0 to |unique|
        invariant candidates == Absent(was, unique[..i])
      {
        assert unique[..i + 1][..i] == unique[..i] && unique[i] in unique;
        if unique[i].id !in existing { candidates := candidates + [unique[i]]; }
      }
      assert unique[..|unique|] == unique;
    }

    method Report(candidates: seq<Event>, rowIds: map<string, nat>) returns (reported: seq<Row>)
      requires forall id :: id in rowIds ==> RowIdOf(rows, id) == Some(rowIds[id])
      requires forall e :: e in candidates ==> (e.id in rowIds <==> HasId(rows, e.id))
      ensures EventsOf(reported) == Present(rows, candidates)
      ensures forall j :: 0 <= j < |reported| ==> RowIdOf(rows, reported[j].event.id) == Some(reported[j].rowId)
    {
      reported := [];
      for i := 0 to |candidates|
        invariant EventsOf(reported) == Present(rows, candidates[..i])
        invariant forall j :: 0 <= j < |reported| ==> RowIdOf(rows, reported[j].event.id) == Some(reported[j].rowId)
      {
        assert candidates[..i + 1][..i] == candidates[..i] && candidates[i] in candidates;
        var e := candidates[i];
        if e.id in rowIds {
          ghost var before := reported;
          reported := reported + [Row(rowIds[e.id], e)];
          assert EventsOf(reported) == EventsOf(before) + [e];
        }
      }
      assert candidates[..|candidates|] == candidates;
    }

    method ExistingIds(unique: seq<Event>, batchSize: nat) returns (existing: set<string>)
      requires batchSize > 0
      ensures forall e :: e in unique ==> (e.id in existing <==> HasId(rows, e.id))
    {
      var chunks := ChunkArray(unique, batchSize);
      existing := {};
      for i := 0 to |chunks|
        invariant forall id :: id in existing ==> HasId(rows, id)
        invariant forall k, e: Event :: 0 <= k < i && e in chunks[k] && HasId(rows, e.id) ==> e.id in existing
      {
        existing := existing + set e: Event | e in chunks[i] && HasId(rows, e.id) :: e.id;
      }
      forall e | e in unique && HasId(rows, e.id) ensures e.id in existing {
        FlattenMember(chunks, e);
        var c :| c in chunks && e in c;
        var k :| 0 <= k < |chunks| && chunks[k] == c;
      }
    }

    method InsertChunks(unique: seq<Event>, batchSize: nat)
      requires Valid() && batchSize > 0
      modifies this
      ensures Valid() && rows == InsertAll(old(rows), unique)
    {
      var chunks := ChunkArray(unique, batchSize);
      ghost var was := rows;
      for i := 0 to |chunks|
        invariant Valid() && rows == InsertAll(was, Flatten(chunks[..i]))
      {
        assert chunks[..i + 1][..i] == chunks[..i];
        InsertAllConcat(was, Flatten(chunks[..i]), chunks[i]);
        InsertStatement(chunks[i]);
      }
      assert chunks[..|chunks|] == chunks;
    }

    /** One multi-row statement: SQLite takes its rows in order. */
    method InsertStatement(chunk: seq<Event>)
      requires Valid()
      modifies this
      ensures Valid() && rows == InsertAll(old(rows), chunk)
    {
      ghost var was := rows;
      for i := 0 to |chunk|
        invariant Valid() && rows == InsertAll(was, chunk[..i])
      {
        assert chunk[..i + 1][..i] == chunk[..i];
        var _ := InsertRawEvent(chunk[i]);
      }
      assert chunk[..|chunk|] == chunk;
    }

    method InsertedRowIds(
        candidates: seq<Event>, batchSize: nat)
      returns (rowIds: map<string, nat>, first: Option<nat>, last: Option<nat>)
      requires Valid() && batchSize > 0
      ensures forall id :: id in rowIds ==> RowIdOf(rows, id) == Some(rowIds[id])
      ensures forall e :: e in candidates ==> (e.id in rowIds <==> HasId(rows, e.id))
      ensures IsMinimum(rows, candidates, first) && IsMaximum(rows, candidates, last)
    {
      var chunks := ChunkArray(candidates, batchSize);
      rowIds, first, last := map[], None, None;
      for i := 0 to |chunks|
        invariant forall id :: id in rowIds ==> RowIdOf(rows, id) == Some(rowIds[id])
        invariant forall e: Event :: e in Flatten(chunks[..i]) && HasId(rows, e.id) ==> e.id in rowIds
        invariant IsMinimum(rows, Flatten(chunks[..i]), first) && IsMaximum(rows, Flatten(chunks[..i]), last)
      {
        assert chunks[..i + 1][..i] == chunks[..i];
        var selected := SelectChunk(chunks[i]);
        ExtremesOfChunks(rows, Flatten(chunks[..i]), chunks[i], selected, first, last);
        rowIds := RecordRowIds(rowIds, selected);
        forall e: Event | e in chunks[i] && HasId(rows, e.id) ensures e.id in rowIds {
          var k :| 0 <= k < |rows| && rows[k].event.id == e.id;
          assert Selected(rows, chunks[i], rows[k]);
        }
        if |selected| > 0 {
          if first.None? || selected[0].rowId < first.value { first := Some(selected[0].rowId); }
          var chunkLast := selected[|selected| - 1].rowId;
          if last.None? || chunkLast > last.value { last := Some(chunkLast); }
        }
      }
      assert chunks[..|chunks|] == chunks;
      forall e | e in candidates && e.id in rowIds ensures HasId(rows, e.id) {
        RowIdOfPresent(rows, e.id);
      }
    }

    method SelectChunk(chunk: seq<Event>) returns (selected: seq<Row>)
      requires Valid()
      ensures Ascending(selected) && forall r :: r in selected <==> Selected(rows, chunk, r)
    {
      var ids := set e | e in chunk :: e.id;
      selected := SelectByIds(rows, ids);
      SelectedRows(rows, ids);
    }

    method RecordRowIds(before: map<string, nat>, selected: seq<Row>) returns (rowIds: map<string, nat>)
      requires Valid() && (forall r :: r in selected ==> r in rows)
      requires forall id :: id in before ==> RowIdOf(rows, id) == Some(before[id])
      ensures forall id :: id in rowIds ==> RowIdOf(rows, id) == Some(rowIds[id])
      ensures forall id :: id in before ==> id in rowIds
      ensures forall r :: r in selected ==> r.event.id in rowIds
    {
      rowIds := before;
      for j := 0 to |selected|
        invariant forall id :: id in rowIds ==> RowIdOf(rows, id) == Some(rowIds[id])
        invariant forall id :: id in before ==> id in rowIds
        invariant forall k :: 0 <= k < j ==> selected[k].event.id in rowIds
      {
        assert selected[j] in selected;
        var k :| 0 <= k < |rows| && rows[k] == selected[j];
        RowIdOfRow(rows, k);
        rowIds := rowIds[selected[j].event.id := selected[j].rowId];
      }
    }
  }

  /** Without deduplication the first event of an id wins, so the batch differs from inserting every event as given. */
  lemma LastEventWinsInBatch()
    ensures var a, b := Event("1", "p", "k", "x", "old"), Event("1", "p", "k", "x", "new");
            && InsertAll([], UniqueEvents([a, b])) == [Row(1, b)]
            && InsertAll([], [a, b]) == [Row(1, a)]
  {
    var a, b := Event("1", "p", "k", "x", "old"), Event("1", "p", "k", "x", "new");
    assert [a, b][..1] == [a] && [a][..0] == [];
    assert UniqueEvents([a]) == [a];
    assert UniqueEvents([a, b]) == [b];
    assert InsertAll([], [a]) == [Row(1, a)] && InsertAll([], [b]) == [Row(1, b)];
    assert Conflicts([Row(1, a)][0].event, b);
  }

  /** With distinct ids there is nothing to deduplicate and the two agree. */
  lemma {:induction false} DistinctIdsNeedNoDeduplication(es: seq<Event>)
    requires UniqueIds(es)
    ensures UniqueEvents(es) == es
  {
    if es != [] {
      DistinctIdsNeedNoDeduplication(es[..|es| - 1]);
      PutNew(es[..|es| - 1], es[|es| - 1]);
    }
  }

  lemma {:induction false} PutNew(es: seq<Event>, e: Event)
    requires forall i :: 0 <= i < |es| ==> es[i].id != e.id
    ensures Put(es, e) == es + [e]
  {
    if es != [] { PutNew(es[1..], e); }
  }
}
