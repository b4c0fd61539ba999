/**
 * A batch of raw events is deduplicated by id before it is inserted: exactly when that makes no difference to inserting
 * the events one by one as given.
 */
module RawEventRepeats {
  import opened Prelude
  import opened RawEvents

  /** A table as the two uniqueness rules leave it. */
  ghost predicate Consistent(t: Table) {
    Ascending(t) && forall i, j :: 0 <= i < j < |t| ==> !Conflicts(t[i].event, t[j].event)
  }

  predicate SameKey(a: Event, b: Event) {
    a.platform == b.platform && a.accountKey == b.accountKey && a.dedupeKey == b.dedupeKey
  }

  ghost predicate IsFirstWithId(es: seq<Event>, x: Event) {
    exists i :: 0 <= i < |es| && es[i] == x && forall j :: 0 <= j < i ==> es[j].id != x.id
  }

  ghost predicate KeysAgree(es: seq<Event>) {
    forall a, b :: a in es && b in es && a.id == b.id ==> SameKey(a, b)
  }

  /** Events that share an id share their dedupe key, and the first and the last of each id are equal. */
  ghost predicate RepeatsAgree(es: seq<Event>) {
    && KeysAgree(es)
    && (forall a, b :: IsFirstWithId(es, a) && IsLastWithId(es, b) && a.id == b.id ==> a == b)
  }

  predicate Mentions(es: seq<Event>, id: string) {
    exists e | e in es :: e.id == id
  }

  /** The first event given with each id. */
  function Firsts(es: seq<Event>): seq<Event> {
    if es == [] then []
    else
      var front, e := Firsts(es[..|es| - 1]), es[|es| - 1];
      if Mentions(front, e.id) then front else front + [e]
  }

  // ------------------------------------------------ agreement suffices

  lemma BlockedLater(t: Table, r: Row, e: Event)
    requires Blocked(t, e)
    ensures Blocked(t + [r], e)
  {
    var i :| 0 <= i < |t| && Conflicts(t[i].event, e);
    assert (t + [r])[i] == t[i];
  }

  lemma BlockedAlike(t: Table, a: Event, b: Event)
    requires Blocked(t, a) && a.id == b.id && SameKey(a, b)
    ensures Blocked(t, b)
  {
  }

  lemma InsertedBlocks(t: Table, e: Event)
    ensures Blocked(InsertOne(t, e), e)
    ensures forall x :: Blocked(t, x) ==> Blocked(InsertOne(t, e), x)
  {
    if !Blocked(t, e) {
      var t' := t + [Row(NextRowId(t), e)];
      assert t'[|t|].event == e;
      forall x | Blocked(t, x) ensures Blocked(t', x) { BlockedLater(t, Row(NextRowId(t), e), x); }
    }
  }

  lemma FirstsMembers(es: seq<Event>)
    ensures forall f :: f in Firsts(es) ==> f in es
    ensures forall e :: e in es ==> Mentions(Firsts(es), e.id)
  {
    if es != [] {
      var front, e := es[..|es| - 1], es[|es| - 1];
      assert es == front + [e];
      FirstsMembers(front);
      forall x | x in es ensures Mentions(Firsts(es), x.id) {
        if x in front {
          var f :| f in Firsts(front) && f.id == x.id;
          assert f in Firsts(es);
        } else if !Mentions(Firsts(front), e.id) {
          assert e in Firsts(es);
        }
      }
    }
  }

  lemma {:induction false} FirstsSuffice(t: Table, es: seq<Event>)
    requires KeysAgree(es)
    ensures InsertAll(t, es) == InsertAll(t, Firsts(es))
    ensures forall e :: e in es ==> Blocked(InsertAll(t, es), e)
  {
    if es != [] {
      hide Blocked, InsertOne;
      var front, e := es[..|es| - 1], es[|es| - 1];
      assert es == front + [e];
      FirstsSuffice(t, front);
      FirstsMembers(front);
      var after := InsertAll(t, front);
      InsertedBlocks(after, e);
      if Mentions(Firsts(front), e.id) {
        var f :| f in Firsts(front) && f.id == e.id;
        BlockedAlike(after, f, e);
        BlockedStays(after, e);
      } else {
        assert (Firsts(front) + [e])[..|Firsts(front)|] == Firsts(front);
      }
    }
  }

  lemma BlockedStays(t: Table, e: Event)
    requires Blocked(t, e)
    ensures InsertOne(t, e) == t
  {
  }

  lemma {:induction false} PutPresent(es: seq<Event>, e: Event)
    requires Mentions(es, e.id)
    ensures |Put(es, e)| == |es| && forall i :: 0 <= i < |es| ==> Put(es, e)[i].id == es[i].id
  {
    if es[0].id != e.id {
      var x :| x in es && x.id == e.id;
      assert x in es[1..];
      PutPresent(es[1..], e);
    }
  }

  /** Both lists have the same ids in the same order. */
  lemma {:induction false} SameIdsInOrder(es: seq<Event>)
    ensures |UniqueEvents(es)| == |Firsts(es)|
    ensures forall i :: 0 <= i < |Firsts(es)| ==> UniqueEvents(es)[i].id == Firsts(es)[i].id
  {
    if es != [] {
      var front, e := es[..|es| - 1], es[|es| - 1];
      SameIdsInOrder(front);
      var us, fs := UniqueEvents(front), Firsts(front);
      if Mentions(fs, e.id) {
        var i :| 0 <= i < |fs| && fs[i].id == e.id;
        assert us[i] in us;
        PutPresent(us, e);
      } else {
        forall i | 0 <= i < |us| ensures us[i].id != e.id { assert fs[i] in fs; }
        PutNew(us, e);
      }
    }
  }

  lemma FirstInFront(es: seq<Event>, e: Event, x: Event)
    requires IsFirstWithId(es, x)
    ensures IsFirstWithId(es + [e], x)
  {
    var i :| 0 <= i < |es| && es[i] == x && forall j :: 0 <= j < i ==> es[j].id != x.id;
    assert (es + [e])[i] == x && forall j :: 0 <= j < i ==> (es + [e])[j] == es[j];
  }

  lemma {:induction false} FirstsAreFirst(es: seq<Event>)
    ensures forall x :: x in Firsts(es) ==> IsFirstWithId(es, x)
  {
    if es != [] {
      hide IsFirstWithId;
      var front, e := es[..|es| - 1], es[|es| - 1];
      assert es == front + [e];
      FirstsAreFirst(front);
      FirstsMembers(front);
      forall x | x in Firsts(es) ensures IsFirstWithId(es, x) {
        if x in Firsts(front) { FirstInFront(front, e, x); } else { NewIsFirst(front, e); }
      }
    }
  }

  lemma NewIsFirst(es: seq<Event>, e: Event)
    requires !Mentions(Firsts(es), e.id)
    ensures IsFirstWithId(es + [e], e)
  {
    FirstsMembers(es);
    assert forall j :: 0 <= j < |es| ==> es[j] in es && (es + [e])[j] == es[j];
    assert (es + [e])[|es|] == e;
  }

  lemma AgreementSuffices(t: Table, es: seq<Event>)
    requires RepeatsAgree(es)
    ensures InsertAll(t, UniqueEvents(es)) == InsertAll(t, es)
  {
    hide IsFirstWithId, IsLastWithId;
    FirstsSuffice(t, es);
    SameIdsInOrder(es);
    FirstsAreFirst(es);
    UniqueEventsAreLast(es);
    var us, fs := UniqueEvents(es), Firsts(es);
    forall i | 0 <= i < |fs| ensures us[i] == fs[i] {
      assert us[i] in us && fs[i] in fs;
    }
    assert us == fs;
  }

  // -------------------------------------------------- and is needed

  /** A text that no event has as its id or dedupe key. */
  function Fresh(es: seq<Event>): string {
    if es == [] then "x" else Fresh(es[..|es| - 1]) + es[|es| - 1].id + es[|es| - 1].dedupeKey
  }

  lemma {:induction false} FreshIsNew(es: seq<Event>)
    ensures forall e :: e in es ==> |e.id| < |Fresh(es)| && |e.dedupeKey| < |Fresh(es)|
    ensures Fresh(es) != ""
  {
    if es != [] {
      assert es == es[..|es| - 1] + [es[|es| - 1]];
      FreshIsNew(es[..|es| - 1]);
    }
  }

  function Blocker(id: string, unused: string): Event {
    Event(id, "", id, unused, "")
  }

  /** One event for every id but one. */
  function Blockers(fs: seq<Event>, id: string, unused: string): seq<Event> {
    if fs == [] then []
    else
      var front, f := Blockers(fs[..|fs| - 1], id, unused), fs[|fs| - 1];
      if f.id == id || Mentions(front, f.id) then front else front + [Blocker(f.id, unused)]
  }

  lemma {:induction false} BlockersCover(fs: seq<Event>, id: string, unused: string)
    ensures forall b :: b in Blockers(fs, id, unused) ==> b.id != id && b == Blocker(b.id, unused) && Mentions(fs, b.id)
    ensures forall f :: f in fs && f.id != id ==> Mentions(Blockers(fs, id, unused), f.id)
    ensures UniqueIds(Blockers(fs, id, unused))
  {
    if fs != [] {
      var front, f := fs[..|fs| - 1], fs[|fs| - 1];
      assert fs == front + [f];
      BlockersCover(front, id, unused);
      var bs, all := Blockers(front, id, unused), Blockers(fs, id, unused);
      forall b | b in all ensures Mentions(fs, b.id) {
        if b in bs {
          var x :| x in front && x.id == b.id;
          assert x in fs;
        } else {
          assert f in fs;
        }
      }
      forall x | x in fs && x.id != id ensures Mentions(all, x.id) {
        if x in front {
          var b :| b in bs && b.id == x.id;
          assert b in all;
        } else if all != bs {
          assert all[|bs|] in all;
        }
      }
      if all != bs { assert forall i :: 0 <= i < |bs| ==> bs[i] in bs; }
    }
  }

  function AsTable(es: seq<Event>): (t: Table)
    ensures |t| == |es| && forall i :: 0 <= i < |es| ==> t[i] == Row(i + 1, es[i])
  {
    seq(|es|, i requires 0 <= i < |es| => Row(i + 1, es[i]))
  }

  /** The first event the table does not block. */
  function FirstOpen(t: Table, es: seq<Event>): Option<Event> {
    if es == [] then None
    else
      var front := FirstOpen(t, es[..|es| - 1]);
      if front.Some? then front else if Blocked(t, es[|es| - 1]) then None else Some(es[|es| - 1])
  }

  lemma {:induction false} FirstOpenIsFirst(t: Table, es: seq<Event>) returns (i: nat)
    ensures FirstOpen(t, es).None? ==> forall e :: e in es ==> Blocked(t, e)
    ensures FirstOpen(t, es).Some? ==>
              && i < |es| && FirstOpen(t, es) == Some(es[i]) && !Blocked(t, es[i])
              && forall j :: 0 <= j < i ==> Blocked(t, es[j])
  {
    hide Blocked;
    i := 0;
    if es != [] {
      var front := es[..|es| - 1];
      assert es == front + [es[|es| - 1]];
      i := FirstOpenIsFirst(t, front);
      if FirstOpen(t, front).None? {
        i := |es| - 1;
        assert forall j :: 0 <= j < i ==> es[j] in front;
      } else {
        assert forall j :: 0 <= j <= i ==> es[j] == front[j];
      }
    }
  }

  /** Where all other ids are blocked, a batch inserts the first event not blocked, and no more. */
  lemma {:induction false} OnlyOneId(t: Table, es: seq<Event>, id: string)
    requires forall e :: e in es && e.id != id ==> Blocked(t, e)
    ensures InsertAll(t, es) == if FirstOpen(t, es).None? then t else t + [Row(NextRowId(t), FirstOpen(t, es).value)]
  {
    if es != [] {
      hide Blocked;
      var front, e := es[..|es| - 1], es[|es| - 1];
      assert es == front + [e] && e in es;
      assert forall x :: x in front ==> x in es;
      OnlyOneId(t, front, id);
      if FirstOpen(t, front).Some? {
        var i := FirstOpenIsFirst(t, front);
        assert front[i] in front;
        var r := Row(NextRowId(t), front[i]);
        if e.id == id { SameIdBlocks(t, r, e); } else { BlockedLater(t, r, e); }
        BlockedStays(t + [r], e);
      } else {
        InsertOpen(t, e);
      }
    }
  }

  lemma SameIdBlocks(t: Table, r: Row, e: Event)
    requires r.event.id == e.id
    ensures Blocked(t + [r], e)
  {
    assert (t + [r])[|t|] == r;
  }

  lemma InsertOpen(t: Table, e: Event)
    ensures InsertOne(t, e) == if Blocked(t, e) then t else t + [Row(NextRowId(t), e)]
  {
  }

  lemma BlockedInTable(all: seq<Event>, e: Event)
    ensures Blocked(AsTable(all), e) <==> exists b :: b in all && Conflicts(b, e)
  {
    var t := AsTable(all);
    if Blocked(t, e) {
      var i :| 0 <= i < |t| && Conflicts(t[i].event, e);
      assert all[i] in all;
    }
    if b :| b in all && Conflicts(b, e) {
      var i :| 0 <= i < |all| && all[i] == b;
      assert t[i].event == b;
    }
  }

  lemma ConsistentTable(head: seq<Event>, bs: seq<Event>, unused: string)
    requires |head| <= 1 && UniqueIds(bs) && forall b :: b in bs ==> b == Blocker(b.id, unused) && b.id != unused
    requires forall h :: h in head ==> h.id == unused && h.dedupeKey != unused
    ensures Consistent(AsTable(head + bs))
  {
    var all := head + bs;
    forall i, j | 0 <= i < j < |all| ensures !Conflicts(all[i], all[j]) {
      assert all[j] == bs[j - |head|] && all[j] in bs;
      if i >= |head| {
        assert all[i] == bs[i - |head|] && all[i] in bs;
      } else {
        assert all[i] in head;
      }
    }
  }

  /**
   * A consistent table that blocks every id of the batch but one, and of that id exactly the events with a given key.
   */
  lemma Isolating(es: seq<Event>, id: string, key: Option<Event>) returns (t: Table)
    requires key.Some? ==> key.value in es
    ensures Consistent(t)
    ensures forall e :: e in es && e.id != id ==> Blocked(t, e)
    ensures forall e :: e in es && e.id == id ==> (Blocked(t, e) <==> key.Some? && SameKey(key.value, e))
  {
    hide Consistent, Blocked, Blockers, AsTable, Mentions, Fresh;
    var unused := Fresh(es);
    FreshIsNew(es);
    var bs := Blockers(es, id, unused);
    BlockersCover(es, id, unused);
    var head := if key.Some? then [key.value.(id := unused)] else [];
    forall b | b in bs ensures b.id != unused { MentionedIsShort(es, b.id, unused); }
    ConsistentTable(head, bs, unused);
    t := AsTable(head + bs);
    forall e | e in es && e.id != id ensures Blocked(t, e) {
      var b := Mentioned(bs, e.id);
      assert b in head + bs && Conflicts(b, e);
      BlockedInTable(head + bs, e);
    }
    forall e | e in es && e.id == id ensures Blocked(t, e) <==> key.Some? && SameKey(key.value, e) {
      BlockedInTable(head + bs, e);
      if key.Some? && SameKey(key.value, e) { assert head[0] in head + bs && Conflicts(head[0], e); }
      assert e.dedupeKey != unused && e.id != unused;
    }
  }

  lemma MentionedIsShort(es: seq<Event>, id: string, unused: string)
    requires Mentions(es, id) && forall e :: e in es ==> |e.id| < |unused|
    ensures id != unused
  {
  }

  lemma Mentioned(es: seq<Event>, id: string) returns (e: Event)
    requires Mentions(es, id)
    ensures e in es && e.id == id
  {
    e :| e in es && e.id == id;
  }

  lemma FirstsEqual(es: seq<Event>, a: Event, b: Event)
    requires IsFirstWithId(es, a) && IsFirstWithId(es, b) && a.id == b.id
    ensures a == b
  {
  }

  lemma LastsEqual(es: seq<Event>, a: Event, b: Event)
    requires IsLastWithId(es, a) && IsLastWithId(es, b) && a.id == b.id
    ensures a == b
  {
  }

  /** When first and last of an id differ, a table that blocks the other ids tells batch and one by one apart. */
  lemma DifferentEndsShow(es: seq<Event>, a: Event, b: Event) returns (t: Table)
    requires IsFirstWithId(es, a) && IsLastWithId(es, b) && a.id == b.id && a != b
    ensures Consistent(t) && InsertAll(t, UniqueEvents(es)) != InsertAll(t, es)
  {
    hide Blocked, Consistent, Conflicts;
    t := Isolating(es, a.id, None);
    var us := UniqueEvents(es);
    UniqueEventsAreLast(es);
    forall u | u in us ensures u in es { assert IsLastWithId(es, u); }
    OnlyOneId(t, es, a.id);
    OnlyOneId(t, us, a.id);
    var i := FirstOpenIsFirst(t, es);
    assert a in es && b in us && b in es;
    assert forall j :: 0 <= j < |es| ==> es[j] in es;
    assert IsFirstWithId(es, es[i]) by { assert forall j :: 0 <= j < i ==> es[j].id != a.id; }
    FirstsEqual(es, a, es[i]);
    var k := FirstOpenIsFirst(t, us);
    assert us[k] in us;
    LastsEqual(es, b, us[k]);
    var n := NextRowId(t);
    assert (t + [Row(n, a)])[|t|] != (t + [Row(n, b)])[|t|];
  }

  /** When first and last are equal but another event of the id has another key, a table with that first key does. */
  lemma DifferentKeysShow(es: seq<Event>, f: Event, e: Event) returns (t: Table)
    requires IsFirstWithId(es, f) && IsLastWithId(es, f) && e in es && e.id == f.id && !SameKey(f, e)
    ensures Consistent(t) && InsertAll(t, UniqueEvents(es)) != InsertAll(t, es)
  {
    hide Blocked, Consistent, Conflicts;
    t := Isolating(es, f.id, Some(f));
    var us := UniqueEvents(es);
    UniqueEventsAreLast(es);
    forall u | u in us ensures u in es && Blocked(t, u) {
      assert IsLastWithId(es, u);
      if u.id == f.id { LastsEqual(es, f, u); }
    }
    OnlyOneId(t, es, f.id);
    OnlyOneId(t, us, f.id);
    var i := FirstOpenIsFirst(t, es);
    assert forall j :: 0 <= j < |us| ==> us[j] in us;
    var k := FirstOpenIsFirst(t, us);
  }

  lemma {:induction false} EndsExist(es: seq<Event>, e: Event) returns (f: Event, l: Event)
    requires e in es
    ensures IsFirstWithId(es, f) && IsLastWithId(es, l) && f.id == l.id == e.id
  {
    FirstsMembers(es);
    FirstsAreFirst(es);
    f :| f in Firsts(es) && f.id == e.id;
    SameIdsInOrder(es);
    UniqueEventsAreLast(es);
    var i :| 0 <= i < |Firsts(es)| && Firsts(es)[i] == f;
    l := UniqueEvents(es)[i];
    assert l in UniqueEvents(es);
  }

  lemma DisagreementShows(es: seq<Event>) returns (t: Table)
    requires !RepeatsAgree(es)
    ensures Consistent(t) && InsertAll(t, UniqueEvents(es)) != InsertAll(t, es)
  {
    hide IsFirstWithId, IsLastWithId;
    if a, b :| IsFirstWithId(es, a) && IsLastWithId(es, b) && a.id == b.id && a != b {
      t := DifferentEndsShow(es, a, b);
    } else {
      var a, b :| a in es && b in es && a.id == b.id && !SameKey(a, b);
      var f, l := EndsExist(es, a);
      t := DifferentKeysShow(es, f, if SameKey(f, a) then b else a);
    }
  }

  /**
   * Deduplicating a batch makes no difference on any table exactly when events that share an id share their dedupe key
   * and the first and the last of each id are equal.
   */
  lemma DeduplicationNeutralIff(es: seq<Event>)
    ensures (forall t: Table :: Consistent(t) ==> InsertAll(t, UniqueEvents(es)) == InsertAll(t, es))
        <==> RepeatsAgree(es)
  {
    if RepeatsAgree(es) {
      forall t: Table ensures InsertAll(t, UniqueEvents(es)) == InsertAll(t, es) { AgreementSuffices(t, es); }
    } else {
      var t := DisagreementShows(es);
    }
  }
}
