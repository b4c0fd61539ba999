/**
 * The WhatsApp cache's message rows: upserts, receipts and history batches, and what no run of them can undo.
 */
module MessageStore {
  import opened Prelude
  import opened ResyncPaging
  import opened ResyncSweep

  /** The columns every upsert simply overwrites. */
  datatype Details = Details(
    sender: Option<string>, participant: Option<string>, fromMe: bool, pushName: Option<string>,
    replyToId: Option<string>, replyToSender: Option<string>, isForwarded: bool, forwardingScore: Option<nat>)

  datatype Body = Body(
    details: Details, text: string, status: Option<string>, deliveredAt: Option<int>, readAt: Option<int>,
        revoked: bool)

  type MessageTable = Table<Body>

  /** An incoming message; its chat JID is already in normal form. */
  datatype Message = Message(key: Key, timestamp: int, body: Body)

  datatype Receipt = Receipt(key: Key, status: Option<string>, deliveredAt: Option<int>, readAt: Option<int>)

  /** Blank text is stored as NULL. */
  function NullableString(s: Option<string>): Option<string> {
    if s.Some? && IsBlank(s.value) then None else s
  }

  function StoredDetails(d: Details): Details {
    d.(sender := NullableString(d.sender), participant := NullableString(d.participant),
        pushName := NullableString(d.pushName),
    replyToId := NullableString(d.replyToId), replyToSender := NullableString(d.replyToSender))
  }

  /** The row an upsert leaves, from the row it finds. */
  function Merged(found: Option<Stored<Body>>, m: Message, at: int): Stored<Body> {
    var b := m.body.(details := StoredDetails(m.body.details), status := NullableString(m.body.status));
    match found
    case None => Stored(m.timestamp, at, b)
    case Some(r) =>
      Stored(m.timestamp, at, b.(
      text := if r.payload.revoked then r.payload.text else b.text,
      deliveredAt := Coalesce(b.deliveredAt, r.payload.deliveredAt),
      readAt := Coalesce(b.readAt, r.payload.readAt),
      revoked := r.payload.revoked || b.revoked))
  }

  function Lookup<P>(t: Table<P>, k: Key): Option<Stored<P>> {
    if k in t then Some(t[k]) else None
  }

  function Upsert(t: MessageTable, m: Message, at: int): MessageTable {
    t[m.key := Merged(Lookup(t, m.key), m, at)]
  }

  function ApplyReceipt(t: MessageTable, r: Receipt, at: int): MessageTable {
    if r.key !in t then t else
    var row := t[r.key];
    var b := row.payload;
    t[r.key := Stored(row.timestamp, at, b.(
    status := Coalesce(NullableString(r.status), b.status),
    deliveredAt := Coalesce(r.deliveredAt, b.deliveredAt),
    readAt := Coalesce(r.readAt, b.readAt)))]
  }

  /** A snapshot transaction upserts its messages in order, each with its own clock reading. */
  function UpsertAll(t: MessageTable, ms: seq<Message>, clock: nat -> int): MessageTable {
    if ms == [] then t else Upsert(UpsertAll(t, ms[..|ms| - 1], clock), ms[|ms| - 1], clock(|ms| - 1))
  }

  // ------------------------------------------------------ revoked resends

  datatype Alias = Alias(lid: string, pn: string)

  /** The keys under which a message may already be stored: its own and those of its chat's aliases. */
  function StoredKeys(m: Message, aliases: seq<Alias>): seq<Key> {
    if aliases == [] then [m.key]
    else
      var a := aliases[|aliases| - 1];
      StoredKeys(m, aliases[..|aliases| - 1])
      + (if m.key.chat == a.lid then [Key(a.pn, m.key.id)] else [])
      + (if m.key.chat == a.pn then [Key(a.lid, m.key.id)] else [])
  }

  predicate RowRevoked(t: MessageTable, k: Key) {
    k in t && t[k].payload.revoked
  }

  predicate SeenRevoked(t: MessageTable, m: Message, aliases: seq<Alias>) {
    exists k | k in StoredKeys(m, aliases) :: RowRevoked(t, k)
  }

  predicate Keeps(t: MessageTable, m: Message, aliases: seq<Alias>) {
    m.body.revoked || !SeenRevoked(t, m, aliases)
  }

  function Kept(t: MessageTable, ms: seq<Message>, aliases: seq<Alias>): (kept: seq<Message>)
    ensures |kept| <= |ms|
  {
    if ms == [] then []
    else
      Kept(t, ms[..|ms| - 1], aliases) + (if Keeps(t, ms[|ms| - 1], aliases) then [ms[|ms| - 1]] else [])
  }

  datatype Batch = Batch(messages: seq<Message>, aliases: seq<Alias>)

  /** One history batch: drop delayed originals of revoked messages, then store the rest in one transaction. */
  function ApplyBatch(t: MessageTable, b: Batch, clock: nat -> int): MessageTable {
    UpsertAll(t, Kept(t, b.messages, b.aliases), clock)
  }

  class MessageCache {
    var messages: MessageTable

    constructor ()
      ensures messages == map[]
    {
      messages := map[];
    }

    method UpsertMessage(m: Message, now: int)
      modifies this
      ensures messages == Upsert(old(messages), m, now)
    {
      var found := Lookup(messages, m.key);
      var stored := Stored(m.timestamp, now,
          m.body.(details := StoredDetails(m.body.details), status := NullableString(m.body.status)));
      if found.Some? {
        var b := found.value.payload;
        var n := stored.payload;
        stored := stored.(payload := n.(
          text := if b.revoked then b.text else n.text,
          deliveredAt := if n.deliveredAt.Some? then n.deliveredAt else b.deliveredAt,
          readAt := if n.readAt.Some? then n.readAt else b.readAt,
          revoked := n.revoked || b.revoked));
      }
      messages := messages[m.key := stored];
    }

    method ReceiptArrives(r: Receipt, now: int)
      modifies this
      ensures messages == ApplyReceipt(old(messages), r, now)
    {
      if r.key in messages {
        var row := messages[r.key];
        var status := NullableString(r.status);
        var b := row.payload;
        if status.Some? { b := b.(status := status); }
        if r.deliveredAt.Some? { b := b.(deliveredAt := r.deliveredAt); }
        if r.readAt.Some? { b := b.(readAt := r.readAt); }
        messages := messages[r.key := Stored(row.timestamp, now, b)];
      }
    }

    /** The transaction either commits all upserts or, when a statement fails, none. */
    method ApplySnapshot(ms: seq<Message>, clock: nat -> int, failsAt: Option<nat>) returns (ok: bool)
      modifies this
      ensures ok <==> failsAt.None? || failsAt.value >= |ms|
      ensures messages == if ok then UpsertAll(old(messages), ms, clock) else old(messages)
    {
      var before := messages;
      for i := 0 to |ms|
        invariant messages == UpsertAll(before, ms[..i], clock)
        invariant failsAt.Some? ==> i <= failsAt.value
      {
        if failsAt == Some(i) {
          messages := before;
          return false;
        }
        UpsertMessage(ms[i], clock(i));
        assert ms[..i + 1][..i] == ms[..i];
      }
      assert ms[..|ms|] == ms;
      ok := true;
    }

    /** Asks for one key after the other; the query with index `failsAt` fails, if it is reached. */
    method IsMessageRevoked(m: Message, aliases: seq<Alias>, failsAt: Option<nat>) returns (revoked: bool, ok: bool)
      ensures var keys := StoredKeys(m, aliases);
              ok <==> failsAt.None? || failsAt.value >= |keys|
                      || exists i :: 0 <= i < failsAt.value && RowRevoked(messages, keys[i])
      ensures ok ==> revoked == SeenRevoked(messages, m, aliases)
    {
      var keys := [m.key];
      for i := 0 to |aliases|
        invariant keys == StoredKeys(m, aliases[..i])
      {
        var alias := aliases[i];
        assert aliases[..i + 1][..i] == aliases[..i];
        if m.key.chat == alias.lid { keys := keys + [Key(alias.pn, m.key.id)]; }
        if m.key.chat == alias.pn { keys := keys + [Key(alias.lid, m.key.id)]; }
      }
      assert aliases[..|aliases|] == aliases;
      for i := 0 to |keys|
        invariant forall j :: 0 <= j < i ==> !RowRevoked(messages, keys[j])
        invariant failsAt.Some? ==> i <= failsAt.value
      {
        if failsAt == Some(i) { return false, false; }
        if keys[i] in messages && messages[keys[i]].payload.revoked {
          assert RowRevoked(messages, keys[i]);
          return true, true;
        }
      }
      return false, true;
    }

    /**
     * Compacts the batch in place: `a[..n]` is what is kept, written over entries already read. The check of the i-th
     * message fails at its query `failsAt(i)`, if that is reached; the first failure ends the pass.
     */
    method FilterRevokedResends(a: array<Message>, aliases: seq<Alias>, failsAt: nat -> Option<nat>)
      returns (n: nat, ok: bool)
      requires a as object != this
      modifies a
      ensures n <= a.Length && (ok ==> a[..n] == Kept(messages, old(a[..]), aliases))
      ensures (forall i: nat :: failsAt(i).None?) ==> ok
    {
      n, ok := 0, true;
      ghost var was := a[..];
      for i := 0 to a.Length
        invariant n <= i
        invariant a[..n] == Kept(messages, was[..i], aliases)
        invariant forall j :: i <= j < a.Length ==> a[j] == was[j]
      {
        var m := a[i];
        assert m == was[i] && was[..i + 1][..i] == was[..i];
        var drop := false;
        if !m.body.revoked {
          drop, ok := IsMessageRevoked(m, aliases, failsAt(i));
          if !ok { return; }
        }
        if !drop {
          a[n] := m;
          n := n + 1;
        }
      }
      assert was[..a.Length] == was;
      ok := true;
    }
  }

  // ---------------------------------------------- what no run can undo

  datatype Op = OpUpsert(m: Message, at: int) | OpReceipt(r: Receipt, at: int) | OpBatch(b: Batch, clock: nat -> int)

  function Apply(t: MessageTable, op: Op): MessageTable {
    match op
    case OpUpsert(m, at) => Upsert(t, m, at)
    case OpReceipt(r, at) => ApplyReceipt(t, r, at)
    case OpBatch(b, clock) => ApplyBatch(t, b, clock)
  }

  function Run(t: MessageTable, ops: seq<Op>): MessageTable
    decreases |ops|
  {
    if ops == [] then t else Run(Apply(t, ops[0]), ops[1..])
  }

  /** Rows stay; revocations stay and freeze the text; delivery and read times are never lost. */
  ghost predicate Keeping(t: MessageTable, t': MessageTable) {
    forall k :: k in t ==>
      && k in t'
      && var b, b' := t[k].payload, t'[k].payload;
      && (b.revoked ==> b'.revoked && b'.text == b.text)
      && (b.deliveredAt.Some? ==> b'.deliveredAt.Some?)
      && (b.readAt.Some? ==> b'.readAt.Some?)
  }

  lemma {:induction false} UpsertAllKeeps(t: MessageTable, ms: seq<Message>, clock: nat -> int)
    ensures Keeping(t, UpsertAll(t, ms, clock))
  {
    if ms != [] { UpsertAllKeeps(t, ms[..|ms| - 1], clock); }
  }

  /** Under every run of upserts, receipts and history batches. */
  lemma {:induction false} RunKeeps(t: MessageTable, ops: seq<Op>)
    ensures Keeping(t, Run(t, ops))
    decreases |ops|
  {
    if ops != [] {
      var t' := Apply(t, ops[0]);
      if ops[0].OpBatch? { UpsertAllKeeps(t, Kept(t, ops[0].b.messages, ops[0].b.aliases), ops[0].clock); }
      RunKeeps(t', ops[1..]);
    }
  }

  /** Every store operation whose clock reads above a sweep's snapshot is a writer step of that sweep. */
  lemma {:induction false} OpsAreWriterSteps(t: MessageTable, ms: seq<Message>, clock: nat -> int, snapshot: int)
    requires forall i: nat :: clock(i) > snapshot
    ensures WriterStep(t, UpsertAll(t, ms, clock), snapshot)
    ensures forall r: Receipt, at: int :: at > snapshot ==> WriterStep(t, ApplyReceipt(t, r, at), snapshot)
  {
    if ms != [] { OpsAreWriterSteps(t, ms[..|ms| - 1], clock, snapshot); }
  }

  // ------------------------------------------------------------- replay

  predicate SameRow(r: Stored<Body>, r': Stored<Body>) {
    r.timestamp == r'.timestamp && r.payload == r'.payload
  }

  /** Equal but for `updated_at`. */
  ghost predicate SameContent(t: MessageTable, t': MessageTable) {
    t.Keys == t'.Keys && forall k :: k in t ==> SameRow(t[k], t'[k])
  }

  ghost predicate DistinctKeys(ms: seq<Message>) {
    forall i, j :: 0 <= i < j < |ms| ==> ms[i].key != ms[j].key
  }

  lemma {:induction false} KeptSubsequence(t: MessageTable, ms: seq<Message>, aliases: seq<Alias>)
    requires DistinctKeys(ms)
    ensures var kept := Kept(t, ms, aliases);
            && DistinctKeys(kept)
            && forall m :: m in kept <==> m in ms && Keeps(t, m, aliases)
  {
    if ms != [] {
      var front, last := ms[..|ms| - 1], ms[|ms| - 1];
      KeptSubsequence(t, front, aliases);
      assert ms == front + [last];
      forall m | m in Kept(t, front, aliases) ensures m.key != last.key {
        assert m in front;
        var i :| 0 <= i < |front| && front[i] == m;
        assert ms[i] == m;
      }
    }
  }

  lemma UpsertLookup(t: MessageTable, m: Message, at: int, k: Key)
    ensures Lookup(Upsert(t, m, at), k) == if k == m.key then Some(Merged(Lookup(t, m.key), m, at)) else Lookup(t, k)
  {
  }

  lemma LastKeyIsNew(ms: seq<Message>)
    requires DistinctKeys(ms) && ms != []
    ensures DistinctKeys(ms[..|ms| - 1])
    ensures forall i :: 0 <= i < |ms| - 1 ==> ms[..|ms| - 1][i] == ms[i] && ms[i].key != ms[|ms| - 1].key
  {
  }

  /** With distinct keys each message merges into the row found before the batch, and nothing else changes. */
  lemma {:induction false} UpsertAllRows(t: MessageTable, ms: seq<Message>, clock: nat -> int)
    requires DistinctKeys(ms)
    ensures var t' := UpsertAll(t, ms, clock);
            && (forall i :: 0 <= i < |ms| ==>
                  Lookup(t', ms[i].key) == Some(Merged(Lookup(t, ms[i].key), ms[i], clock(i))))
            && (forall k :: (forall i :: 0 <= i < |ms| ==> ms[i].key != k) ==> Lookup(t', k) == Lookup(t, k))
  {
    if ms != [] {
      hide Merged, Lookup, Upsert, DistinctKeys;
      var n := |ms| - 1;
      var t1 := UpsertAll(t, ms[..n], clock);
      LastKeyIsNew(ms);
      UpsertAllRows(t, ms[..n], clock);
      forall k ensures Lookup(Upsert(t1, ms[n], clock(n)), k)
                       == if k == ms[n].key then Some(Merged(Lookup(t1, ms[n].key), ms[n], clock(n)))
                           else Lookup(t1, k) {
        UpsertLookup(t1, ms[n], clock(n), k);
      }
    }
  }

  lemma MergeIsIdempotent(found: Option<Stored<Body>>, m: Message, at: int, at': int)
    ensures SameRow(Merged(found, m, at), Merged(Some(Merged(found, m, at)), m, at'))
  {
  }

  predicate Extends(more: seq<Alias>, aliases: seq<Alias>) {
    forall a | a in aliases :: a in more
  }

  predicate GivesKey(a: Alias, own: Key, k: Key) {
    (own.chat == a.lid && k == Key(a.pn, own.id)) || (own.chat == a.pn && k == Key(a.lid, own.id))
  }

  lemma {:induction false} AliasGivesKey(m: Message, aliases: seq<Alias>, k: Key)
    ensures k in StoredKeys(m, aliases) <==> k == m.key || exists a :: a in aliases && GivesKey(a, m.key, k)
  {
    if aliases != [] {
      var front, last := aliases[..|aliases| - 1], aliases[|aliases| - 1];
      assert aliases == front + [last] && last in aliases;
      assert forall a :: a in aliases <==> a in front || a == last;
      AliasGivesKey(m, front, k);
      assert k in StoredKeys(m, aliases) <==> k in StoredKeys(m, front) || GivesKey(last, m.key, k);
    }
  }

  // ------------------------------------------------- rows, column by column

  ghost predicate IsStoredAs(stored: Option<string>, given: Option<string>) {
    if given.Some? && !IsBlank(given.value) then stored == given else stored.None?
  }

  /** What the sender says about a message is taken over as it is, with blanks as NULL. */
  ghost predicate DetailsOf(d: Details, given: Details) {
    && IsStoredAs(d.sender, given.sender) && IsStoredAs(d.participant, given.participant)
    && IsStoredAs(d.pushName, given.pushName)
    && IsStoredAs(d.replyToId, given.replyToId) && IsStoredAs(d.replyToSender, given.replyToSender)
    && d.fromMe == given.fromMe && d.isForwarded == given.isForwarded && d.forwardingScore == given.forwardingScore
  }

  /** The row stored for a message: its own columns, but what the row found already knows of revocation and times. */
  ghost predicate RowOf(row: Stored<Body>, m: Message, found: Option<Stored<Body>>) {
    var b, given := row.payload, m.body;
    && row.timestamp == m.timestamp
    && DetailsOf(b.details, given.details)
    && IsStoredAs(b.status, given.status)
    && (given.deliveredAt.Some? ==> b.deliveredAt == given.deliveredAt)
    && (given.readAt.Some? ==> b.readAt == given.readAt)
    && (found.None? ==> b.text == given.text && b.revoked == given.revoked)
    && (found.None? && given.deliveredAt.None? ==> b.deliveredAt.None?)
    && (found.None? && given.readAt.None? ==> b.readAt.None?)
    && (found.Some? ==>
          var was := found.value.payload;
          && (was.revoked ==> b.text == was.text && b.revoked)
          && (!was.revoked ==> b.text == given.text && b.revoked == given.revoked)
          && (given.deliveredAt.None? ==> b.deliveredAt == was.deliveredAt)
          && (given.readAt.None? ==> b.readAt == was.readAt))
  }

  lemma UpsertedRowHolds(t: MessageTable, m: Message, at: int)
    ensures var t' := Upsert(t, m, at);
            && t'.Keys == t.Keys + {m.key}
            && t'[m.key].updatedAt == at
            && RowOf(t'[m.key], m, Lookup(t, m.key))
            && forall k | k in t && k != m.key :: t'[k] == t[k]
  {
  }

  /** A receipt changes a stored row where it says something, stamps it, and never creates one. */
  lemma ReceiptedRowHolds(t: MessageTable, r: Receipt, at: int)
    ensures var t' := ApplyReceipt(t, r, at);
            && t'.Keys == t.Keys
            && (forall k | k in t && k != r.key :: t'[k] == t[k])
            && (r.key in t ==>
                  var was, row := t[r.key], t'[r.key];
                  var b := row.payload;
                  && row.timestamp == was.timestamp && row.updatedAt == at
                  && b.details == was.payload.details && b.text == was.payload.text
                  && b.revoked == was.payload.revoked
                  && (if r.status.Some? && !IsBlank(r.status.value) then b.status == r.status
                      else b.status == was.payload.status)
                  && b.deliveredAt == (if r.deliveredAt.Some? then r.deliveredAt else was.payload.deliveredAt)
                  && b.readAt == (if r.readAt.Some? then r.readAt else was.payload.readAt))
  {
  }

  /** The key may hold the same message: its id, in the same chat or in one that an alias names alike. */
  ghost predicate SameMessage(own: Key, k: Key, aliases: seq<Alias>) {
    && k.id == own.id
    && (k.chat == own.chat || Alias(own.chat, k.chat) in aliases || Alias(k.chat, own.chat) in aliases)
  }

  lemma StoredKeysAreSameMessages(m: Message, aliases: seq<Alias>, k: Key)
    ensures k in StoredKeys(m, aliases) <==> SameMessage(m.key, k, aliases)
  {
    AliasGivesKey(m, aliases, k);
    if SameMessage(m.key, k, aliases) && k != m.key {
      if Alias(m.key.chat, k.chat) in aliases {
        assert GivesKey(Alias(m.key.chat, k.chat), m.key, k);
      } else {
        assert GivesKey(Alias(k.chat, m.key.chat), m.key, k);
      }
    }
  }

  lemma IndexOfKey(ms: seq<Message>, m: Message) returns (i: nat)
    requires m in ms
    ensures i < |ms| && ms[i] == m
  {
    i :| 0 <= i < |ms| && ms[i] == m;
  }

  lemma SameKeySameMessage(ms: seq<Message>, m: Message, n: Message)
    requires DistinctKeys(ms) && m in ms && n in ms && m.key == n.key
    ensures m == n
  {
  }

  /** The delayed original of a revoked message leaves the row at its key as it is, whichever alias it comes under. */
  lemma DelayedOriginalChangesNothing(t: MessageTable, b: Batch, clock: nat -> int, m: Message, k: Key)
    requires DistinctKeys(b.messages) && m in b.messages && !m.body.revoked
    requires SameMessage(m.key, k, b.aliases) && k in t && t[k].payload.revoked
    ensures Lookup(ApplyBatch(t, b, clock), m.key) == Lookup(t, m.key)
  {
    StoredKeysAreSameMessages(m, b.aliases, k);
    assert RowRevoked(t, k);
    var kept := Kept(t, b.messages, b.aliases);
    KeptSubsequence(t, b.messages, b.aliases);
    UpsertAllRows(t, kept, clock);
    forall i | 0 <= i < |kept| ensures kept[i].key != m.key {
      assert kept[i] in kept;
      if kept[i].key == m.key { SameKeySameMessage(b.messages, m, kept[i]); }
    }
  }

  /** Every other message of the batch is stored with its columns, and a revocation always is. */
  lemma OtherMessagesAreStored(t: MessageTable, b: Batch, clock: nat -> int, m: Message)
    requires DistinctKeys(b.messages) && m in b.messages
    requires m.body.revoked
             || forall k | SameMessage(m.key, k, b.aliases) && k in t :: !t[k].payload.revoked
    ensures var t' := ApplyBatch(t, b, clock);
            && m.key in t'
            && RowOf(t'[m.key], m, Lookup(t, m.key))
            && exists i: nat | i < |b.messages| :: t'[m.key].updatedAt == clock(i)
  {
    if !m.body.revoked {
      forall k | k in StoredKeys(m, b.aliases) ensures !RowRevoked(t, k) {
        StoredKeysAreSameMessages(m, b.aliases, k);
      }
    }
    var kept := Kept(t, b.messages, b.aliases);
    KeptSubsequence(t, b.messages, b.aliases);
    UpsertAllRows(t, kept, clock);
    var i := IndexOfKey(kept, m);
    UpsertedRowHolds(t, m, clock(i));
  }

  /** A batch touches no key but those of its messages. */
  lemma OtherKeysUntouched(t: MessageTable, b: Batch, clock: nat -> int, k: Key)
    requires DistinctKeys(b.messages) && forall m | m in b.messages :: m.key != k
    ensures Lookup(ApplyBatch(t, b, clock), k) == Lookup(t, k)
  {
    var kept := Kept(t, b.messages, b.aliases);
    KeptSubsequence(t, b.messages, b.aliases);
    UpsertAllRows(t, kept, clock);
    assert forall i :: 0 <= i < |kept| ==> kept[i] in kept;
  }

  /** Revocations and known aliases only accumulate, so a message kept later was kept earlier. */
  lemma KeptLaterKeptBefore(t: MessageTable, t1: MessageTable, m: Message, aliases: seq<Alias>, more: seq<Alias>)
    requires Keeping(t, t1) && Extends(more, aliases) && Keeps(t1, m, more)
    ensures Keeps(t, m, aliases)
  {
    if SeenRevoked(t, m, aliases) {
      var k :| k in StoredKeys(m, aliases) && RowRevoked(t, k);
      assert RowRevoked(t1, k);
      AliasGivesKey(m, aliases, k);
      AliasGivesKey(m, more, k);
    }
  }

  lemma ReplayedRow(t: MessageTable, b: Batch, more: seq<Alias>, clock: nat -> int, clock': nat -> int, k: Key)
    requires DistinctKeys(b.messages) && Extends(more, b.aliases)
    ensures var t1 := ApplyBatch(t, b, clock);
            var t2 := ApplyBatch(t1, Batch(b.messages, more), clock');
            Lookup(t2, k).Some? == Lookup(t1, k).Some? && (k in t1 ==> k in t2 && SameRow(t1[k], t2[k]))
  {
    hide Keeping, DistinctKeys, Merged, SameRow, Keeps, Kept, UpsertAll, Extends;
    var kept := Kept(t, b.messages, b.aliases);
    var t1 := UpsertAll(t, kept, clock);
    var kept' := Kept(t1, b.messages, more);
    KeptSubsequence(t, b.messages, b.aliases);
    KeptSubsequence(t1, b.messages, more);
    UpsertAllRows(t, kept, clock);
    UpsertAllRows(t1, kept', clock');
    if j :| 0 <= j < |kept'| && kept'[j].key == k {
      var m := kept'[j];
      assert m in kept';
      UpsertAllKeeps(t, kept, clock);
      KeptLaterKeptBefore(t, t1, m, b.aliases, more);
      assert m in kept;
      var i :| 0 <= i < |kept| && kept[i] == m;
      MergeIsIdempotent(Lookup(t, k), m, clock(i), clock'(j));
    } else {
      SameRowReflexive(t1, k);
    }
  }

  lemma SameRowReflexive(t: MessageTable, k: Key)
    ensures k in t ==> SameRow(t[k], t[k])
  {
  }

  /**
   * Applying a batch again right after it was applied, with no fewer aliases known, changes nothing but `updated_at`.
   */
  lemma ReplayChangesOnlyStamps(t: MessageTable, b: Batch, more: seq<Alias>, clock: nat -> int, clock': nat -> int)
    requires DistinctKeys(b.messages) && Extends(more, b.aliases)
    ensures var t1 := ApplyBatch(t, b, clock);
            SameContent(t1, ApplyBatch(t1, Batch(b.messages, more), clock'))
  {
    hide ApplyBatch, SameRow, Extends;
    var t1 := ApplyBatch(t, b, clock);
    var t2 := ApplyBatch(t1, Batch(b.messages, more), clock');
    forall k ensures (k in t1 <==> k in t2) && (k in t1 ==> SameRow(t1[k], t2[k])) {
      ReplayedRow(t, b, more, clock, clock', k);
    }
  }
}
