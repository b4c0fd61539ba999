/** Keyset positions `(timestamp, chat, id)` in the order SQLite sorts them. */
module KeysetOrder {
  import opened Ordering

  datatype Pos = Pos(timestamp: int, chat: string, id: string)

  /** Lexicographic order of text, SQLite's default collation. */
  predicate LexLess(a: string, b: string) {
    if b == "" then false
    else if a == "" then true
    else if a[0] != b[0] then a[0] < b[0]
    else LexLess(a[1..], b[1..])
  }

  predicate Before(p: Pos, q: Pos) {
    || p.timestamp < q.timestamp
    || (p.timestamp == q.timestamp && LexLess(p.chat, q.chat))
    || (p.timestamp == q.timestamp && p.chat == q.chat && LexLess(p.id, q.id))
  }

  lemma {:induction false} LexIrreflexive(a: string)
    ensures !LexLess(a, a)
  {
    if a != "" { LexIrreflexive(a[1..]); }
  }

  lemma {:induction false} LexTransitive(a: string, b: string, c: string)
    requires LexLess(a, b) && LexLess(b, c)
    ensures LexLess(a, c)
  {
    if a != "" && a[0] == b[0] == c[0] { LexTransitive(a[1..], b[1..], c[1..]); }
  }

  lemma {:induction false} LexTotal(a: string, b: string)
    ensures a == b || LexLess(a, b) || LexLess(b, a)
  {
    if a != "" && b != "" && a[0] == b[0] {
      LexTotal(a[1..], b[1..]);
      assert a == [a[0]] + a[1..] && b == [b[0]] + b[1..];
    }
  }

  lemma BeforeTransitive(p: Pos, q: Pos, r: Pos)
    requires Before(p, q) && Before(q, r)
    ensures Before(p, r)
  {
    if LexLess(p.chat, q.chat) && LexLess(q.chat, r.chat) { LexTransitive(p.chat, q.chat, r.chat); }
    if LexLess(p.id, q.id) && LexLess(q.id, r.id) { LexTransitive(p.id, q.id, r.id); }
  }

  lemma BeforeIsTotalOrder()
    ensures TotalOrder(Before)
  {
    forall p: Pos ensures !Before(p, p) {
      LexIrreflexive(p.chat);
      LexIrreflexive(p.id);
    }
    forall p: Pos, q: Pos, r: Pos | Before(p, q) && Before(q, r) ensures Before(p, r) {
      BeforeTransitive(p, q, r);
    }
    forall p: Pos, q: Pos ensures p == q || Before(p, q) || Before(q, p) {
      LexTotal(p.chat, q.chat);
      LexTotal(p.id, q.id);
    }
  }

  /** One text is a proper prefix of the other, or has the smaller character where they first differ. */
  predicate TextBefore(a: string, b: string) {
    a < b || exists k | 0 <= k < |a| && k < |b| :: a[..k] == b[..k] && a[k] < b[k]
  }

  lemma {:induction false} LexLessIff(a: string, b: string)
    ensures LexLess(a, b) <==> TextBefore(a, b)
  {
    if a != "" && b != "" {
      if a[0] != b[0] {
        assert a[..0] == b[..0];
        assert forall k: nat :: k <= |a| && k <= |b| && a[..k] == b[..k] ==> k == 0 || a[..k][0] == b[..k][0];
      } else {
        LexLessIff(a[1..], b[1..]);
        SameHead(a, b);
      }
    }
  }

  lemma SameHead(a: string, b: string)
    requires a != "" && b != "" && a[0] == b[0]
    ensures TextBefore(a, b) <==> TextBefore(a[1..], b[1..])
  {
    var a', b' := a[1..], b[1..];
    assert a == [a[0]] + a' && b == [b[0]] + b';
    if k :| 0 <= k < |a| && k < |b| && a[..k] == b[..k] && a[k] < b[k] {
      assert a'[..k - 1] == a[..k][1..] && b'[..k - 1] == b[..k][1..] && a'[k - 1] < b'[k - 1];
    }
    if k :| 0 <= k < |a'| && k < |b'| && a'[..k] == b'[..k] && a'[k] < b'[k] {
      assert a[..k + 1] == [a[0]] + a'[..k] && b[..k + 1] == [b[0]] + b'[..k] && a[k + 1] < b[k + 1];
    }
  }

  /** Positions compare by timestamp, then chat, then id. */
  lemma BeforeIff(p: Pos, q: Pos)
    ensures Before(p, q) <==>
              || p.timestamp < q.timestamp
              || (p.timestamp == q.timestamp && TextBefore(p.chat, q.chat))
              || (p.timestamp == q.timestamp && p.chat == q.chat && TextBefore(p.id, q.id))
  {
    LexLessIff(p.chat, q.chat);
    LexLessIff(p.id, q.id);
  }
}
