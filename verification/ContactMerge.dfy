/**
 * Contact merges: an append-only log of decisions, read back as an alias map whose chains lead to canonical ids.
 */
module ContactMerge {
  import opened Prelude
  import opened Trimming

  type Aliases = map<string, string>

  /** Chains stop at ids with no alias, an empty one, or themselves. */
  predicate IsEnd(m: Aliases, c: string) {
    c !in m || m[c] == "" || m[c] == c
  }

  /** Following `n` aliases from `c` ends at `r`. */
  predicate Leads(m: Aliases, c: string, r: string, n: nat)
    decreases n
  {
    if n == 0 then IsEnd(m, c) && r == c
    else !IsEnd(m, c) && Leads(m, m[c], r, n - 1)
  }

  ghost predicate Resolves(m: Aliases, c: string, r: string) {
    exists n: nat :: Leads(m, c, r, n)
  }

  ghost predicate HasEnd(m: Aliases, c: string) {
    exists r: string :: Resolves(m, c, r)
  }

  /** Every chain ends: the aliases form a forest. */
  ghost predicate Forest(m: Aliases) {
    forall c: string :: HasEnd(m, c)
  }

  lemma {:induction false} LeadsUnique(m: Aliases, c: string, r: string, n: nat, r': string, n': nat)
    requires Leads(m, c, r, n) && Leads(m, c, r', n')
    ensures r == r' && n == n'
    decreases n
  {
    if n > 0 && n' > 0 { LeadsUnique(m, m[c], r, n - 1, r', n' - 1); }
  }

  ghost function Root(m: Aliases, c: string): (r: string)
    requires Forest(m)
    ensures Resolves(m, c, r)
  {
    assert HasEnd(m, c);
    var r :| Resolves(m, c, r);
    r
  }

  lemma RootIs(m: Aliases, c: string, r: string)
    requires Forest(m) && Resolves(m, c, r)
    ensures Root(m, c) == r
  {
    var n: nat :| Leads(m, c, r, n);
    var n': nat :| Leads(m, c, Root(m, c), n');
    LeadsUnique(m, c, r, n, Root(m, c), n');
  }

  lemma {:induction false} LeadsToEnd(m: Aliases, c: string, r: string, n: nat)
    requires Leads(m, c, r, n)
    ensures IsEnd(m, r)
    decreases n
  {
    if n > 0 { LeadsToEnd(m, m[c], r, n - 1); }
  }

  lemma RootIsEnd(m: Aliases, c: string)
    requires Forest(m)
    ensures IsEnd(m, Root(m, c))
    ensures Root(m, Root(m, c)) == Root(m, c)
  {
    var n: nat :| Leads(m, c, Root(m, c), n);
    LeadsToEnd(m, c, Root(m, c), n);
    assert Leads(m, Root(m, c), Root(m, c), 0);
    RootIs(m, Root(m, c), Root(m, c));
  }

  // ------------------------------------------------------------ resolving

  /** The ids visited so far: each but the last continues to the next. */
  predicate IsChain(m: Aliases, path: seq<string>) {
    forall i :: 0 <= i < |path| - 1 ==> !IsEnd(m, path[i]) && m[path[i]] == path[i + 1]
  }

  lemma {:induction false} ChainLeads(m: Aliases, path: seq<string>, r: string, n: nat)
    requires |path| > 0 && IsChain(m, path) && Leads(m, path[|path| - 1], r, n)
    ensures Leads(m, path[0], r, n + |path| - 1)
    decreases |path|
  {
    if |path| > 1 {
      assert path[1..][|path| - 2] == path[|path| - 1];
      ChainLeads(m, path[1..], r, n);
    }
  }

  lemma {:induction false} LeadsAlongChain(m: Aliases, path: seq<string>, r: string, n: nat)
    requires |path| > 0 && IsChain(m, path) && Leads(m, path[0], r, n)
    ensures n >= |path| - 1 && Leads(m, path[|path| - 1], r, n - (|path| - 1))
    decreases |path|
  {
    if |path| > 1 {
      assert path[1..][|path| - 2] == path[|path| - 1];
      LeadsAlongChain(m, path[1..], r, n - 1);
    }
  }

  /** A chain that comes back to one of its ids never ends. */
  lemma CycleNeverEnds(m: Aliases, path: seq<string>, i: nat, r: string, n: nat)
    requires IsChain(m, path) && i < |path| - 1 && path[|path| - 1] == path[i]
    ensures !Leads(m, path[0], r, n)
  {
    if Leads(m, path[0], r, n) {
      LeadsAlongChain(m, path, r, n);
      LeadsAlongChain(m, path[..i + 1], r, n);
      LeadsUnique(m, path[i], r, n - i, r, n - (|path| - 1));
      assert false;
    }
  }

  /** Resolution with a `seen` set: it returns the end of the chain, and reports a cycle exactly when there is none. */
  method ResolveCanonicalContactId(contactId: string, m: Aliases) returns (r: Result<string, string>)
    ensures r.Ok? ==> Resolves(m, contactId, r.value)
    ensures r.Err? <==> forall root: string :: !Resolves(m, contactId, root)
  {
    var seen: set<string> := {};
    var current := contactId;
    ghost var path := [current];
    while current !in seen
      invariant |path| > 0 && path[0] == contactId && path[|path| - 1] == current && IsChain(m, path)
      invariant seen == Elems(path[..|path| - 1])
      invariant seen <= m.Keys
      decreases m.Keys - seen
    {
      seen := seen + {current};
      if current !in m || m[current] == "" || m[current] == current {
        assert Leads(m, current, current, 0);
        ChainLeads(m, path, current, 0);
        assert Resolves(m, contactId, current);
        return Ok(current);
      }
      assert (path + [m[current]])[..|path|] == path;
      assert path == path[..|path| - 1] + [current];
      ElemsConcat(path[..|path| - 1], [current]);
      current := m[current];
      path := path + [current];
    }
    ghost var i :| 0 <= i < |path| - 1 && path[..|path| - 1][i] == current;
    forall root: string ensures !Resolves(m, contactId, root) {
      forall n: nat ensures !Leads(m, contactId, root, n) { CycleNeverEnds(m, path, i, root, n); }
    }
    return Err("Contact merge alias cycle detected at " + current);
  }

  // -------------------------------------------------------------- merging

  lemma {:induction false} LeadsAfterLink(m: Aliases, p: string, s: string, c: string, r: string, n: nat)
    requires IsEnd(m, s) && IsEnd(m, p) && s != p && p != "" && Leads(m, c, r, n)
    ensures var m' := m[s := p];
            if r == s then Leads(m', c, p, n + 1) else Leads(m', c, r, n)
    decreases n
  {
    var m' := m[s := p];
    if n == 0 {
      assert Leads(m', p, p, 0);
    } else {
      LeadsAfterLink(m, p, s, m[c], r, n - 1);
    }
  }

  /** Linking one root under another keeps a forest and moves exactly the linked root's class. */
  lemma LinkKeepsForest(m: Aliases, p: string, s: string)
    requires Forest(m) && IsEnd(m, s) && IsEnd(m, p) && s != p && p != ""
    ensures Forest(m[s := p])
    ensures forall c :: Root(m[s := p], c) == if Root(m, c) == s then p else Root(m, c)
  {
    var m' := m[s := p];
    forall c: string ensures Resolves(m', c, if Root(m, c) == s then p else Root(m, c)) && HasEnd(m', c) {
      var n: nat :| Leads(m, c, Root(m, c), n);
      LeadsAfterLink(m, p, s, c, Root(m, c), n);
      assert Resolves(m', c, if Root(m, c) == s then p else Root(m, c));
    }
    forall c ensures Root(m', c) == if Root(m, c) == s then p else Root(m, c) {
      RootIs(m', c, if Root(m, c) == s then p else Root(m, c));
    }
  }

  // ------------------------------------------------------- the decision log

  datatype Decision = Decision(secondary: string, canonical: string)

  /** The alias map as it is rebuilt from the log, later rows overwriting earlier ones. */
  function AliasMap(log: seq<Decision>): Aliases {
    if log == [] then map[] else AliasMap(log[..|log| - 1])[log[|log| - 1].secondary := log[|log| - 1].canonical]
  }

  datatype Merge = Merge(primary: string, secondary: string)

  /** The log after deciding the merges in order, or nothing when one of them is refused. */
  ghost function Decided(log: seq<Decision>, contacts: set<string>, merges: seq<Merge>): (r: Option<seq<Decision>>)
    requires Forest(AliasMap(log))
    ensures r.Some? ==> Forest(AliasMap(r.value)) && log <= r.value && |r.value| == |log| + |merges|
    decreases |merges|
  {
    if merges == [] then Some(log)
    else
      var d := DecideOne(AliasMap(log), contacts, merges[0]);
      if d.None? then None
      else
        DecisionKeepsForest(log, contacts, merges[0]);
        Decided(log + [d.value], contacts, merges[1..])
  }

  /**
   * One merge is accepted for two existing contacts with different canonical ids; the secondary's is linked under the
   * primary's.
   */
  ghost function DecideOne(m: Aliases, contacts: set<string>, merge: Merge): Option<Decision>
    requires Forest(m)
  {
    var p, s := Trimmed(merge.primary), Trimmed(merge.secondary);
    if p == "" || s == "" || p == s || p !in contacts || s !in contacts || Root(m, p) == Root(m, s) then None
    else Some(Decision(Root(m, s), Root(m, p)))
  }

  lemma AliasMapSnoc(log: seq<Decision>, d: Decision)
    ensures AliasMap(log + [d]) == AliasMap(log)[d.secondary := d.canonical]
  {
    assert (log + [d])[..|log|] == log;
  }

  lemma {:induction false} NonemptyLead(m: Aliases, c: string, r: string, n: nat)
    requires Leads(m, c, r, n) && c != ""
    ensures r != ""
    decreases n
  {
    if n > 0 { NonemptyLead(m, m[c], r, n - 1); }
  }

  lemma DecisionKeepsForest(log: seq<Decision>, contacts: set<string>, merge: Merge)
    requires Forest(AliasMap(log))
    ensures var d := DecideOne(AliasMap(log), contacts, merge);
            d.Some? ==>
              && Forest(AliasMap(log + [d.value]))
              && d.value.secondary != d.value.canonical && d.value.canonical != ""
                   && IsEnd(AliasMap(log), d.value.secondary)
              && forall c :: Root(AliasMap(log + [d.value]), c)
                             == if Root(AliasMap(log), c) == d.value.secondary then d.value.canonical
                                 else Root(AliasMap(log), c)
  {
    var m := AliasMap(log);
    var d := DecideOne(m, contacts, merge);
    if d.Some? {
      var p, s := Trimmed(merge.primary), Trimmed(merge.secondary);
      RootIsEnd(m, p);
      RootIsEnd(m, s);
      var n: nat :| Leads(m, p, Root(m, p), n);
      NonemptyLead(m, p, Root(m, p), n);
      LinkKeepsForest(m, d.value.canonical, d.value.secondary);
      AliasMapSnoc(log, d.value);
    }
  }

  lemma EmptyLogIsForest()
    ensures Forest(AliasMap([])) && forall c :: Root(AliasMap([]), c) == c
  {
    forall c: string ensures Resolves(AliasMap([]), c, c) && HasEnd(AliasMap([]), c) {
      assert Leads(AliasMap([]), c, c, 0);
    }
    forall c ensures Root(AliasMap([]), c) == c {
      RootIs(AliasMap([]), c, c);
    }
  }

  // ------------------------------------------------- what the classes are

  /** A walk from `a` to `b` along requested merges, in either direction. */
  predicate Walk(merges: seq<Merge>, path: seq<string>) {
    |path| > 0 && forall i :: 0 <= i < |path| - 1 ==> Linked(merges, path[i], path[i + 1])
  }

  predicate Linked(merges: seq<Merge>, a: string, b: string) {
    exists k :: 0 <= k < |merges| && Joins(merges[k], a, b)
  }

  predicate Joins(g: Merge, a: string, b: string) {
    (Trimmed(g.primary) == a && Trimmed(g.secondary) == b) || (Trimmed(g.primary) == b && Trimmed(g.secondary) == a)
  }

  ghost predicate Connected(merges: seq<Merge>, a: string, b: string) {
    exists path :: Walk(merges, path) && path[0] == a && path[|path| - 1] == b
  }

  lemma WalkMonotone(merges: seq<Merge>, g: Merge, a: string, b: string)
    requires Connected(merges, a, b)
    ensures Connected(merges + [g], a, b)
  {
    var path :| Walk(merges, path) && path[0] == a && path[|path| - 1] == b;
    forall i | 0 <= i < |path| - 1 ensures Linked(merges + [g], path[i], path[i + 1]) {
      var k :| 0 <= k < |merges| && Joins(merges[k], path[i], path[i + 1]);
      assert (merges + [g])[k] == merges[k];
    }
  }

  lemma ConnectedTransitive(merges: seq<Merge>, a: string, b: string, c: string)
    requires Connected(merges, a, b) && Connected(merges, b, c)
    ensures Connected(merges, a, c)
  {
    var p :| Walk(merges, p) && p[0] == a && p[|p| - 1] == b;
    var q :| Walk(merges, q) && q[0] == b && q[|q| - 1] == c;
    var path := p + q[1..];
    forall i | 0 <= i < |path| - 1 ensures Linked(merges, path[i], path[i + 1]) {
      if i < |p| - 1 {
        assert path[i] == p[i] && path[i + 1] == p[i + 1];
      } else {
        assert path[i] == q[i - |p| + 1] && path[i + 1] == q[i - |p| + 2];
      }
    }
    assert path[|path| - 1] == c;
  }

  lemma JoinedConnected(merges: seq<Merge>, k: nat, a: string, b: string)
    requires k < |merges| && Joins(merges[k], a, b)
    ensures Connected(merges, a, b) && Connected(merges, b, a)
  {
    assert Joins(merges[k], b, a);
    assert Walk(merges, [a, b]) && [a, b][1] == b;
    assert Walk(merges, [b, a]) && [b, a][1] == a;
  }

  /** A log together with the merges that were accepted to build it. */
  ghost predicate Realises(log: seq<Decision>, merges: seq<Merge>) {
    && Forest(AliasMap(log))
    && (forall k :: 0 <= k < |merges|
          ==> Root(AliasMap(log), Trimmed(merges[k].primary)) == Root(AliasMap(log), Trimmed(merges[k].secondary)))
    && (forall a, b :: Root(AliasMap(log), a) == Root(AliasMap(log), b) ==> Connected(merges, a, b))
  }

  lemma {:induction false} WalkKeepsRoot(log: seq<Decision>, merges: seq<Merge>, path: seq<string>, i: nat)
    requires Realises(log, merges) && Walk(merges, path) && i < |path|
    ensures Root(AliasMap(log), path[0]) == Root(AliasMap(log), path[i])
  {
    if i > 0 {
      WalkKeepsRoot(log, merges, path, i - 1);
      var k :| 0 <= k < |merges| && Joins(merges[k], path[i - 1], path[(i - 1) + 1]);
    }
  }

  lemma DecisionRealises(log: seq<Decision>, contacts: set<string>, merges: seq<Merge>, g: Merge)
    requires Realises(log, merges) && DecideOne(AliasMap(log), contacts, g).Some?
    ensures Realises(log + [DecideOne(AliasMap(log), contacts, g).value], merges + [g])
  {
    var m := AliasMap(log);
    var d := DecideOne(m, contacts, g).value;
    var p, s := Trimmed(g.primary), Trimmed(g.secondary);
    DecisionKeepsForest(log, contacts, g);
    var m' := AliasMap(log + [d]);
    forall k | 0 <= k < |merges + [g]|
      ensures Root(m', Trimmed((merges + [g])[k].primary)) == Root(m', Trimmed((merges + [g])[k].secondary)) {
      if k < |merges| { assert (merges + [g])[k] == merges[k]; }
    }
    forall a, b | Root(m', a) == Root(m', b) ensures Connected(merges + [g], a, b) {
      if Root(m, a) == Root(m, b) {
        WalkMonotone(merges, g, a, b);
      } else {
        assert (merges + [g])[|merges|] == g;
        JoinedConnected(merges + [g], |merges|, p, s);
        if Root(m, a) == d.secondary {
          Bridge(merges, g, a, s, p, b);
        } else {
          Bridge(merges, g, a, p, s, b);
        }
      }
    }
  }

  lemma Bridge(merges: seq<Merge>, g: Merge, a: string, x: string, y: string, b: string)
    requires Connected(merges, a, x) && Connected(merges + [g], x, y) && Connected(merges, y, b)
    ensures Connected(merges + [g], a, b)
  {
    WalkMonotone(merges, g, a, x);
    WalkMonotone(merges, g, y, b);
    ConnectedTransitive(merges + [g], a, x, y);
    ConnectedTransitive(merges + [g], a, y, b);
  }

  lemma {:induction false} BatchRealises(
      log: seq<Decision>, contacts: set<string>, earlier: seq<Merge>, merges: seq<Merge>)
    requires Realises(log, earlier) && Decided(log, contacts, merges).Some?
    ensures Realises(Decided(log, contacts, merges).value, earlier + merges)
    decreases |merges|
  {
    hide AliasMap, Root, HasEnd, Connected, DecideOne, Trimmed;
    if merges == [] {
      assert earlier + merges == earlier;
    } else {
      var d := DecideOne(AliasMap(log), contacts, merges[0]).value;
      DecisionRealises(log, contacts, earlier, merges[0]);
      BatchRealises(log + [d], contacts, earlier + [merges[0]], merges[1..]);
      assert earlier + [merges[0]] + merges[1..] == earlier + merges;
    }
  }

  /** Any sequence of batches, refused ones leaving no trace. */
  datatype Batch = Batch(contacts: set<string>, merges: seq<Merge>)

  ghost function LogAfter(batches: seq<Batch>): (r: (seq<Decision>, seq<Merge>))
    ensures Realises(r.0, r.1)
  {
    if batches == [] then
      EmptyLogRealises();
      ([], [])
    else
      var (log, accepted) := LogAfter(batches[..|batches| - 1]);
      var b := batches[|batches| - 1];
      var decided := Decided(log, b.contacts, b.merges);
      if decided.None? then (log, accepted)
      else
        BatchRealises(log, b.contacts, accepted, b.merges);
        (decided.value, accepted + b.merges)
  }

  lemma EmptyLogRealises()
    ensures Realises([], [])
  {
    EmptyLogIsForest();
    forall a, b | Root(AliasMap([]), a) == Root(AliasMap([]), b) ensures Connected([], a, b) {
      assert Walk([], [a]);
    }
  }

  /**
   * After any sequence of batches from an empty log every chain ends, and two contacts resolve to the same id
   * exactly when accepted merges connect them.
   */
  lemma SameRootIffConnected(batches: seq<Batch>, a: string, b: string)
    ensures var (log, accepted) := LogAfter(batches);
            && Forest(AliasMap(log))
            && (Root(AliasMap(log), a) == Root(AliasMap(log), b) <==> Connected(accepted, a, b))
  {
    var (log, accepted) := LogAfter(batches);
    if Connected(accepted, a, b) {
      var path :| Walk(accepted, path) && path[0] == a && path[|path| - 1] == b;
      WalkKeepsRoot(log, accepted, path, |path| - 1);
    }
  }

  ghost function Classes(m: Aliases, contacts: set<string>): set<string>
    requires Forest(m)
  {
    set c | c in contacts :: Root(m, c)
  }

  /** Each accepted merge reduces the number of classes by exactly one. */
  lemma MergeDropsOneClass(log: seq<Decision>, contacts: set<string>, g: Merge)
    requires Forest(AliasMap(log)) && DecideOne(AliasMap(log), contacts, g).Some?
    ensures var log' := log + [DecideOne(AliasMap(log), contacts, g).value];
            && Forest(AliasMap(log'))
            && |Classes(AliasMap(log'), contacts)| == |Classes(AliasMap(log), contacts)| - 1
  {
    var m := AliasMap(log);
    var d := DecideOne(m, contacts, g).value;
    DecisionKeepsForest(log, contacts, g);
    var m' := AliasMap(log + [d]);
    var p, s := Trimmed(g.primary), Trimmed(g.secondary);
    assert d.canonical in Classes(m, contacts) && d.secondary in Classes(m, contacts);
    forall r ensures r in Classes(m', contacts) <==> r in Classes(m, contacts) - {d.secondary} {
      if r in Classes(m, contacts) - {d.secondary} {
        var c :| c in contacts && Root(m, c) == r;
        assert Root(m', c) == r;
      }
      if r in Classes(m', contacts) {
        var c :| c in contacts && Root(m', c) == r;
        assert Root(m, c) in Classes(m, contacts);
      }
    }
    assert Classes(m', contacts) == Classes(m, contacts) - {d.secondary};
  }

  // --------------------------------------------- rebuilding and memories

  /** Every secondary id in the log is recorded once, and never again as it is no longer a root. */
  ghost predicate SecondariesOnce(log: seq<Decision>) {
    forall i, j :: 0 <= i < j < |log| ==> log[i].secondary != log[j].secondary
  }

  lemma {:induction false} AliasMapKeys(log: seq<Decision>)
    ensures forall c :: c in AliasMap(log) <==> exists i :: 0 <= i < |log| && log[i].secondary == c
    ensures SecondariesOnce(log) ==> forall i :: 0 <= i < |log| ==> AliasMap(log)[log[i].secondary] == log[i].canonical
  {
    if log != [] {
      var front := log[..|log| - 1];
      AliasMapKeys(front);
      assert forall i :: 0 <= i < |front| ==> front[i] == log[i];
      forall c ensures c in AliasMap(log) <==> exists i :: 0 <= i < |log| && log[i].secondary == c {
        if i :| 0 <= i < |log| && log[i].secondary == c {
          if i < |front| { assert front[i].secondary == c; }
        }
      }
    }
  }

  ghost predicate WellRecorded(log: seq<Decision>) {
    && Forest(AliasMap(log))
    && SecondariesOnce(log)
    && (forall i :: 0 <= i < |log| ==> log[i].canonical != "" && log[i].canonical != log[i].secondary)
  }

  lemma DecisionWellRecorded(log: seq<Decision>, contacts: set<string>, g: Merge)
    requires WellRecorded(log) && DecideOne(AliasMap(log), contacts, g).Some?
    ensures WellRecorded(log + [DecideOne(AliasMap(log), contacts, g).value])
  {
    var d := DecideOne(AliasMap(log), contacts, g).value;
    DecisionKeepsForest(log, contacts, g);
    AliasMapKeys(log);
    forall i | 0 <= i < |log| ensures log[i].secondary != d.secondary {
      assert log[i].secondary in AliasMap(log) && !IsEnd(AliasMap(log), log[i].secondary);
    }
  }

  lemma {:induction false} BatchWellRecorded(log: seq<Decision>, contacts: set<string>, merges: seq<Merge>)
    requires WellRecorded(log) && Decided(log, contacts, merges).Some?
    ensures WellRecorded(Decided(log, contacts, merges).value)
    decreases |merges|
  {
    hide AliasMap, DecideOne, SecondariesOnce;
    if merges != [] {
      DecisionWellRecorded(log, contacts, merges[0]);
      BatchWellRecorded(log + [DecideOne(AliasMap(log), contacts, merges[0]).value], contacts, merges[1..]);
    }
  }

  lemma {:induction false} LogIsWellRecorded(batches: seq<Batch>)
    ensures WellRecorded(LogAfter(batches).0)
  {
    hide AliasMap, DecideOne, SecondariesOnce, Decided;
    if batches == [] {
      NothingRecorded();
    } else {
      LogIsWellRecorded(batches[..|batches| - 1]);
      var (log, accepted) := LogAfter(batches[..|batches| - 1]);
      var b := batches[|batches| - 1];
      if Decided(log, b.contacts, b.merges).Some? { BatchWellRecorded(log, b.contacts, b.merges); }
    }
  }

  lemma NothingRecorded()
    ensures WellRecorded([])
  {
    EmptyLogIsForest();
  }

  /**
   * The alias map does not depend on the order the log rows come back in, so ties in their timestamps are harmless:
   * any reordering of a log built by batches rebuilds the same map.
   */
  lemma RebuildOrderIrrelevant(batches: seq<Batch>, reordered: seq<Decision>)
    requires multiset(reordered) == multiset(LogAfter(batches).0)
    ensures AliasMap(reordered) == AliasMap(LogAfter(batches).0)
  {
    hide LogAfter, SecondariesOnce;
    LogIsWellRecorded(batches);
    ReorderedMapAgrees(LogAfter(batches).0, reordered);
  }

  lemma ReorderedMapAgrees(log: seq<Decision>, reordered: seq<Decision>)
    requires SecondariesOnce(log) && multiset(reordered) == multiset(log)
    ensures AliasMap(reordered) == AliasMap(log)
  {
    hide AliasMap, SecondariesOnce;
    ReorderedOnce(log, reordered);
    AliasMapKeys(log);
    AliasMapKeys(reordered);
    SameSecondaries(log, reordered);
    SameSecondaries(reordered, log);
    forall c | c in AliasMap(log) ensures AliasMap(reordered)[c] == AliasMap(log)[c] {
      var i :| 0 <= i < |log| && log[i].secondary == c;
      assert log[i] in multiset(reordered);
      var j :| 0 <= j < |reordered| && reordered[j] == log[i];
    }
  }

  lemma SameSecondaries(xs: seq<Decision>, ys: seq<Decision>)
    requires multiset(xs) == multiset(ys)
    ensures forall c :: c in AliasMap(xs) ==> c in AliasMap(ys)
  {
    hide AliasMap;
    AliasMapKeys(xs);
    AliasMapKeys(ys);
    forall c | c in AliasMap(xs) ensures c in AliasMap(ys) {
      var i :| 0 <= i < |xs| && xs[i].secondary == c;
      assert xs[i] in multiset(ys);
      var j :| 0 <= j < |ys| && ys[j] == xs[i];
    }
  }

  lemma ReorderedOnce(log: seq<Decision>, reordered: seq<Decision>)
    requires SecondariesOnce(log) && multiset(reordered) == multiset(log)
    ensures SecondariesOnce(reordered)
  {
    forall i, j | 0 <= i < j < |reordered| ensures reordered[i].secondary != reordered[j].secondary {
      if reordered[i].secondary == reordered[j].secondary {
        var x, y := reordered[i], reordered[j];
        assert x in multiset(reordered) && y in multiset(reordered);
        assert x in log && y in log;
        assert x == y;
        OccursTwice(reordered, i, j);
        OccursOnce(log, x);
        assert false;
      }
    }
  }

  lemma OccursTwice(xs: seq<Decision>, i: nat, j: nat)
    requires i < j < |xs| && xs[i] == xs[j]
    ensures multiset(xs)[xs[i]] >= 2
  {
    assert xs == xs[..i] + [xs[i]] + xs[i + 1..j] + [xs[j]] + xs[j + 1..];
  }

  lemma OccursOnce(xs: seq<Decision>, x: Decision)
    requires SecondariesOnce(xs)
    ensures multiset(xs)[x] <= 1
  {
    if multiset(xs)[x] >= 1 {
      var i :| 0 <= i < |xs| && xs[i] == x;
      assert xs == xs[..i] + [x] + xs[i + 1..];
      assert x !in xs[..i] && x !in xs[i + 1..];
    }
  }

  /** Contact memories follow each decision: those of the secondary move to the canonical id. */
  function MoveMemories(memories: map<string, string>, ds: seq<Decision>): map<string, string>
    decreases |ds|
  {
    if ds == [] then memories
    else
      MoveMemories(map k | k in memories ::
          if memories[k] == ds[0].secondary then ds[0].canonical else memories[k], ds[1..])
  }

  ghost predicate OnRoots(memories: map<string, string>, m: Aliases) {
    forall k :: k in memories ==> IsEnd(m, memories[k])
  }

  /** If every memory sat on a canonical id before a batch, each now sits on the canonical id of where it was. */
  lemma {:induction false} MemoriesFollowMerges(
      log: seq<Decision>, contacts: set<string>, merges: seq<Merge>, memories: map<string, string>)
    requires Forest(AliasMap(log)) && Decided(log, contacts, merges).Some?
    requires OnRoots(memories, AliasMap(log))
    ensures var log' := Decided(log, contacts, merges).value;
            var moved := MoveMemories(memories, log'[|log|..]);
            && moved.Keys == memories.Keys
            && OnRoots(moved, AliasMap(log'))
            && forall k :: k in memories ==> moved[k] == Root(AliasMap(log'), memories[k])
    decreases |merges|
  {
    var log' := Decided(log, contacts, merges).value;
    var moved := MoveMemories(memories, log'[|log|..]);
    if merges == [] {
      assert log'[|log|..] == [];
      forall k | k in memories ensures moved[k] == Root(AliasMap(log'), memories[k]) {
        assert Leads(AliasMap(log), memories[k], memories[k], 0);
        RootIs(AliasMap(log), memories[k], memories[k]);
      }
    } else {
      MemoriesStep(log, contacts, merges, memories);
    }
  }

  lemma {:induction false} MemoriesStep(
      log: seq<Decision>, contacts: set<string>, merges: seq<Merge>, memories: map<string, string>)
    requires Forest(AliasMap(log)) && merges != [] && Decided(log, contacts, merges).Some?
    requires OnRoots(memories, AliasMap(log))
    ensures var log' := Decided(log, contacts, merges).value;
            var moved := MoveMemories(memories, log'[|log|..]);
            && moved.Keys == memories.Keys
            && OnRoots(moved, AliasMap(log'))
            && forall k :: k in memories ==> moved[k] == Root(AliasMap(log'), memories[k])
    decreases |merges|, 0
  {
    hide OnRoots, AliasMap, Root, Forest, DecideOne;
    var d := DecideOne(AliasMap(log), contacts, merges[0]).value;
    DecisionKeepsForest(log, contacts, merges[0]);
    var log1 := log + [d];
    var memories1 := map k | k in memories :: if memories[k] == d.secondary then d.canonical else memories[k];
    var log' := Decided(log1, contacts, merges[1..]).value;
    assert log'[|log|..] == [d] + log'[|log1|..];
    assert ([d] + log'[|log1|..])[1..] == log'[|log1|..];
    OneMoveStaysOnRoots(log, contacts, merges[0], memories);
    SecondaryResolvesAsCanonical(log, contacts, merges[0]);
    MemoriesFollowMerges(log1, contacts, merges[1..], memories1);
    forall k | k in memories ensures Root(AliasMap(log'), memories1[k]) == Root(AliasMap(log'), memories[k]) {
      MovedSameRoot(log1, log', d, memories[k], contacts, merges[1..]);
    }
  }

  lemma SecondaryResolvesAsCanonical(log: seq<Decision>, contacts: set<string>, merge: Merge)
    requires Forest(AliasMap(log)) && DecideOne(AliasMap(log), contacts, merge).Some?
    ensures var d := DecideOne(AliasMap(log), contacts, merge).value;
            && Forest(AliasMap(log + [d]))
            && Root(AliasMap(log + [d]), d.secondary) == Root(AliasMap(log + [d]), d.canonical)
  {
    hide AliasMap;
    var m := AliasMap(log);
    var d := DecideOne(m, contacts, merge).value;
    DecisionKeepsForest(log, contacts, merge);
    RootIsEnd(m, Trimmed(merge.primary));
    assert Leads(m, d.secondary, d.secondary, 0) && Leads(m, d.canonical, d.canonical, 0);
    RootIs(m, d.secondary, d.secondary);
    RootIs(m, d.canonical, d.canonical);
  }

  lemma OneMoveStaysOnRoots(log: seq<Decision>, contacts: set<string>, merge: Merge, memories: map<string, string>)
    requires Forest(AliasMap(log)) && DecideOne(AliasMap(log), contacts, merge).Some?
        && OnRoots(memories, AliasMap(log))
    ensures var d := DecideOne(AliasMap(log), contacts, merge).value;
            OnRoots(map k | k in memories :: if memories[k] == d.secondary then d.canonical
                else memories[k], AliasMap(log + [d]))
  {
    hide AliasMap;
    AliasMapSnoc(log, DecideOne(AliasMap(log), contacts, merge).value);
    RootIsEnd(AliasMap(log), Trimmed(merge.primary));
  }

  /** A secondary id resolves as its canonical id ever after. */
  lemma MovedSameRoot(
      log1: seq<Decision>, log': seq<Decision>, d: Decision, c: string, contacts: set<string>, merges: seq<Merge>)
    requires Forest(AliasMap(log1)) && Decided(log1, contacts, merges) == Some(log')
    requires Root(AliasMap(log1), d.secondary) == Root(AliasMap(log1), d.canonical)
    ensures Root(AliasMap(log'), if c == d.secondary then d.canonical else c) == Root(AliasMap(log'), c)
  {
    BatchKeepsEqualRoots(log1, contacts, merges, d.secondary, d.canonical);
  }

  lemma {:induction false} BatchKeepsEqualRoots(
      log: seq<Decision>, contacts: set<string>, merges: seq<Merge>, a: string, b: string)
    requires Forest(AliasMap(log)) && Decided(log, contacts, merges).Some?
    requires Root(AliasMap(log), a) == Root(AliasMap(log), b)
    ensures var log' := Decided(log, contacts, merges).value; Root(AliasMap(log'), a) == Root(AliasMap(log'), b)
    decreases |merges|
  {
    if merges != [] {
      DecisionKeepsForest(log, contacts, merges[0]);
      BatchKeepsEqualRoots(log + [DecideOne(AliasMap(log), contacts, merges[0]).value], contacts, merges[1..], a, b);
    }
  }

  lemma DecidedStep(log: seq<Decision>, contacts: set<string>, merges: seq<Merge>, i: nat)
    requires Forest(AliasMap(log)) && i < |merges|
    ensures var d := DecideOne(AliasMap(log), contacts, merges[i]);
            && (d.Some? ==> Forest(AliasMap(log + [d.value])))
            && Decided(log, contacts, merges[i..]) == if d.None? then None
                 else Decided(log + [d.value], contacts, merges[i + 1..])
  {
    hide AliasMap, DecideOne;
    assert merges[i..][0] == merges[i] && merges[i..][1..] == merges[i + 1..];
    DecisionKeepsForest(log, contacts, merges[i]);
  }

  // ------------------------------------------- which id becomes canonical

  /** A merge is accepted exactly for two named, existing contacts that do not resolve to the same id yet. */
  lemma AcceptedIff(m: Aliases, contacts: set<string>, g: Merge)
    requires Forest(m)
    ensures var p, s := Trimmed(g.primary), Trimmed(g.secondary);
            DecideOne(m, contacts, g).Some? <==>
              p != "" && s != "" && p in contacts && s in contacts && Root(m, p) != Root(m, s)
  {
  }

  /**
   * The primary's canonical id stays canonical: after an accepted merge whatever resolved as the secondary resolves as
   * the primary did, and everything else as before.
   */
  lemma PrimaryStaysCanonical(log: seq<Decision>, contacts: set<string>, g: Merge)
    requires Forest(AliasMap(log)) && DecideOne(AliasMap(log), contacts, g).Some?
    ensures var m, m' := AliasMap(log), AliasMap(log + [DecideOne(AliasMap(log), contacts, g).value]);
            && Forest(m')
            && forall c :: Root(m', c)
                 == if Root(m, c) == Root(m, Trimmed(g.secondary)) then Root(m, Trimmed(g.primary)) else Root(m, c)
  {
    DecisionKeepsForest(log, contacts, g);
  }

  /** What every id resolves to. */
  ghost function Roots(m: Aliases): string -> string
    requires Forest(m)
  {
    (c: string) => Root(m, c)
  }

  /** A batch of merges on what ids resolve to, without any log: each secondary's class joins its primary's, in turn. */
  function Joined(root: string -> string, merges: seq<Merge>, c: string): string
    decreases |merges|
  {
    if merges == [] then root(c)
    else
      var p, s := root(Trimmed(merges[0].primary)), root(Trimmed(merges[0].secondary));
      Joined((x: string) => if root(x) == s then p else root(x), merges[1..], c)
  }

  lemma {:induction false} JoinedAlike(f: string -> string, g: string -> string, merges: seq<Merge>, c: string)
    requires forall x :: f(x) == g(x)
    ensures Joined(f, merges, c) == Joined(g, merges, c)
    decreases |merges|
  {
    if merges != [] {
      var p, s := f(Trimmed(merges[0].primary)), f(Trimmed(merges[0].secondary));
      var f', g' := (x: string) => if f(x) == s then p else f(x), (x: string) => if g(x) == s then p else g(x);
      JoinedAlike(f', g', merges[1..], c);
    }
  }

  /** A recorded batch makes ids resolve as joining the classes directly would. */
  lemma {:induction false} BatchJoins(log: seq<Decision>, contacts: set<string>, merges: seq<Merge>, c: string)
    requires Forest(AliasMap(log)) && Decided(log, contacts, merges).Some?
    ensures Root(AliasMap(Decided(log, contacts, merges).value), c) == Joined(Roots(AliasMap(log)), merges, c)
    decreases |merges|
  {
    if merges != [] {
      hide AliasMap, Forest, Root, DecideOne;
      var log1 := log + [DecideOne(AliasMap(log), contacts, merges[0]).value];
      PrimaryStaysCanonical(log, contacts, merges[0]);
      BatchJoins(log1, contacts, merges[1..], c);
      var root := Roots(AliasMap(log));
      var p, s := root(Trimmed(merges[0].primary)), root(Trimmed(merges[0].secondary));
      JoinedAlike(Roots(AliasMap(log1)), (x: string) => if root(x) == s then p else root(x), merges[1..], c);
    }
  }

  /** And memories move to where joining the classes directly puts the id they were on. */
  lemma MemoriesJoin(log: seq<Decision>, contacts: set<string>, merges: seq<Merge>, memories: map<string, string>)
    requires Forest(AliasMap(log)) && Decided(log, contacts, merges).Some? && OnRoots(memories, AliasMap(log))
    ensures var moved := MoveMemories(memories, Decided(log, contacts, merges).value[|log|..]);
            && moved.Keys == memories.Keys
            && forall k :: k in memories ==> moved[k] == Joined(Roots(AliasMap(log)), merges, memories[k])
  {
    hide AliasMap, Forest, Root, Decided, OnRoots;
    MemoriesFollowMerges(log, contacts, merges, memories);
    forall k | k in memories { BatchJoins(log, contacts, merges, memories[k]); }
  }

  // -------------------------------------------------------------- the store

  class ContactStore {
    var contacts: set<string>
    var log: seq<Decision>
    var memories: map<string, string>

    ghost predicate Valid()
      reads this
    {
      WellRecorded(log)
    }

    constructor (contacts: set<string>, memories: map<string, string>)
      ensures Valid() && this.contacts == contacts && this.memories == memories && log == []
    {
      this.contacts, this.memories, log := contacts, memories, [];
      new;
      NothingRecorded();
    }

    /** Canonical id in a map whose chains end: the cycle error cannot occur. */
    method Canonical(c: string, aliasMap: Aliases) returns (root: string)
      requires Forest(aliasMap)
      ensures root == Root(aliasMap, c)
    {
      var r := ResolveCanonicalContactId(c, aliasMap);
      assert Resolves(aliasMap, c, Root(aliasMap, c));
      RootIs(aliasMap, c, r.value);
      root := r.value;
    }

    method PlanContactMergeDecisions(input: seq<Merge>) returns (r: Result<seq<Decision>, string>)
      requires Valid()
      ensures r.Ok? <==> input != [] && Decided(log, contacts, input).Some?
      ensures r.Ok? ==> log + r.value == Decided(log, contacts, input).value
    {
      if input == [] { return Err("At least one contact merge is required."); }
      var aliasMap := BuildAliasMap();
      var planned: seq<Decision> := [];
      assert log + planned == log;
      var i := 0;
      hide WellRecorded;
      while i < |input|
        invariant i <= |input|
        invariant aliasMap == AliasMap(log + planned) && Forest(aliasMap)
        invariant Decided(log, contacts, input) == Decided(log + planned, contacts, input[i..])
      {
        hide AliasMap, Root, HasEnd, IsEnd, Forest, Trimmed, Decided;
        var primary, secondary := Trimmed(input[i].primary), Trimmed(input[i].secondary);
        DecidedStep(log + planned, contacts, input, i);
        if primary == "" || secondary == "" { return Err("Primary and secondary contact ids are required."); }
        if primary == secondary { return Err("Cannot merge a contact into itself"); }
        if primary !in contacts { return Err("Primary contact not found"); }
        if secondary !in contacts { return Err("Secondary contact not found"); }
        var canonicalPrimary := Canonical(primary, aliasMap);
        var canonicalSecondary := Canonical(secondary, aliasMap);
        if canonicalPrimary == canonicalSecondary {
          return Err("Contacts already resolve to the same canonical contact");
        }
        var d := Decision(canonicalSecondary, canonicalPrimary);
        AliasMapSnoc(log + planned, d);
        aliasMap := aliasMap[canonicalSecondary := canonicalPrimary];
        var _ := Canonical(canonicalSecondary, aliasMap);
        assert log + (planned + [d]) == log + planned + [d];
        planned := planned + [d];
        i := i + 1;
      }
      return Ok(planned);
    }

    method BuildAliasMap() returns (m: Aliases)
      ensures m == AliasMap(log)
    {
      m := map[];
      for i := 0 to |log|
        invariant m == AliasMap(log[..i])
      {
        assert log[..i + 1][..i] == log[..i];
        m := m[log[i].secondary := log[i].canonical];
      }
      assert log[..|log|] == log;
    }

    /** Records a whole batch and moves the memories, or records nothing. */
    method RecordContactMergeDecisionsBatch(input: seq<Merge>) returns (r: Result<seq<Decision>, string>)
      requires Valid()
      modifies this
      ensures Valid() && contacts == old(contacts)
      ensures r.Ok? <==> input != [] && Decided(old(log), contacts, input).Some?
      ensures r.Ok? ==> log == Decided(old(log), contacts, input).value && r.value == log[|old(log)|..]
                        && memories == MoveMemories(old(memories), r.value)
      ensures r.Err? ==> log == old(log) && memories == old(memories)
    {
      hide WellRecorded, AliasMap, Decided, Forest;
      r := PlanContactMergeDecisions(input);
      if r.Err? { return; }
      var planned := r.value;
      BatchWellRecorded(log, contacts, input);
      ghost var was := log;
      assert planned[0..] == planned && was + planned[..0] == was;
      for i := 0 to |planned|
        invariant log == was + planned[..i] && contacts == old(contacts)
        invariant MoveMemories(old(memories), planned) == MoveMemories(memories, planned[i..])
      {
        var d := planned[i];
        assert planned[i..][0] == d && planned[i..][1..] == planned[i + 1..] && planned[..i + 1] == planned[..i] + [d];
        assert was + planned[..i] + [d] == was + planned[..i + 1];
        log := log + [d];
        memories := map k | k in memories :: if memories[k] == d.secondary then d.canonical else memories[k];
      }
      assert planned[..|planned|] == planned;
    }
  }
}
