/**
 * Contact merges planned on one state of the decision log and recorded on another, as when two processes plan and
 * record at the same time: exactly when that leaves the aliases a forest.
 */
module StalePlans {
  import opened Prelude
  import opened Trimming
  import opened ContactMerge

  // -------------------------------------------------------- a single link

  /** Dropping aliases only shortens chains. */
  lemma {:induction false} EndsInPart(m: Aliases, part: Aliases, c: string, r: string, n: nat)
    requires part.Keys <= m.Keys && (forall k :: k in part ==> part[k] == m[k]) && Leads(m, c, r, n)
    ensures HasEnd(part, c)
    decreases n
  {
    if IsEnd(part, c) {
      assert Leads(part, c, c, 0);
      assert Resolves(part, c, c);
    } else {
      EndsInPart(m, part, m[c], r, n - 1);
      var r' :| Resolves(part, m[c], r');
      var n': nat :| Leads(part, m[c], r', n');
      assert Leads(part, c, r', n' + 1);
      assert Resolves(part, c, r');
    }
  }

  lemma PartIsForest(m: Aliases, part: Aliases)
    requires Forest(m) && part.Keys <= m.Keys && forall k :: k in part ==> part[k] == m[k]
    ensures Forest(part)
  {
    forall c: string ensures HasEnd(part, c) {
      var n: nat :| Leads(m, c, Root(m, c), n);
      EndsInPart(m, part, c, Root(m, c), n);
    }
  }

  lemma {:induction false} LeadsElsewhere(m: Aliases, s: string, p: string, c: string, r: string, n: nat)
    requires IsEnd(m, s) && r != s && Leads(m, c, r, n)
    ensures Leads(m[s := p], c, r, n)
    decreases n
  {
    if n > 0 { LeadsElsewhere(m, s, p, m[c], r, n - 1); }
  }

  lemma {:induction false} LeadsThrough(m: Aliases, s: string, p: string, c: string, n: nat, r: string, k: nat)
    requires IsEnd(m, s) && p != "" && p != s && Leads(m, c, s, n) && Leads(m[s := p], p, r, k)
    ensures Leads(m[s := p], c, r, n + 1 + k)
    decreases n
  {
    if n > 0 { LeadsThrough(m, s, p, m[c], n - 1, r, k); }
  }

  /** A chain that used to end at the new link now goes on from there. */
  lemma {:induction false} ContinuesAtLink(m: Aliases, s: string, p: string, c: string, n: nat, r: string, k: nat)
    requires IsEnd(m, s) && p != "" && p != s && Leads(m, c, s, n) && Leads(m[s := p], c, r, k)
    ensures k >= n && Leads(m[s := p], s, r, k - n)
    decreases n
  {
    if n > 0 { ContinuesAtLink(m, s, p, m[c], n - 1, r, k - 1); }
  }

  lemma FreeLinkIff(m: Aliases, s: string, p: string)
    requires Forest(m) && IsEnd(m, s) && p != "" && p != s
    ensures Forest(m[s := p]) <==> !Resolves(m, p, s)
  {
    var m' := m[s := p];
    if Resolves(m, p, s) {
      var n: nat :| Leads(m, p, s, n);
      forall r: string ensures !Resolves(m', p, r) {
        if k: nat :| Leads(m', p, r, k) {
          ContinuesAtLink(m, s, p, p, n, r, k);
          LeadsUnique(m', p, r, k, r, k - n - 1);
        }
      }
      assert !HasEnd(m', p);
    } else {
      var k: nat :| Leads(m, p, Root(m, p), k);
      LeadsElsewhere(m, s, p, p, Root(m, p), k);
      forall c: string ensures HasEnd(m', c) {
        var n: nat :| Leads(m, c, Root(m, c), n);
        if Root(m, c) == s {
          LeadsThrough(m, s, p, c, n, Root(m, p), k);
          assert Resolves(m', c, Root(m, p));
        } else {
          LeadsElsewhere(m, s, p, c, Root(m, c), n);
          assert Resolves(m', c, Root(m, c));
        }
      }
    }
  }

  lemma {:induction false} LeadsWithoutEnd(m: Aliases, s: string, c: string, r: string, n: nat)
    requires IsEnd(m, s)
    ensures Leads(m - {s}, c, r, n) <==> Leads(m, c, r, n)
    decreases n
  {
    if n > 0 && c in m { LeadsWithoutEnd(m, s, m[c], r, n - 1); }
  }

  /**
   * Linking `s` under `p` keeps a forest exactly when, without the alias `s` has so far, `p` does not resolve to `s`;
   * for an `s` that is a canonical id that is to say that it is not the one of `p`.
   */
  lemma LinkKeepsForestIff(m: Aliases, s: string, p: string)
    requires Forest(m) && p != "" && p != s
    ensures Forest(m[s := p]) <==> !Resolves(m - {s}, p, s)
    ensures IsEnd(m, s) ==> (Forest(m[s := p]) <==> Root(m, p) != s)
  {
    var free := m - {s};
    PartIsForest(m, free);
    FreeLinkIff(free, s, p);
    assert free[s := p] == m[s := p];
    if IsEnd(m, s) {
      forall n: nat ensures Leads(free, p, s, n) <==> Leads(m, p, s, n) { LeadsWithoutEnd(m, s, p, s, n); }
      assert Resolves(free, p, s) <==> Resolves(m, p, s);
      if Resolves(m, p, s) { RootIs(m, p, s); }
    }
  }

  // -------------------------------------------------------- a whole batch

  /** The aliases after a plan was recorded on them. */
  function Recorded(m: Aliases, plan: seq<Decision>): Aliases {
    if plan == [] then m
    else Recorded(m, plan[..|plan| - 1])[plan[|plan| - 1].secondary := plan[|plan| - 1].canonical]
  }

  function Secondaries(plan: seq<Decision>): set<string> {
    set d | d in plan :: d.secondary
  }

  ghost predicate WellFormed(plan: seq<Decision>) {
    SecondariesOnce(plan) && forall i :: 0 <= i < |plan|
                               ==> plan[i].canonical != "" && plan[i].canonical != plan[i].secondary
  }

  lemma {:induction false} RecordedInLog(log: seq<Decision>, plan: seq<Decision>)
    ensures AliasMap(log + plan) == Recorded(AliasMap(log), plan)
  {
    if plan == [] {
      assert log + plan == log;
    } else {
      var front, d := plan[..|plan| - 1], plan[|plan| - 1];
      RecordedInLog(log, front);
      AliasMapSnoc(log + front, d);
      assert log + plan == log + front + [d];
    }
  }

  lemma {:induction false} RecordedWithout(m: Aliases, plan: seq<Decision>, freed: set<string>)
    ensures Recorded(m - freed, plan) == Recorded(m, plan) - (freed - Secondaries(plan))
  {
    if plan != [] {
      var front, d := plan[..|plan| - 1], plan[|plan| - 1];
      RecordedWithout(m, front, freed);
      assert plan == front + [d];
      assert Secondaries(plan) == Secondaries(front) + {d.secondary};
    }
  }

  lemma {:induction false} RecordedKeys(m: Aliases, plan: seq<Decision>)
    ensures Recorded(m, plan).Keys == m.Keys + Secondaries(plan)
  {
    if plan != [] {
      var front, d := plan[..|plan| - 1], plan[|plan| - 1];
      RecordedKeys(m, front);
      assert plan == front + [d];
      assert Secondaries(plan) == Secondaries(front) + {d.secondary};
    }
  }

  /** The k-th planned merge would link a canonical id below itself. */
  ghost predicate ClosesCycle(m: Aliases, plan: seq<Decision>, k: nat)
    requires k < |plan|
  {
    Resolves(Recorded(m, plan[..k]), plan[k].canonical, plan[k].secondary)
  }

  lemma {:induction false} FreshPlanIff(m: Aliases, plan: seq<Decision>, n: nat)
    requires Forest(m) && WellFormed(plan) && Secondaries(plan) !! m.Keys && n <= |plan|
    ensures Forest(Recorded(m, plan[..n])) <==> forall k :: 0 <= k < n ==> !ClosesCycle(m, plan, k)
  {
    if n > 0 {
      hide Forest, Resolves;
      var k := n - 1;
      var before, d := Recorded(m, plan[..k]), plan[k];
      FreshPlanIff(m, plan, k);
      assert plan[..n][..k] == plan[..k];
      assert Recorded(m, plan[..n]) == before[d.secondary := d.canonical];
      RecordedKeys(m, plan[..k]);
      NotPlannedBefore(plan, k);
      assert d in plan && d.secondary in Secondaries(plan);
      assert ClosesCycle(m, plan, k) <==> Resolves(before, d.canonical, d.secondary);
      if Forest(before) {
        FreeLinkIff(before, d.secondary, d.canonical);
      } else if Forest(before[d.secondary := d.canonical]) {
        PartIsForest(before[d.secondary := d.canonical], before);
      }
    } else {
      assert plan[..0] == [];
    }
  }

  lemma NotPlannedBefore(plan: seq<Decision>, k: nat)
    requires SecondariesOnce(plan) && k < |plan|
    ensures plan[k].secondary !in Secondaries(plan[..k])
  {
  }

  /**
   * Recording any well-formed plan on any forest leaves a forest exactly when, with the aliases the plan replaces taken
   * out first, no planned merge in turn links an id under one that already resolves to it.
   */
  lemma PlanKeepsForestIff(m: Aliases, plan: seq<Decision>)
    requires Forest(m) && WellFormed(plan)
    ensures Forest(Recorded(m, plan)) <==> forall k :: 0 <= k < |plan| ==> !ClosesCycle(m - Secondaries(plan), plan, k)
  {
    var free := m - Secondaries(plan);
    PartIsForest(m, free);
    FreshPlanIff(free, plan, |plan|);
    RecordedWithout(m, plan, Secondaries(plan));
    assert plan[..|plan|] == plan;
    assert Secondaries(plan) - Secondaries(plan) == {};
    assert Recorded(m, plan) - {} == Recorded(m, plan);
  }

  /** What planning a batch on a log gives. */
  lemma PlannedIsWellFormed(log: seq<Decision>, contacts: set<string>, merges: seq<Merge>)
    requires WellRecorded(log) && Decided(log, contacts, merges).Some?
    ensures WellFormed(Decided(log, contacts, merges).value[|log|..])
  {
    BatchWellRecorded(log, contacts, merges);
    var all := Decided(log, contacts, merges).value;
    assert forall i :: 0 <= i < |all| - |log| ==> all[|log|..][i] == all[|log| + i];
  }

  /**
   * A batch planned on one log and recorded on another: chains still end exactly when no planned merge closes a cycle
   * there, and the log stays well recorded exactly when besides no planned secondary id was recorded meanwhile.
   */
  lemma StalePlanSafeIff(log: seq<Decision>, contacts: set<string>, merges: seq<Merge>, grown: seq<Decision>)
    requires WellRecorded(log) && Decided(log, contacts, merges).Some? && Forest(AliasMap(grown))
    ensures var plan := Decided(log, contacts, merges).value[|log|..];
            var free := AliasMap(grown) - Secondaries(plan);
            && (Forest(AliasMap(grown + plan)) <==> forall k :: 0 <= k < |plan| ==> !ClosesCycle(free, plan, k))
            && (WellRecorded(grown) ==>
                  (WellRecorded(grown + plan) <==>
                     (forall k :: 0 <= k < |plan| ==> !ClosesCycle(free, plan, k))
                         && Secondaries(plan) !! AliasMap(grown).Keys))
  {
    hide Forest, Decided, AliasMap, Recorded, ClosesCycle, WellFormed;
    var plan := Decided(log, contacts, merges).value[|log|..];
    PlannedIsWellFormed(log, contacts, merges);
    RecordedInLog(grown, plan);
    PlanKeepsForestIff(AliasMap(grown), plan);
    if WellRecorded(grown) { WellRecordedAppendIff(grown, plan); }
  }

  lemma WellRecordedAppendIff(grown: seq<Decision>, plan: seq<Decision>)
    requires WellRecorded(grown) && WellFormed(plan)
    ensures WellRecorded(grown + plan) <==> Forest(AliasMap(grown + plan)) && Secondaries(plan) !! AliasMap(grown).Keys
  {
    hide Forest, AliasMap;
    var all, n := grown + plan, |grown|;
    AliasMapKeys(grown);
    if SecondariesOnce(all) {
      forall c | c in Secondaries(plan) ensures c !in AliasMap(grown) {
        var d :| d in plan && d.secondary == c;
        var k :| 0 <= k < |plan| && plan[k] == d;
        assert all[n + k] == d;
        assert forall i :: 0 <= i < n ==> grown[i] == all[i] && all[i].secondary != all[n + k].secondary;
      }
    }
    if Secondaries(plan) !! AliasMap(grown).Keys {
      forall i, j | 0 <= i < j < |all| ensures all[i].secondary != all[j].secondary {
        if i < n <= j {
          assert plan[j - n] in plan && plan[j - n].secondary in Secondaries(plan);
          assert grown[i].secondary in AliasMap(grown);
        } else if n <= i {
          assert all[i] == plan[i - n] && all[j] == plan[j - n];
        }
      }
    }
  }

  // --------------------------------------------------------- the memories

  /** No planned canonical id is the secondary of an earlier planned merge. */
  ghost predicate Ordered(plan: seq<Decision>) {
    forall j, k :: 0 <= j < k < |plan| ==> plan[k].canonical != plan[j].secondary
  }

  lemma {:induction false} CanonicalsAreEnds(log: seq<Decision>, contacts: set<string>, merges: seq<Merge>, k: nat)
    requires Forest(AliasMap(log)) && Decided(log, contacts, merges).Some?
    requires |log| <= k < |log| + |merges|
    ensures var all := Decided(log, contacts, merges).value; IsEnd(AliasMap(all[..k]), all[k].canonical)
    decreases |merges|
  {
    hide AliasMap, Forest, IsEnd;
    var d := DecideOne(AliasMap(log), contacts, merges[0]).value;
    DecisionKeepsForest(log, contacts, merges[0]);
    var all := Decided(log, contacts, merges).value;
    if k > |log| {
      CanonicalsAreEnds(log + [d], contacts, merges[1..], k);
    } else {
      RootIsEnd(AliasMap(log), Trimmed(merges[0].primary));
      assert all[..k] == log && all[k] == (log + [d])[k];
    }
  }

  lemma AliasedIsNoEnd(log: seq<Decision>, c: string)
    requires WellRecorded(log)
    ensures IsEnd(AliasMap(log), c) <==> c !in AliasMap(log)
  {
    hide Forest;
    AliasMapKeys(log);
    if c in AliasMap(log) {
      var i :| 0 <= i < |log| && log[i].secondary == c;
      assert AliasMap(log)[log[i].secondary] == log[i].canonical;
    }
  }

  lemma PlannedIsOrdered(log: seq<Decision>, contacts: set<string>, merges: seq<Merge>)
    requires WellRecorded(log) && Decided(log, contacts, merges).Some?
    ensures Ordered(Decided(log, contacts, merges).value[|log|..])
  {
    hide AliasMap, Forest, Decided, IsEnd;
    BatchWellRecorded(log, contacts, merges);
    var all, n := Decided(log, contacts, merges).value, |log|;
    var plan := all[n..];
    forall j, k | 0 <= j < k < |plan| ensures plan[k].canonical != plan[j].secondary {
      assert plan[j] == all[n + j] && plan[k] == all[n + k];
      CanonicalsAreEnds(log, contacts, merges, n + k);
      EarlierSecondaryIsNoEnd(all, n + j, n + k);
    }
  }

  lemma EarlierSecondaryIsNoEnd(all: seq<Decision>, j: nat, k: nat)
    requires WellRecorded(all) && j < k < |all|
    ensures !IsEnd(AliasMap(all[..k]), all[j].secondary)
  {
    hide Forest;
    AliasMapKeys(all[..k]);
    assert all[..k][j] == all[j];
  }

  /** Where a memory goes when the planned decisions move it one after the other. */
  function MovedTo(id: string, plan: seq<Decision>): string
    decreases |plan|
  {
    if plan == [] then id else MovedTo(if id == plan[0].secondary then plan[0].canonical else id, plan[1..])
  }

  lemma {:induction false} MemoriesMoveAlone(memories: map<string, string>, plan: seq<Decision>)
    ensures MoveMemories(memories, plan).Keys == memories.Keys
    ensures forall k :: k in memories ==> MoveMemories(memories, plan)[k] == MovedTo(memories[k], plan)
    decreases |plan|
  {
    if plan != [] {
      var d := plan[0];
      MemoriesMoveAlone(map k | k in memories ::
          if memories[k] == d.secondary then d.canonical else memories[k], plan[1..]);
    }
  }

  lemma RestOfPlan(plan: seq<Decision>)
    requires plan != [] && WellFormed(plan) && Ordered(plan)
    ensures WellFormed(plan[1..]) && Ordered(plan[1..])
    ensures Secondaries(plan) == {plan[0].secondary} + Secondaries(plan[1..])
    ensures plan[0].secondary !in Secondaries(plan[1..])
    ensures forall d :: d in plan[1..] ==> d.canonical != plan[0].secondary
  {
    var rest := plan[1..];
    assert forall i :: 0 <= i < |rest| ==> rest[i] == plan[i + 1];
    assert plan == [plan[0]] + rest;
  }

  /** A memory ends on no planned secondary id: where it was, or on some planned canonical id. */
  lemma {:induction false} MovedOffSecondaries(id: string, plan: seq<Decision>)
    requires WellFormed(plan) && Ordered(plan)
    ensures MovedTo(id, plan) !in Secondaries(plan)
    ensures MovedTo(id, plan) == id || exists d :: d in plan && d.canonical == MovedTo(id, plan)
    decreases |plan|
  {
    if plan != [] {
      hide WellFormed, Ordered, Secondaries;
      var d, rest := plan[0], plan[1..];
      RestOfPlan(plan);
      PlannedCanonicalDiffers(plan);
      assert forall x :: x in rest ==> x in plan;
      var id' := if id == d.secondary then d.canonical else id;
      MovedOffSecondaries(id', rest);
    }
  }

  lemma PlannedCanonicalDiffers(plan: seq<Decision>)
    requires plan != [] && WellFormed(plan)
    ensures plan[0].canonical != plan[0].secondary && plan[0].canonical != "" && plan[0] in plan
  {
  }

  lemma {:induction false} OthersStay(id: string, plan: seq<Decision>)
    requires id !in Secondaries(plan)
    ensures MovedTo(id, plan) == id
    decreases |plan|
  {
    if plan != [] {
      assert plan == [plan[0]] + plan[1..];
      OthersStay(id, plan[1..]);
    }
  }

  /** A memory on the k-th planned secondary id first moves to that decision's canonical id. */
  lemma {:induction false} MovesFromSecondary(plan: seq<Decision>, k: nat)
    requires SecondariesOnce(plan) && k < |plan|
    ensures MovedTo(plan[k].secondary, plan) == MovedTo(plan[k].canonical, plan[k + 1..])
    decreases |plan|
  {
    var rest := plan[1..];
    assert forall i :: 0 <= i < |rest| ==> rest[i] == plan[i + 1];
    if k > 0 {
      MovesFromSecondary(rest, k - 1);
      assert rest[k..] == plan[k + 1..];
    }
  }

  /** Moving follows the aliases a plan leaves. */
  lemma {:induction false} MovesAlongAliases(m: Aliases, id: string, plan: seq<Decision>)
    requires forall i :: 0 <= i < |plan| ==>
               plan[i].secondary in m && m[plan[i].secondary] == plan[i].canonical
               && plan[i].canonical != "" && plan[i].canonical != plan[i].secondary
    requires IsEnd(m, MovedTo(id, plan))
    ensures Resolves(m, id, MovedTo(id, plan))
    decreases |plan|
  {
    var to := MovedTo(id, plan);
    if plan == [] {
      assert Leads(m, id, to, 0);
    } else {
      var d, rest := plan[0], plan[1..];
      assert forall i :: 0 <= i < |rest| ==> rest[i] == plan[i + 1];
      var id' := if id == d.secondary then d.canonical else id;
      MovesAlongAliases(m, id', rest);
      if id == d.secondary {
        var n: nat :| Leads(m, id', to, n);
        assert Leads(m, id, to, n + 1);
      }
    }
  }

  /** Every memory that is on a canonical id before a plan is recorded is on one afterwards. */
  ghost predicate MemoriesStayOnRoots(grown: seq<Decision>, plan: seq<Decision>) {
    forall memories: map<string, string> ::
      OnRoots(memories, AliasMap(grown)) ==> OnRoots(MoveMemories(memories, plan), AliasMap(grown + plan))
  }

  lemma MovedMemoryIsOnRoot(grown: seq<Decision>, plan: seq<Decision>, id: string)
    requires WellRecorded(grown) && WellRecorded(grown + plan) && WellFormed(plan) && Ordered(plan)
    requires IsEnd(AliasMap(grown), id) && forall k :: 0 <= k < |plan| ==> plan[k].canonical !in AliasMap(grown)
    ensures IsEnd(AliasMap(grown + plan), MovedTo(id, plan))
    ensures Root(AliasMap(grown + plan), id) == MovedTo(id, plan)
  {
    hide Forest, AliasMap, WellFormed, Ordered;
    var all, to := grown + plan, MovedTo(id, plan);
    MovedOffSecondaries(id, plan);
    AliasedIsNoEnd(grown, id);
    AliasedIsNoEnd(all, to);
    RecordedInLog(grown, plan);
    RecordedKeys(AliasMap(grown), plan);
    assert to !in AliasMap(all);
    AliasMapKeys(all);
    assert forall i :: 0 <= i < |plan| ==> all[|grown| + i] == plan[i];
    MovesAlongAliases(AliasMap(all), id, plan);
    RootIs(AliasMap(all), id, to);
  }

  lemma MemoryLeftBehind(grown: seq<Decision>, plan: seq<Decision>, k: nat)
    requires WellRecorded(grown) && WellRecorded(grown + plan) && WellFormed(plan)
    requires k < |plan| && plan[k].canonical in AliasMap(grown)
    ensures IsEnd(AliasMap(grown), plan[k].secondary)
    ensures !IsEnd(AliasMap(grown + plan), MovedTo(plan[k].secondary, plan))
  {
    hide Forest, AliasMap;
    var c := plan[k].canonical;
    WellRecordedAppendIff(grown, plan);
    assert plan[k] in plan && plan[k].secondary in Secondaries(plan);
    AliasedIsNoEnd(grown, plan[k].secondary);
    AliasedIsNoEnd(grown + plan, c);
    RecordedInLog(grown, plan);
    RecordedKeys(AliasMap(grown), plan);
    MovesFromSecondary(plan, k);
    assert c !in Secondaries(plan[k + 1..]) by { assert forall d :: d in plan[k + 1..] ==> d in plan; }
    OthersStay(c, plan[k + 1..]);
  }

  /**
   * Recording a plan keeps all memories on canonical ids exactly when none of its canonical ids was merged away
   * meanwhile.
   */
  lemma MemoriesStayIff(grown: seq<Decision>, plan: seq<Decision>)
    requires WellRecorded(grown) && WellRecorded(grown + plan) && WellFormed(plan) && Ordered(plan)
    ensures MemoriesStayOnRoots(grown, plan) <==> forall k :: 0 <= k < |plan| ==> plan[k].canonical !in AliasMap(grown)
  {
    hide Forest, AliasMap, IsEnd, WellFormed, Ordered, WellRecorded;
    if k :| 0 <= k < |plan| && plan[k].canonical in AliasMap(grown) {
      var memories := map["m" := plan[k].secondary];
      MemoryLeftBehind(grown, plan, k);
      MemoriesMoveAlone(memories, plan);
      assert OnRoots(memories, AliasMap(grown));
      assert MoveMemories(memories, plan)["m"] == MovedTo(plan[k].secondary, plan);
      assert !OnRoots(MoveMemories(memories, plan), AliasMap(grown + plan));
    } else {
      forall memories: map<string, string> | OnRoots(memories, AliasMap(grown))
        ensures OnRoots(MoveMemories(memories, plan), AliasMap(grown + plan)) {
        MemoriesMoveAlone(memories, plan);
        forall k | k in memories ensures IsEnd(AliasMap(grown + plan), MoveMemories(memories, plan)[k]) {
          MovedMemoryIsOnRoot(grown, plan, memories[k]);
        }
      }
    }
  }

  /**
   * For a batch planned on one log and recorded on another, both well recorded: memories stay on canonical ids exactly
   * when none of the batch's canonical ids was merged away meanwhile, and then each is on the canonical id of where it
   * was.
   */
  lemma StalePlanMemoriesIff(log: seq<Decision>, contacts: set<string>, merges: seq<Merge>, grown: seq<Decision>)
    requires WellRecorded(log) && Decided(log, contacts, merges).Some?
    requires WellRecorded(grown) && WellRecorded(grown + Decided(log, contacts, merges).value[|log|..])
    ensures var plan := Decided(log, contacts, merges).value[|log|..];
            var safe := forall k :: 0 <= k < |plan| ==> plan[k].canonical !in AliasMap(grown);
            && (MemoriesStayOnRoots(grown, plan) <==> safe)
            && (safe ==> forall id :: IsEnd(AliasMap(grown), id)
                           ==> Root(AliasMap(grown + plan), id) == MovedTo(id, plan))
  {
    hide AliasMap, IsEnd, WellFormed, Ordered, MemoriesStayOnRoots, Decided;
    var plan := Decided(log, contacts, merges).value[|log|..];
    PlannedIsWellFormed(log, contacts, merges);
    PlannedIsOrdered(log, contacts, merges);
    MemoriesStayIff(grown, plan);
    if forall k :: 0 <= k < |plan| ==> plan[k].canonical !in AliasMap(grown) {
      forall id | IsEnd(AliasMap(grown), id) ensures Root(AliasMap(grown + plan), id) == MovedTo(id, plan) {
        MovedMemoryIsOnRoot(grown, plan, id);
      }
    }
  }

  /** For instance: two processes that each plan on the empty log, one merge each, and then both record. */
  lemma StalePlansCanCycle()
    ensures Forest(AliasMap([]))
    ensures DecideOne(AliasMap([]), {"a", "b"}, Merge("a", "b")) == Some(Decision("b", "a"))
    ensures DecideOne(AliasMap([]), {"a", "b"}, Merge("b", "a")) == Some(Decision("a", "b"))
    ensures !Forest(AliasMap([Decision("b", "a"), Decision("a", "b")]))
  {
    EmptyLogIsForest();
    assert Trimmed("a") == "a" && Trimmed("b") == "b";
    AliasMapSnoc([], Decision("b", "a"));
    var m := AliasMap([Decision("b", "a")]);
    assert [] + [Decision("b", "a")] == [Decision("b", "a")] && m == map["b" := "a"];
    LinkKeepsForestIff(map[], "b", "a");
    RootIs(map[], "a", "a") by { assert Leads(map[], "a", "a", 0); }
    AliasMapSnoc([Decision("b", "a")], Decision("a", "b"));
    assert [Decision("b", "a")] + [Decision("a", "b")] == [Decision("b", "a"), Decision("a", "b")];
    RootIs(m, "b", "a") by { assert Leads(m, "a", "a", 0) && Leads(m, "b", "a", 1); }
    LinkKeepsForestIff(m, "a", "b");
  }

  /**
   * For instance: b is merged into a on a log that then has a merged into c. The log is well recorded afterwards, but
   * the memories of b move to a and stay there, while b now resolves to c.
   */
  lemma StalePlanStrandsMemory()
    ensures Forest(AliasMap([]))
    ensures DecideOne(AliasMap([]), {"a", "b", "c"}, Merge("a", "b")) == Some(Decision("b", "a"))
    ensures WellRecorded([Decision("a", "c")]) && WellRecorded([Decision("a", "c")] + [Decision("b", "a")])
    ensures !MemoriesStayOnRoots([Decision("a", "c")], [Decision("b", "a")])
  {
    EmptyLogIsForest();
    NothingRecorded();
    assert Trimmed("a") == "a" && Trimmed("b") == "b" && Trimmed("c") == "c";
    assert [] + [Decision("a", "c")] == [Decision("a", "c")];
    DecisionWellRecorded([], {"a", "c"}, Merge("c", "a"));
    var grown, plan := [Decision("a", "c")], [Decision("b", "a")];
    AliasMapSnoc([], Decision("a", "c"));
    assert AliasMap(grown) == map["a" := "c"];
    RootIs(AliasMap(grown), "b", "b") by { assert Leads(AliasMap(grown), "b", "b", 0); }
    RootIs(AliasMap(grown), "c", "c") by { assert Leads(AliasMap(grown), "c", "c", 0); }
    AliasMapSnoc(grown, Decision("b", "a"));
    RootIs(AliasMap(grown), "a", "c") by {
      assert Leads(AliasMap(grown), "c", "c", 0);
      assert Leads(AliasMap(grown), "a", "c", 1);
    }
    LinkKeepsForestIff(AliasMap(grown), "b", "a");
    assert Secondaries(plan) == {"b"};
    WellRecordedAppendIff(grown, plan);
    MemoriesStayIff(grown, plan);
    assert plan[0].canonical in AliasMap(grown);
  }
}
