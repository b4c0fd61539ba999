/** The service that queues sync runs: it keeps at most one queued or ingesting sync run per account. */
module RunQueue {
  import opened Prelude
  import opened SyncRuns

  const PLATFORMS := {"contacts", "discord", "gmail", "imessage", "linkedin", "signal", "slack", "whatsapp"}

  predicate IsAdapterPlatform(p: string) {
    p in PLATFORMS
  }

  function TargetKey(platform: string, accountKey: string): string {
    platform + ":" + accountKey
  }

  function IndexOfColon(s: string): (r: int)
    ensures -1 <= r < |s|
    ensures r >= 0 ==> s[r] == ':' && forall i :: 0 <= i < r ==> s[i] != ':'
    ensures r == -1 ==> ':' !in s
  {
    if s == "" then -1
    else if s[0] == ':' then 0
    else
      var rest := IndexOfColon(s[1..]);
      if rest == -1 then -1 else rest + 1
  }

  datatype Target = Target(platform: string, accountKey: string)

  function ParseRunTargetKey(key: string): Option<Target> {
    var separator := IndexOfColon(key);
    if separator <= 0 || separator >= |key| - 1 then None
    else if !IsAdapterPlatform(key[..separator]) then None
    else Some(Target(key[..separator], key[separator + 1..]))
  }

  lemma PlatformsHaveNoColon(p: string)
    requires IsAdapterPlatform(p)
    ensures p != "" && ':' !in p
  {
  }

  /** A key parses to a target exactly when it is that target's key, so account keys survive with any colons in them. */
  lemma TargetKeyRoundTrip(key: string, t: Target)
    ensures ParseRunTargetKey(key) == Some(t)
            <==> IsAdapterPlatform(t.platform) && t.accountKey != "" && key == TargetKey(t.platform, t.accountKey)
  {
    var separator := IndexOfColon(key);
    if IsAdapterPlatform(t.platform) && t.accountKey != "" && key == TargetKey(t.platform, t.accountKey) {
      PlatformsHaveNoColon(t.platform);
      var n := |t.platform|;
      assert key[n] == ':' && forall i :: 0 <= i < n ==> key[i] == t.platform[i];
      assert separator == n;
      assert key[..n] == t.platform && key[n + 1..] == t.accountKey;
    }
    if ParseRunTargetKey(key) == Some(t) {
      assert key == key[..separator] + ":" + key[separator + 1..];
    }
  }

  /** Removes repeats, keeping first occurrences: the order of a JavaScript `Set`. */
  method Deduplicate(xs: seq<string>) returns (r: seq<string>)
    ensures NoDuplicates(r) && Elems(r) == Elems(xs)
  {
    r := [];
    for i := 0 to |xs|
      invariant NoDuplicates(r) && Elems(r) == Elems(xs[..i])
    {
      assert xs[..i + 1] == xs[..i] + [xs[i]];
      ElemsConcat(xs[..i], [xs[i]]);
      ElemsConcat(r, [xs[i]]);
      if xs[i] !in r { r := r + [xs[i]]; }
    }
    assert xs[..|xs|] == xs;
  }

  predicate Busy(s: Status) {
    s == Queued || s == Ingesting
  }

  predicate RunsFor(r: Run, t: Target) {
    r.platform == Some(t.platform) && r.accountKey == Some(t.accountKey)
  }

  predicate HasQueuedOrRunningRun(runs: Runs, t: Target) {
    exists id | id in runs :: RunsFor(runs[id], t) && Busy(runs[id].status)
  }

  predicate IsSync(r: Run) {
    r.runType == Sync || r.runType == SyncResume
  }

  /** Each account has at most one queued or ingesting sync run, and sync runs are never projecting. */
  ghost predicate OneSyncPerAccount(runs: Runs) {
    && (forall id, other, t :: id in runs && other in runs && id != other
                               && IsSync(runs[id]) && IsSync(runs[other]) && RunsFor(runs[id], t)
                                    && RunsFor(runs[other], t)
                               ==> !(Busy(runs[id].status) && Busy(runs[other].status)))
    && (forall id :: id in runs && IsSync(runs[id]) ==> runs[id].status != Projecting)
  }

  // ------------------------------------------------- service and workers

  /**
   * How the daemon uses the table: guarded enqueues of sync runs, sync claims into ingesting, others into projecting.
   */
  predicate ServiceCall(s: State, c: Call) {
    match c
    case EnqueueCall(id, run) =>
      !IsSync(run) || run.accountKey.None?
      || (run.platform.Some? && !HasQueuedOrRunningRun(s.runs, Target(run.platform.value, run.accountKey.value)))
    case ClaimCall(types, nextStatus, _, _, _, _) =>
      types != [] && if nextStatus == Ingesting then Project !in types && Rebuild !in types
                     else nextStatus == Projecting && Sync !in types && SyncResume !in types
    case _ => true
  }

  lemma SameTypeSameKind(r: Run, r': Run)
    ensures r.runType == r'.runType ==> IsSync(r) == IsSync(r')
  {
  }

  /** Apart from enqueues, no call makes a sync run busy that was not, or sends one to projecting. */
  lemma NoCallRevivesSync(s: State, c: Call, s': State, id: string)
    requires Step(s, c, s') && ServiceCall(s, c) && !c.EnqueueCall? && id in s'.runs
    ensures id in s.runs
    ensures var r, r' := s.runs[id], s'.runs[id];
            && r'.platform == r.platform && r'.accountKey == r.accountKey && r'.runType == r.runType
            && (IsSync(r) && r.status != Projecting ==> r'.status != Projecting && (Busy(r'.status) ==> Busy(r.status)))
  {
  }

  lemma CallKeepsOneSync(s: State, c: Call, s': State)
    requires OneSyncPerAccount(s.runs) && Step(s, c, s') && ServiceCall(s, c)
    ensures OneSyncPerAccount(s'.runs)
  {
    match c
    case EnqueueCall(id, run) => EnqueueKeepsOneSync(s.runs, id, run);
    case _ =>
      hide Step, ServiceCall, IsSync, Busy;
      forall id | id in s'.runs
        ensures id in s.runs
        ensures s'.runs[id].platform == s.runs[id].platform && s'.runs[id].accountKey == s.runs[id].accountKey
        ensures IsSync(s'.runs[id]) == IsSync(s.runs[id])
        ensures IsSync(s.runs[id]) ==>
                  s'.runs[id].status != Projecting && (Busy(s'.runs[id].status) ==> Busy(s.runs[id].status)) {
        NoCallRevivesSync(s, c, s', id);
        SameTypeSameKind(s.runs[id], s'.runs[id]);
      }
      forall id, other, t | id in s'.runs && other in s'.runs && id != other
                            && IsSync(s'.runs[id]) && IsSync(s'.runs[other]) && RunsFor(s'.runs[id], t)
                                 && RunsFor(s'.runs[other], t)
        ensures !(Busy(s'.runs[id].status) && Busy(s'.runs[other].status)) {
        assert RunsFor(s.runs[id], t) && RunsFor(s.runs[other], t);
      }
  }

  lemma EnqueueKeepsOneSync(runs: Runs, id: string, run: Run)
    requires OneSyncPerAccount(runs) && id !in runs && run.status != Projecting
    requires forall t :: IsSync(run) && RunsFor(run, t) ==> !HasQueuedOrRunningRun(runs, t)
    ensures OneSyncPerAccount(runs[id := run])
  {
    hide IsSync, Busy;
    forall other, t | other in runs && IsSync(run) && RunsFor(run, t) && RunsFor(runs[other], t)
      ensures !Busy(runs[other].status) {
      assert !HasQueuedOrRunningRun(runs, t);
    }
  }

  /** Over every interleaving of service enqueues, claims, progress, ends and recoveries. */
  lemma {:induction false} AtMostOneSyncPerAccount(states: seq<State>, calls: seq<Call>, i: nat)
    requires IsHistory(states, calls) && states[0].runs == map[] && i <= |calls|
    requires forall k :: 0 <= k < |calls| ==> ServiceCall(states[k], calls[k])
    ensures OneSyncPerAccount(states[i].runs)
  {
    if i > 0 {
      AtMostOneSyncPerAccount(states, calls, i - 1);
      assert Step(states[i - 1], calls[i - 1], states[(i - 1) + 1]);
      CallKeepsOneSync(states[i - 1], calls[i - 1], states[i]);
    }
  }

  // ------------------------------------------------------------- batches

  function NewRun(t: Target, runType: RunType, now: int): Run {
    Run(Some(t.platform), Some(t.accountKey), runType, Queued, now, now, None, None, 0, None, None, None, None,
        Some(t.platform))
  }

  /** The target keys that get a run: those that parse and whose account has none queued or ingesting. */
  function Accepted(runs: Runs, keys: seq<string>): (r: seq<string>)
    ensures |r| <= |keys|
    ensures forall k :: k in r ==> k in keys && ParseRunTargetKey(k).Some?
  {
    if keys == [] then []
    else
      var last := keys[|keys| - 1];
      var t := ParseRunTargetKey(last);
      Accepted(runs, keys[..|keys| - 1]) + (if t.Some? && !HasQueuedOrRunningRun(runs, t.value) then [last] else [])
  }

  function WithRuns(runs: Runs, keys: seq<string>, runType: RunType, now: int, uuid: nat -> string): Runs
    requires forall k :: k in keys ==> ParseRunTargetKey(k).Some?
  {
    if keys == [] then runs
    else
      WithRuns(runs, keys[..|keys| - 1], runType, now, uuid)
      [uuid(|keys| - 1) := NewRun(ParseRunTargetKey(keys[|keys| - 1]).value, runType, now)]
  }

  /** Fresh ids, never seen in the table and never repeated. */
  ghost predicate FreshIds(runs: Runs, uuid: nat -> string) {
    (forall i: nat :: uuid(i) !in runs) && (forall i: nat, j: nat :: i != j ==> uuid(i) != uuid(j))
  }

  lemma {:induction false} WithRunsIds(runs: Runs, keys: seq<string>, runType: RunType, now: int, uuid: nat -> string)
    requires FreshIds(runs, uuid)
    requires forall k :: k in keys ==> ParseRunTargetKey(k).Some?
    ensures var after := WithRuns(runs, keys, runType, now, uuid);
            && (forall id :: id in runs ==> id in after && after[id] == runs[id])
            && (forall i :: 0 <= i < |keys|
                  ==> uuid(i) in after && after[uuid(i)] == NewRun(ParseRunTargetKey(keys[i]).value, runType, now))
            && (forall id :: id in after ==> id in runs || exists i :: 0 <= i < |keys| && id == uuid(i))
  {
    if keys != [] {
      var front := keys[..|keys| - 1];
      WithRunsIds(runs, front, runType, now, uuid);
      assert forall i :: 0 <= i < |front| ==> front[i] == keys[i];
    }
  }

  /** Queuing runs for other accounts does not change whether an account is busy. */
  lemma OtherAccountsUnaffected(
      runs: Runs, keys: seq<string>, runType: RunType, now: int, uuid: nat -> string, key: string)
    requires FreshIds(runs, uuid) && key !in keys && ParseRunTargetKey(key).Some?
    requires forall k :: k in keys ==> ParseRunTargetKey(k).Some?
    ensures HasQueuedOrRunningRun(WithRuns(runs, keys, runType, now, uuid), ParseRunTargetKey(key).value)
            == HasQueuedOrRunningRun(runs, ParseRunTargetKey(key).value)
  {
    var t := ParseRunTargetKey(key).value;
    var after := WithRuns(runs, keys, runType, now, uuid);
    WithRunsIds(runs, keys, runType, now, uuid);
    TargetKeyRoundTrip(key, t);
    if HasQueuedOrRunningRun(runs, t) {
      var id :| id in runs && RunsFor(runs[id], t) && Busy(runs[id].status);
      assert id in after;
    }
    if HasQueuedOrRunningRun(after, t) {
      var id :| id in after && RunsFor(after[id], t) && Busy(after[id].status);
      if id !in runs {
        var i :| 0 <= i < |keys| && id == uuid(i);
        TargetKeyRoundTrip(keys[i], ParseRunTargetKey(keys[i]).value);
        assert false;
      }
    }
  }

  lemma NextIdIsNew(runs: Runs, keys: seq<string>, runType: RunType, now: int, uuid: nat -> string)
    requires FreshIds(runs, uuid) && forall k :: k in keys ==> ParseRunTargetKey(k).Some?
    ensures uuid(|keys|) !in WithRuns(runs, keys, runType, now, uuid)
  {
    hide ParseRunTargetKey, NewRun, WithRuns;
    WithRunsIds(runs, keys, runType, now, uuid);
  }

  lemma NewRunIsFor(t: Target, runType: RunType, now: int)
    ensures NewRun(t, runType, now).status == Queued
    ensures forall t' :: RunsFor(NewRun(t, runType, now), t') ==> t' == t
  {
  }

  lemma FrontDistinct(keys: seq<string>)
    requires NoDuplicates(keys) && keys != []
    ensures NoDuplicates(keys[..|keys| - 1]) && keys[|keys| - 1] !in keys[..|keys| - 1]
  {
  }

  /** A queued batch of distinct targets is a run of guarded enqueues, so it keeps the invariant. */
  lemma {:induction false} BatchKeepsOneSync(
      runs: Runs, keys: seq<string>, runType: RunType, now: int, uuid: nat -> string)
    requires OneSyncPerAccount(runs) && FreshIds(runs, uuid) && NoDuplicates(keys)
    requires forall k :: k in keys
               ==> ParseRunTargetKey(k).Some? && !HasQueuedOrRunningRun(runs, ParseRunTargetKey(k).value)
    requires runType == Sync || runType == SyncResume
    ensures OneSyncPerAccount(WithRuns(runs, keys, runType, now, uuid))
  {
    if keys != [] {
      hide OneSyncPerAccount, HasQueuedOrRunningRun, ParseRunTargetKey, NewRun, FreshIds, NoDuplicates;
      var n := |keys| - 1;
      var front, last := keys[..n], keys[n];
      assert last in keys && forall k :: k in front ==> k in keys;
      FrontDistinct(keys);
      BatchKeepsOneSync(runs, front, runType, now, uuid);
      var before := WithRuns(runs, front, runType, now, uuid);
      OtherAccountsUnaffected(runs, front, runType, now, uuid, last);
      NextIdIsNew(runs, front, runType, now, uuid);
      NewRunIsFor(ParseRunTargetKey(last).value, runType, now);
      EnqueueKeepsOneSync(before, uuid(n), NewRun(ParseRunTargetKey(last).value, runType, now));
    }
  }

  lemma {:induction false} AcceptedAreFree(runs: Runs, keys: seq<string>)
    requires NoDuplicates(keys)
    ensures NoDuplicates(Accepted(runs, keys))
    ensures forall k :: k in Accepted(runs, keys) <==>
              && k in keys && ParseRunTargetKey(k).Some?
              && !HasQueuedOrRunningRun(runs, ParseRunTargetKey(k).value)
  {
    if keys != [] {
      var front, last := keys[..|keys| - 1], keys[|keys| - 1];
      assert keys == front + [last];
      AcceptedAreFree(runs, front);
      assert last !in front;
    }
  }

  lemma NothingAccepted(runs: Runs, runType: RunType, now: int, uuid: nat -> string)
    ensures Accepted(runs, []) == [] && WithRuns(runs, [], runType, now, uuid) == runs
  {
  }

  /** Checking the next distinct target after the earlier ones were queued decides as checking it before would have. */
  lemma ResumeStep(was: Runs, unique: seq<string>, i: nat, now: int, uuid: nat -> string)
    requires FreshIds(was, uuid) && NoDuplicates(unique) && i < |unique|
    ensures var queued := Accepted(was, unique[..i]);
            var runs := WithRuns(was, queued, SyncResume, now, uuid);
            var t := ParseRunTargetKey(unique[i]);
            if t.Some? && !HasQueuedOrRunningRun(runs, t.value) then
              && Accepted(was, unique[..i + 1]) == queued + [unique[i]]
              && WithRuns(was, queued + [unique[i]], SyncResume, now, uuid)
                   == runs[uuid(|queued|) := NewRun(t.value, SyncResume, now)]
            else Accepted(was, unique[..i + 1]) == queued
  {
    hide HasQueuedOrRunningRun, ParseRunTargetKey, NewRun, FreshIds, Accepted, WithRuns, NoDuplicates;
    var queued := Accepted(was, unique[..i]);
    AcceptedSnoc(was, unique, i);
    if ParseRunTargetKey(unique[i]).Some? {
      WithRunsSnoc(was, queued, unique[i], SyncResume, now, uuid);
      NotBeforeItself(unique, i);
      OtherAccountsUnaffected(was, queued, SyncResume, now, uuid, unique[i]);
    }
  }

  lemma NotBeforeItself(xs: seq<string>, i: nat)
    requires NoDuplicates(xs) && i < |xs|
    ensures xs[i] !in xs[..i]
  {
  }

  lemma AcceptedSnoc(runs: Runs, keys: seq<string>, i: nat)
    requires i < |keys|
    ensures var t := ParseRunTargetKey(keys[i]);
            Accepted(runs, keys[..i + 1])
            == Accepted(runs, keys[..i]) + (if t.Some? && !HasQueuedOrRunningRun(runs, t.value) then [keys[i]] else [])
  {
    hide HasQueuedOrRunningRun, ParseRunTargetKey;
    assert keys[..i + 1][..i] == keys[..i];
  }

  lemma WithRunsSnoc(runs: Runs, keys: seq<string>, key: string, runType: RunType, now: int, uuid: nat -> string)
    requires ParseRunTargetKey(key).Some? && forall k :: k in keys ==> ParseRunTargetKey(k).Some?
    ensures WithRuns(runs, keys + [key], runType, now, uuid)
            == WithRuns(runs, keys, runType, now, uuid)
               [uuid(|keys|) := NewRun(ParseRunTargetKey(key).value, runType, now)]
  {
    assert (keys + [key])[..|keys|] == keys;
  }

  /** A well-formed target is accepted exactly when all its runs, if it has any, are past ingesting; nothing else is. */
  lemma AcceptedIff(runs: Runs, keys: seq<string>, t: Target)
    requires NoDuplicates(keys) && t.platform in PLATFORMS && t.accountKey != ""
    ensures t.platform + ":" + t.accountKey in Accepted(runs, keys) <==>
              && t.platform + ":" + t.accountKey in keys
              && forall id |
                   id in runs && runs[id].platform == Some(t.platform) && runs[id].accountKey == Some(t.accountKey) ::
                   runs[id].status in {Projecting, Completed, Failed}
    ensures forall k :: k in Accepted(runs, keys) ==>
              exists u: Target :: u.platform in PLATFORMS && u.accountKey != "" && k == u.platform + ":" + u.accountKey
  {
    AcceptedAreFree(runs, keys);
    TargetKeyRoundTrip(t.platform + ":" + t.accountKey, t);
    forall k | k in Accepted(runs, keys)
      ensures exists u: Target ::
        u.platform in PLATFORMS && u.accountKey != "" && k == u.platform + ":" + u.accountKey {
      TargetKeyRoundTrip(k, ParseRunTargetKey(k).value);
    }
  }

  /** The runs a batch adds: queued for now, unstarted, one for each key under the next fresh id, beside all others. */
  lemma AddedRunsHold(runs: Runs, keys: seq<string>, runType: RunType, now: int, uuid: nat -> string, i: nat)
    requires FreshIds(runs, uuid) && i < |keys| && forall k :: k in keys ==> ParseRunTargetKey(k).Some?
    ensures var after := WithRuns(runs, keys, runType, now, uuid);
            && uuid(i) in after
            && var r := after[uuid(i)];
            && r.platform.Some? && r.accountKey.Some? && keys[i] == r.platform.value + ":" + r.accountKey.value
            && r.runType == runType && r.status == Queued && r.queuedAt == now && r.scheduledAt == now
            && r.attempt == 0 && r.ownerId == None && r.leaseExpiresAt == None && r.startedAt == None
  {
    WithRunsIds(runs, keys, runType, now, uuid);
    TargetKeyRoundTrip(keys[i], ParseRunTargetKey(keys[i]).value);
  }

  /** In columns: no two sync or resume runs of one account are ever queued or ingesting together. */
  lemma NeverTwoBusySyncs(states: seq<State>, calls: seq<Call>, i: nat, id: string, other: string)
    requires IsHistory(states, calls) && states[0].runs == map[] && i <= |calls|
    requires forall k :: 0 <= k < |calls| ==> ServiceCall(states[k], calls[k])
    requires id in states[i].runs && other in states[i].runs && id != other
    ensures var r, o := states[i].runs[id], states[i].runs[other];
            !(&& r.platform.Some? && r.platform == o.platform && r.accountKey.Some? && r.accountKey == o.accountKey
              && r.runType in {Sync, SyncResume} && o.runType in {Sync, SyncResume}
              && r.status in {Queued, Ingesting} && o.status in {Queued, Ingesting})
  {
    AtMostOneSyncPerAccount(states, calls, i);
    var r, o := states[i].runs[id], states[i].runs[other];
    if r.platform.Some? && r.platform == o.platform && r.accountKey.Some? && r.accountKey == o.accountKey {
      assert RunsFor(r, Target(r.platform.value, r.accountKey.value));
      assert RunsFor(o, Target(r.platform.value, r.accountKey.value));
    }
  }

  method UniqueTargetKeys(targets: seq<Target>) returns (unique: seq<string>)
    ensures NoDuplicates(unique)
    ensures forall k :: k in unique <==> exists t :: t in targets && k == TargetKey(t.platform, t.accountKey)
  {
    hide TargetKey;
    var keys := seq(|targets|, i requires 0 <= i < |targets| => TargetKey(targets[i].platform, targets[i].accountKey));
    unique := Deduplicate(keys);
    forall k ensures k in unique <==> exists t :: t in targets && k == TargetKey(t.platform, t.accountKey) {
      assert k in unique <==> k in Elems(unique);
      assert k in keys <==> k in Elems(keys);
      if k in keys {
        var i :| 0 <= i < |keys| && keys[i] == k;
        assert targets[i] in targets;
      }
      if t :| t in targets && k == TargetKey(t.platform, t.accountKey) {
        var i :| 0 <= i < |targets| && targets[i] == t;
        assert keys[i] == k;
      }
    }
  }

  class RunQueueService {
    var runs: Runs

    constructor (runs: Runs)
      ensures this.runs == runs
    {
      this.runs := runs;
    }

    /** A manual sync of a platform: all targets are checked first, then the accepted ones are queued together. */
    method QueueSyncTargets(targets: seq<string>, now: int, uuid: nat -> string) returns (queued: seq<string>)
      requires FreshIds(runs, uuid)
      modifies this
      ensures exists keys :: NoDuplicates(keys) && Elems(keys) == Elems(targets) && queued == Accepted(old(runs), keys)
                             && runs == WithRuns(old(runs), queued, Sync, now, uuid)
      ensures OneSyncPerAccount(old(runs)) ==> OneSyncPerAccount(runs)
    {
      hide OneSyncPerAccount, HasQueuedOrRunningRun, ParseRunTargetKey, NewRun, FreshIds, NoDuplicates, Elems;
      hide WithRuns, Accepted;
      NothingAccepted(runs, Sync, now, uuid);
      var keys := Deduplicate(targets);
      queued := [];
      for i := 0 to |keys|
        invariant queued == Accepted(runs, keys[..i])
        invariant runs == old(runs)
      {
        AcceptedSnoc(runs, keys, i);
        assert queued + [] == queued;
        var t := ParseRunTargetKey(keys[i]);
        if t.Some? && !HasQueuedOrRunningRun(runs, t.value) { queued := queued + [keys[i]]; }
      }
      assert keys[..|keys|] == keys;
      AcceptedAreFree(runs, keys);
      ghost var was := runs;
      for i := 0 to |queued|
        invariant runs == WithRuns(was, queued[..i], Sync, now, uuid)
      {
        assert queued[..i + 1] == queued[..i] + [queued[i]];
        WithRunsSnoc(was, queued[..i], queued[i], Sync, now, uuid);
        runs := runs[uuid(i) := NewRun(ParseRunTargetKey(queued[i]).value, Sync, now)];
      }
      assert queued[..|queued|] == queued;
      if OneSyncPerAccount(was) { BatchKeepsOneSync(was, queued, Sync, now, uuid); }
    }

    /** A resume: each target is checked and queued in turn; with distinct targets that accepts the same ones. */
    method QueueSyncResume(
        targets: seq<Target>, now: int, uuid: nat -> string) returns (queued: seq<string>, unique: seq<string>)
      requires FreshIds(runs, uuid)
      modifies this
      ensures NoDuplicates(unique)
      ensures forall k :: k in unique <==> exists t :: t in targets && k == TargetKey(t.platform, t.accountKey)
      ensures queued == Accepted(old(runs), unique)
      ensures runs == WithRuns(old(runs), queued, SyncResume, now, uuid)
      ensures OneSyncPerAccount(old(runs)) ==> OneSyncPerAccount(runs)
    {
      hide OneSyncPerAccount, HasQueuedOrRunningRun, ParseRunTargetKey, NewRun;
      hide FreshIds, TargetKey, WithRuns, NoDuplicates;
      NothingAccepted(runs, SyncResume, now, uuid);
      unique := UniqueTargetKeys(targets);
      queued := [];
      ghost var was := runs;
      for i := 0 to |unique|
        invariant queued == Accepted(was, unique[..i])
        invariant runs == WithRuns(was, queued, SyncResume, now, uuid)
      {
        ResumeStep(was, unique, i, now, uuid);
        var t := ParseRunTargetKey(unique[i]);
        if t.Some? && !HasQueuedOrRunningRun(runs, t.value) {
          runs := runs[uuid(|queued|) := NewRun(t.value, SyncResume, now)];
          queued := queued + [unique[i]];
        }
      }
      assert unique[..|unique|] == unique;
      AcceptedAreFree(was, unique);
      if OneSyncPerAccount(was) { BatchKeepsOneSync(was, queued, SyncResume, now, uuid); }
    }
  }
}
