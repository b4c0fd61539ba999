/**
 * The sync-run table as a lease queue: workers claim runs with an owner and an attempt number, and progress,
 * finish and fail are fenced by that pair.
 */
module SyncRuns {
  import opened Prelude

  datatype RunType = Sync | SyncResume | Project | Rebuild

  datatype Status = Queued | Ingesting | Projecting | Completed | Failed

  datatype Claim = Claim(ownerId: Option<string>, attempt: nat)

  datatype Run = Run(
    platform: Option<string>, accountKey: Option<string>, runType: RunType, status: Status,
    queuedAt: int, scheduledAt: int, startedAt: Option<int>, finishedAt: Option<int>,
    attempt: nat, ownerId: Option<string>, leaseExpiresAt: Option<int>, lastProgressAt: Option<int>,
    errorCode: Option<string>, details: Option<string>)

  datatype RunError = RunError(
    runId: string, platform: Option<string>, accountKey: Option<string>, errorCode: Option<string>, message: string,
    details: Option<string>, createdAt: int)

  type Runs = map<string, Run>

  predicate Active(s: Status) {
    s == Ingesting || s == Projecting
  }

  predicate Terminal(s: Status) {
    s == Completed || s == Failed
  }

  /** The id predicate of every fenced update; without a claim only the id has to match. */
  predicate Matches(runs: Runs, id: string, claim: Option<Claim>) {
    && id in runs
    && (claim.Some? ==> runs[id].attempt == claim.value.attempt && runs[id].ownerId == claim.value.ownerId)
  }

  function LeaseEnd(now: int, leaseMs: Option<int>): Option<int> {
    if leaseMs.None? then None else Some(now + Max(1, leaseMs.value))
  }

  predicate TypeAllowed(types: seq<RunType>, t: RunType) {
    types == [] || t in types
  }

  function ActiveStatus(nextStatus: Status): Status {
    if nextStatus == Projecting then Projecting else Ingesting
  }

  predicate Claimable(r: Run, types: seq<RunType>, active: Status, now: int) {
    && TypeAllowed(types, r.runType)
    && (|| (r.status == Queued && r.scheduledAt <= now)
        || (r.status == active && r.leaseExpiresAt.Some? && r.leaseExpiresAt.value <= now))
  }

  /** `ORDER BY scheduled_at, queued_at`; SQLite leaves ties open. */
  predicate NotAfter(a: Run, b: Run) {
    a.scheduledAt < b.scheduledAt || (a.scheduledAt == b.scheduledAt && a.queuedAt <= b.queuedAt)
  }

  predicate FirstClaimable(runs: Runs, id: string, types: seq<RunType>, active: Status, now: int) {
    && id in runs && Claimable(runs[id], types, active, now)
    && forall other | other in runs && Claimable(runs[other], types, active, now) :: NotAfter(runs[id], runs[other])
  }

  function Claimed(r: Run, nextStatus: Status, ownerId: Option<string>, now: int, leaseMs: Option<int>): Run {
    r.(status := nextStatus, startedAt := if r.startedAt.Some? then r.startedAt
        else Some(now), attempt := r.attempt + 1,
    ownerId := ownerId, leaseExpiresAt := LeaseEnd(now, leaseMs), lastProgressAt := Some(now), errorCode := None)
  }

  function Progressed(r: Run, now: int, leaseMs: Option<int>, details: Option<string>): Run {
    r.(lastProgressAt := Some(now), leaseExpiresAt := if leaseMs.Some? then LeaseEnd(now, leaseMs)
        else r.leaseExpiresAt,
    details := if details.Some? then details else r.details)
  }

  function Closed(r: Run, status: Status, now: int, errorCode: Option<string>, details: Option<string>): Run {
    r.(status := status, finishedAt := Some(now), ownerId := None, leaseExpiresAt := None, lastProgressAt := Some(now),
    errorCode := errorCode, details := if details.Some? then details else r.details)
  }

  function Requeued(r: Run, now: int, errorCode: string): Run {
    r.(status := Queued, scheduledAt := now, ownerId := None, leaseExpiresAt := None, lastProgressAt := Some(now),
    errorCode := Some(errorCode))
  }

  // ---------------------------------------------------------- the protocol

  datatype State = State(runs: Runs, errors: seq<RunError>)

  /** One call on the table. `picked` is the row a claim took; `ok` is what a fenced call returned. */
  datatype Call =
    | EnqueueCall(id: string, run: Run)
    | ClaimCall(types: seq<RunType>, nextStatus: Status, ownerId: Option<string>, now: int, leaseMs: Option<int>,
        picked: Option<string>)
    | ProgressCall(id: string, claim: Option<Claim>, now: int, leaseMs: Option<int>, details: Option<string>, ok: bool)
    | FinishCall(id: string, claim: Option<Claim>, now: int, details: Option<string>, ok: bool)
    | FailCall(id: string, claim: Option<Claim>, now: int, message: string, errorCode: Option<string>,
        details: Option<string>, ok: bool)
    | RecoverCall(now: int, reason: string)

  predicate FreshRun(r: Run) {
    r.status == Queued && r.attempt == 0 && r.ownerId == None && r.leaseExpiresAt == None && r.startedAt == None
        && r.finishedAt == None
  }

  function Recovered(runs: Runs, now: int, errorCode: string): Runs {
    map id | id in runs :: if Active(runs[id].status) then Requeued(runs[id], now, errorCode) else runs[id]
  }

  predicate Step(s: State, c: Call, s': State) {
    match c
    case EnqueueCall(id, run) =>
      id !in s.runs && FreshRun(run) && s' == s.(runs := s.runs[id := run])
    case ClaimCall(types, nextStatus, ownerId, now, leaseMs, picked) =>
      var active := ActiveStatus(nextStatus);
      if picked.None? then
        && (forall id | id in s.runs :: !Claimable(s.runs[id], types, active, now))
        && s' == s
      else
        && FirstClaimable(s.runs, picked.value, types, active, now)
        && s' == s.(runs := s.runs[picked.value := Claimed(s.runs[picked.value], nextStatus, ownerId, now, leaseMs)])
    case ProgressCall(id, claim, now, leaseMs, details, ok) =>
      && ok == Matches(s.runs, id, claim)
      && s' == if ok then s.(runs := s.runs[id := Progressed(s.runs[id], now, leaseMs, details)]) else s
    case FinishCall(id, claim, now, details, ok) =>
      && ok == Matches(s.runs, id, claim)
      && s' == if ok then s.(runs := s.runs[id := Closed(s.runs[id], Completed, now, None, details)]) else s
    case FailCall(id, claim, now, message, errorCode, details, ok) =>
      && ok == Matches(s.runs, id, claim)
      && s' == if ok then
                 State(s.runs[id := Closed(s.runs[id], Failed, now, errorCode, details)],
                       s.errors + [RunError(id, s.runs[id].platform, s.runs[id].accountKey, errorCode, message,
                           details, now)])
               else s
    case RecoverCall(now, reason) =>
      s' == s.(runs := Recovered(s.runs, now, reason))
  }

  predicate Fenced(c: Call) {
    match c
    case ProgressCall(_, claim, _, _, _, _) => claim.Some? && claim.value.ownerId.Some?
    case FinishCall(_, claim, _, _, _) => claim.Some? && claim.value.ownerId.Some?
    case FailCall(_, claim, _, _, _, _, _) => claim.Some? && claim.value.ownerId.Some?
    case ClaimCall(_, nextStatus, _, _, _, _) => Active(nextStatus)
    case _ => true
  }

  /** An interleaving of calls by any number of workers. */
  ghost predicate IsHistory(states: seq<State>, calls: seq<Call>) {
    && |states| == |calls| + 1
    && (forall i :: 0 <= i < |calls| ==> Step(states[i], calls[i], states[i + 1]))
  }

  ghost predicate FencedHistory(states: seq<State>, calls: seq<Call>) {
    && IsHistory(states, calls)
    && states[0].runs == map[]
    && (forall i :: 0 <= i < |calls| ==> Fenced(calls[i]))
  }

  // ------------------------------------------------------------- the table

  class RunTable {
    var runs: Runs
    var errors: seq<RunError>

    function Snapshot(): State
      reads this
    {
      State(runs, errors)
    }

    constructor ()
      ensures Snapshot() == State(map[], [])
    {
      runs, errors := map[], [];
    }

    method QueueSyncRun(
      id: string, platform: Option<string>, accountKey: Option<string>, runType: RunType, details: Option<string>,
      scheduledAt: Option<int>, delayMs: Option<int>, now: int) returns (run: Run)
      requires id !in runs
      modifies this
      ensures Step(old(Snapshot()), EnqueueCall(id, run), Snapshot())
      ensures run.platform == platform && run.accountKey == accountKey && run.runType == runType
          && run.details == details
      ensures run.queuedAt == now
      ensures run.scheduledAt == if scheduledAt.Some? then scheduledAt.value else if delayMs.Some?
          then now + Max(0, delayMs.value) else now
    {
      var at := now;
      if scheduledAt.Some? {
        at := scheduledAt.value;
      } else if delayMs.Some? {
        at := now + Max(0, delayMs.value);
      }
      run := Run(platform, accountKey, runType, Queued, now, at, None, None, 0, None, None, None, None, details);
      runs := runs[id := run];
    }

    method ClaimNextQueuedRun(
        types: seq<RunType>, nextStatus: Status, ownerId: Option<string>, leaseMs: Option<int>, now: int)
      returns (picked: Option<string>, run: Option<Run>)
      modifies this
      ensures Step(old(Snapshot()), ClaimCall(types, nextStatus, ownerId, now, leaseMs, picked), Snapshot())
      ensures run == if picked.None? then None else Some(runs[picked.value])
    {
      var active := ActiveStatus(nextStatus);
      var rest := runs.Keys;
      var best: Option<string> := None;
      while rest != {}
        invariant rest <= runs.Keys
        invariant best.None? ==> forall id :: id in runs && id !in rest ==> !Claimable(runs[id], types, active, now)
        invariant best.Some? ==> best.value in runs && Claimable(runs[best.value], types, active, now)
        invariant best.Some? ==>
          forall id :: id in runs && id !in rest && Claimable(runs[id], types, active, now)
              ==> NotAfter(runs[best.value], runs[id])
        invariant Snapshot() == old(Snapshot())
        decreases rest
      {
        var id :| id in rest;
        if Claimable(runs[id], types, active, now) && (best.None? || !NotAfter(runs[best.value], runs[id])) {
          best := Some(id);
        }
        rest := rest - {id};
      }
      if best.None? { return None, None; }
      var row := runs[best.value];
      var startedAt := Coalesce(row.startedAt, Some(now));
      var leaseExpiresAt: Option<int> := None;
      if leaseMs.Some? { leaseExpiresAt := Some(now + Max(1, leaseMs.value)); }
      row := row.(status := nextStatus, startedAt := startedAt, attempt := row.attempt + 1, ownerId := ownerId,
        leaseExpiresAt := leaseExpiresAt, lastProgressAt := Some(now), errorCode := None);
      runs := runs[best.value := row];
      return best, Some(row);
    }

    /** The earliest instant at which a claim of these types could succeed. */
    method GetNextClaimableRunAt(types: seq<RunType>, active: Status) returns (at: Option<int>)
      ensures at == NextClaimableAt(runs, types, active)
    {
      var rest := runs.Keys;
      at := None;
      ghost var seen: set<string> := {};
      while rest != {}
        invariant rest <= runs.Keys && seen == runs.Keys - rest
        invariant IsNextClaimable(runs, seen, types, active, at)
        decreases rest
      {
        var id :| id in rest;
        var r := runs[id];
        if TypeAllowed(types, r.runType) && Opens(r, active).Some? {
          if at.None? || Opens(r, active).value < at.value { at := Opens(r, active); }
        }
        rest := rest - {id};
        seen := seen + {id};
      }
      assert seen == runs.Keys;
      NextClaimableUnique(runs, types, active, at);
    }

    method UpdateRunProgress(
        id: string, claim: Option<Claim>, leaseMs: Option<int>, details: Option<string>, now: int) returns (ok: bool)
      modifies this
      ensures Step(old(Snapshot()), ProgressCall(id, claim, now, leaseMs, details, ok), Snapshot())
    {
      ok := Matches(runs, id, claim);
      if ok {
        var row := runs[id].(lastProgressAt := Some(now));
        if leaseMs.Some? { row := row.(leaseExpiresAt := Some(now + Max(1, leaseMs.value))); }
        if details.Some? { row := row.(details := details); }
        runs := runs[id := row];
      }
    }

    method FinishRun(id: string, claim: Option<Claim>, details: Option<string>, now: int) returns (ok: bool)
      modifies this
      ensures Step(old(Snapshot()), FinishCall(id, claim, now, details, ok), Snapshot())
    {
      ok := Matches(runs, id, claim);
      if ok {
        var row := runs[id].(
          status := Completed, finishedAt := Some(now), ownerId := None, leaseExpiresAt := None,
              lastProgressAt := Some(now),
          errorCode := None);
        if details.Some? { row := row.(details := details); }
        runs := runs[id := row];
      }
    }

    method FailRun(
        id: string, message: string, details: Option<string>, errorCode: Option<string>, claim: Option<Claim>, now: int)
      returns (ok: bool)
      modifies this
      ensures Step(old(Snapshot()), FailCall(id, claim, now, message, errorCode, details, ok), Snapshot())
    {
      ok := Matches(runs, id, claim);
      if ok {
        var run := runs[id];
        var row := run.(
          status := Failed, finishedAt := Some(now), ownerId := None, leaseExpiresAt := None,
              lastProgressAt := Some(now),
          errorCode := errorCode);
        if details.Some? { row := row.(details := details); }
        runs := runs[id := row];
        errors := errors + [RunError(id, run.platform, run.accountKey, errorCode, message, details, now)];
      }
    }

    method RecoverInProgressRuns(errorCode: string, now: int) returns (changes: nat)
      modifies this
      ensures Step(old(Snapshot()), RecoverCall(now, errorCode), Snapshot())
      ensures changes == |set id | id in old(runs) && Active(old(runs)[id].status)|
    {
      changes := |set id | id in runs && Active(runs[id].status)|;
      runs := map id | id in runs ::
        if Active(runs[id].status) then
          runs[id].(status := Queued, scheduledAt := now, ownerId := None, leaseExpiresAt := None,
              lastProgressAt := Some(now),
            errorCode := Some(errorCode))
        else runs[id];
    }
  }

  // ------------------------------------------------------------- scheduler

  /** When a run becomes claimable, if it ever does without another call. */
  function Opens(r: Run, active: Status): Option<int> {
    if r.status == Queued then Some(r.scheduledAt)
    else if r.status == active then r.leaseExpiresAt
    else None
  }

  ghost predicate IsNextClaimable(runs: Runs, ids: set<string>, types: seq<RunType>, active: Status, at: Option<int>)
    requires ids <= runs.Keys
  {
    && (forall id :: id in ids && TypeAllowed(types, runs[id].runType) && Opens(runs[id], active).Some?
                     ==> at.Some? && at.value <= Opens(runs[id], active).value)
    && (at.Some? ==> exists id :: id in ids && TypeAllowed(types, runs[id].runType) && Opens(runs[id], active) == at)
  }

  lemma {:induction false} NextClaimableExists(
      runs: Runs, ids: set<string>, types: seq<RunType>, active: Status) returns (at: Option<int>)
    requires ids <= runs.Keys
    ensures IsNextClaimable(runs, ids, types, active, at)
    decreases ids
  {
    if ids == {} {
      at := None;
    } else {
      var id :| id in ids;
      at := NextClaimableExists(runs, ids - {id}, types, active);
      var opens := Opens(runs[id], active);
      if TypeAllowed(types, runs[id].runType) && opens.Some? && (at.None? || opens.value < at.value) { at := opens; }
    }
  }

  ghost function NextClaimableAt(runs: Runs, types: seq<RunType>, active: Status): (at: Option<int>)
    ensures IsNextClaimable(runs, runs.Keys, types, active, at)
  {
    assert exists at :: IsNextClaimable(runs, runs.Keys, types, active, at) by {
      var at := NextClaimableExists(runs, runs.Keys, types, active);
    }
    var at :| IsNextClaimable(runs, runs.Keys, types, active, at);
    at
  }

  lemma NextClaimableUnique(runs: Runs, types: seq<RunType>, active: Status, at: Option<int>)
    requires IsNextClaimable(runs, runs.Keys, types, active, at)
    ensures at == NextClaimableAt(runs, types, active)
  {
  }

  /**
   * A claim at time `now` takes a run exactly when the next-claimable time is known and not in the future, so a
   * scheduler that sleeps until that time finds work when it wakes and would have found none before.
   */
  lemma ClaimSucceedsIffDue(
      s: State, s': State, types: seq<RunType>, nextStatus: Status, ownerId: Option<string>, now: int,
                            leaseMs: Option<int>, picked: Option<string>)
    requires Active(nextStatus)
    requires Step(s, ClaimCall(types, nextStatus, ownerId, now, leaseMs, picked), s')
    ensures var at := NextClaimableAt(s.runs, types, nextStatus);
            && (picked.Some? <==> at.Some? && at.value <= now)
            && (picked.Some? ==> picked.value in s.runs)
            && (picked.Some? ==>
                  forall id :: id in s.runs && Claimable(s.runs[id], types, nextStatus, now) ==>
                    var r, other := s.runs[picked.value], s.runs[id];
                    || r.scheduledAt < other.scheduledAt
                    || (r.scheduledAt == other.scheduledAt && r.queuedAt <= other.queuedAt))
  {
    var at := NextClaimableAt(s.runs, types, nextStatus);
    if at.Some? && at.value <= now {
      var id :| id in s.runs && TypeAllowed(types, s.runs[id].runType) && Opens(s.runs[id], nextStatus) == at;
      assert Claimable(s.runs[id], types, nextStatus, now);
    }
    if picked.Some? {
      assert Opens(s.runs[picked.value], nextStatus).Some?;
    }
  }

  // --------------------------------------------------------------- fencing

  /**
   * What a lease is for: whoever claims with the same status, a claimed run opens again exactly when the lease given at
   * the claim or at the last progress has run out, and never when it was claimed without one.
   */
  lemma ClaimedRunOpensAtLeaseEnd(
      s: State, c: Call, s': State, id: string, types: seq<RunType>, active: Status, later: int)
    requires Step(s, c, s') && Active(active)
    requires (c.ClaimCall? && c.picked == Some(id) && Active(c.nextStatus))
             || (c.ProgressCall? && c.id == id && c.ok && c.leaseMs.Some? && Active(s.runs[id].status))
    ensures id in s'.runs
    ensures Claimable(s'.runs[id], types, active, later) <==>
              && TypeAllowed(types, s.runs[id].runType)
              && s'.runs[id].status == active
              && c.leaseMs.Some? && later >= c.now + Max(1, c.leaseMs.value)
  {
  }

  /** A recovered run opens at once to every claim that allows its type. */
  lemma RecoveredRunOpensAtOnce(
      s: State, s': State, now: int, reason: string, id: string, types: seq<RunType>, active: Status, later: int)
    requires Step(s, RecoverCall(now, reason), s') && id in s.runs && Active(s.runs[id].status) && Active(active)
    ensures id in s'.runs
    ensures Claimable(s'.runs[id], types, active, later) <==> TypeAllowed(types, s.runs[id].runType) && later >= now
  {
  }

  /** Attempts only grow, and only by a claim of the run. */
  lemma AttemptNeverDecreases(s: State, c: Call, s': State, id: string)
    requires Step(s, c, s') && id in s.runs
    ensures id in s'.runs && s'.runs[id].attempt >= s.runs[id].attempt
    ensures s'.runs[id].attempt > s.runs[id].attempt <==> c.ClaimCall? && c.picked == Some(id)
  {
  }

  /** What ends a claim on a run: a new claim of it, its own end, or a recovery while it is active. */
  predicate Supersedes(s: State, c: Call, id: string) {
    match c
    case ClaimCall(_, _, _, _, _, picked) => picked == Some(id)
    case FinishCall(i, _, _, _, ok) => i == id && ok
    case FailCall(i, _, _, _, _, _, ok) => i == id && ok
    case RecoverCall(_, _) => id in s.runs && Active(s.runs[id].status)
    case _ => false
  }

  /** The row still carries this claim. */
  predicate Holds(s: State, id: string, owner: string, attempt: nat) {
    id in s.runs && s.runs[id].ownerId == Some(owner) && s.runs[id].attempt == attempt
  }

  /** The claim is gone for good: a later attempt exists, or nobody owns this one. */
  predicate Stale(s: State, id: string, attempt: nat) {
    id in s.runs && (s.runs[id].attempt > attempt || (s.runs[id].attempt == attempt && s.runs[id].ownerId == None))
  }

  lemma ClaimLifeStep(s: State, c: Call, s': State, id: string, owner: string, attempt: nat)
    requires Step(s, c, s')
    ensures Stale(s, id, attempt) ==> Stale(s', id, attempt)
    ensures Holds(s, id, owner, attempt)
        ==> if Supersedes(s, c, id) then Stale(s', id, attempt) else Holds(s', id, owner, attempt)
  {
  }

  ghost predicate SupersededBetween(states: seq<State>, calls: seq<Call>, id: string, i: nat, j: nat)
    requires |states| == |calls| + 1 && j <= |calls|
  {
    exists k :: i <= k < j && Supersedes(states[k], calls[k], id)
  }

  lemma {:induction false} ClaimLife(
      states: seq<State>, calls: seq<Call>, id: string, owner: string, attempt: nat, i: nat, j: nat)
    requires IsHistory(states, calls) && i <= j <= |calls|
    requires Holds(states[i], id, owner, attempt)
    ensures SupersededBetween(states, calls, id, i, j) ==> Stale(states[j], id, attempt)
    ensures !SupersededBetween(states, calls, id, i, j) ==> Holds(states[j], id, owner, attempt)
    decreases j - i
  {
    if i < j {
      hide Step, Supersedes, Holds, Stale, SupersededBetween;
      var k := j - 1;
      ClaimLife(states, calls, id, owner, attempt, i, k);
      assert Step(states[k], calls[k], states[k + 1]);
      ClaimLifeStep(states[k], calls[k], states[j], id, owner, attempt);
      SupersededSnoc(states, calls, id, i, k);
    }
  }

  lemma SupersededSnoc(states: seq<State>, calls: seq<Call>, id: string, i: nat, k: nat)
    requires |states| == |calls| + 1 && i <= k < |calls|
    ensures SupersededBetween(states, calls, id, i, k + 1)
            <==> SupersededBetween(states, calls, id, i, k) || Supersedes(states[k], calls[k], id)
  {
    hide Supersedes;
  }

  /**
   * In every interleaving, a worker holding the claim it got at call i gets `true` from a fenced call j exactly when
   * nothing superseded that claim in between: no other claim of the run, no recovery of it, no successful end.
   */
  lemma FencedCallSucceedsIffClaimIsCurrent(
    states: seq<State>, calls: seq<Call>, i: nat, j: nat, id: string, owner: string)
    requires IsHistory(states, calls) && i < j < |calls|
    requires calls[i].ClaimCall? && calls[i].picked == Some(id) && calls[i].ownerId == Some(owner)
    requires calls[j].FinishCall? || calls[j].FailCall? || calls[j].ProgressCall?
    requires calls[j].id == id && calls[j].claim == Some(Claim(Some(owner), states[i + 1].runs[id].attempt))
    ensures calls[j].ok <==> !SupersededBetween(states, calls, id, i + 1, j)
    ensures !calls[j].ok ==> states[j + 1] == states[j]
  {
    var attempt := states[i + 1].runs[id].attempt;
    assert Step(states[i], calls[i], states[i + 1]);
    assert Holds(states[i + 1], id, owner, attempt);
    ClaimLife(states, calls, id, owner, attempt, i + 1, j);
    assert Step(states[j], calls[j], states[j + 1]);
  }

  /** A run is owned only while it is active; ended runs are unowned. */
  ghost predicate OwnedMeansActive(s: State) {
    forall id :: id in s.runs && s.runs[id].ownerId.Some? ==> Active(s.runs[id].status)
  }

  lemma {:induction false} HistoryKeepsOwnership(states: seq<State>, calls: seq<Call>, i: nat)
    requires FencedHistory(states, calls) && i <= |calls|
    ensures OwnedMeansActive(states[i])
  {
    if i > 0 {
      HistoryKeepsOwnership(states, calls, i - 1);
      assert Step(states[i - 1], calls[i - 1], states[(i - 1) + 1]) && Fenced(calls[i - 1]);
    }
  }

  /** Completed and failed are absorbing: no call of a fenced history touches an ended run again. */
  lemma {:induction false} EndedRunsNeverChange(states: seq<State>, calls: seq<Call>, i: nat, j: nat, id: string)
    requires FencedHistory(states, calls) && i <= j <= |calls|
    requires id in states[i].runs && Terminal(states[i].runs[id].status)
    ensures id in states[j].runs && states[j].runs[id] == states[i].runs[id]
    decreases j - i
  {
    if i < j {
      EndedRunsNeverChange(states, calls, i, j - 1, id);
      HistoryKeepsOwnership(states, calls, j - 1);
      assert Step(states[j - 1], calls[j - 1], states[(j - 1) + 1]) && Fenced(calls[j - 1]);
    }
  }

  predicate Ends(c: Call, id: string) {
    (c.FinishCall? || c.FailCall?) && c.id == id && c.ok
  }

  /** At most one finish or fail ever succeeds per run. */
  lemma AtMostOneEnd(states: seq<State>, calls: seq<Call>, i: nat, j: nat, id: string)
    requires FencedHistory(states, calls) && i < j < |calls|
    requires Ends(calls[i], id)
    ensures !Ends(calls[j], id)
  {
    assert Step(states[i], calls[i], states[i + 1]);
    assert Terminal(states[i + 1].runs[id].status);
    EndedRunsNeverChange(states, calls, i + 1, j, id);
    assert Step(states[j], calls[j], states[j + 1]) && Fenced(calls[j]);
    assert states[j].runs[id].ownerId == None;
  }

  ghost function FailureCount(calls: seq<Call>): nat {
    if calls == [] then 0
    else FailureCount(calls[..|calls| - 1]) + (if calls[|calls| - 1].FailCall? && calls[|calls| - 1].ok then 1 else 0)
  }

  /** The error table grows by one row exactly for each fail call that returned true. */
  lemma {:induction false} ErrorsCountFailures(states: seq<State>, calls: seq<Call>)
    requires IsHistory(states, calls)
    ensures |states[|calls|].errors| == |states[0].errors| + FailureCount(calls)
    ensures states[0].errors <= states[|calls|].errors
  {
    if calls != [] {
      var n := |calls| - 1;
      ErrorsCountFailures(states[..n + 1], calls[..n]);
      assert Step(states[n], calls[n], states[n + 1]);
    }
  }

  /** The rows the failures of a history add, in order: the run and its account, and what the caller gave. */
  function FailureRows(states: seq<State>, calls: seq<Call>): seq<RunError>
    requires |states| == |calls| + 1
  {
    if calls == [] then []
    else
      var n := |calls| - 1;
      FailureRows(states[..n + 1], calls[..n])
      + match calls[n]
        case FailCall(id, _, now, message, errorCode, details, ok) =>
          if ok && id in states[n].runs then
            var run := states[n].runs[id];
            [RunError(id, run.platform, run.accountKey, errorCode, message, details, now)]
          else []
        case _ => []
  }

  /** The error table records every failure with its run, its account and what the caller gave, and nothing else. */
  lemma {:induction false} ErrorsRecordFailures(states: seq<State>, calls: seq<Call>)
    requires IsHistory(states, calls)
    ensures states[|calls|].errors == states[0].errors + FailureRows(states, calls)
  {
    if calls != [] {
      var n := |calls| - 1;
      ErrorsRecordFailures(states[..n + 1], calls[..n]);
      assert Step(states[n], calls[n], states[n + 1]);
    }
  }

  /** A run that was finished is and stays completed, one that was failed is and stays failed, with what was given. */
  lemma EndDecidesStatus(states: seq<State>, calls: seq<Call>, i: nat, j: nat, id: string)
    requires FencedHistory(states, calls) && i < j <= |calls|
    requires (calls[i].FinishCall? || calls[i].FailCall?) && calls[i].id == id && calls[i].ok
    ensures id in states[i].runs && id in states[j].runs
    ensures var r, e := states[i].runs[id], states[j].runs[id];
            && e.status == (if calls[i].FinishCall? then Completed else Failed)
            && e.finishedAt == Some(calls[i].now) && e.lastProgressAt == Some(calls[i].now)
            && e.errorCode == (if calls[i].FinishCall? then None else calls[i].errorCode)
            && e.details == (if calls[i].details.Some? then calls[i].details else r.details)
            && e.ownerId == None && e.leaseExpiresAt == None && e.attempt == r.attempt
  {
    assert Step(states[i], calls[i], states[i + 1]);
    EndedRunsNeverChange(states, calls, i + 1, j, id);
  }

  /** The run a call is about, if it is about one. */
  predicate Concerns(c: Call, id: string) {
    match c
    case EnqueueCall(i, _) => i == id
    case ClaimCall(_, _, _, _, _, picked) => picked == Some(id)
    case ProgressCall(i, _, _, _, _, _) => i == id
    case FinishCall(i, _, _, _, _) => i == id
    case FailCall(i, _, _, _, _, _, _) => i == id
    case RecoverCall(_, _) => true
  }

  /** A call changes no run but the one it is about, and a recovery none that is not active. */
  lemma OtherRunsUntouched(s: State, c: Call, s': State, id: string)
    requires Step(s, c, s') && id in s.runs
    requires !Concerns(c, id) || (c.RecoverCall? && s.runs[id].status != Ingesting && s.runs[id].status != Projecting)
    ensures id in s'.runs && s'.runs[id] == s.runs[id]
  {
  }

  /** What a claim leaves: the next status, one attempt more, the claimer, its lease, and no error. */
  lemma ClaimedRunHolds(s: State, c: Call, s': State, id: string)
    requires Step(s, c, s') && c.ClaimCall? && c.picked == Some(id)
    ensures id in s.runs && id in s'.runs
    ensures var r, r' := s.runs[id], s'.runs[id];
            && r'.status == c.nextStatus && r'.attempt == r.attempt + 1 && r'.ownerId == c.ownerId
            && r'.errorCode == None && r'.lastProgressAt == Some(c.now)
            && (c.leaseMs.None? ==> r'.leaseExpiresAt == None)
            && (c.leaseMs.Some? && c.leaseMs.value >= 1 ==> r'.leaseExpiresAt == Some(c.now + c.leaseMs.value))
            && (c.leaseMs.Some? && c.leaseMs.value < 1 ==> r'.leaseExpiresAt == Some(c.now + 1))
            && (r.startedAt.None? ==> r'.startedAt == Some(c.now))
  {
  }

  /** Progress renews the lease when asked to, replaces the details when given, and never changes status or claim. */
  lemma ProgressedRunHolds(s: State, c: Call, s': State, id: string)
    requires Step(s, c, s') && c.ProgressCall? && c.id == id && c.ok
    ensures id in s.runs && id in s'.runs
    ensures var r, r' := s.runs[id], s'.runs[id];
            && r'.lastProgressAt == Some(c.now)
            && r'.status == r.status && r'.ownerId == r.ownerId && r'.attempt == r.attempt
            && r'.errorCode == r.errorCode
            && (c.leaseMs.None? ==> r'.leaseExpiresAt == r.leaseExpiresAt)
            && (c.leaseMs.Some? && c.leaseMs.value >= 1 ==> r'.leaseExpiresAt == Some(c.now + c.leaseMs.value))
            && r'.details == (if c.details.Some? then c.details else r.details)
  {
  }

  /** A recovery requeues an interrupted run for now, unowned, with its reason as error code; its attempt stays. */
  lemma RecoveredRunHolds(s: State, c: Call, s': State, id: string)
    requires Step(s, c, s') && c.RecoverCall? && id in s.runs
    requires s.runs[id].status == Ingesting || s.runs[id].status == Projecting
    ensures id in s'.runs
    ensures var r, r' := s.runs[id], s'.runs[id];
            && r'.status == Queued && r'.scheduledAt == c.now && r'.ownerId == None && r'.leaseExpiresAt == None
            && r'.errorCode == Some(c.reason) && r'.attempt == r.attempt && r'.lastProgressAt == Some(c.now)
  {
  }

  /** The columns of a run tell where it stands: started, owned and leased once claimed, finished exactly when ended. */
  ghost predicate StageShown(r: Run) {
    && (r.startedAt.Some? <==> r.attempt > 0)
    && (r.ownerId.Some? || r.leaseExpiresAt.Some? || r.status == Ingesting || r.status == Projecting ==> r.attempt > 0)
    && (r.finishedAt.Some? <==> r.status == Completed || r.status == Failed)
  }

  lemma {:induction false} ColumnsShowStage(states: seq<State>, calls: seq<Call>, i: nat)
    requires FencedHistory(states, calls) && i <= |calls|
    ensures forall id :: id in states[i].runs ==> StageShown(states[i].runs[id])
  {
    if i > 0 {
      ColumnsShowStage(states, calls, i - 1);
      HistoryKeepsOwnership(states, calls, i - 1);
      assert Step(states[i - 1], calls[i - 1], states[(i - 1) + 1]) && Fenced(calls[i - 1]);
    }
  }

  /** What identifies a run never changes, its start is its first claim, and only a recovery moves its schedule. */
  lemma {:induction false} RunsKeepIdentity(states: seq<State>, calls: seq<Call>, i: nat, j: nat, id: string)
    requires IsHistory(states, calls) && i <= j <= |calls| && id in states[i].runs
    ensures id in states[j].runs
    ensures var r, r' := states[i].runs[id], states[j].runs[id];
            && r'.platform == r.platform && r'.accountKey == r.accountKey && r'.runType == r.runType
            && r'.queuedAt == r.queuedAt
            && (r.startedAt.Some? ==> r'.startedAt == r.startedAt)
            && (r'.scheduledAt != r.scheduledAt ==> exists k :: i <= k < j && calls[k].RecoverCall?)
    decreases j - i
  {
    if i < j {
      RunsKeepIdentity(states, calls, i, j - 1, id);
      StepKeepsIdentity(states[j - 1], calls[j - 1], states[(j - 1) + 1], id);
    }
  }

  lemma StepKeepsIdentity(s: State, c: Call, s': State, id: string)
    requires Step(s, c, s') && id in s.runs
    ensures id in s'.runs
    ensures var r, r' := s.runs[id], s'.runs[id];
            && r'.platform == r.platform && r'.accountKey == r.accountKey && r'.runType == r.runType
            && r'.queuedAt == r.queuedAt
            && (r.startedAt.Some? ==> r'.startedAt == r.startedAt)
            && (r'.scheduledAt != r.scheduledAt ==> c.RecoverCall?)
  {
  }

  /** A queued run is open to a claim of its type, or of any, from its scheduled time on. */
  lemma QueuedRunOpensAtSchedule(r: Run, types: seq<RunType>, active: Status, now: int)
    requires r.status == Queued && active != Queued
    ensures Claimable(r, types, active, now) <==> (types == [] || r.runType in types) && r.scheduledAt <= now
  {
  }

  // ----------------------------------------- where fencing does not reach

  /**
   * With owned claims a second end is refused after any first one; it is accepted exactly for a claim without an owner.
   */
  lemma SecondEndAcceptedIffUnowned(s: State, s': State, id: string, claim: Claim, now: int, details: Option<string>)
    requires Step(s, FinishCall(id, Some(claim), now, details, true), s')
    ensures Matches(s'.runs, id, Some(claim)) <==> claim.ownerId.None?
  {
  }

  /**
   * `failInProgressRuns` marks active runs failed but leaves owner and attempt alone. Nothing in the source calls it;
   * the daemon recovers interrupted runs instead (src/runtime/daemon/server.ts:3220).
   */
  function FailedInProgress(runs: Runs, now: int): Runs {
    map id | id in runs :: if Active(runs[id].status) then runs[id].(status := Failed, finishedAt := Some(now))
        else runs[id]
  }

  /** So it revokes no claim: every fenced call is answered as before, and a worker can still complete a failed run. */
  lemma FailInProgressKeepsClaims(runs: Runs, now: int, id: string, claim: Option<Claim>)
    ensures Matches(FailedInProgress(runs, now), id, claim) <==> Matches(runs, id, claim)
  {
  }

  /** Whatever run is failed this way, its worker's finish is accepted afterwards and turns it into a completed one. */
  lemma FailedRunCanStillComplete(
      s: State, now: int, id: string, claim: Claim, later: int, details: Option<string>, ok: bool, s': State)
    requires Matches(s.runs, id, Some(claim)) && (s.runs[id].status == Ingesting || s.runs[id].status == Projecting)
    requires Step(State(FailedInProgress(s.runs, now), s.errors), FinishCall(id, Some(claim), later, details, ok), s')
    ensures FailedInProgress(s.runs, now)[id] == s.runs[id].(status := Failed, finishedAt := Some(now))
    ensures ok && s'.runs[id].status == Completed && s'.runs[id].finishedAt == Some(later)
  {
  }

  /** Runs that are not under way are left alone. */
  lemma FailInProgressTouchesOnlyActive(runs: Runs, now: int, id: string)
    requires id in runs && runs[id].status != Ingesting && runs[id].status != Projecting
    ensures FailedInProgress(runs, now)[id] == runs[id]
  {
  }
}
