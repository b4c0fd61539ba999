/**
 * The daemon's telemetry queue: a bounded buffer, a coalescing timer, one drain at a time and a bounded shutdown.
 * Every method is one run-to-completion step of the event loop; awaits separate the steps.
 */
module TelemetryQueue {
  import opened Prelude

  const MAX_PENDING_EVENTS := 128

  /** A drain: none, awaiting one request, or delivered but with its `finally` still to run. */
  datatype Drain = NoDrain | Sending | Settled

  /** Shutdown: not asked for, waiting for the drain or the deadline, or resolved. */
  datatype Shutdown = Open | Closing | Resolved

  /** `accepted` and `sent` record every envelope taken into the buffer and every one handed to the endpoint. */
  datatype Queue = Queue(
    pending: seq<nat>, timerArmed: bool, drain: Drain, shutdown: Shutdown, aborted: bool, accepted: seq<nat>,
        sent: seq<nat>)

  /** How the opt-out checks of one delivery step go: `threw` of them fail and drop their envelope, then one answers. */
  datatype Check = Check(threw: nat, enabled: bool)

  /** The queue as a value with its transitions; telemetry may be switched on or off between any two steps. */
  datatype Event =
    | Enqueue(envelope: nat, enabled: bool)
    | TimerFires(check: Check)
    | SendSettles(check: Check)
    | DrainFinally
    | Close(check: Check)
    | CloseRaceEnds

  const EMPTY := Queue([], false, NoDrain, Open, false, [], [])

  function ScheduleDrain(q: Queue): Queue {
    if q.shutdown != Open || q.timerArmed || q.drain != NoDrain || q.pending == [] then q else q.(timerArmed := true)
  }

  function WithoutFirst(pending: seq<nat>, n: nat): seq<nat> {
    if n >= |pending| then [] else pending[n..]
  }

  /** The delivery loop up to its next await: takes the next envelope, or stops when told to or out of work. */
  function Deliver(q: Queue, check: Check): Queue {
    if q.pending == [] || q.aborted then q.(drain := Settled)
    else
      var left := WithoutFirst(q.pending, check.threw);
      if left == [] || !check.enabled then q.(pending := [], drain := Settled)
      else q.(pending := left[1..], drain := Sending, sent := q.sent + [left[0]])
  }

  function StartDrain(q: Queue, check: Check): Queue {
    if q.drain == NoDrain then Deliver(q, check) else q
  }

  function InFlight(q: Queue): nat {
    if q.drain == Sending then 1 else 0
  }

  /** Which events can occur: a timer only fires when armed, a request only settles while one is out, and so on. */
  predicate Enabled(q: Queue, e: Event) {
    match e
    case Enqueue(envelope, _) => envelope !in q.accepted
    case TimerFires(_) => q.timerArmed
    case SendSettles(_) => q.drain == Sending
    case DrainFinally => q.drain == Settled
    case Close(_) => true
    case CloseRaceEnds => q.shutdown == Closing
  }

  function Next(q: Queue, e: Event): Queue {
    match e
    case Enqueue(envelope, enabled) =>
      if q.shutdown != Open || |q.pending| + (if q.drain != NoDrain then 1 else 0) >= MAX_PENDING_EVENTS
          || !enabled then q
      else ScheduleDrain(q.(pending := q.pending + [envelope], accepted := q.accepted + [envelope]))
    case TimerFires(check) => StartDrain(q.(timerArmed := false), check)
    case SendSettles(check) => Deliver(q, check)
    case DrainFinally => ScheduleDrain(q.(drain := NoDrain))
    case Close(check) =>
      if q.shutdown != Open then q
      else StartDrain(q.(shutdown := Closing, timerArmed := false), check)
    case CloseRaceEnds => q.(pending := [], aborted := true, shutdown := Resolved)
  }

  class DaemonTelemetryQueue {
    var pending: seq<nat>
    var timerArmed: bool
    var draining: Drain
    var shutdown: Shutdown
    var aborted: bool
    ghost var accepted: seq<nat>
    ghost var sent: seq<nat>

    ghost function View(): Queue
      reads this
    {
      Queue(pending, timerArmed, draining, shutdown, aborted, accepted, sent)
    }

    constructor ()
      ensures View() == EMPTY
    {
      pending, timerArmed, draining, shutdown, aborted := [], false, NoDrain, Open, false;
      accepted, sent := [], [];
    }

    method Enqueue(envelope: nat, enabled: bool)
      modifies this
      ensures View() == Next(old(View()), Event.Enqueue(envelope, enabled))
    {
      var busy := if draining != NoDrain then 1 else 0;
      if shutdown != Open || |pending| + busy >= MAX_PENDING_EVENTS || !enabled { return; }
      pending := pending + [envelope];
      accepted := accepted + [envelope];
      ScheduleNextDrain();
    }

    method ScheduleNextDrain()
      modifies this
      ensures View() == ScheduleDrain(old(View()))
    {
      if shutdown != Open || timerArmed || draining != NoDrain || |pending| == 0 { return; }
      timerArmed := true;
    }

    method TimerFires(check: Check)
      requires Enabled(View(), Event.TimerFires(check))
      modifies this
      ensures View() == Next(old(View()), Event.TimerFires(check))
    {
      timerArmed := false;
      StartDraining(check);
    }

    method StartDraining(check: Check)
      modifies this
      ensures View() == StartDrain(old(View()), check)
    {
      if draining == NoDrain { DeliverNext(check); }
    }

    method DeliverNext(check: Check)
      modifies this
      ensures View() == Deliver(old(View()), check)
    {
      var failed := 0;
      while |pending| > 0 && !aborted
        invariant failed <= check.threw && (failed > 0 ==> !aborted && old(pending) != [])
            && (failed == 0 ==> pending == old(pending))
        invariant View() == old(View()).(pending := pending)
        invariant WithoutFirst(old(pending), check.threw) == WithoutFirst(pending, check.threw - failed)
        decreases |pending|
      {
        var envelope := pending[0];
        pending := pending[1..];
        if failed < check.threw {
          failed := failed + 1;
        } else if !check.enabled {
          pending := [];
          draining := Settled;
          return;
        } else {
          sent := sent + [envelope];
          draining := Sending;
          return;
        }
      }
      draining := Settled;
    }

    method SendSettles(check: Check)
      requires Enabled(View(), Event.SendSettles(check))
      modifies this
      ensures View() == Next(old(View()), Event.SendSettles(check))
    {
      DeliverNext(check);
    }

    method DrainFinally()
      requires Enabled(View(), Event.DrainFinally)
      modifies this
      ensures View() == Next(old(View()), Event.DrainFinally)
    {
      draining := NoDrain;
      ScheduleNextDrain();
    }

    method Close(check: Check)
      modifies this
      ensures View() == Next(old(View()), Event.Close(check))
    {
      if shutdown != Open { return; }
      shutdown := Closing;
      timerArmed := false;
      StartDraining(check);
    }

    method CloseRaceEnds()
      requires Enabled(View(), Event.CloseRaceEnds)
      modifies this
      ensures View() == Next(old(View()), Event.CloseRaceEnds)
    {
      pending := [];
      aborted := true;
      shutdown := Resolved;
    }
  }

  // --------------------------------------------------------------- every run

  ghost predicate IsRun(states: seq<Queue>, events: seq<Event>) {
    && |states| == |events| + 1
    && states[0] == EMPTY
    && (forall i :: 0 <= i < |events| ==> Enabled(states[i], events[i]) && states[i + 1] == Next(states[i], events[i]))
  }

  /** `xs` keeps the order of `ys` and drops some of it. */
  predicate Subsequence(xs: seq<nat>, ys: seq<nat>) {
    if xs == [] then true
    else if ys == [] then false
    else if xs[|xs| - 1] == ys[|ys| - 1] then Subsequence(xs[..|xs| - 1], ys[..|ys| - 1])
    else Subsequence(xs, ys[..|ys| - 1])
  }

  /** Bounds and wake-ups. */
  ghost predicate ControlInv(q: Queue) {
    && |q.pending| + (if q.drain == Sending then 1 else 0) <= MAX_PENDING_EVENTS
    && (q.timerArmed ==> q.drain == NoDrain && q.shutdown == Open && q.pending != [])
    && (q.shutdown == Open && q.pending != [] ==> q.timerArmed || q.drain != NoDrain)
    && (q.aborted <==> q.shutdown == Resolved)
    && (q.shutdown == Resolved ==> q.pending == [])
  }

  /** Order: sent and then pending envelopes are a selection of the accepted ones. */
  ghost predicate OrderInv(q: Queue) {
    NoDuplicates(q.accepted) && Subsequence(q.sent + q.pending, q.accepted)
  }

  ghost predicate QueueInv(q: Queue) {
    ControlInv(q) && OrderInv(q)
  }

  lemma {:induction false} SubsequenceDrop(xs: seq<nat>, ys: seq<nat>, y: nat)
    requires Subsequence(xs, ys) && y !in ys
    ensures Subsequence(xs, ys + [y])
  {
    assert (ys + [y])[..|ys|] == ys;
    if xs != [] { SubsequenceMember(xs, ys, |xs| - 1); }
  }

  lemma {:induction false} SubsequenceMember(xs: seq<nat>, ys: seq<nat>, i: nat)
    requires Subsequence(xs, ys) && i < |xs|
    ensures xs[i] in ys
    decreases |ys|
  {
    assert ys == ys[..|ys| - 1] + [ys[|ys| - 1]];
    if xs[|xs| - 1] == ys[|ys| - 1] {
      if i < |xs| - 1 { SubsequenceMember(xs[..|xs| - 1], ys[..|ys| - 1], i); }
    } else {
      SubsequenceMember(xs, ys[..|ys| - 1], i);
    }
  }

  lemma SubsequenceSnoc(xs: seq<nat>, ys: seq<nat>, y: nat)
    requires Subsequence(xs, ys)
    ensures Subsequence(xs + [y], ys + [y])
  {
    assert (xs + [y])[..|xs|] == xs && (ys + [y])[..|ys|] == ys;
  }

  lemma FrontIsDistinct(ys: seq<nat>)
    requires NoDuplicates(ys) && ys != []
    ensures var front := ys[..|ys| - 1];
            NoDuplicates(front) && ys[|ys| - 1] !in front && ys == front + [ys[|ys| - 1]]
  {
    var front := ys[..|ys| - 1];
    assert forall i :: 0 <= i < |front| ==> front[i] == ys[i] && ys[i] != ys[|ys| - 1];
  }

  /** Dropping the end of a subsequence of distinct elements leaves a subsequence. */
  lemma {:induction false} SubsequencePrefix(xs: seq<nat>, ys: seq<nat>, n: nat)
    requires Subsequence(xs, ys) && NoDuplicates(ys) && n <= |xs|
    ensures Subsequence(xs[..n], ys)
    decreases |ys|
  {
    hide NoDuplicates;
    if n == |xs| {
      assert xs[..n] == xs;
    } else if ys != [] {
      var front := ys[..|ys| - 1];
      FrontIsDistinct(ys);
      if xs[|xs| - 1] == ys[|ys| - 1] {
        SubsequencePrefix(xs[..|xs| - 1], front, n);
        assert xs[..|xs| - 1][..n] == xs[..n];
      } else {
        SubsequencePrefix(xs, front, n);
      }
      SubsequenceDrop(xs[..n], front, ys[|ys| - 1]);
    }
  }

  /** Removing a stretch of a subsequence leaves a subsequence. */
  lemma {:induction false} SubsequenceSkip(xs: seq<nat>, ys: seq<nat>, a: nat, b: nat)
    requires Subsequence(xs, ys) && NoDuplicates(ys) && a <= b <= |xs|
    ensures Subsequence(xs[..a] + xs[b..], ys)
    decreases |ys|
  {
    hide NoDuplicates;
    if b == |xs| {
      SubsequencePrefix(xs, ys, a);
      assert xs[..a] + xs[b..] == xs[..a];
    } else {
      var front := ys[..|ys| - 1];
      var y := ys[|ys| - 1];
      FrontIsDistinct(ys);
      if xs[|xs| - 1] == y {
        var xs' := xs[..|xs| - 1];
        SubsequenceSkip(xs', front, a, b);
        var kept := xs'[..a] + xs'[b..];
        SubsequenceSnoc(kept, front, y);
        assert xs[..a] + xs[b..] == kept + [y];
      } else {
        SubsequenceSkip(xs, front, a, b);
        SubsequenceDrop(xs[..a] + xs[b..], front, y);
      }
    }
  }

  lemma StepKeepsControl(q: Queue, e: Event)
    requires ControlInv(q) && Enabled(q, e)
    ensures ControlInv(Next(q, e))
  {
  }

  /** Dropping pending envelopes from the front keeps the order. */
  lemma DropKeepsOrder(q: Queue, left: seq<nat>)
    requires OrderInv(q) && |left| <= |q.pending| && left == q.pending[|q.pending| - |left|..]
    ensures OrderInv(q.(pending := left))
  {
    hide NoDuplicates, Subsequence;
    var all := q.sent + q.pending;
    SubsequenceSkip(all, q.accepted, |q.sent|, |all| - |left|);
    assert all[..|q.sent|] == q.sent;
    assert all[|all| - |left|..] == left;
  }

  lemma DeliverKeepsOrder(q: Queue, check: Check)
    requires OrderInv(q)
    ensures OrderInv(Deliver(q, check))
  {
    hide NoDuplicates, Subsequence;
    var left := WithoutFirst(q.pending, check.threw);
    DropKeepsOrder(q, []);
    DropKeepsOrder(q, left);
    if left != [] {
      assert (q.sent + [left[0]]) + left[1..] == q.sent + left;
    }
  }

  lemma StepKeepsOrder(q: Queue, e: Event)
    requires OrderInv(q) && Enabled(q, e)
    ensures OrderInv(Next(q, e))
  {
    hide Subsequence, Deliver;
    match e
    case Enqueue(envelope, enabled) =>
      SubsequenceSnoc(q.sent + q.pending, q.accepted, envelope);
      assert q.sent + (q.pending + [envelope]) == q.sent + q.pending + [envelope];
    case TimerFires(check) => DeliverKeepsOrder(q.(timerArmed := false), check);
    case SendSettles(check) => DeliverKeepsOrder(q, check);
    case Close(check) => DeliverKeepsOrder(q.(shutdown := Closing, timerArmed := false), check);
    case CloseRaceEnds =>
      var all := q.sent + q.pending;
      SubsequencePrefix(all, q.accepted, |q.sent|);
      assert all[..|q.sent|] == q.sent + [];
    case DrainFinally =>
  }

  lemma StepKeepsInv(q: Queue, e: Event)
    requires QueueInv(q) && Enabled(q, e)
    ensures QueueInv(Next(q, e))
  {
    StepKeepsControl(q, e);
    StepKeepsOrder(q, e);
  }

  lemma {:induction false} RunKeepsInv(states: seq<Queue>, events: seq<Event>, i: nat)
    requires IsRun(states, events) && i <= |events|
    ensures QueueInv(states[i])
  {
    if i > 0 {
      hide QueueInv, Next, Enabled;
      var k := i - 1;
      RunKeepsInv(states, events, k);
      assert states[k + 1] == Next(states[k], events[k]);
      StepKeepsInv(states[k], events[k]);
    } else {
      assert Subsequence([], []);
    }
  }

  /**
   * In every interleaving: pending and in-flight events never exceed the bound, pending work on an open queue has an
   * armed timer or an active drain, and what was sent is an in-order selection of what was accepted.
   */
  lemma BoundedAndNeverStuck(states: seq<Queue>, events: seq<Event>, i: nat)
    requires IsRun(states, events) && i <= |events|
    ensures var q := states[i];
            && |q.pending| + InFlight(q) <= MAX_PENDING_EVENTS
            && (q.shutdown == Open && q.pending != [] ==> q.timerArmed || q.drain != NoDrain)
            && Subsequence(q.sent, q.accepted)
  {
    RunKeepsInv(states, events, i);
    var q := states[i];
    assert (q.sent + q.pending)[..|q.sent|] == q.sent;
    SubsequencePrefix(q.sent + q.pending, q.accepted, |q.sent|);
  }

  lemma {:induction false} SubsequenceDistinct(xs: seq<nat>, ys: seq<nat>)
    requires Subsequence(xs, ys) && NoDuplicates(ys)
    ensures NoDuplicates(xs)
    decreases |ys|
  {
    if xs != [] {
      var front := ys[..|ys| - 1];
      assert forall i, j :: 0 <= i < j < |front| ==> front[i] == ys[i] && front[j] == ys[j];
      if xs[|xs| - 1] == ys[|ys| - 1] {
        SubsequenceDistinct(xs[..|xs| - 1], front);
        forall i | 0 <= i < |xs| - 1 ensures xs[i] != xs[|xs| - 1] {
          SubsequenceMember(xs[..|xs| - 1], front, i);
          assert xs[i] in front;
        }
        assert forall i :: 0 <= i < |xs| - 1 ==> xs[i] == xs[..|xs| - 1][i];
      } else {
        SubsequenceDistinct(xs, front);
      }
    }
  }

  /** No event is ever sent twice. */
  lemma SentOnce(states: seq<Queue>, events: seq<Event>, i: nat)
    requires IsRun(states, events) && i <= |events|
    ensures NoDuplicates(states[i].sent)
  {
    BoundedAndNeverStuck(states, events, i);
    RunKeepsInv(states, events, i);
    SubsequenceDistinct(states[i].sent, states[i].accepted);
  }

  /**
   * At most one request is out: a step hands over at most one envelope, and only once the previous request has settled.
   */
  lemma OneSendAtATime(states: seq<Queue>, events: seq<Event>, i: nat)
    requires IsRun(states, events) && i < |events| && states[i + 1].sent != states[i].sent
    ensures states[i + 1].drain == Sending && |states[i + 1].sent| == |states[i].sent| + 1
    ensures states[i].drain == Sending ==> events[i].SendSettles?
  {
    hide OrderInv;
    RunKeepsInv(states, events, i);
    assert states[i + 1] == Next(states[i], events[i]);
  }

  /** A resolved queue stays resolved and sends nothing. */
  lemma ResolvedStaysQuiet(q: Queue, e: Event)
    requires ControlInv(q) && Enabled(q, e) && q.shutdown == Resolved
    ensures Next(q, e).sent == q.sent && Next(q, e).shutdown == Resolved
  {
  }

  /** Nothing is sent once `close` has resolved. */
  lemma {:induction false} NothingSentAfterClose(states: seq<Queue>, events: seq<Event>, i: nat, j: nat)
    requires IsRun(states, events) && i <= j <= |events| && states[i].shutdown == Resolved
    ensures states[j].sent == states[i].sent && states[j].shutdown == Resolved
    decreases j - i
  {
    hide OrderInv, ControlInv, Next, Enabled;
    if i < j {
      var k := j - 1;
      NothingSentAfterClose(states, events, i, k);
      RunKeepsInv(states, events, k);
      assert states[k + 1] == Next(states[k], events[k]);
      ResolvedStaysQuiet(states[k], events[k]);
    }
  }

  // ------------------------------------------------- what each step may do

  /** In every run events are handed over only by a delivery step whose opt-out check passes, and taken in alike. */
  lemma OptOutIsHonoured(states: seq<Queue>, events: seq<Event>, i: nat)
    requires IsRun(states, events) && i < |events|
    ensures var q, e, q' := states[i], events[i], states[i + 1];
            && (q'.sent != q.sent ==> (e.TimerFires? || e.SendSettles? || e.Close?) && e.check.enabled)
            && (q'.accepted != q.accepted ==> e.Enqueue? && e.enabled)
  {
    assert states[i + 1] == Next(states[i], events[i]);
  }

  /** An event is taken into the buffer exactly when telemetry is on, the queue is open and it has room. */
  lemma AcceptedIff(states: seq<Queue>, events: seq<Event>, i: nat)
    requires IsRun(states, events) && i < |events| && events[i].Enqueue?
    ensures var q, e, q' := states[i], events[i], states[i + 1];
            var outstanding := |q.pending| + if q.drain == NoDrain then 0 else 1;
            && (e.enabled && q.shutdown == Open && outstanding < 128 ==>
                  && q'.accepted == q.accepted + [e.envelope] && q'.pending == q.pending + [e.envelope]
                  && (q'.timerArmed || q'.drain != NoDrain))
            && (!e.enabled || q.shutdown != Open || outstanding >= 128 ==> q' == q)
  {
    RunKeepsInv(states, events, i);
    assert states[i + 1] == Next(states[i], events[i]);
  }

  /** The steps that run the delivery loop. */
  ghost predicate Delivers(q: Queue, e: Event) {
    e.TimerFires? || e.SendSettles? || (e.Close? && q.shutdown == Open && q.drain == NoDrain)
  }

  /**
   * A delivery step on a queue that was not aborted sends exactly the first event whose check does not throw, when that
   * check passes; otherwise it sends nothing and forgets what was pending.
   */
  lemma DeliverySendsIff(states: seq<Queue>, events: seq<Event>, i: nat)
    requires IsRun(states, events) && i < |events| && Delivers(states[i], events[i])
    ensures var q, check, q' := states[i], events[i].check, states[i + 1];
            && (!q.aborted && check.enabled && check.threw < |q.pending| ==>
                  && q'.sent == q.sent + [q.pending[check.threw]]
                  && q'.pending == q.pending[check.threw + 1..]
                  && q'.drain == Sending)
            && (q.aborted || !check.enabled || check.threw >= |q.pending| ==>
                  q'.sent == q.sent && q'.pending == [] && q'.drain == Settled)
  {
    hide OrderInv;
    RunKeepsInv(states, events, i);
    assert states[i + 1] == Next(states[i], events[i]);
  }

  /** Only a delivery step or the end of a shutdown takes anything out of the buffer. */
  lemma OnlyDeliveryDrops(states: seq<Queue>, events: seq<Event>, i: nat)
    requires IsRun(states, events) && i < |events|
    requires !Delivers(states[i], events[i]) && !events[i].CloseRaceEnds?
    ensures states[i].pending <= states[i + 1].pending && states[i + 1].sent == states[i].sent
  {
    assert states[i + 1] == Next(states[i], events[i]);
  }

  /** Shutdown goes forward only: `close` starts it and the end of its race resolves it with an empty buffer. */
  lemma ShutdownSteps(states: seq<Queue>, events: seq<Event>, i: nat)
    requires IsRun(states, events) && i < |events|
    ensures var q, e, q' := states[i], events[i], states[i + 1];
            && (e.Close? && q.shutdown == Open ==> q'.shutdown == Closing && !q'.timerArmed)
            && (e.CloseRaceEnds? ==> q'.shutdown == Resolved && q'.pending == [] && q'.aborted)
            && (q'.shutdown != q.shutdown ==> (e.Close? && q.shutdown == Open) || e.CloseRaceEnds?)
  {
    assert states[i + 1] == Next(states[i], events[i]);
  }

  /** Whatever happened so far, the queue can be closed next. */
  lemma AnyRunCanClose(states: seq<Queue>, events: seq<Event>, check: Check)
    requires IsRun(states, events)
    ensures IsRun(states + [Next(states[|events|], Close(check))], events + [Close(check)])
  {
    var states' := states + [Next(states[|events|], Close(check))];
    var events' := events + [Close(check)];
    forall i | 0 <= i < |events'|
      ensures Enabled(states'[i], events'[i]) && states'[i + 1] == Next(states'[i], events'[i]) {
      if i < |events| { assert states'[i + 1] == states[i + 1]; }
    }
  }
}
