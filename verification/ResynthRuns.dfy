/** Whole runs of the re-synthesis queue: any interleaving of enqueues, leases and completions by any
    number of workers, under a clock that never goes back and lease tokens that are never reused. */
module ResynthRuns {
  import opened Common
  import opened ResynthQueue

  // ------------------------------------------------------------------ runs

  /** A job is named by its serial, its place among all jobs ever accepted. Because the queue only
      loses jobs at its old end, the job at position `i` has serial `dropped + i`. */
  datatype Event =
    | Grant(serial: nat, at: int, token: string)
    | Resolve(serial: nat, at: int, token: string)

  datatype World = World(queue: seq<Job>, dropped: nat, accepted: nat, clock: int, log: seq<Event>)

  datatype Step =
    | Offer(job: Job, now: int)
    | Lease(now: int, token: string)
    | Complete(id: string, token: string, outcome: Outcome, detail: string, now: int)

  ghost predicate Legal(w: World, s: Step) {
    && w.clock <= s.now
    && (s.Offer? ==> Fresh(s.job))
    && (s.Lease? ==> s.token != "" && forall e :: e in w.log && e.Grant? ==> e.token != s.token)
  }

  /** What a step adds to the log. */
  function Recorded(w: World, s: Step): (es: seq<Event>)
    ensures |es| <= 1
  {
    match s
    case Offer(_, _) => []
    case Lease(now, token) =>
      var k := FirstLeasable(w.queue, now);
      if k < |w.queue| then [Grant(w.dropped + k, now, token)] else []
    case Complete(id, token, outcome, _, now) =>
      if Resolves(w.queue, id, token, outcome)
      then [Resolve(w.dropped + IndexOf(w.queue, id), now, token)] else []
  }

  function Next(w: World, s: Step): World {
    var w' := w.(clock := s.now, log := w.log + Recorded(w, s));
    match s
    case Offer(job, _) =>
      w'.(queue := AfterEnqueue(w.queue, job), dropped := w.dropped + DroppedBy(w.queue, job),
          accepted := w.accepted + if IsNew(w.queue, job.id) then 1 else 0)
    case Lease(now, token) => w'.(queue := AfterLease(w.queue, now, token))
    case Complete(id, token, outcome, detail, now) =>
      w'.(queue := AfterComplete(w.queue, id, token, outcome, detail, now))
  }

  function Run(start: int, steps: seq<Step>): World {
    if steps == [] then World([], 0, 0, start, [])
    else Next(Run(start, steps[..|steps| - 1]), steps[|steps| - 1])
  }

  ghost predicate LegalRun(start: int, steps: seq<Step>) {
    steps == [] ||
    (LegalRun(start, steps[..|steps| - 1]) && Legal(Run(start, steps[..|steps| - 1]), steps[|steps| - 1]))
  }

  // ------------------------------------------------------------------ one job through one step

  predicate Resident(w: World, s: nat) { w.dropped <= s < w.dropped + |w.queue| }

  function At(w: World, s: nat): Job
    requires Resident(w, s)
  {
    w.queue[s - w.dropped]
  }

  /** What one step may do to one job, together with what it logs about it. */
  ghost predicate Moves(j: Job, j': Job, step: Step, s: nat, es: seq<Event>) {
    || (j' == j && forall e :: e in es ==> e.serial != s)
    || (step.Lease? && j' == Retired(j, step.now) && Exhausted(j, step.now) && forall e :: e in es ==> e.serial != s)
    || (step.Lease? && j' == Granted(j, step.now, step.token) && Leasable(j, step.now)
        && es == [Grant(s, step.now, step.token)])
    || (step.Complete? && HoldsLease(j, step.token) && es == [Resolve(s, step.now, step.token)]
        && (j' == Finished(j, step.now) || j' == Returned(j, step.detail, step.now)))
  }

  /** A job still in the queue after a step was there before and made one of the moves, or is the job
      the step offered. */
  lemma StepAt(w: World, step: Step, s: nat)
    requires |w.queue| <= MAX_QUEUE && Resident(Next(w, step), s)
    ensures Resident(w, s) ==> Moves(At(w, s), At(Next(w, step), s), step, s, Recorded(w, step))
    ensures !Resident(w, s) ==> step.Offer? && At(Next(w, step), s) == step.job && s == w.dropped + |w.queue|
  {
    match step {
      case Offer(job, _) => OfferAt(w, step, s);
      case Lease(_, _) => LeaseAt(w, step, s);
      case Complete(_, _, _, _, _) => CompleteAt(w, step, s);
    }
  }

  lemma OfferAt(w: World, step: Step, s: nat)
    requires step.Offer? && |w.queue| <= MAX_QUEUE && Resident(Next(w, step), s)
    ensures Resident(w, s) ==> At(Next(w, step), s) == At(w, s)
    ensures !Resident(w, s) ==> At(Next(w, step), s) == step.job && s == w.dropped + |w.queue|
  {
  }

  lemma LeaseAt(w: World, step: Step, s: nat)
    requires step.Lease? && Resident(w, s)
    ensures Moves(At(w, s), At(Next(w, step), s), step, s, Recorded(w, step))
  {
    var i, k := s - w.dropped, FirstLeasable(w.queue, step.now);
    assert At(Next(w, step), s) == AfterLease(w.queue, step.now, step.token)[i];
    if i < k {
      assert !Leasable(w.queue[i], step.now);
    }
  }

  lemma CompleteAt(w: World, step: Step, s: nat)
    requires step.Complete? && Resident(w, s)
    ensures Moves(At(w, s), At(Next(w, step), s), step, s, Recorded(w, step))
  {
  }

  // ------------------------------------------------------------------ what every run keeps

  ghost predicate JobOk(j: Job, clock: int) {
    match j.state
    case Queued => 0 <= j.attempts < MAX_ATTEMPTS && j.leasedAt == 0 && j.leaseUntil == 0 && j.leaseToken == ""
    case Processing =>
      && 1 <= j.attempts <= MAX_ATTEMPTS && j.leaseToken != "" && j.leasedAt <= clock
      && j.leaseUntil == j.leasedAt + LEASE_SECONDS
    case Completed => 1 <= j.attempts <= MAX_ATTEMPTS && j.leaseToken != "" && j.leasedAt == 0 && j.leaseUntil == 0
    case Failed =>
      && j.attempts == MAX_ATTEMPTS && j.leaseToken == "" && j.failedAt <= clock
      && j.leasedAt == 0 && j.leaseUntil == 0
  }

  ghost predicate QueueOk(w: World) {
    && |w.queue| <= MAX_QUEUE
    && w.accepted == |w.queue| + w.dropped
    && (forall i, j :: 0 <= i < j < |w.queue| ==> w.queue[i].id != w.queue[j].id)
    && (forall s: nat :: Resident(w, s) ==> JobOk(At(w, s), w.clock))
  }

  lemma MoveKeepsJobOk(j: Job, j': Job, step: Step, s: nat, es: seq<Event>, clock: int)
    requires JobOk(j, clock) && clock <= step.now && Moves(j, j', step, s, es)
    requires step.Lease? ==> step.token != ""
    ensures JobOk(j', step.now)
  {
  }

  lemma IdsStayDistinct(w: World, step: Step)
    requires |w.queue| <= MAX_QUEUE && forall i, j :: 0 <= i < j < |w.queue| ==> w.queue[i].id != w.queue[j].id
    ensures var q := Next(w, step).queue;
      |q| <= MAX_QUEUE && forall i, j :: 0 <= i < j < |q| ==> q[i].id != q[j].id
  {
  }

  lemma QueueOkStep(w: World, step: Step)
    requires QueueOk(w) && Legal(w, step)
    ensures QueueOk(Next(w, step))
  {
    var w' := Next(w, step);
    IdsStayDistinct(w, step);
    forall s: nat | Resident(w', s)
      ensures JobOk(At(w', s), w'.clock)
    {
      StepAt(w, step, s);
      if Resident(w, s) {
        MoveKeepsJobOk(At(w, s), At(w', s), step, s, Recorded(w, step), w.clock);
      }
    }
  }

  /** In every reachable state the ids are distinct, the length is bounded, nothing accepted is lost
      without being counted, and every job's fields agree with its state. */
  lemma {:induction false} QueueInvariant(start: int, steps: seq<Step>)
    requires LegalRun(start, steps)
    ensures QueueOk(Run(start, steps))
  {
    if steps != [] {
      var before := steps[..|steps| - 1];
      QueueInvariant(start, before);
      QueueOkStep(Run(start, before), steps[|steps| - 1]);
    }
  }

  // ------------------------------------------------------------------ the lease rate

  /** When the job with this serial was leased, oldest first. */
  function GrantTimes(log: seq<Event>, s: nat): seq<int> {
    if log == [] then []
    else
      var e := log[|log| - 1];
      GrantTimes(log[..|log| - 1], s) + if e.Grant? && e.serial == s then [e.at] else []
  }

  /** Grant times once a step has logged `es`. */
  function TimesAfter(t: seq<int>, es: seq<Event>, s: nat): seq<int> {
    t + if es != [] && es[0].Grant? && es[0].serial == s then [es[0].at] else []
  }

  lemma GrantTimesSnoc(log: seq<Event>, es: seq<Event>, s: nat)
    requires |es| <= 1
    ensures GrantTimes(log + es, s) == TimesAfter(GrantTimes(log, s), es, s)
  {
    if es == [] {
      assert log + es == log;
    } else {
      assert (log + es)[..|log|] == log;
    }
  }

  ghost predicate Rising(t: seq<int>, clock: int) {
    && (forall i, j :: 0 <= i < j < |t| ==> t[i] <= t[j])
    && (forall i :: 0 <= i < |t| ==> t[i] <= clock)
  }

  ghost predicate Spaced(t: seq<int>) {
    forall i, j :: 0 <= i && j == i + 3 && j < |t| ==> t[j] - t[i] >= RETRY_DELAY
  }

  /** The attempt counter counts the grants of the current cycle, and a cycle begins a full cool-down
      after the previous one ended. */
  ghost predicate CycleOk(j: Job, t: seq<int>) {
    var n := |t|;
    && 0 <= j.attempts <= n
    && (j.attempts == 0 ==> n == 0)
    && (0 < j.attempts < n ==> t[n - j.attempts] - t[n - j.attempts - 1] >= RETRY_DELAY)
    && (j.state.Failed? ==> n > 0 && t[n - 1] <= j.failedAt)
  }

  /** The grant three back is a cool-down ago. */
  lemma GrantGap(j: Job, t: seq<int>, clock: int, now: int)
    requires JobOk(j, clock) && clock <= now && Leasable(j, now) && Rising(t, clock) && CycleOk(j, t) && |t| >= 3
    ensures now - t[|t| - 3] >= RETRY_DELAY
  {
    var n := |t|;
    var b := if CooledDown(j, now) then n - 1 else n - j.attempts - 1;
    assert n - 3 <= b;
    assert t[n - 3] <= t[b];
    assert now - t[b] >= RETRY_DELAY;
  }

  lemma GrantKeepsCycle(j: Job, t: seq<int>, clock: int, now: int, token: string)
    requires JobOk(j, clock) && clock <= now && Leasable(j, now)
    requires Rising(t, clock) && Spaced(t) && CycleOk(j, t)
    ensures Rising(t + [now], now) && Spaced(t + [now]) && CycleOk(Granted(j, now, token), t + [now])
  {
    if |t| >= 3 { GrantGap(j, t, clock, now); }
  }

  /** A move that grants nothing. */
  ghost predicate UngrantedMove(j: Job, j': Job, step: Step) {
    || j' == j
    || (j' == Retired(j, step.now) && Exhausted(j, step.now))
    || (j.state.Processing? && j' == Finished(j, step.now))
    || (j.state.Processing? && step.Complete? && j' == Returned(j, step.detail, step.now))
  }

  lemma OtherMovesGrantNothing(j: Job, j': Job, step: Step, s: nat, es: seq<Event>, t: seq<int>)
    requires |es| <= 1 && Moves(j, j', step, s, es) && !(step.Lease? && es == [Grant(s, step.now, step.token)])
    ensures UngrantedMove(j, j', step) && TimesAfter(t, es, s) == t
  {
    assert es != [] ==> es[0] in es;
  }

  lemma OtherMovesKeepCycle(j: Job, j': Job, t: seq<int>, clock: int, step: Step)
    requires JobOk(j, clock) && clock <= step.now && Rising(t, clock) && CycleOk(j, t)
    requires UngrantedMove(j, j', step)
    ensures CycleOk(j', t)
  {
  }

  ghost predicate RateOkAt(w: World, s: nat) {
    var t := GrantTimes(w.log, s);
    && Rising(t, w.clock) && Spaced(t)
    && (Resident(w, s) ==> CycleOk(At(w, s), t))
    && (s >= w.dropped + |w.queue| ==> t == [])
  }

  ghost predicate RateOk(w: World) {
    forall s: nat :: RateOkAt(w, s)
  }

  lemma MoveKeepsRate(j: Job, j': Job, t: seq<int>, clock: int, step: Step, s: nat, es: seq<Event>)
    requires |es| <= 1 && JobOk(j, clock) && clock <= step.now && Moves(j, j', step, s, es)
    requires Rising(t, clock) && Spaced(t) && CycleOk(j, t)
    ensures var t' := TimesAfter(t, es, s); Rising(t', step.now) && Spaced(t') && CycleOk(j', t')
  {
    if step.Lease? && es == [Grant(s, step.now, step.token)] {
      GrantKeepsCycle(j, t, clock, step.now, step.token);
    } else {
      OtherMovesGrantNothing(j, j', step, s, es, t);
      OtherMovesKeepCycle(j, j', t, clock, step);
    }
  }

  lemma LogOfOneJob(w: World, step: Step, s: nat)
    requires Recorded(w, step) != [] && Recorded(w, step)[0].serial == s
    ensures Resident(w, s) && Resident(Next(w, step), s)
  {
  }

  /** A job that stays in the queue. */
  lemma RateOfResident(w: World, step: Step, s: nat)
    requires |w.queue| <= MAX_QUEUE && Legal(w, step) && RateOkAt(w, s)
    requires Resident(w, s) && Resident(Next(w, step), s) && JobOk(At(w, s), w.clock)
    ensures RateOkAt(Next(w, step), s)
  {
    var w', es, t := Next(w, step), Recorded(w, step), GrantTimes(w.log, s);
    GrantTimesSnoc(w.log, es, s);
    StepAt(w, step, s);
    MoveKeepsRate(At(w, s), At(w', s), t, w.clock, step, s, es);
  }

  /** Nothing is logged about a job that is not in the queue before and after. */
  lemma NothingLogged(w: World, step: Step, s: nat)
    requires !(Resident(w, s) && Resident(Next(w, step), s))
    ensures GrantTimes(Next(w, step).log, s) == GrantTimes(w.log, s)
  {
    var es, t := Recorded(w, step), GrantTimes(w.log, s);
    GrantTimesSnoc(w.log, es, s);
    if es != [] && es[0].serial == s { LogOfOneJob(w, step, s); }
    assert TimesAfter(t, es, s) == t;
  }

  lemma QueueEnd(w: World, step: Step)
    ensures w.dropped + |w.queue| <= Next(w, step).dropped + |Next(w, step).queue|
    ensures w.dropped <= Next(w, step).dropped
  {
  }

  /** A job that comes in, is dropped, or is not there. */
  lemma RateOfOther(w: World, step: Step, s: nat)
    requires |w.queue| <= MAX_QUEUE && Legal(w, step) && RateOkAt(w, s)
    requires !(Resident(w, s) && Resident(Next(w, step), s))
    ensures RateOkAt(Next(w, step), s)
  {
    NothingLogged(w, step, s);
    QueueEnd(w, step);
    if Resident(Next(w, step), s) { StepAt(w, step, s); }
  }

  lemma RateOfOneJob(w: World, step: Step, s: nat)
    requires |w.queue| <= MAX_QUEUE && Legal(w, step) && RateOkAt(w, s)
    requires Resident(w, s) ==> JobOk(At(w, s), w.clock)
    ensures RateOkAt(Next(w, step), s)
  {
    if Resident(w, s) && Resident(Next(w, step), s) {
      RateOfResident(w, step, s);
    } else {
      RateOfOther(w, step, s);
    }
  }

  lemma RateOkStep(w: World, step: Step)
    requires QueueOk(w) && RateOk(w) && Legal(w, step)
    ensures RateOk(Next(w, step))
  {
    forall s: nat
      ensures RateOkAt(Next(w, step), s)
    {
      RateOfOneJob(w, step, s);
    }
  }

  lemma {:induction false} RateInvariant(start: int, steps: seq<Step>)
    requires LegalRun(start, steps)
    ensures RateOk(Run(start, steps))
  {
    if steps != [] {
      var before := steps[..|steps| - 1];
      RateInvariant(start, before);
      QueueInvariant(start, before);
      RateOkStep(Run(start, before), steps[|steps| - 1]);
    }
  }

  /** Any four successive leases of one job span at least a day, whatever the workers do. */
  lemma LeaseRateBound(start: int, steps: seq<Step>, s: nat, i: nat)
    requires LegalRun(start, steps)
    requires i + 3 < |GrantTimes(Run(start, steps).log, s)|
    ensures var t := GrantTimes(Run(start, steps).log, s); t[i + 3] - t[i] >= RETRY_DELAY
  {
    RateInvariant(start, steps);
    var t := GrantTimes(Run(start, steps).log, s);
    assert RateOkAt(Run(start, steps), s);
    var j := i + 3;
    assert t[j] - t[i] >= RETRY_DELAY;
  }

  // ------------------------------------------------------------------ exclusion and fencing

  ghost predicate GrantOf(log: seq<Event>, s: nat, p: int) {
    0 <= p < |log| && log[p].Grant? && log[p].serial == s
  }

  /** The lease granted at `p` is not resolved before position `end`. */
  ghost predicate Unresolved(log: seq<Event>, s: nat, p: int, end: int) {
    forall r :: 0 <= p < r < end && r < |log| ==> !(log[r].Resolve? && log[r].serial == s)
  }

  ghost predicate LastGrant(log: seq<Event>, s: nat, p: int) {
    GrantOf(log, s, p) && forall r :: p < r < |log| ==> !(log[r].Grant? && log[r].serial == s)
  }

  /** What a job's fields say about the log. */
  ghost predicate Logged(j: Job, log: seq<Event>, s: nat) {
    && (forall p :: GrantOf(log, s, p) && Unresolved(log, s, p, |log|) ==>
          || (j.state.Processing? && log[p].at <= j.leasedAt)
          || (j.state.Failed? && log[p].at + LEASE_SECONDS <= j.failedAt))
    && (j.state.Processing? ==>
          exists p :: LastGrant(log, s, p) && log[p].token == j.leaseToken && Unresolved(log, s, p, |log|))
    && (j.leaseToken != "" ==> exists p :: LastGrant(log, s, p) && log[p].token == j.leaseToken)
  }

  ghost predicate Excluded(log: seq<Event>) {
    forall s: nat, p, q :: GrantOf(log, s, p) && GrantOf(log, s, q) && p < q && Unresolved(log, s, p, q)
      ==> log[q].at >= log[p].at + LEASE_SECONDS
  }

  /** The resolve at `r` answers the grant at `p`: same job, same token, and nothing happened to the
      job in between. */
  ghost predicate Answers(log: seq<Event>, p: int, r: int) {
    && 0 <= p < r < |log| && log[p].Grant? && log[p].serial == log[r].serial && log[p].token == log[r].token
    && forall m :: p < m < r ==> log[m].serial != log[r].serial
  }

  ghost predicate Fenced(log: seq<Event>) {
    forall r :: 0 <= r < |log| && log[r].Resolve? ==> exists p :: Answers(log, p, r)
  }

  ghost predicate TokensDistinct(log: seq<Event>) {
    forall p, q :: 0 <= p < q < |log| && log[p].Grant? && log[q].Grant? ==> log[p].token != log[q].token
  }

  ghost predicate LeaseOk(w: World) {
    && (forall e :: e in w.log ==> e.serial < w.dropped + |w.queue|)
    && (forall s: nat :: Resident(w, s) ==> Logged(At(w, s), w.log, s))
    && Excluded(w.log) && Fenced(w.log) && TokensDistinct(w.log)
  }

  /** Events about other jobs do not matter to a job. */
  lemma LoggedByOthers(j: Job, log: seq<Event>, es: seq<Event>, s: nat)
    requires |es| <= 1 && Logged(j, log, s) && forall e :: e in es ==> e.serial != s
    ensures Logged(j, log + es, s)
  {
    var log' := log + es;
    assert forall i :: |log| <= i < |log'| ==> log'[i] == es[i - |log|];
    assert forall i :: |log| <= i < |log'| ==> log'[i].serial != s;
    forall p | GrantOf(log', s, p) && Unresolved(log', s, p, |log'|)
      ensures GrantOf(log, s, p) && Unresolved(log, s, p, |log|)
    {
      forall r | p < r < |log| ensures !(log[r].Resolve? && log[r].serial == s) { assert log'[r] == log[r]; }
    }
    forall p | LastGrant(log, s, p)
      ensures LastGrant(log', s, p) && log'[p] == log[p]
      ensures Unresolved(log, s, p, |log|) ==> Unresolved(log', s, p, |log'|)
    {
      forall r | p < r < |log'| && log'[r].serial == s
        ensures r < |log| && log'[r] == log[r]
      {
      }
    }
  }

  lemma LoggedGrant(j: Job, log: seq<Event>, s: nat, now: int, token: string, clock: int)
    requires Logged(j, log, s) && Leasable(j, now) && JobOk(j, clock) && clock <= now
    ensures Logged(Granted(j, now, token), log + [Grant(s, now, token)], s)
    ensures forall p :: GrantOf(log, s, p) && Unresolved(log, s, p, |log|) ==> now >= log[p].at + LEASE_SECONDS
  {
    var log' := log + [Grant(s, now, token)];
    forall p | GrantOf(log', s, p) && Unresolved(log', s, p, |log'|) && p < |log|
      ensures GrantOf(log, s, p) && Unresolved(log, s, p, |log|)
    {
      forall r | p < r < |log| ensures !(log[r].Resolve? && log[r].serial == s) { assert log'[r] == log[r]; }
    }
    assert LastGrant(log', s, |log|) && Unresolved(log', s, |log|, |log'|);
  }

  lemma LoggedResolve(j: Job, j': Job, log: seq<Event>, s: nat, now: int, token: string)
    requires Logged(j, log, s) && HoldsLease(j, token)
    requires !j'.state.Processing? && (j'.leaseToken == "" || j'.leaseToken == token)
    ensures Logged(j', log + [Resolve(s, now, token)], s)
    ensures exists p :: Answers(log + [Resolve(s, now, token)], p, |log|)
  {
    var log' := log + [Resolve(s, now, token)];
    forall p | GrantOf(log', s, p) ensures !Unresolved(log', s, p, |log'|) {
      assert p < |log| && log'[|log|].Resolve?;
    }
    var p :| LastGrant(log, s, p) && log[p].token == token && Unresolved(log, s, p, |log|);
    assert LastGrant(log', s, p) by {
      forall r | p < r < |log'| ensures !(log'[r].Grant? && log'[r].serial == s) {
        assert r < |log| ==> log'[r] == log[r];
      }
    }
    assert Answers(log', p, |log|) by {
      forall m | p < m < |log| ensures log'[m].serial != s { assert log'[m] == log[m]; }
    }
  }

  lemma LoggedStep(w: World, step: Step, s: nat)
    requires QueueOk(w) && LeaseOk(w) && Legal(w, step) && Resident(Next(w, step), s)
    ensures Logged(At(Next(w, step), s), Next(w, step).log, s)
  {
    StepAt(w, step, s);
    var es := Recorded(w, step);
    if !Resident(w, s) {
      assert forall p :: 0 <= p < |w.log| ==> w.log[p] in w.log;
      assert w.log + es == w.log;
    } else {
      var j, j' := At(w, s), At(Next(w, step), s);
      assert JobOk(j, w.clock) && Logged(j, w.log, s);
      if step.Lease? && es == [Grant(s, step.now, step.token)] {
        LoggedGrant(j, w.log, s, step.now, step.token, w.clock);
      } else if step.Complete? && es == [Resolve(s, step.now, step.token)] {
        LoggedResolve(j, j', w.log, s, step.now, step.token);
      } else {
        LoggedByOthers(j, w.log, es, s);
        RetiredLogged(j, j', w.log + es, s, step.now);
      }
    }
  }

  lemma RetiredLogged(j: Job, j': Job, log: seq<Event>, s: nat, now: int)
    requires Logged(j, log, s)
    requires j' == j || (j' == Retired(j, now) && Exhausted(j, now))
    requires j.state.Processing? ==> j.leaseUntil == j.leasedAt + LEASE_SECONDS
    ensures Logged(j', log, s)
  {
  }

  lemma ExcludedStep(w: World, step: Step)
    requires QueueOk(w) && LeaseOk(w) && Legal(w, step)
    ensures Excluded(Next(w, step).log)
  {
    var log, log' := w.log, Next(w, step).log;
    forall s: nat, p, q | GrantOf(log', s, p) && GrantOf(log', s, q) && p < q && Unresolved(log', s, p, q)
      ensures log'[q].at >= log'[p].at + LEASE_SECONDS
    {
      assert GrantOf(log, s, p) && log'[p] == log[p];
      assert Unresolved(log, s, p, |log|) || q < |log| by {
        if q == |log| {
          forall r | p < r < |log| ensures !(log[r].Resolve? && log[r].serial == s) { assert log'[r] == log[r]; }
        }
      }
      if q < |log| {
        assert GrantOf(log, s, q);
        assert Unresolved(log, s, p, q) by {
          forall r | p < r < q ensures !(log[r].Resolve? && log[r].serial == s) { assert log'[r] == log[r]; }
        }
      } else {
        LoggedGrant(At(w, s), log, s, step.now, step.token, w.clock);
      }
    }
  }

  /** A resolve the step logs answers the job's latest grant. */
  lemma NewResolveAnswers(w: World, step: Step)
    requires QueueOk(w) && LeaseOk(w) && Legal(w, step) && Recorded(w, step) != [] && Recorded(w, step)[0].Resolve?
    ensures exists p :: Answers(w.log + Recorded(w, step), p, |w.log|)
  {
    var e := Recorded(w, step)[0];
    var j := At(w, e.serial);
    assert Logged(j, w.log, e.serial);
    LoggedResolve(j, Finished(j, step.now), w.log, e.serial, step.now, step.token);
    assert Recorded(w, step) == [Resolve(e.serial, step.now, step.token)];
  }

  lemma AnswersLater(log: seq<Event>, es: seq<Event>, p: int, r: int)
    requires Answers(log, p, r)
    ensures Answers(log + es, p, r)
  {
    forall m | p < m < r ensures (log + es)[m].serial != (log + es)[r].serial { assert (log + es)[m] == log[m]; }
  }

  lemma FencedStep(w: World, step: Step)
    requires QueueOk(w) && LeaseOk(w) && Legal(w, step)
    ensures Fenced(Next(w, step).log)
  {
    var log, es := w.log, Recorded(w, step);
    var log' := log + es;
    forall r: int | 0 <= r < |log'| && log'[r].Resolve?
      ensures exists p :: Answers(log', p, r)
    {
      if r < |log| {
        assert log[r] == log'[r];
        var p :| Answers(log, p, r);
        AnswersLater(log, es, p, r);
      } else {
        NewResolveAnswers(w, step);
      }
    }
  }

  lemma LeaseOkStep(w: World, step: Step)
    requires QueueOk(w) && LeaseOk(w) && Legal(w, step)
    ensures LeaseOk(Next(w, step))
  {
    var w', es := Next(w, step), Recorded(w, step);
    forall s: nat | Resident(w', s) ensures Logged(At(w', s), w'.log, s) { LoggedStep(w, step, s); }
    ExcludedStep(w, step);
    FencedStep(w, step);
    assert TokensDistinct(w'.log) by {
      forall p, q | 0 <= p < q < |w'.log| && w'.log[p].Grant? && w'.log[q].Grant?
        ensures w'.log[p].token != w'.log[q].token
      {
        assert w'.log[p] == w.log[p] && w.log[p] in w.log;
      }
    }
  }

  lemma {:induction false} LeaseInvariant(start: int, steps: seq<Step>)
    requires LegalRun(start, steps)
    ensures LeaseOk(Run(start, steps))
  {
    if steps != [] {
      var before := steps[..|steps| - 1];
      LeaseInvariant(start, before);
      QueueInvariant(start, before);
      LeaseOkStep(Run(start, before), steps[|steps| - 1]);
    }
  }

  /** A job is leased again while an earlier lease is unresolved only at or after that lease's
      deadline. */
  lemma MutualExclusion(start: int, steps: seq<Step>, s: nat, p: int, q: int)
    requires LegalRun(start, steps)
    requires var log := Run(start, steps).log;
      GrantOf(log, s, p) && GrantOf(log, s, q) && p < q && Unresolved(log, s, p, q)
    ensures var log := Run(start, steps).log; log[q].at >= log[p].at + LEASE_SECONDS
  {
    LeaseInvariant(start, steps);
  }

  /** Every accepted completion carries the token of the job's latest grant, with nothing having
      happened to the job since. */
  lemma OnlyTheLatestGrantCompletes(start: int, steps: seq<Step>, r: int)
    requires LegalRun(start, steps)
    requires 0 <= r < |Run(start, steps).log| && Run(start, steps).log[r].Resolve?
    ensures exists p :: Answers(Run(start, steps).log, p, r)
  {
    LeaseInvariant(start, steps);
  }

  /** A token whose job has been granted again since completes nothing, whatever id it is offered
      with, and leaves the queue as it was. */
  lemma SupersededTokenIsRejected(
    start: int, steps: seq<Step>, p: int, q: int, id: string, outcome: Outcome, detail: string, now: int)
    requires LegalRun(start, steps)
    requires var log := Run(start, steps).log;
      0 <= p < q < |log| && log[p].Grant? && log[q].Grant? && log[p].serial == log[q].serial
    ensures var w := Run(start, steps);
      && !Accepted(w.queue, id, w.log[p].token, outcome)
      && AfterComplete(w.queue, id, w.log[p].token, outcome, detail, now) == w.queue
  {
    LeaseInvariant(start, steps);
    SupersededIsReleased(Run(start, steps), p, q);
  }

  /** Nobody holds the token of a grant that was followed by another grant of its job. */
  lemma SupersededIsReleased(w: World, p: int, q: int)
    requires LeaseOk(w) && 0 <= p < q < |w.log|
    requires w.log[p].Grant? && w.log[q].Grant? && w.log[p].serial == w.log[q].serial
    ensures NobodyHolds(w, w.log[p].token) || w.log[p].token == ""
  {
    LoggedTokensHeld(w);
    var token := w.log[p].token;
    forall k: nat | k < |w.queue| && token != "" ensures w.queue[k].leaseToken != token {
      LatestHolds(w.log, w.dropped + k, p, q);
      if w.queue[k].leaseToken != "" {
        assert HeldUnder(w.log, w.dropped + k, w.queue[k].leaseToken);
      }
    }
  }

  lemma LatestHolds(log: seq<Event>, s: nat, p: int, q: int)
    requires TokensDistinct(log) && 0 <= p < q < |log|
    requires log[p].Grant? && log[q].Grant? && log[p].serial == log[q].serial
    ensures !HeldUnder(log, s, log[p].token)
  {
    forall g | LastGrant(log, s, g) ensures log[g].token != log[p].token {
      assert g != p;
    }
  }

  /** An empty token, or one the job does not hold, changes nothing. */
  lemma ForeignTokenIsRejected(w: World, id: string, token: string, outcome: Outcome, detail: string, now: int)
    requires token == "" || IsNew(w.queue, id)
      || forall i :: 0 <= i < |w.queue| && w.queue[i].id == id ==> w.queue[i].leaseToken != token
    ensures !Accepted(w.queue, id, token, outcome)
    ensures AfterComplete(w.queue, id, token, outcome, detail, now) == w.queue
  {
  }

  // ------------------------------------------------------------------ spent tokens

  ghost predicate Issued(w: World, token: string) { exists e :: e in w.log && e.Grant? && e.token == token }

  ghost predicate NobodyHolds(w: World, token: string) {
    forall i :: 0 <= i < |w.queue| ==> w.queue[i].leaseToken != token
  }

  /** The token is that of the job's latest grant. */
  ghost predicate HeldUnder(log: seq<Event>, s: nat, token: string) {
    exists p :: LastGrant(log, s, p) && log[p].token == token
  }

  ghost predicate TokensHeld(w: World) {
    forall k: nat :: k < |w.queue| && w.queue[k].leaseToken != "" ==>
      HeldUnder(w.log, w.dropped + k, w.queue[k].leaseToken)
  }

  lemma LoggedTokensHeld(w: World)
    requires LeaseOk(w)
    ensures TokensHeld(w)
  {
    forall k: nat | k < |w.queue| && w.queue[k].leaseToken != ""
      ensures HeldUnder(w.log, w.dropped + k, w.queue[k].leaseToken)
    {
      assert At(w, w.dropped + k) == w.queue[k];
    }
  }

  /** A token names the one job that holds it. */
  lemma OneHolder(w: World, a: nat, b: nat)
    requires TokensDistinct(w.log) && TokensHeld(w)
    requires a < |w.queue| && b < |w.queue| && w.queue[a].leaseToken == w.queue[b].leaseToken != ""
    ensures a == b
  {
    var p :| LastGrant(w.log, w.dropped + a, p) && w.log[p].token == w.queue[a].leaseToken;
    var q :| LastGrant(w.log, w.dropped + b, q) && w.log[q].token == w.queue[b].leaseToken;
    assert p == q;
  }

  /** A job takes up no token but the one a lease brings. */
  lemma MoveTakesNothing(j: Job, j': Job, step: Step, s: nat, es: seq<Event>, token: string)
    requires Moves(j, j', step, s, es) && j.leaseToken != token && token != ""
    requires step.Lease? ==> step.token != token
    ensures j'.leaseToken != token
  {
  }

  /** An issued token is taken up by no job that did not hold it. */
  lemma TakesNothing(w: World, step: Step, token: string, s: nat)
    requires |w.queue| <= MAX_QUEUE && Legal(w, step) && token != "" && Issued(w, token) && Resident(Next(w, step), s)
    requires Resident(w, s) ==> At(w, s).leaseToken != token
    ensures At(Next(w, step), s).leaseToken != token
  {
    StepAt(w, step, s);
    if Resident(w, s) {
      MoveTakesNothing(At(w, s), At(Next(w, step), s), step, s, Recorded(w, step), token);
    }
  }

  lemma IssuedLater(w: World, step: Step, token: string)
    requires Issued(w, token)
    ensures Issued(Next(w, step), token)
  {
    var e :| e in w.log && e.Grant? && e.token == token;
    assert e in Next(w, step).log;
  }

  /** A token that was issued and that nobody holds is not taken up again. */
  lemma NobodyHoldsStep(w: World, step: Step, token: string)
    requires |w.queue| <= MAX_QUEUE && Legal(w, step) && token != "" && Issued(w, token) && NobodyHolds(w, token)
    ensures Issued(Next(w, step), token) && NobodyHolds(Next(w, step), token)
  {
    var w' := Next(w, step);
    forall i | 0 <= i < |w'.queue| ensures w'.queue[i].leaseToken != token {
      TakesNothing(w, step, token, w'.dropped + i);
      assert At(w', w'.dropped + i) == w'.queue[i];
    }
    IssuedLater(w, step, token);
  }

  lemma {:induction false} NobodyHoldsLater(start: int, steps: seq<Step>, more: seq<Step>, token: string)
    requires LegalRun(start, steps + more) && token != ""
    requires Issued(Run(start, steps), token) && NobodyHolds(Run(start, steps), token)
    ensures Issued(Run(start, steps + more), token) && NobodyHolds(Run(start, steps + more), token)
    decreases |more|
  {
    if more == [] {
      assert steps + more == steps;
    } else {
      var init, last := more[..|more| - 1], more[|more| - 1];
      assert (steps + more)[..|steps + more| - 1] == steps + init;
      NobodyHoldsLater(start, steps, init, token);
      QueueInvariant(start, steps + init);
      NobodyHoldsStep(Run(start, steps + init), last, token);
    }
  }

  /** The step ends the lease held under this token without completing the job: the worker returned it,
      or the scan retired the job. */
  ghost predicate Spends(w: World, step: Step, k: nat, token: string) {
    && k < |w.queue| && w.queue[k].leaseToken == token != ""
    && k < |Next(w, step).queue| && w.dropped == Next(w, step).dropped
    && Next(w, step).queue[k].leaseToken == ""
  }

  lemma TokenWasIssued(w: World, k: nat)
    requires LeaseOk(w) && k < |w.queue| && w.queue[k].leaseToken != ""
    ensures Issued(w, w.queue[k].leaseToken)
  {
    var s := w.dropped + k;
    assert At(w, s) == w.queue[k];
    var p :| LastGrant(w.log, s, p) && w.log[p].token == w.queue[k].leaseToken;
    assert w.log[p] in w.log;
  }

  /** Nobody but job `k` holds the token. */
  ghost predicate OnlyHolds(w: World, k: nat, token: string) {
    forall i :: 0 <= i < |w.queue| && i != k ==> w.queue[i].leaseToken != token
  }

  lemma HolderIsAlone(w: World, k: nat, token: string)
    requires LeaseOk(w) && k < |w.queue| && w.queue[k].leaseToken == token != ""
    ensures OnlyHolds(w, k, token)
  {
    LoggedTokensHeld(w);
    forall i | 0 <= i < |w.queue| && i != k ensures w.queue[i].leaseToken != token {
      if w.queue[i].leaseToken == token { OneHolder(w, i, k); }
    }
  }

  lemma SpentByHolder(w: World, step: Step, k: nat, token: string)
    requires |w.queue| <= MAX_QUEUE && Legal(w, step) && Spends(w, step, k, token)
    requires Issued(w, token) && OnlyHolds(w, k, token)
    ensures NobodyHolds(Next(w, step), token)
  {
    var w' := Next(w, step);
    forall i | 0 <= i < |w'.queue| && i != k ensures w'.queue[i].leaseToken != token {
      TakesNothing(w, step, token, w'.dropped + i);
      assert At(w', w'.dropped + i) == w'.queue[i];
    }
  }

  /** A token whose lease was returned for a retry, or was retired with its job, completes nothing ever
      again, under whatever id it is offered. */
  lemma SpentTokenIsRejected(
    start: int, steps: seq<Step>, step: Step, more: seq<Step>, k: nat, token: string, id: string, outcome: Outcome,
    detail: string, now: int)
    requires LegalRun(start, steps + [step] + more) && Spends(Run(start, steps), step, k, token)
    ensures var w := Run(start, steps + [step] + more);
      && !Accepted(w.queue, id, token, outcome)
      && AfterComplete(w.queue, id, token, outcome, detail, now) == w.queue
  {
    RunGrows(start, steps + [step], more);
    assert (steps + [step])[..|steps|] == steps;
    QueueInvariant(start, steps);
    LeaseInvariant(start, steps);
    var w := Run(start, steps);
    TokenWasIssued(w, k);
    IssuedLater(w, step, token);
    HolderIsAlone(w, k, token);
    SpentByHolder(w, step, k, token);
    NobodyHoldsLater(start, steps + [step], more, token);
  }

  /** Returning a job for a retry, and walking past an exhausted one, spend its token. */
  lemma RetryAndRetirementSpend(w: World, step: Step, k: nat)
    requires QueueOk(w) && k < |w.queue| && w.queue[k].leaseToken != ""
    requires
      || (step.Lease? && k < FirstLeasable(w.queue, step.now) && Exhausted(w.queue[k], step.now))
      || (step.Complete? && step.outcome.Retry? && k == IndexOf(w.queue, step.id)
          && Resolves(w.queue, step.id, step.token, step.outcome))
    ensures Spends(w, step, k, w.queue[k].leaseToken)
  {
    assert step.Lease? ==> Next(w, step).queue[k] == Retired(w.queue[k], step.now);
  }

  // ------------------------------------------------------------------ completion is final

  lemma CompletedStep(w: World, step: Step, s: nat)
    requires QueueOk(w) && Resident(w, s) && At(w, s).state.Completed? && Resident(Next(w, step), s)
    ensures At(Next(w, step), s) == At(w, s)
  {
    StepAt(w, step, s);
  }

  lemma DroppedRises(w: World, step: Step)
    ensures w.dropped <= Next(w, step).dropped
    ensures w.accepted <= Next(w, step).accepted
  {
  }

  /** Once completed, a job keeps every field for as long as it stays in the queue. */
  lemma {:induction false} CompletedIsAbsorbing(start: int, steps: seq<Step>, more: seq<Step>, s: nat)
    requires LegalRun(start, steps + more)
    requires Resident(Run(start, steps), s) && At(Run(start, steps), s).state.Completed?
    requires Resident(Run(start, steps + more), s)
    ensures At(Run(start, steps + more), s) == At(Run(start, steps), s)
    decreases |more|
  {
    if more == [] {
      assert steps + more == steps;
    } else {
      var init, last := more[..|more| - 1], more[|more| - 1];
      assert (steps + more)[..|steps + more| - 1] == steps + init;
      DroppedRises(Run(start, steps + init), last);
      RunGrows(start, steps, init);
      CompletedIsAbsorbing(start, steps, init, s);
      QueueInvariant(start, steps + init);
      CompletedStep(Run(start, steps + init), last, s);
    }
  }

  /** Repeating the completion that finished a job is accepted, whatever outcome it names, and changes
      nothing. */
  lemma ReplayIsIdempotent(start: int, steps: seq<Step>, s: nat, outcome: Outcome, detail: string, now: int)
    requires LegalRun(start, steps)
    requires Resident(Run(start, steps), s) && At(Run(start, steps), s).state.Completed?
    ensures var w := Run(start, steps);
      && Accepted(w.queue, At(w, s).id, At(w, s).leaseToken, outcome)
      && AfterComplete(w.queue, At(w, s).id, At(w, s).leaseToken, outcome, detail, now) == w.queue
  {
    QueueInvariant(start, steps);
    var w := Run(start, steps);
    assert JobOk(At(w, s), w.clock);
    assert IndexOf(w.queue, At(w, s).id) == s - w.dropped;
  }

  /** Serials already handed out are not handed out again. */
  lemma {:induction false} RunGrows(start: int, steps: seq<Step>, more: seq<Step>)
    requires LegalRun(start, steps + more)
    ensures LegalRun(start, steps)
    ensures var v, w := Run(start, steps), Run(start, steps + more);
      v.dropped <= w.dropped && v.dropped + |v.queue| <= w.dropped + |w.queue|
    decreases |more|
  {
    if more == [] {
      assert steps + more == steps;
    } else {
      var init, last := more[..|more| - 1], more[|more| - 1];
      assert (steps + more)[..|steps + more| - 1] == steps + init;
      RunGrows(start, steps, init);
      QueueInvariant(start, steps + init);
      QueueInvariant(start, steps + more);
      DroppedRises(Run(start, steps + init), last);
    }
  }
}
