/** The durable re-synthesis queue: what one call of enqueue, LeaseResynth and CompleteResynth does
    to the queue, and how the lease scan relates to the simple description of it. */
module ResynthQueue {
  import opened Common
  import Text

  const MAX_QUEUE := 5000
  const LEASE_SECONDS := 600
  const MAX_ATTEMPTS := 3
  const RETRY_DELAY := 86400
  const MAX_DETAIL := 500
  const EXHAUSTED_ERROR := "worker lease expired after maximum attempts"

  datatype JobState = Queued | Processing | Completed | Failed

  /** What a worker reports: success, a retryable failure, or a word the queue does not know. */
  datatype Outcome = Done | Retry | Unknown

  datatype Job = Job(
    id: string, thesisId: string, userId: string, ticker: string, reason: string, severity: string,
    asOf: string, enqueuedAt: int, state: JobState, attempts: int, leasedAt: int, leaseUntil: int,
    leaseToken: string, completedAt: int, failedAt: int, lastError: string)

  // ------------------------------------------------------------------ leasing

  predicate CooledDown(j: Job, now: int) {
    j.state.Failed? && j.failedAt > 0 && j.failedAt + RETRY_DELAY <= now
  }

  predicate Expired(j: Job, now: int) {
    j.state.Processing? && j.leaseUntil > 0 && j.leaseUntil <= now
  }

  /** A worker may take this job now. */
  predicate Leasable(j: Job, now: int) {
    || CooledDown(j, now)
    || ((j.state.Queued? || Expired(j, now)) && j.attempts < MAX_ATTEMPTS)
  }

  /** A job that is due but has used up its attempts. */
  predicate Exhausted(j: Job, now: int) {
    (j.state.Queued? || Expired(j, now)) && j.attempts >= MAX_ATTEMPTS
  }

  function Retired(j: Job, now: int): Job {
    j.(state := Failed, failedAt := now, leasedAt := 0, leaseUntil := 0, leaseToken := "",
       lastError := if j.lastError == "" then EXHAUSTED_ERROR else j.lastError)
  }

  function Granted(j: Job, now: int, token: string): Job {
    j.(state := Processing,
       attempts := if CooledDown(j, now) then 1 else j.attempts + 1,
       failedAt := if CooledDown(j, now) then 0 else j.failedAt,
       leasedAt := now, leaseUntil := now + LEASE_SECONDS, leaseToken := token, lastError := "")
  }

  /** A job the scan walks past. */
  function Passed(j: Job, now: int): Job {
    if Exhausted(j, now) then Retired(j, now) else j
  }

  /** The position of the first leasable job, or the length of the queue. */
  function FirstLeasable(q: seq<Job>, now: int): (k: nat)
    ensures k <= |q|
    ensures k < |q| ==> Leasable(q[k], now)
    ensures forall i :: 0 <= i < k ==> !Leasable(q[i], now)
  {
    FirstWhere(q, (j: Job) => Leasable(j, now))
  }

  /** The whole effect of one lease call: jobs before the winner are passed, the winner is granted,
      and the jobs behind it are not looked at. */
  function AfterLease(q: seq<Job>, now: int, token: string): (r: seq<Job>)
    ensures |r| == |q|
    ensures forall i :: 0 <= i < |q| ==> r[i].id == q[i].id
  {
    var k := FirstLeasable(q, now);
    seq(|q|, i requires 0 <= i < |q| =>
      if i < k then Passed(q[i], now) else if i == k then Granted(q[i], now, token) else q[i])
  }

  lemma NotLeasableAfterTouch(j: Job, now: int, token: string)
    ensures !Leasable(Granted(j, now, token), now)
    ensures !Leasable(j, now) ==> !Leasable(Passed(j, now), now)
  {
  }

  /** Grants handed out by repeated calls at one instant, as queue positions. */
  function Drain(q: seq<Job>, now: int, tokens: seq<string>): (grants: seq<int>)
    decreases |tokens|
  {
    if tokens == [] then []
    else
      var k := FirstLeasable(q, now);
      if k == |q| then [] else [k] + Drain(AfterLease(q, now, tokens[0]), now, tokens[1..])
  }

  lemma LeaseMovesOn(q: seq<Job>, now: int, token: string)
    requires FirstLeasable(q, now) < |q|
    ensures var k, q' := FirstLeasable(q, now), AfterLease(q, now, token);
      && (forall i :: 0 <= i <= k ==> !Leasable(q'[i], now))
      && (forall i :: k < i < |q| ==> q'[i] == q[i])
      && FirstLeasable(q', now) > k
  {
    var k, q' := FirstLeasable(q, now), AfterLease(q, now, token);
    forall i | 0 <= i <= k
      ensures !Leasable(q'[i], now)
    {
      NotLeasableAfterTouch(q[i], now, token);
    }
  }

  /** Any number of calls at one instant serve distinct jobs in queue order: the positions rise, and
      each was leasable when the first call was made. */
  lemma {:induction false} DrainServesInOrder(q: seq<Job>, now: int, tokens: seq<string>)
    ensures StrictlyIncreasing(Drain(q, now, tokens))
    ensures forall n :: 0 <= n < |Drain(q, now, tokens)| ==>
      FirstLeasable(q, now) <= Drain(q, now, tokens)[n] < |q| && Leasable(q[Drain(q, now, tokens)[n]], now)
    decreases |tokens|
  {
    var k := FirstLeasable(q, now);
    if tokens != [] && k < |q| {
      var q' := AfterLease(q, now, tokens[0]);
      LeaseMovesOn(q, now, tokens[0]);
      DrainServesInOrder(q', now, tokens[1..]);
      var rest := Drain(q', now, tokens[1..]);
      assert Drain(q, now, tokens) == [k] + rest;
      forall n | 0 <= n < |rest| ensures k < rest[n] && Leasable(q[rest[n]], now) {
        assert q'[rest[n]] == q[rest[n]];
      }
    }
  }

  /** When one call more is made than there are grants, the calls have served every leasable job, so
      they stop after at most as many grants as the queue is long. */
  lemma {:induction false} DrainServesEveryone(q: seq<Job>, now: int, tokens: seq<string>, i: nat)
    requires |Drain(q, now, tokens)| < |tokens|
    requires i < |q| && Leasable(q[i], now)
    ensures i in Drain(q, now, tokens)
    decreases |tokens|
  {
    var k := FirstLeasable(q, now);
    if i != k {
      var q' := AfterLease(q, now, tokens[0]);
      assert i > k && q'[i] == q[i];
      DrainServesEveryone(q', now, tokens[1..], i);
    }
  }

  lemma {:induction false} IncreasingIsShort(g: seq<int>, n: nat)
    requires StrictlyIncreasing(g)
    requires forall i :: 0 <= i < |g| ==> 0 <= g[i] < n
    ensures |g| <= n
  {
    if g != [] {
      var last := g[|g| - 1];
      IncreasingIsShort(g[..|g| - 1], last);
    }
  }

  /** No instant yields more grants than there are jobs. */
  lemma DrainIsBounded(q: seq<Job>, now: int, tokens: seq<string>)
    ensures |Drain(q, now, tokens)| <= |q|
  {
    DrainServesInOrder(q, now, tokens);
    IncreasingIsShort(Drain(q, now, tokens), |q|);
  }

  // ------------------------------------------------------------------ completing

  /** The position of the first job with this id, or the length of the queue. */
  function IndexOf(q: seq<Job>, id: string): (k: nat)
    ensures k <= |q|
    ensures k < |q| ==> q[k].id == id
    ensures forall i :: 0 <= i < k ==> q[i].id != id
  {
    FirstWhere(q, (j: Job) => j.id == id)
  }

  /** The worker holds the lease this job was last granted under. */
  predicate HoldsLease(j: Job, token: string) {
    token != "" && j.leaseToken == token && j.state.Processing?
  }

  /** A success that was already recorded under the same token. */
  predicate Replayed(j: Job, token: string) {
    token != "" && j.leaseToken == token && j.state.Completed?
  }

  function Clipped(detail: string): string {
    Text.Clip(Text.TrimSpace(detail), MAX_DETAIL)
  }

  function Finished(j: Job, now: int): Job {
    j.(state := Completed, completedAt := now, leasedAt := 0, leaseUntil := 0, lastError := "")
  }

  function Returned(j: Job, detail: string, now: int): Job {
    var cleared := j.(leasedAt := 0, leaseUntil := 0, leaseToken := "", lastError := Clipped(detail));
    if j.attempts >= MAX_ATTEMPTS then cleared.(state := Failed, failedAt := now)
    else cleared.(state := Queued)
  }

  /** The completion is accepted and moves a job. */
  predicate Resolves(q: seq<Job>, id: string, token: string, outcome: Outcome) {
    var k := IndexOf(q, id);
    k < |q| && HoldsLease(q[k], token) && !outcome.Unknown?
  }

  predicate Accepted(q: seq<Job>, id: string, token: string, outcome: Outcome) {
    || Resolves(q, id, token, outcome)
    || (var k := IndexOf(q, id); k < |q| && Replayed(q[k], token))
  }

  function AfterComplete(q: seq<Job>, id: string, token: string, outcome: Outcome, detail: string, now: int)
    : (r: seq<Job>)
    ensures |r| == |q|
    ensures forall i :: 0 <= i < |q| ==> r[i].id == q[i].id
  {
    if Resolves(q, id, token, outcome) then
      var k := IndexOf(q, id);
      q[k := if outcome.Done? then Finished(q[k], now) else Returned(q[k], detail, now)]
    else q
  }

  // ------------------------------------------------------------------ enqueueing

  predicate IsNew(q: seq<Job>, id: string) {
    forall i :: 0 <= i < |q| ==> q[i].id != id
  }

  /** A job as enqueue builds it. */
  predicate Fresh(j: Job) {
    && j.state.Queued? && j.attempts == 0 && j.leasedAt == 0 && j.leaseUntil == 0
    && j.leaseToken == "" && j.completedAt == 0 && j.failedAt == 0 && j.lastError == ""
  }

  function Overflow(n: nat): nat {
    if n > MAX_QUEUE then n - MAX_QUEUE else 0
  }

  /** The newest jobs are kept; the oldest give way. */
  function AfterEnqueue(q: seq<Job>, j: Job): seq<Job> {
    if IsNew(q, j.id) then (q + [j])[Overflow(|q| + 1)..] else q
  }

  function DroppedBy(q: seq<Job>, j: Job): nat {
    if IsNew(q, j.id) then Overflow(|q| + 1) else 0
  }
}
