/** What the monitor's operations do, told in the fields of jobs and markers alone. */
module MonitorFacts {
  import opened Common
  import opened ResynthQueue
  import opened ThesisMarkers
  import opened MonitorRuns
  import Q = ResynthRuns
  import M = MarkerRuns
  import Text

  /** What a job is about, which no worker call changes. */
  ghost predicate SameErrand(j: Job, j': Job) {
    && j'.id == j.id && j'.thesisId == j.thesisId && j'.userId == j.userId && j'.ticker == j.ticker
    && j'.reason == j.reason && j'.severity == j.severity && j'.asOf == j.asOf && j'.enqueuedAt == j.enqueuedAt
  }

  // ------------------------------------------------------------------ leases

  /** The job is queued, or its lease has run out. */
  predicate Waiting(j: Job, now: int) {
    j.state == Queued || (j.state == Processing && 0 < j.leaseUntil <= now)
  }

  /** A failed job is due a day after it failed; a queued one, and one whose lease has run out, while it has
      been started less than three times. */
  lemma LeasableInFields(j: Job, now: int)
    ensures Leasable(j, now) <==>
      || (j.state == Failed && 0 < j.failedAt && now - j.failedAt >= 86400)
      || (j.attempts < 3 && Waiting(j, now))
  {
  }

  /** The first due job is started under the token for ten minutes; jobs before it that ran out of attempts
      have failed; nothing else moves. */
  lemma LeaseInFields(q: seq<Job>, now: int, token: string, k: nat, i: nat)
    requires i < |q| && k <= |q|
    requires (forall n :: 0 <= n < k ==> !Leasable(q[n], now)) && (k < |q| ==> Leasable(q[k], now))
    ensures var j, j' := q[i], AfterLease(q, now, token)[i];
      && SameErrand(j, j') && j'.completedAt == j.completedAt
      && (i == k ==>
            && j'.state == Processing && j'.leasedAt == now && j'.leaseUntil == now + 600 && j'.leaseToken == token
            && j'.lastError == "" && j'.attempts == (if j.state == Failed then 1 else j.attempts + 1)
            && j'.failedAt == (if j.state == Failed then 0 else j.failedAt))
      && (i < k && j.attempts >= 3 && Waiting(j, now) ==>
            && j'.state == Failed && j'.failedAt == now && j'.attempts == j.attempts
            && j'.leasedAt == 0 && j'.leaseUntil == 0 && j'.leaseToken == ""
            && j'.lastError ==
               (if j.lastError == "" then "worker lease expired after maximum attempts" else j.lastError))
      && (i > k || (i < k && !(j.attempts >= 3 && Waiting(j, now))) ==> j' == j)
  {
    assert FirstLeasable(q, now) == k;
  }

  // ------------------------------------------------------------------ reports

  /** The report names job `k` and its current lease. */
  predicate Answered(q: seq<Job>, k: nat, id: string, token: string) {
    k < |q| && q[k].id == id && token != "" && q[k].leaseToken == token && q[k].state == Processing
  }

  lemma AnsweredResolves(q: seq<Job>, k: nat, id: string, token: string, outcome: Outcome)
    requires forall i, j :: 0 <= i < j < |q| ==> q[i].id != q[j].id
    ensures Answered(q, k, id, token) && outcome != Unknown ==> Resolves(q, id, token, outcome) && IndexOf(q, id) == k
    ensures Resolves(q, id, token, outcome) ==> Answered(q, IndexOf(q, id), id, token) && outcome != Unknown
  {
  }

  /** A report that answers job `k` ends its lease: done, back in the queue, or failed after the third
      attempt. Any other report changes nothing, and is accepted only if the job is completed under the same
      token. */
  lemma ReportInFields(q: seq<Job>, id: string, token: string, outcome: Outcome, detail: string, now: int, k: nat)
    requires k < |q| && q[k].id == id && forall i, j :: 0 <= i < j < |q| ==> q[i].id != q[j].id
    ensures var j, q' := q[k], AfterComplete(q, id, token, outcome, detail, now);
      && SameErrand(j, q'[k]) && q'[k].attempts == j.attempts && q' == q[k := q'[k]]
      && (Answered(q, k, id, token) && outcome == Done ==>
            && q'[k].state == Completed && q'[k].completedAt == now && q'[k].leaseToken == token
            && q'[k].lastError == ""
            && q'[k].leasedAt == 0 && q'[k].leaseUntil == 0 && q'[k].failedAt == j.failedAt)
      && (Answered(q, k, id, token) && outcome == Retry ==>
            && q'[k].state == (if j.attempts >= 3 then Failed else Queued)
            && q'[k].failedAt == (if j.attempts >= 3 then now else j.failedAt) && q'[k].completedAt == j.completedAt
            && q'[k].leasedAt == 0 && q'[k].leaseUntil == 0 && q'[k].leaseToken == ""
            && q'[k].lastError == Text.Clip(Text.TrimSpace(detail), 500))
      && (!Answered(q, k, id, token) || outcome == Unknown ==> q' == q)
      && (Accepted(q, id, token, outcome) <==>
            || (Answered(q, k, id, token) && outcome != Unknown)
            || (token != "" && j.leaseToken == token && j.state == Completed))
  {
    AnsweredResolves(q, k, id, token, outcome);
    assert IndexOf(q, id) == k;
  }

  /** No report of an id that is not queued is accepted, and it changes nothing. */
  lemma ReportOfNoJob(q: seq<Job>, id: string, token: string, outcome: Outcome, detail: string, now: int)
    requires forall i :: 0 <= i < |q| ==> q[i].id != id
    ensures !Accepted(q, id, token, outcome) && AfterComplete(q, id, token, outcome, detail, now) == q
  {
  }

  /** The marker shows the reading the job was made for, and is still stale. */
  predicate ShowsJob(markers: Markers, j: Job) {
    j.thesisId in markers && markers[j.thesisId].stale && markers[j.thesisId].asOfISO == j.asOf
  }

  ghost predicate Moved(markers: Markers, markers': Markers, id: string) {
    && id in markers && markers'.Keys == markers.Keys
    && (forall other :: other in markers && other != id ==> markers'[other] == markers[other])
    && var m, m' := markers[id], markers'[id];
      && !m'.stale && m'.severity == Clear && m'.reason == "re-synthesis completed" && m'.lastFired == ""
      && m'.baselineAt == m.asOf && m'.baselinePx == m.observedPx && m'.asOf == m.asOf && m'.asOfISO == m.asOfISO
      && m'.observedPx == m.observedPx && m'.movePct == m.movePct && m'.markedAt == m.markedAt
      && m'.thesisId == m.thesisId && m'.userId == m.userId && m'.ticker == m.ticker
  }

  lemma ReportOnMarkers(t: Wording, m: Machine, op: Op, k: nat)
    requires op.Report? && k < |m.queue| && m.queue[k].id == op.id
    requires forall i, j :: 0 <= i < j < |m.queue| ==> m.queue[i].id != m.queue[j].id
    ensures Apply(t, m, op).marks.markers ==
      if Answered(m.queue, k, op.id, op.token) && op.outcome == Done
      then AfterAck(m.marks.markers, m.queue[k].thesisId, m.queue[k].asOf) else m.marks.markers
  {
    AnsweredResolves(m.queue, k, op.id, op.token, op.outcome);
    assert IndexOf(m.queue, op.id) == k;
  }

  lemma AckInFields(markers: Markers, j: Job)
    ensures var markers' := AfterAck(markers, j.thesisId, j.asOf);
      && (markers' != markers <==> ShowsJob(markers, j))
      && (ShowsJob(markers, j) ==> Moved(markers, markers', j.thesisId))
  {
    var markers' := AfterAck(markers, j.thesisId, j.asOf);
    if ShowsJob(markers, j) {
      assert markers'[j.thesisId] != markers[j.thesisId];
    }
  }

  /** In every run of the monitor, a report changes the marker map exactly when it completes a job whose
      thesis's marker is stale and still shows the reading the job was made for; it then moves that marker's
      baseline to the reading. A completion for an older reading, and every other report, leaves all markers
      alone. */
  lemma ReportMovesMarkerIff(t: Wording, start: int, ops: seq<Op>, op: Op, k: nat)
    requires Legal(start, ops) && op.Report?
    requires k < |After(t, ops).queue| && After(t, ops).queue[k].id == op.id
    ensures var m, after := After(t, ops), Apply(t, After(t, ops), op).marks.markers;
      var moves := Answered(m.queue, k, op.id, op.token) && op.outcome == Done && ShowsJob(m.marks.markers, m.queue[k]);
      && (after != m.marks.markers <==> moves)
      && (moves ==> Moved(m.marks.markers, after, m.queue[k].thesisId))
  {
    var m := After(t, ops);
    IdsOfRun(t, start, ops);
    ReportOnMarkers(t, m, op, k);
    AckInFields(m.marks.markers, m.queue[k]);
  }

  lemma IdsOfRun(t: Wording, start: int, ops: seq<Op>)
    requires Legal(start, ops)
    ensures forall i, j :: 0 <= i < j < |After(t, ops).queue| ==> After(t, ops).queue[i].id != After(t, ops).queue[j].id
  {
    QueueProjection(t, start, ops);
    Q.QueueInvariant(start, QueueSteps(t, ops));
  }

  lemma ReportOfNoJobMovesNothing(t: Wording, m: Machine, op: Op)
    requires op.Report? && forall i :: 0 <= i < |m.queue| ==> m.queue[i].id != op.id
    ensures Apply(t, m, op).marks == m.marks && Apply(t, m, op).queue == m.queue
  {
    ReportOfNoJob(m.queue, op.id, op.token, op.outcome, op.detail, op.now);
  }

  // ------------------------------------------------------------------ job ids

  /** Different pairs have different keys, and no key holds a NUL. */
  ghost predicate GoodKeys(t: Wording) {
    && (forall a, b, c, d :: t.firedKey(a, b) == t.firedKey(c, d) ==> a == c && b == d)
    && (forall a, b :: '\0' !in t.firedKey(a, b))
  }

  lemma NulSplits(a: string, b: string, c: string, d: string)
    requires '\0' !in a && '\0' !in c && a + "\0" + b == c + "\0" + d
    ensures a == c && b == d
  {
    var s, u := a + "\0" + b, c + "\0" + d;
    assert s[|a|] == '\0' && u[|c|] == '\0';
    assert forall i :: 0 <= i < |a| ==> s[i] == a[i] != '\0';
    assert forall i :: 0 <= i < |c| ==> u[i] == c[i] != '\0';
    assert |a| == |c|;
    assert s[..|a|] == a && u[..|c|] == c && s[|a| + 1..] == b && u[|c| + 1..] == d;
  }

  lemma SameTail(a: string, b: string)
    requires "rsy_" + a == "rsy_" + b
    ensures a == b
  {
    assert ("rsy_" + a)[4..] == a && ("rsy_" + b)[4..] == b;
  }

  /** Two markers make jobs of one id exactly when they are of one thesis, carry one last-reported word, and
      show one reading. */
  lemma JobIdsAgreeIff(t: Wording, m: Marker, m': Marker, now: int, later: int)
    requires GoodKeys(t) && '\0' !in m.lastFired && '\0' !in m'.lastFired
    ensures JobFor(t, m, now).id == JobFor(t, m', later).id <==>
      m.thesisId == m'.thesisId && m.lastFired == m'.lastFired && m.asOfISO == m'.asOfISO
  {
    if JobFor(t, m, now).id == JobFor(t, m', later).id {
      SameTail(t.firedKey(m.thesisId, m.lastFired + "\0" + m.asOfISO),
               t.firedKey(m'.thesisId, m'.lastFired + "\0" + m'.asOfISO));
      NulSplits(m.lastFired, m.asOfISO, m'.lastFired, m'.asOfISO);
    }
  }

  /** The job's id is made of its thesis, some word, and its reading. */
  ghost predicate NamedBy(t: Wording, j: Job, word: string) {
    '\0' !in word && j.id == "rsy_" + t.firedKey(j.thesisId, word + "\0" + j.asOf)
  }

  ghost predicate HasName(t: Wording, j: Job) { exists word :: NamedBy(t, j, word) }

  ghost predicate Named(t: Wording, q: seq<Job>) { forall i :: 0 <= i < |q| ==> HasName(t, q[i]) }

  lemma SameErrandSameName(t: Wording, j: Job, j': Job)
    requires HasName(t, j) && SameErrand(j, j')
    ensures HasName(t, j')
  {
    var word :| NamedBy(t, j, word);
    assert NamedBy(t, j', word);
  }

  /** A job of the same id is about the same thesis and reading. */
  lemma SameIdSameErrand(t: Wording, j: Job, m: Marker, now: int, word: string)
    requires GoodKeys(t) && NamedBy(t, j, word) && '\0' !in m.lastFired && j.id == JobFor(t, m, now).id
    ensures j.thesisId == m.thesisId && j.asOf == m.asOfISO && word == m.lastFired
  {
    SameTail(t.firedKey(j.thesisId, word + "\0" + j.asOf), t.firedKey(m.thesisId, m.lastFired + "\0" + m.asOfISO));
    NulSplits(word, j.asOf, m.lastFired, m.asOfISO);
  }

  /** A marker that fires at a reading its thesis has no job for gets one. */
  lemma NewReadingIsAccepted(t: Wording, q: seq<Job>, m: Marker, now: int)
    requires GoodKeys(t) && Named(t, q) && '\0' !in m.lastFired
    requires forall i :: 0 <= i < |q| && q[i].thesisId == m.thesisId ==> q[i].asOf != m.asOfISO
    ensures IsNew(q, JobFor(t, m, now).id)
  {
    forall i | 0 <= i < |q| ensures q[i].id != JobFor(t, m, now).id {
      var word :| NamedBy(t, q[i], word);
      if q[i].id == JobFor(t, m, now).id { SameIdSameErrand(t, q[i], m, now, word); }
    }
  }

  /** What an accepted job is about, and where it goes: last, with the oldest giving way beyond 5000. */
  lemma EnqueueInFields(t: Wording, q: seq<Job>, m: Marker, now: int)
    requires |q| <= 5000
    ensures var j, q' := JobFor(t, m, now), AfterEnqueue(q, JobFor(t, m, now));
      && j.thesisId == m.thesisId && j.userId == m.userId && j.ticker == m.ticker && j.reason == m.reason
      && j.asOf == m.asOfISO && j.enqueuedAt == now && j.state == Queued && j.attempts == 0 && j.leaseToken == ""
      && j.leasedAt == 0 && j.leaseUntil == 0 && j.completedAt == 0 && j.failedAt == 0 && j.lastError == ""
      && j.severity == (if m.severity == Material then "material" else "")
      && ((exists i :: 0 <= i < |q| && q[i].id == j.id) ==> q' == q && DroppedBy(q, j) == 0)
      && ((forall i :: 0 <= i < |q| ==> q[i].id != j.id) ==>
            && q' == (if |q| < 5000 then q else q[1..]) + [j] && DroppedBy(q, j) == (if |q| < 5000 then 0 else 1))
  {
    assert |q| == 5000 ==> (q + [JobFor(t, m, now)])[1..] == q[1..] + [JobFor(t, m, now)];
  }

  // ------------------------------------------------------------------ a sweep queues what fires

  /** The queue holds a job for this thesis's reading. */
  ghost predicate HasJob(q: seq<Job>, thesisId: string, asOf: string) {
    exists i :: 0 <= i < |q| && q[i].thesisId == thesisId && q[i].asOf == asOf
  }

  lemma FiredWord(t: Wording, markers: Markers, th: Thesis, bar: Bar, now: int)
    requires GoodKeys(t) && Evaluate(t, markers, th, bar, now).Fire?
    ensures var m := Evaluate(t, markers, th, bar, now).marker;
      '\0' !in m.lastFired && m.thesisId == th.id && m.asOfISO == bar.iso
  {
  }

  lemma OfferQueues(t: Wording, q: seq<Job>, m: Marker, now: int)
    requires GoodKeys(t) && Named(t, q) && '\0' !in m.lastFired && |q| < 5000
    ensures var q' := AfterEnqueue(q, JobFor(t, m, now));
      Named(t, q') && q <= q' && |q'| <= |q| + 1 && HasJob(q', m.thesisId, m.asOfISO)
  {
    var j := JobFor(t, m, now);
    var q' := AfterEnqueue(q, j);
    EnqueueInFields(t, q, m, now);
    assert NamedBy(t, j, m.lastFired) && HasName(t, j);
    if i :| 0 <= i < |q| && q[i].id == j.id {
      var word :| NamedBy(t, q[i], word);
      SameIdSameErrand(t, q[i], m, now, word);
    } else {
      assert q'[|q|] == j;
    }
  }

  /** While the queue has room, a sweep leaves a job for every thesis it found stale, whatever the other
      theses did and however many share a ticker, a sentence and a bar. */
  lemma {:induction false} SweepQueuesWhatFires(
    t: Wording, st: State, theses: seq<Thesis>, bars: map<string, Bar>, now: int, k: nat)
    requires GoodKeys(t) && Named(t, st.queue) && |st.queue| + |theses| <= 5000
    ensures Named(t, Sweep(t, st, theses, bars, now).queue) && st.queue <= Sweep(t, st, theses, bars, now).queue
    ensures |Sweep(t, st, theses, bars, now).queue| <= |st.queue| + |theses|
    ensures FiresAt(t, st, theses, bars, now, k) ==>
      HasJob(Sweep(t, st, theses, bars, now).queue, theses[k].id, bars[theses[k].ticker].iso)
  {
    if theses != [] {
      var n := |theses| - 1;
      var before := Sweep(t, st, theses[..n], bars, now);
      SweepQueuesWhatFires(t, st, theses[..n], bars, now, k);
      if k < n { assert theses[..n][..k] == theses[..k]; }
      if theses[n].ticker in bars && Evaluate(t, before.markers, theses[n], bars[theses[n].ticker], now).Fire? {
        var bar := bars[theses[n].ticker];
        FiredWord(t, before.markers, theses[n], bar, now);
        OfferQueues(t, before.queue, Evaluate(t, before.markers, theses[n], bar, now).marker, now);
      }
    }
  }

  // ------------------------------------------------------------------ over runs

  /** Verdicts on their way to the queue carry a word and come from this thesis's bar. */
  ghost predicate TicketNamed(x: M.Ticket) {
    && (x.phase.Firing? ==> '\0' !in x.phase.marker.lastFired)
    && (x.phase.Reported? ==> '\0' !in x.phase.marker.lastFired)
  }

  lemma LeaseKeepsNames(t: Wording, q: seq<Job>, now: int, token: string)
    requires Named(t, q)
    ensures Named(t, AfterLease(q, now, token))
  {
    forall i | 0 <= i < |q| ensures HasName(t, AfterLease(q, now, token)[i]) {
      LeaseInFields(q, now, token, FirstLeasable(q, now), i);
      SameErrandSameName(t, q[i], AfterLease(q, now, token)[i]);
    }
  }

  lemma ReportKeepsNames(
    t: Wording, q: seq<Job>, id: string, token: string, outcome: Outcome, detail: string, now: int)
    requires Named(t, q)
    ensures Named(t, AfterComplete(q, id, token, outcome, detail, now))
  {
    forall i | 0 <= i < |q| ensures HasName(t, AfterComplete(q, id, token, outcome, detail, now)[i]) {
      SameErrandSameName(t, q[i], AfterComplete(q, id, token, outcome, detail, now)[i]);
    }
  }

  lemma OfferKeepsNames(t: Wording, q: seq<Job>, m: Marker, now: int)
    requires Named(t, q) && '\0' !in m.lastFired
    ensures Named(t, AfterEnqueue(q, JobFor(t, m, now)))
  {
    assert NamedBy(t, JobFor(t, m, now), m.lastFired) && HasName(t, JobFor(t, m, now));
  }

  ghost predicate TicketsNamed(w: M.World) {
    forall k :: 0 <= k < |w.tickets| ==> TicketNamed(w.tickets[k])
  }

  lemma TicketsStayNamed(t: Wording, w: M.World, s: M.Step)
    requires GoodKeys(t) && TicketsNamed(w)
    ensures TicketsNamed(M.Next(t, w, s))
  {
  }

  lemma StepIsNamed(t: Wording, m: Machine, op: Op)
    requires GoodKeys(t) && Named(t, m.queue) && TicketsNamed(m.marks)
    ensures Named(t, Apply(t, m, op).queue)
  {
    match op {
      case Take(now, token) => LeaseKeepsNames(t, m.queue, now, token);
      case Report(id, token, outcome, detail, now) => ReportKeepsNames(t, m.queue, id, token, outcome, detail, now);
      case Enqueue(k, now) =>
        if Hands(m, op) {
          assert TicketNamed(m.marks.tickets[k]);
          OfferKeepsNames(t, m.queue, m.marks.tickets[k].phase.marker, now);
        }
      case _ => assert Apply(t, m, op).queue == m.queue;
    }
  }

  lemma {:induction false} RunIsNamed(t: Wording, ops: seq<Op>)
    requires GoodKeys(t)
    ensures Named(t, After(t, ops).queue) && TicketsNamed(After(t, ops).marks)
  {
    if ops != [] {
      var m, op := After(t, ops[..|ops| - 1]), ops[|ops| - 1];
      RunIsNamed(t, ops[..|ops| - 1]);
      StepIsNamed(t, m, op);
      TicketsOfStep(t, m, op);
    }
  }

  lemma TicketsOfStep(t: Wording, m: Machine, op: Op)
    requires GoodKeys(t) && TicketsNamed(m.marks)
    ensures TicketsNamed(Apply(t, m, op).marks)
  {
    var now := MarkerStep(m, op);
    if now != [] {
      TicketsStayNamed(t, m.marks, now[0]);
    }
  }

  /** In every run, a published verdict that reaches the queue at a reading its thesis has no job for is
      queued, also when a job of the same thesis for an earlier reading is still there or completed. */
  lemma NewReadingIsQueued(t: Wording, ops: seq<Op>, op: Op)
    requires GoodKeys(t) && Hands(After(t, ops), op)
    requires var marker := After(t, ops).marks.tickets[op.k].phase.marker;
      !HasJob(After(t, ops).queue, marker.thesisId, marker.asOfISO)
    ensures var m, marker := After(t, ops), After(t, ops).marks.tickets[op.k].phase.marker;
      HasJob(Apply(t, m, op).queue, marker.thesisId, marker.asOfISO)
  {
    var m, marker := After(t, ops), After(t, ops).marks.tickets[op.k].phase.marker;
    RunIsNamed(t, ops);
    assert TicketNamed(m.marks.tickets[op.k]);
    NewReadingIsAccepted(t, m.queue, marker, op.now);
    var q' := Apply(t, m, op).queue;
    assert q'[|q'| - 1] == JobFor(t, marker, op.now);
  }
}
