/** Whole runs of the marker map. The lock is released between the two reads that evaluate a thesis and
    the write that publishes the verdict, and sweeps may overlap, so each of the three is a step of its
    own; completed work is acknowledged in between, in any order. */
module MarkerRuns {
  import opened Common
  import opened ThesisMarkers

  // ------------------------------------------------------------------ the machine

  /** How far one evaluation of a thesis has come. */
  datatype Phase =
    | Comparing(reason: string)
    | Rebasing
    | Firing(marker: Marker)
    | Reported(marker: Marker)
    | Closed

  /** One evaluation: what it looked at, the marker it saw, and how many writes there had been. */
  datatype Ticket = Ticket(th: Thesis, bar: Bar, seen: Option<Marker>, at: nat, phase: Phase)

  datatype Cause = Acked | Rebased | Published

  /** A write to a thesis's marker, by the baseline and the reading it left. */
  datatype Write = Write(thesisId: string, baselineAt: int, asOf: int, cause: Cause)

  /** An evaluation that counted due dates: aloud when it was published, silently when the sentence had
      been said already. `dates` is empty when the price move was the condition. */
  datatype Count = Count(thesisId: string, after: int, upTo: int, dates: seq<int>, lastReviewAt: int, aloud: bool)

  datatype World = World(
    markers: Markers, tickets: seq<Ticket>, writes: seq<Write>, counts: seq<Count>, lastBar: map<string, int>)

  datatype Step =
    | Look(th: Thesis, bar: Bar)
    | Check(k: nat, now: int)
    | Publish(k: nat)
    | Hand(k: nat)
    | Ack(thesisId: string, asOf: string)

  const START := World(map[], [], [], [], map[])

  function PhaseAfter(g: Glance): Phase {
    match g case Establish => Rebasing case Nothing => Closed case Suspect(reason) => Comparing(reason)
  }

  function SeenOf(markers: Markers, id: string): Option<Marker> {
    if id in markers then Some(markers[id]) else None
  }

  function Opened(t: Wording, w: World, th: Thesis, bar: Bar): Ticket {
    Ticket(th, bar, SeenOf(w.markers, th.id), |w.writes|, PhaseAfter(FirstRead(t, w.markers, th, bar)))
  }

  function CountOf(k: Ticket, aloud: bool): Count
    requires k.seen.Some?
  {
    var m := k.seen.value;
    Count(k.th.id, m.baselineAt, k.bar.ts,
          if Abs(MovePct(m.baselinePx, k.bar.close)) >= STALE_MOVE_PCT then [] else k.th.catalystsDue,
          k.th.lastReviewAt, aloud)
  }

  predicate Comparable(w: World, k: nat) {
    k < |w.tickets| && w.tickets[k].phase.Comparing? && w.tickets[k].seen.Some?
  }

  /** The evaluation has a marker to write. */
  predicate Pending(w: World, k: nat) {
    k < |w.tickets| && (w.tickets[k].phase.Rebasing? || (w.tickets[k].phase.Firing? && w.tickets[k].seen.Some?))
  }

  function VerdictOf(k: Ticket): Marker
    requires k.phase.Rebasing? || k.phase.Firing?
  {
    if k.phase.Rebasing? then Baseline(k.th, k.bar) else k.phase.marker
  }

  function Put(w: World, id: string, m: Marker, cause: Cause): World {
    w.(markers := w.markers[id := m], writes := w.writes + [Write(id, m.baselineAt, m.asOf, cause)])
  }

  function AfterCheck(t: Wording, w: World, k: nat, now: int): World
    requires Comparable(w, k)
  {
    var x := w.tickets[k];
    if AlreadySaid(t, w.markers, x.th.id, x.phase.reason) then
      w.(tickets := w.tickets[k := x.(phase := Closed)], counts := w.counts + [CountOf(x, false)])
    else
      w.(tickets := w.tickets[k := x.(phase := Firing(Stale(t, x.th, x.seen.value, x.bar, x.phase.reason, now)))])
  }

  function AfterPublish(w: World, k: nat): World
    requires Pending(w, k)
  {
    var x := w.tickets[k];
    var v := VerdictOf(x);
    if x.phase.Rebasing? then
      Put(w, x.th.id, v, Rebased).(tickets := w.tickets[k := x.(phase := Closed)])
    else
      Put(w, x.th.id, v, Published).(tickets := w.tickets[k := x.(phase := Reported(v))],
                                     counts := w.counts + [CountOf(x, true)])
  }

  /** A step whose ticket is not in the phase it is about does nothing. */
  function Next(t: Wording, w: World, s: Step): World {
    match s
    case Look(th, bar) => w.(tickets := w.tickets + [Opened(t, w, th, bar)], lastBar := w.lastBar[th.id := bar.ts])
    case Check(k, now) => if Comparable(w, k) then AfterCheck(t, w, k, now) else w
    case Publish(k) => if Pending(w, k) then AfterPublish(w, k) else w
    case Hand(k) =>
      if k < |w.tickets| && w.tickets[k].phase.Reported? then
        w.(tickets := w.tickets[k := w.tickets[k].(phase := Closed)])
      else w
    case Ack(id, asOf) =>
      if Acknowledges(w.markers, id, asOf) then Put(w, id, Acknowledged(w.markers[id]), Acked) else w
  }

  function Run(t: Wording, steps: seq<Step>): World {
    if steps == [] then START
    else Next(t, Run(t, steps[..|steps| - 1]), steps[|steps| - 1])
  }

  /** No thesis is looked at with an earlier bar than before. Overlapping sweeps can break this: a sweep
      reads all its bars before it looks at any thesis. */
  ghost predicate InOrder(w: World, s: Step) {
    s.Look? && s.th.id in w.lastBar ==> w.lastBar[s.th.id] <= s.bar.ts
  }

  ghost predicate OrderedRun(t: Wording, steps: seq<Step>) {
    steps == [] ||
    (OrderedRun(t, steps[..|steps| - 1]) && InOrder(Run(t, steps[..|steps| - 1]), steps[|steps| - 1]))
  }

  lemma RunSnoc(t: Wording, steps: seq<Step>, s: Step)
    ensures Run(t, steps + [s]) == Next(t, Run(t, steps), s)
    ensures OrderedRun(t, steps + [s]) <==> OrderedRun(t, steps) && InOrder(Run(t, steps), s)
  {
    assert (steps + [s])[..|steps|] == steps;
  }

  /** The steps of one evaluation, with nothing in between. */
  function Evaluated(t: Wording, w: World, th: Thesis, bar: Bar, now: int): World {
    var looked := Next(t, w, Look(th, bar));
    Next(t, Next(t, looked, Check(|w.tickets|, now)), Publish(|w.tickets|))
  }

  /** The verdict is published, and the evaluation's ticket holds it for the queue. */
  ghost predicate Concludes(w: World, w': World, v: Verdict) {
    && |w'.tickets| == |w.tickets| + 1 && w'.markers == AfterVerdict(w.markers, v)
    && w'.tickets[|w.tickets|].phase == if v.Fire? then Reported(v.marker) else Closed
  }

  /** They publish what Evaluate says. */
  lemma {:induction false} UndisturbedEvaluation(t: Wording, w: World, th: Thesis, bar: Bar, now: int)
    ensures Concludes(w, Evaluated(t, w, th, bar, now), Evaluate(t, w.markers, th, bar, now))
  {
    var k := |w.tickets|;
    var looked := Next(t, w, Look(th, bar));
    assert looked.tickets[k] == Opened(t, w, th, bar);
    assert looked.markers == w.markers;
  }

  // ------------------------------------------------------------------ the three steps, field by field

  /** A look takes down the marker as it is then: without a baseline that still stands it goes on to establish
      one, otherwise it goes on only if there is something to report. */
  lemma LookInFields(t: Wording, w: World, th: Thesis, bar: Bar)
    ensures var w' := Next(t, w, Look(th, bar));
      && w'.markers == w.markers && |w'.tickets| == |w.tickets| + 1 && w'.tickets[..|w.tickets|] == w.tickets
      && var x := w'.tickets[|w.tickets|];
         && x.th == th && x.bar == bar
         && (th.id in w.markers ==> x.seen == Some(w.markers[th.id])) && (th.id !in w.markers ==> x.seen == None)
         && (x.phase == Rebasing <==>
               th.id !in w.markers || w.markers[th.id].baselinePx == 0.0
               || th.lastReviewAt > w.markers[th.id].baselineAt)
         && (x.phase != Rebasing ==>
               match Reason(t, th, w.markers[th.id], bar)
               case None => x.phase == Closed
               case Some(reason) => x.phase == Comparing(reason))
  {
  }

  /** The second read is of the marker as it is by then, and only of what it last reported; the marker to be
      written keeps the baseline seen at the look. */
  lemma CheckInFields(t: Wording, w: World, k: nat, now: int)
    requires Comparable(w, k)
    ensures var w', x := Next(t, w, Check(k, now)), w.tickets[k];
      && w'.markers == w.markers && |w'.tickets| == |w.tickets|
      && (if x.th.id in w.markers && w.markers[x.th.id].lastFired == t.firedKey("material", x.phase.reason)
          then w'.tickets[k].phase == Closed
          else w'.tickets[k].phase.Firing?
               && var m := w'.tickets[k].phase.marker;
                  && m.stale && m.reason == x.phase.reason && m.asOf == x.bar.ts && m.asOfISO == x.bar.iso
                  && m.baselineAt == x.seen.value.baselineAt && m.baselinePx == x.seen.value.baselinePx
                  && m.observedPx == x.bar.close && m.lastFired == t.firedKey("material", x.phase.reason))
  {
  }

  /** The write replaces whatever marker the thesis has by then, and touches no other. */
  lemma PublishInFields(t: Wording, w: World, k: nat)
    requires Pending(w, k)
    ensures var w', x := Next(t, w, Publish(k)), w.tickets[k];
      && x.th.id in w'.markers && w'.markers == w.markers[x.th.id := w'.markers[x.th.id]]
      && (x.phase.Firing? ==> w'.markers[x.th.id] == x.phase.marker && w'.tickets[k].phase == Reported(x.phase.marker))
      && (x.phase.Rebasing? ==>
            var m := w'.markers[x.th.id];
            && !m.stale && m.baselineAt == x.bar.ts && m.asOf == x.bar.ts && m.asOfISO == x.bar.iso
            && m.baselinePx == x.bar.close && m.observedPx == x.bar.close && m.lastFired == ""
            && w'.tickets[k].phase == Closed)
  {
  }

  // ------------------------------------------------------------------ what the log of writes says

  /** The last write to a thesis's marker. */
  function LastWrite(writes: seq<Write>, id: string): Option<Write> {
    if writes == [] then None
    else if writes[|writes| - 1].thesisId == id then Some(writes[|writes| - 1])
    else LastWrite(writes[..|writes| - 1], id)
  }

  lemma LastWriteSnoc(writes: seq<Write>, x: Write, id: string)
    ensures LastWrite(writes + [x], id) == if x.thesisId == id then Some(x) else LastWrite(writes, id)
  {
    assert (writes + [x])[..|writes|] == writes;
  }

  lemma {:induction false} LastWriteSplit(writes: seq<Write>, at: nat, id: string)
    requires at <= |writes|
    ensures var since := LastWrite(writes[at..], id);
      LastWrite(writes, id) == if since.Some? then since else LastWrite(writes[..at], id)
  {
    if at < |writes| {
      var n := |writes| - 1;
      LastWriteSplit(writes[..n], at, id);
      assert writes[at..] == writes[..n][at..] + [writes[n]] && writes[..n][..at] == writes[..at];
      LastWriteSnoc(writes[..n][at..], writes[n], id);
    } else {
      assert writes[..at] == writes;
    }
  }

  /** A marker shows what the last write to it left. */
  ghost predicate Shows(m: Option<Marker>, x: Option<Write>) {
    match (m, x)
    case (None, None) => true
    case (Some(m), Some(x)) => m.baselineAt == x.baselineAt && m.asOf == x.asOf
    case _ => false
  }

  ghost predicate TicketOk(t: Wording, k: Ticket, writes: seq<Write>) {
    && k.at <= |writes| && Shows(k.seen, LastWrite(writes[..k.at], k.th.id))
    && (k.phase.Comparing? ==> k.seen.Some? && Reason(t, k.th, k.seen.value, k.bar) == Some(k.phase.reason)
                               && k.th.lastReviewAt <= k.seen.value.baselineAt)
    && (k.phase.Firing? ==> k.seen.Some? && k.phase.marker.baselineAt == k.seen.value.baselineAt
                            && k.phase.marker.asOf == k.bar.ts && k.th.lastReviewAt <= k.seen.value.baselineAt)
  }

  ghost predicate Traced(t: Wording, w: World) {
    && (forall id :: Shows(SeenOf(w.markers, id), LastWrite(w.writes, id)))
    && (forall k :: 0 <= k < |w.tickets| ==> TicketOk(t, w.tickets[k], w.writes))
    && (forall c :: c in w.counts ==> c.lastReviewAt <= c.after)
  }

  lemma TicketOkLater(t: Wording, k: Ticket, writes: seq<Write>, x: Write)
    requires TicketOk(t, k, writes)
    ensures TicketOk(t, k, writes + [x])
  {
    assert (writes + [x])[..k.at] == writes[..k.at];
  }

  lemma PutTraced(t: Wording, w: World, id: string, m: Marker, cause: Cause)
    requires Traced(t, w)
    ensures Traced(t, Put(w, id, m, cause))
  {
    var x := Write(id, m.baselineAt, m.asOf, cause);
    forall other ensures Shows(SeenOf(w.markers[id := m], other), LastWrite(w.writes + [x], other)) {
      LastWriteSnoc(w.writes, x, other);
      assert Shows(SeenOf(w.markers, other), LastWrite(w.writes, other));
    }
    forall k | 0 <= k < |w.tickets| ensures TicketOk(t, w.tickets[k], w.writes + [x]) {
      TicketOkLater(t, w.tickets[k], w.writes, x);
    }
  }

  /** Replacing one ticket by one that is still right. */
  lemma TicketTraced(t: Wording, w: World, k: nat, x: Ticket)
    requires Traced(t, w) && k < |w.tickets| && TicketOk(t, x, w.writes)
    ensures Traced(t, w.(tickets := w.tickets[k := x]))
  {
  }

  lemma LookTraced(t: Wording, w: World, s: Step)
    requires Traced(t, w) && s.Look?
    ensures Traced(t, Next(t, w, s))
  {
    assert w.writes[..|w.writes|] == w.writes;
    assert Shows(SeenOf(w.markers, s.th.id), LastWrite(w.writes, s.th.id));
    assert TicketOk(t, Opened(t, w, s.th, s.bar), w.writes);
  }

  lemma CheckTraced(t: Wording, w: World, k: nat, now: int)
    requires Traced(t, w) && Comparable(w, k)
    ensures Traced(t, AfterCheck(t, w, k, now))
  {
    var x := w.tickets[k];
    assert TicketOk(t, x, w.writes);
    TicketTraced(t, w, k, x.(phase := Closed));
    TicketTraced(t, w, k, x.(phase := Firing(Stale(t, x.th, x.seen.value, x.bar, x.phase.reason, now))));
  }

  lemma PublishTraced(t: Wording, w: World, k: nat)
    requires Traced(t, w) && Pending(w, k)
    ensures Traced(t, AfterPublish(w, k))
  {
    var x := w.tickets[k];
    var cause := if x.phase.Rebasing? then Rebased else Published;
    assert TicketOk(t, x, w.writes);
    var w' := Put(w, x.th.id, VerdictOf(x), cause);
    PutTraced(t, w, x.th.id, VerdictOf(x), cause);
    TicketOkLater(t, x, w.writes, w'.writes[|w.writes|]);
    TicketTraced(t, w', k, x.(phase := if x.phase.Rebasing? then Closed else Reported(VerdictOf(x))));
  }

  lemma TracedStep(t: Wording, w: World, s: Step)
    requires Traced(t, w)
    ensures Traced(t, Next(t, w, s))
  {
    match s {
      case Look(_, _) => LookTraced(t, w, s);
      case Check(k, now) => if Comparable(w, k) { CheckTraced(t, w, k, now); }
      case Publish(k) => if Pending(w, k) { PublishTraced(t, w, k); }
      case Hand(k) =>
        if k < |w.tickets| && w.tickets[k].phase.Reported? {
          assert TicketOk(t, w.tickets[k], w.writes);
          TicketTraced(t, w, k, w.tickets[k].(phase := Closed));
        }
      case Ack(id, asOf) =>
        if Acknowledges(w.markers, id, asOf) { PutTraced(t, w, id, Acknowledged(w.markers[id]), Acked); }
    }
  }

  lemma {:induction false} RunTraced(t: Wording, steps: seq<Step>)
    ensures Traced(t, Run(t, steps))
  {
    if steps != [] {
      RunTraced(t, steps[..|steps| - 1]);
      TracedStep(t, Run(t, steps[..|steps| - 1]), steps[|steps| - 1]);
    }
  }

  /** A published marker's baseline is never older than the last review the sweep knew of. */
  lemma FiredAfterReview(t: Wording, steps: seq<Step>, c: Count)
    requires c in Run(t, steps).counts
    ensures c.lastReviewAt <= c.after
  {
    RunTraced(t, steps);
  }

  // ------------------------------------------------------------------ when a publication lowers a baseline

  /** A write to the thesis's marker landed since this evaluation looked, and the last such write left a
      newer baseline than the verdict carries. */
  ghost predicate Overtaken(w: World, k: nat)
    requires Pending(w, k)
  {
    var x := w.tickets[k];
    x.at <= |w.writes| &&
    var since := LastWrite(w.writes[x.at..], x.th.id);
    since.Some? && VerdictOf(x).baselineAt < since.value.baselineAt
  }

  /** Nothing landed since the look, and the baseline to be established is older than the one there. */
  ghost predicate RebasesBack(w: World, k: nat)
    requires Pending(w, k)
  {
    var x := w.tickets[k];
    && x.at <= |w.writes| && LastWrite(w.writes[x.at..], x.th.id).None?
    && x.phase.Rebasing? && x.seen.Some? && x.bar.ts < x.seen.value.baselineAt
  }

  /** A publication puts a baseline back exactly when a newer one was left by an acknowledgement, a rebase
      or another publication since it looked, or when it rebases on an older bar. */
  lemma LatePublishRegresses(t: Wording, steps: seq<Step>, k: nat)
    requires Pending(Run(t, steps), k)
    ensures var w := Run(t, steps);
      var id := w.tickets[k].th.id;
      && id in Next(t, w, Publish(k)).markers
      && (id in w.markers && Next(t, w, Publish(k)).markers[id].baselineAt < w.markers[id].baselineAt
          <==> Overtaken(w, k) || RebasesBack(w, k))
  {
    RunTraced(t, steps);
    var w := Run(t, steps);
    var x := w.tickets[k];
    assert TicketOk(t, x, w.writes);
    assert Shows(SeenOf(w.markers, x.th.id), LastWrite(w.writes, x.th.id));
    LastWriteSplit(w.writes, x.at, x.th.id);
  }

  // ------------------------------------------------------------------ with bars in order

  ghost predicate BarOk(m: Marker, id: string, lastBar: map<string, int>) {
    id in lastBar && m.baselineAt <= m.asOf <= lastBar[id]
  }

  ghost predicate TicketBarOk(k: Ticket, lastBar: map<string, int>) {
    && k.th.id in lastBar && k.bar.ts <= lastBar[k.th.id]
    && (k.seen.Some? ==> k.seen.value.baselineAt <= k.seen.value.asOf <= k.bar.ts)
  }

  ghost predicate BarsOk(w: World) {
    && (forall id :: id in w.markers ==> BarOk(w.markers[id], id, w.lastBar))
    && (forall k :: 0 <= k < |w.tickets| ==> TicketBarOk(w.tickets[k], w.lastBar))
  }

  lemma LookKeepsBars(t: Wording, w: World, s: Step)
    requires BarsOk(w) && InOrder(w, s) && s.Look?
    ensures BarsOk(Next(t, w, s))
  {
  }

  lemma OtherStepsKeepBars(t: Wording, w: World, s: Step)
    requires Traced(t, w) && BarsOk(w) && !s.Look?
    ensures BarsOk(Next(t, w, s))
  {
    if (s.Check? || s.Publish?) && s.k < |w.tickets| {
      assert TicketOk(t, w.tickets[s.k], w.writes) && TicketBarOk(w.tickets[s.k], w.lastBar);
    }
  }

  lemma {:induction false} RunBarsOk(t: Wording, steps: seq<Step>)
    requires OrderedRun(t, steps)
    ensures BarsOk(Run(t, steps))
  {
    if steps != [] {
      var w, s := Run(t, steps[..|steps| - 1]), steps[|steps| - 1];
      RunBarsOk(t, steps[..|steps| - 1]);
      RunTraced(t, steps[..|steps| - 1]);
      if s.Look? { LookKeepsBars(t, w, s); } else { OtherStepsKeepBars(t, w, s); }
    }
  }

  // ------------------------------------------------------------------ when a baseline falls, in any run

  /** The step publishes a verdict about this thesis. */
  predicate Publishes(w: World, s: Step, id: string) {
    s.Publish? && Pending(w, s.k) && w.tickets[s.k].th.id == id
  }

  predicate Acks(w: World, s: Step, id: string) {
    s.Ack? && s.thesisId == id && Acknowledges(w.markers, id, s.asOf)
  }

  /** The marker shows a reading older than its baseline. */
  predicate Ahead(w: World, id: string) {
    id in w.markers && w.markers[id].asOf < w.markers[id].baselineAt
  }

  /** The step publishes a verdict that is overtaken or rebases on an older bar, or acknowledges a reading
      older than the baseline. */
  ghost predicate Lowers(w: World, s: Step, id: string) {
    || (Publishes(w, s, id) && (Overtaken(w, s.k) || RebasesBack(w, s.k)))
    || (Acks(w, s, id) && Ahead(w, id))
  }

  function BaselineOf(w: World, id: string): int {
    if id in w.markers then w.markers[id].baselineAt else 0
  }

  /** In every run, a step moves a baseline back exactly when it is of one of these kinds. */
  lemma StepLowersIff(t: Wording, steps: seq<Step>, s: Step, id: string)
    requires id in Run(t, steps).markers
    ensures id in Next(t, Run(t, steps), s).markers
    ensures BaselineOf(Next(t, Run(t, steps), s), id) < BaselineOf(Run(t, steps), id) <==> Lowers(Run(t, steps), s, id)
  {
    if Publishes(Run(t, steps), s, id) {
      LatePublishRegresses(t, steps, s.k);
    }
  }

  /** The thesis's baseline at the end of `steps` and after each further step. */
  function Baselines(t: Wording, steps: seq<Step>, more: seq<Step>, id: string): seq<int> {
    (if more == [] then [] else Baselines(t, steps, more[..|more| - 1], id)) + [BaselineOf(Run(t, steps + more), id)]
  }

  ghost predicate NeverFalls(b: seq<int>) {
    forall i, j :: 0 <= i <= j < |b| ==> b[i] <= b[j]
  }

  ghost predicate SomeLowers(t: Wording, steps: seq<Step>, more: seq<Step>, id: string) {
    more != [] && var n := |more| - 1;
      SomeLowers(t, steps, more[..n], id) || Lowers(Run(t, steps + more[..n]), more[n], id)
  }

  /** In every run, a marker stays, and its baseline never moves back exactly when no overtaken verdict is
      published, none rebases on an older bar, and no reading older than the baseline is acknowledged. */
  lemma {:induction false} BaselineNeverDecreases(t: Wording, steps: seq<Step>, more: seq<Step>, id: string)
    requires id in Run(t, steps).markers
    ensures id in Run(t, steps + more).markers
    ensures NeverFalls(Baselines(t, steps, more, id)) <==> !SomeLowers(t, steps, more, id)
    decreases |more|
  {
    if more == [] {
      assert steps + more == steps;
    } else {
      var n := |more| - 1;
      var init, last := more[..n], more[n];
      assert (steps + more)[..|steps + more| - 1] == steps + init;
      BaselineNeverDecreases(t, steps, init, id);
      StepLowersIff(t, steps + init, last, id);
      FallsSnoc(Baselines(t, steps, init, id), BaselineOf(Run(t, steps + more), id));
    }
  }

  lemma FallsSnoc(b: seq<int>, x: int)
    requires b != []
    ensures NeverFalls(b + [x]) <==> NeverFalls(b) && b[|b| - 1] <= x
  {
    if NeverFalls(b + [x]) {
      forall i, j | 0 <= i <= j < |b| ensures b[i] <= b[j] { assert (b + [x])[i] <= (b + [x])[j]; }
      assert (b + [x])[|b| - 1] <= (b + [x])[|b|];
    }
  }

  // ------------------------------------------------------------------ when a baseline is ahead of its reading

  /** The step publishes a verdict whose bar is older than the baseline its evaluation saw. */
  predicate PublishesAhead(w: World, s: Step, id: string) {
    Publishes(w, s, id) && w.tickets[s.k].phase.Firing? && w.tickets[s.k].bar.ts < w.tickets[s.k].seen.value.baselineAt
  }

  /** After a step a marker is ahead of its reading exactly when such a verdict was published, or it was
      ahead before and was not written. */
  lemma StepPutsAheadIff(t: Wording, steps: seq<Step>, s: Step, id: string)
    ensures var w := Run(t, steps);
      Ahead(Next(t, w, s), id) <==>
      PublishesAhead(w, s, id) || (Ahead(w, id) && !Publishes(w, s, id) && !Acks(w, s, id))
  {
    RunTraced(t, steps);
    var w := Run(t, steps);
    if Publishes(w, s, id) {
      assert TicketOk(t, w.tickets[s.k], w.writes);
    }
  }

  ghost predicate EverAhead(t: Wording, steps: seq<Step>, id: string) {
    Ahead(Run(t, steps), id) || (steps != [] && EverAhead(t, steps[..|steps| - 1], id))
  }

  predicate SomePublishesAhead(t: Wording, steps: seq<Step>, id: string) {
    steps != [] && var n := |steps| - 1;
      SomePublishesAhead(t, steps[..n], id) || PublishesAhead(Run(t, steps[..n]), steps[n], id)
  }

  /** In every run, a marker's baseline is at most its as-of time throughout exactly when no verdict is
      published whose bar is older than the baseline it was compared with. */
  lemma {:induction false} NeverAheadIff(t: Wording, steps: seq<Step>, id: string)
    ensures !EverAhead(t, steps, id) <==> !SomePublishesAhead(t, steps, id)
  {
    if steps != [] {
      var n := |steps| - 1;
      NeverAheadIff(t, steps[..n], id);
      StepPutsAheadIff(t, steps[..n], steps[n], id);
    }
  }
}
