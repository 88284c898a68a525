/** Runs of the whole monitor, sweeps and worker calls interleaved lock by lock, projected onto the queue
    machine and the marker machine, so that what holds of every queue run and every marker run holds of
    it; and a tick that nothing interrupts, as one such run. */
module MonitorRuns {
  import opened Common
  import opened ResynthQueue
  import opened ThesisMarkers
  import Q = ResynthRuns
  import M = MarkerRuns

  /** The marker machine and the queue it feeds. */
  datatype Machine = Machine(marks: M.World, queue: seq<Job>, dropped: nat)

  const IDLE := Machine(M.START, [], 0)

  function StateOf(m: Machine): State { State(m.marks.markers, m.queue, m.dropped) }

  /** One locked section each: the two reads, the write and the enqueue of a sweep's evaluation number
      `k`, a lease, and a completion. */
  datatype Op =
    | Look(th: Thesis, bar: Bar, now: int)
    | Check(k: nat, now: int)
    | Publish(k: nat, now: int)
    | Enqueue(k: nat, now: int)
    | Take(now: int, token: string)
    | Report(id: string, token: string, outcome: Outcome, detail: string, now: int)

  predicate Succeeds(m: Machine, op: Op) {
    op.Report? && op.outcome.Done? && Resolves(m.queue, op.id, op.token, op.outcome)
  }

  predicate Hands(m: Machine, op: Op) {
    op.Enqueue? && op.k < |m.marks.tickets| && m.marks.tickets[op.k].phase.Reported?
  }

  function Handed(t: Wording, m: Machine, op: Op): Job
    requires Hands(m, op)
  {
    JobFor(t, m.marks.tickets[op.k].phase.marker, op.now)
  }

  function Apply(t: Wording, m: Machine, op: Op): Machine {
    match op
    case Look(th, bar, _) => m.(marks := M.Next(t, m.marks, M.Look(th, bar)))
    case Check(k, now) => m.(marks := M.Next(t, m.marks, M.Check(k, now)))
    case Publish(k, _) => m.(marks := M.Next(t, m.marks, M.Publish(k)))
    case Enqueue(k, _) =>
      if Hands(m, op) then
        Machine(M.Next(t, m.marks, M.Hand(k)), AfterEnqueue(m.queue, Handed(t, m, op)),
                m.dropped + DroppedBy(m.queue, Handed(t, m, op)))
      else m
    case Take(now, token) => m.(queue := AfterLease(m.queue, now, token))
    case Report(id, token, outcome, detail, now) =>
      var m' := m.(queue := AfterComplete(m.queue, id, token, outcome, detail, now));
      if Succeeds(m, op) then
        var j := m.queue[IndexOf(m.queue, id)];
        m'.(marks := M.Next(t, m.marks, M.Ack(j.thesisId, j.asOf)))
      else m'
  }

  type Doer = (Machine, Op) -> Machine

  function DoerOf(t: Wording): Doer { (m: Machine, op: Op) => Apply(t, m, op) }

  function Folded(d: Doer, m: Machine, ops: seq<Op>): Machine {
    if ops == [] then m else d(Folded(d, m, ops[..|ops| - 1]), ops[|ops| - 1])
  }

  function Applied(t: Wording, m: Machine, ops: seq<Op>): Machine { Folded(DoerOf(t), m, ops) }

  function After(t: Wording, ops: seq<Op>): Machine { Applied(t, IDLE, ops) }

  /** The queue steps one operation stands for. */
  function QueueStep(t: Wording, m: Machine, op: Op): seq<Q.Step> {
    match op
    case Take(now, token) => [Q.Lease(now, token)]
    case Report(id, token, outcome, detail, now) => [Q.Complete(id, token, outcome, detail, now)]
    case _ => if Hands(m, op) then [Q.Offer(Handed(t, m, op), op.now)] else []
  }

  /** The marker steps one operation stands for. */
  function MarkerStep(m: Machine, op: Op): seq<M.Step> {
    match op
    case Look(th, bar, _) => [M.Look(th, bar)]
    case Check(k, now) => [M.Check(k, now)]
    case Publish(k, _) => [M.Publish(k)]
    case Enqueue(k, _) => if Hands(m, op) then [M.Hand(k)] else []
    case Take(_, _) => []
    case Report(id, _, _, _, _) =>
      if Succeeds(m, op) then var j := m.queue[IndexOf(m.queue, id)]; [M.Ack(j.thesisId, j.asOf)] else []
  }

  function QueueSteps(t: Wording, ops: seq<Op>): seq<Q.Step> {
    if ops == [] then []
    else QueueSteps(t, ops[..|ops| - 1]) + QueueStep(t, After(t, ops[..|ops| - 1]), ops[|ops| - 1])
  }

  function MarkerSteps(t: Wording, ops: seq<Op>): seq<M.Step> {
    if ops == [] then []
    else MarkerSteps(t, ops[..|ops| - 1]) + MarkerStep(After(t, ops[..|ops| - 1]), ops[|ops| - 1])
  }

  /** The wall clock does not go back, and no lease token is issued twice. */
  ghost predicate Legal(start: int, ops: seq<Op>) {
    && (forall i :: 0 <= i < |ops| ==> start <= ops[i].now)
    && (forall i, j :: 0 <= i < j < |ops| ==> ops[i].now <= ops[j].now)
    && (forall i :: 0 <= i < |ops| && ops[i].Take? ==> ops[i].token != "")
    && (forall i, j :: 0 <= i < j < |ops| && ops[i].Take? && ops[j].Take? ==> ops[i].token != ops[j].token)
  }

  /** No thesis is looked at with an earlier bar than before. */
  ghost predicate BarsInOrder(ops: seq<Op>) {
    forall i, j :: 0 <= i < j < |ops| && ops[i].Look? && ops[j].Look? && ops[i].th.id == ops[j].th.id ==>
      ops[i].bar.ts <= ops[j].bar.ts
  }

  /** The queue machine's clock and issued tokens come from operations already performed. */
  ghost predicate QueueFrom(start: int, ops: seq<Op>, w: Q.World) {
    && (w.clock == start || exists i :: 0 <= i < |ops| && ops[i].now == w.clock)
    && (forall e :: e in w.log && e.Grant? ==> exists i :: 0 <= i < |ops| && ops[i].Take? && ops[i].token == e.token)
  }

  lemma QueueRunSnoc(start: int, steps: seq<Q.Step>, s: Q.Step)
    ensures Q.Run(start, steps + [s]) == Q.Next(Q.Run(start, steps), s)
    ensures Q.LegalRun(start, steps + [s]) <==> Q.LegalRun(start, steps) && Q.Legal(Q.Run(start, steps), s)
  {
    assert (steps + [s])[..|steps|] == steps;
  }

  lemma ApplyOnQueue(t: Wording, m: Machine, op: Op, w: Q.World)
    requires w.queue == m.queue && w.dropped == m.dropped
    ensures var now, m' := QueueStep(t, m, op), Apply(t, m, op);
      && |now| <= 1
      && (now == [] ==> m'.queue == m.queue && m'.dropped == m.dropped)
      && (now != [] ==> StandsFor(now[0], op))
      && (now != [] ==> Q.Next(w, now[0]).queue == m'.queue && Q.Next(w, now[0]).dropped == m'.dropped)
  {
  }

  /** The step happens when its operation does, offers only a fresh job, and leases under its token. */
  ghost predicate StandsFor(s: Q.Step, op: Op) {
    && s.now == op.now
    && (s.Offer? ==> Fresh(s.job))
    && (s.Lease? ==> op == Take(s.now, s.token))
  }

  ghost predicate QueueAgrees(start: int, ops: seq<Op>, steps: seq<Q.Step>, m: Machine) {
    var w := Q.Run(start, steps);
    Q.LegalRun(start, steps) && w.queue == m.queue && w.dropped == m.dropped && QueueFrom(start, ops, w)
  }

  lemma QueueProjectionStep(t: Wording, start: int, before: seq<Op>, op: Op, steps: seq<Q.Step>, m: Machine)
    requires Legal(start, before + [op]) && QueueAgrees(start, before, steps, m)
    ensures QueueAgrees(start, before + [op], steps + QueueStep(t, m, op), Apply(t, m, op))
  {
    var w := Q.Run(start, steps);
    var now := QueueStep(t, m, op);
    ApplyOnQueue(t, m, op, w);
    if now == [] {
      assert steps + now == steps;
      WiderFrom(start, before, op, w);
    } else {
      assert now == [now[0]];
      NextFrom(start, before, op, w, now[0]);
      QueueRunSnoc(start, steps, now[0]);
    }
  }

  lemma {:induction false} QueueProjection(t: Wording, start: int, ops: seq<Op>)
    requires Legal(start, ops)
    ensures QueueAgrees(start, ops, QueueSteps(t, ops), After(t, ops))
  {
    if ops != [] {
      var before, op := ops[..|ops| - 1], ops[|ops| - 1];
      assert ops == before + [op];
      QueueProjection(t, start, before);
      QueueProjectionStep(t, start, before, op, QueueSteps(t, before), After(t, before));
    }
  }

  lemma WiderFrom(start: int, before: seq<Op>, op: Op, w: Q.World)
    requires QueueFrom(start, before, w)
    ensures QueueFrom(start, before + [op], w)
  {
    var ops := before + [op];
    assert forall i :: 0 <= i < |before| ==> ops[i] == before[i];
    if w.clock != start {
      var i :| 0 <= i < |before| && before[i].now == w.clock;
      assert ops[i].now == w.clock;
    }
    forall e | e in w.log && e.Grant?
      ensures exists i :: 0 <= i < |ops| && ops[i].Take? && ops[i].token == e.token
    {
      var i :| 0 <= i < |before| && before[i].Take? && before[i].token == e.token;
      assert ops[i].token == e.token;
    }
  }

  lemma NextFrom(start: int, before: seq<Op>, op: Op, w: Q.World, s: Q.Step)
    requires Legal(start, before + [op]) && QueueFrom(start, before, w)
    requires StandsFor(s, op)
    ensures Q.Legal(w, s) && QueueFrom(start, before + [op], Q.Next(w, s))
  {
    var ops := before + [op];
    WiderFrom(start, before, op, w);
    assert ops[|before|] == op;
    assert forall i :: 0 <= i < |before| ==> ops[i] == before[i];
    var w' := Q.Next(w, s);
    forall e | e in w'.log && e.Grant?
      ensures exists i :: 0 <= i < |ops| && ops[i].Take? && ops[i].token == e.token
    {
      if e !in w.log {
        assert s.Lease? && ops[|before|].token == e.token;
      }
    }
  }

  /** Every run of the monitor, whatever its clock and its bars, is a run of the marker machine. */
  lemma {:induction false} MarkerProjection(t: Wording, ops: seq<Op>)
    ensures M.Run(t, MarkerSteps(t, ops)) == After(t, ops).marks
  {
    if ops != [] {
      var before, op := ops[..|ops| - 1], ops[|ops| - 1];
      MarkerProjection(t, before);
      MarkerProjectionStep(t, After(t, before), op, MarkerSteps(t, before));
    }
  }

  lemma MarkerProjectionStep(t: Wording, m: Machine, op: Op, steps: seq<M.Step>)
    requires M.Run(t, steps) == m.marks
    ensures M.Run(t, steps + MarkerStep(m, op)) == Apply(t, m, op).marks
    ensures op.Look? ==> (M.OrderedRun(t, steps + MarkerStep(m, op)) <==>
                          M.OrderedRun(t, steps) && M.InOrder(m.marks, M.Look(op.th, op.bar)))
    ensures !op.Look? ==> (M.OrderedRun(t, steps + MarkerStep(m, op)) <==> M.OrderedRun(t, steps))
  {
    var now := MarkerStep(m, op);
    if now == [] {
      assert steps + now == steps;
    } else {
      assert now == [now[0]];
      M.RunSnoc(t, steps, now[0]);
    }
  }

  /** The marker machine's record of bars comes from looks already performed. */
  ghost predicate BarsFrom(ops: seq<Op>, lastBar: map<string, int>) {
    forall id :: id in lastBar ==>
      exists i :: 0 <= i < |ops| && ops[i].Look? && ops[i].th.id == id && ops[i].bar.ts == lastBar[id]
  }

  lemma BarsFromSnoc(before: seq<Op>, op: Op, was: map<string, int>, is': map<string, int>)
    requires BarsFrom(before, was)
    requires is' == if op.Look? then was[op.th.id := op.bar.ts] else was
    ensures BarsFrom(before + [op], is')
  {
    var ops := before + [op];
    forall id | id in is'
      ensures exists i :: 0 <= i < |ops| && ops[i].Look? && ops[i].th.id == id && ops[i].bar.ts == is'[id]
    {
      if op.Look? && op.th.id == id {
        assert ops[|before|].bar.ts == is'[id];
      } else {
        var i :| 0 <= i < |before| && before[i].Look? && before[i].th.id == id && before[i].bar.ts == was[id];
        assert ops[i].bar.ts == is'[id];
      }
    }
  }

  lemma LookIsInOrder(before: seq<Op>, op: Op, w: M.World)
    requires BarsInOrder(before + [op]) && BarsFrom(before, w.lastBar) && op.Look?
    ensures M.InOrder(w, M.Look(op.th, op.bar))
  {
    if op.th.id in w.lastBar {
      var id, ts := op.th.id, w.lastBar[op.th.id];
      var i :| 0 <= i < |before| && before[i].Look? && before[i].th.id == id && before[i].bar.ts == ts;
      var ops := before + [op];
      assert ops[i] == before[i] && ops[|before|] == op;
    }
  }

  ghost predicate OrderAgrees(t: Wording, ops: seq<Op>, steps: seq<M.Step>, m: Machine) {
    M.OrderedRun(t, steps) && M.Run(t, steps) == m.marks && BarsFrom(ops, m.marks.lastBar)
  }

  lemma OrderAgreesStep(t: Wording, before: seq<Op>, op: Op, steps: seq<M.Step>, m: Machine)
    requires BarsInOrder(before + [op]) && OrderAgrees(t, before, steps, m)
    ensures OrderAgrees(t, before + [op], steps + MarkerStep(m, op), Apply(t, m, op))
  {
    MarkerProjectionStep(t, m, op, steps);
    BarsFromSnoc(before, op, m.marks.lastBar, Apply(t, m, op).marks.lastBar);
    if op.Look? { LookIsInOrder(before, op, m.marks); }
  }

  /** Looks in bar order stay in bar order. */
  lemma {:induction false} OrderIsProjected(t: Wording, ops: seq<Op>)
    requires BarsInOrder(ops)
    ensures OrderAgrees(t, ops, MarkerSteps(t, ops), After(t, ops))
  {
    if ops != [] {
      var before, op := ops[..|ops| - 1], ops[|ops| - 1];
      assert ops == before + [op];
      OrderIsProjected(t, before);
      OrderAgreesStep(t, before, op, MarkerSteps(t, before), After(t, before));
    }
  }

  /** In every run of the monitor, however sweeps overlap and in whatever order they look at bars, the
      queue keeps its bound and its ids, accepted jobs are either queued or counted as dropped, leases keep
      their rate and exclude each other, and markers agree with the log of writes. A marker's baseline is
      ahead of its reading only after a verdict was published whose bar is older than the baseline it was
      compared with; with looks in bar order none is. */
  lemma MonitorInvariant(t: Wording, start: int, ops: seq<Op>, id: string)
    requires Legal(start, ops)
    ensures var m, w := After(t, ops), Q.Run(start, QueueSteps(t, ops));
      && w.queue == m.queue && w.dropped == m.dropped && Q.QueueOk(w) && Q.RateOk(w) && Q.LeaseOk(w)
      && M.Traced(t, m.marks)
      && (M.Ahead(m.marks, id) ==> M.SomePublishesAhead(t, MarkerSteps(t, ops), id))
      && (BarsInOrder(ops) ==> M.BarsOk(m.marks))
  {
    QueueProjection(t, start, ops);
    Q.QueueInvariant(start, QueueSteps(t, ops));
    Q.RateInvariant(start, QueueSteps(t, ops));
    Q.LeaseInvariant(start, QueueSteps(t, ops));
    MarkerProjection(t, ops);
    M.RunTraced(t, MarkerSteps(t, ops));
    M.NeverAheadIff(t, MarkerSteps(t, ops), id);
    if BarsInOrder(ops) {
      OrderIsProjected(t, ops);
      M.RunBarsOk(t, MarkerSteps(t, ops));
    }
  }

  // ------------------------------------------------------------------ a tick as a run

  /** The four locked sections of one evaluation. */
  function Visit(k: nat, th: Thesis, bar: Bar, now: int): seq<Op> {
    [Look(th, bar, now), Check(k, now), Publish(k, now), Enqueue(k, now)]
  }

  /** How many theses a sweep evaluates. */
  function Visits(theses: seq<Thesis>, bars: map<string, Bar>): nat {
    if theses == [] then 0
    else Visits(theses[..|theses| - 1], bars) + if theses[|theses| - 1].ticker in bars then 1 else 0
  }

  /** What a sweep does, its evaluations numbered from `k`. */
  function SweepOps(theses: seq<Thesis>, bars: map<string, Bar>, now: int, k: nat): seq<Op> {
    if theses == [] then []
    else
      var init, th := theses[..|theses| - 1], theses[|theses| - 1];
      var before := SweepOps(init, bars, now, k);
      if th.ticker in bars then before + Visit(k + Visits(init, bars), th, bars[th.ticker], now) else before
  }

  lemma {:induction false} FoldedConcat(d: Doer, m: Machine, a: seq<Op>, b: seq<Op>)
    ensures Folded(d, m, a + b) == Folded(d, Folded(d, m, a), b)
    decreases |b|
  {
    if b == [] {
      assert a + b == a;
    } else {
      assert (a + b)[..|a + b| - 1] == a + b[..|b| - 1];
      FoldedConcat(d, m, a, b[..|b| - 1]);
    }
  }

  lemma FourFolded(d: Doer, m: Machine, x: Op, y: Op, z: Op, u: Op)
    ensures Folded(d, m, [x, y, z, u]) == d(d(d(d(m, x), y), z), u)
  {
    assert [x, y, z, u][..3] == [x, y, z] && [x, y, z][..2] == [x, y] && [x, y][..1] == [x] && [x][..0] == [];
    assert Folded(d, m, [x]) == d(m, x);
    assert Folded(d, m, [x, y]) == d(Folded(d, m, [x]), y);
    assert Folded(d, m, [x, y, z]) == d(Folded(d, m, [x, y]), z);
  }

  /** Uninterrupted, they do what one step of a sweep is said to do. */
  lemma VisitIsSweepOne(t: Wording, m: Machine, th: Thesis, bar: Bar, now: int)
    ensures var m' := Applied(t, m, Visit(|m.marks.tickets|, th, bar, now));
      StateOf(m') == SweepOne(t, StateOf(m), th, bar, now) && |m'.marks.tickets| == |m.marks.tickets| + 1
  {
    var k := |m.marks.tickets|;
    FourFolded(DoerOf(t), m, Look(th, bar, now), Check(k, now), Publish(k, now), Enqueue(k, now));
    M.UndisturbedEvaluation(t, m.marks, th, bar, now);
    var w := M.Evaluated(t, m.marks, th, bar, now);
    EnqueueOfVisit(t, m.(marks := w), k, Evaluate(t, m.marks.markers, th, bar, now), now);
  }

  lemma EnqueueOfVisit(t: Wording, m: Machine, k: nat, v: Verdict, now: int)
    requires k < |m.marks.tickets| && m.marks.tickets[k].phase == if v.Fire? then M.Reported(v.marker) else M.Closed
    ensures var m' := Apply(t, m, Enqueue(k, now));
      && m'.marks.markers == m.marks.markers && |m'.marks.tickets| == |m.marks.tickets|
      && m'.queue == (if v.Fire? then AfterEnqueue(m.queue, JobFor(t, v.marker, now)) else m.queue)
      && m'.dropped == m.dropped + (if v.Fire? then DroppedBy(m.queue, JobFor(t, v.marker, now)) else 0)
  {
  }

  ghost predicate Visited(t: Wording, m: Machine, m': Machine, th: Thesis, bar: Bar, now: int) {
    StateOf(m') == SweepOne(t, StateOf(m), th, bar, now) && |m'.marks.tickets| == |m.marks.tickets| + 1
  }

  /** A doer whose visits are steps of the sweep. */
  ghost predicate Sweeps(d: Doer, t: Wording) {
    forall m: Machine, th, bar, now :: Visited(t, m, Folded(d, m, Visit(|m.marks.tickets|, th, bar, now)), th, bar, now)
  }

  lemma MonitorSweeps(t: Wording)
    ensures Sweeps(DoerOf(t), t)
  {
    forall m: Machine, th, bar, now
      ensures Visited(t, m, Folded(DoerOf(t), m, Visit(|m.marks.tickets|, th, bar, now)), th, bar, now)
    {
      VisitIsSweepOne(t, m, th, bar, now);
    }
  }

  /** The locked sections of a sweep lead where the sweep is said to lead. */
  ghost predicate SweptBy(t: Wording, m: Machine, m': Machine, theses: seq<Thesis>, bars: map<string, Bar>, now: int) {
    StateOf(m') == Sweep(t, StateOf(m), theses, bars, now)
    && |m'.marks.tickets| == |m.marks.tickets| + Visits(theses, bars)
  }

  lemma SweptSkips(t: Wording, m: Machine, m': Machine, theses: seq<Thesis>, bars: map<string, Bar>, now: int)
    requires theses != [] && theses[|theses| - 1].ticker !in bars
    requires SweptBy(t, m, m', theses[..|theses| - 1], bars, now)
    ensures SweptBy(t, m, m', theses, bars, now)
  {
  }

  lemma SweptVisits(
    t: Wording, m: Machine, m': Machine, end: Machine, theses: seq<Thesis>, bars: map<string, Bar>, now: int)
    requires theses != [] && theses[|theses| - 1].ticker in bars
    requires SweptBy(t, m, m', theses[..|theses| - 1], bars, now)
    requires var th := theses[|theses| - 1]; Visited(t, m', end, th, bars[th.ticker], now)
    ensures SweptBy(t, m, end, theses, bars, now)
  {
  }

  lemma {:induction false} FoldedSweep(
    d: Doer, t: Wording, m: Machine, theses: seq<Thesis>, bars: map<string, Bar>, now: int)
    requires Sweeps(d, t)
    ensures SweptBy(t, m, Folded(d, m, SweepOps(theses, bars, now, |m.marks.tickets|)), theses, bars, now)
  {
    if theses != [] {
      var k, init, th := |m.marks.tickets|, theses[..|theses| - 1], theses[|theses| - 1];
      var before := SweepOps(init, bars, now, k);
      var m' := Folded(d, m, before);
      FoldedSweep(d, t, m, init, bars, now);
      if th.ticker in bars {
        var visit := Visit(|m'.marks.tickets|, th, bars[th.ticker], now);
        assert SweepOps(theses, bars, now, k) == before + visit;
        FoldedConcat(d, m, before, visit);
        SweptVisits(t, m, m', Folded(d, m', visit), theses, bars, now);
      } else {
        SweptSkips(t, m, m', theses, bars, now);
      }
    }
  }

  /** A sweep that nothing interrupts is the run of its locked sections, from whatever state earlier
      operations left. */
  lemma SweepIsARun(t: Wording, m: Machine, theses: seq<Thesis>, bars: map<string, Bar>, now: int)
    ensures SweptBy(t, m, Applied(t, m, SweepOps(theses, bars, now, |m.marks.tickets|)), theses, bars, now)
  {
    MonitorSweeps(t);
    FoldedSweep(DoerOf(t), t, m, theses, bars, now);
  }

  /** So what Monitor.Tick leaves behind, after any run, is a state of a run. */
  lemma TickIsARun(t: Wording, ops: seq<Op>, theses: seq<Thesis>, bars: map<string, Bar>, now: int)
    ensures var m := After(t, ops);
      SweptBy(t, m, After(t, ops + SweepOps(theses, bars, now, |m.marks.tickets|)), theses, bars, now)
  {
    var m := After(t, ops);
    SweepIsARun(t, m, theses, bars, now);
    FoldedConcat(DoerOf(t), IDLE, ops, SweepOps(theses, bars, now, |m.marks.tickets|));
  }
}
