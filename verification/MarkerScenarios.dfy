/** Concrete runs of the marker map in which a due date is counted under two baselines, or a baseline moves
    back. */
module MarkerScenarios {
  import opened Common
  import opened ThesisMarkers
  import opened MarkerRuns
  import opened MarkerCounts

  function ThesisX(due: seq<int>): Thesis { Thesis("x", "u", "T", 0, due) }

  function BarAt(ts: int, iso: string): Bar { Bar(ts, iso, 100.0) }

  function Evaluation(k: nat, th: Thesis, bar: Bar): seq<Step> {
    [Look(th, bar), Check(k, bar.ts), Publish(k)]
  }

  /** The date 5 is reported at bar 10; the user then replaces it by 15, which bar 20 counts under the same
      sentence; the job for bar 10 completes; and bar 30 counts 15 under the new baseline. */
  function EditedDates(): seq<Step> {
    Begun([5]) + Evaluation(2, ThesisX([15]), BarAt(20, "d20")) + [Ack("x", "d10")] +
    Evaluation(3, ThesisX([15]), BarAt(30, "d30"))
  }

  /** The dates 5 and 15 stay as they are. One sweep decides at bar 20 under the first baseline; before it
      publishes, the job for bar 10 completes and another sweep reports bar 20 under the new baseline. */
  function OverlappingSweeps(): seq<Step> {
    Begun([5, 15]) + [Look(ThesisX([5, 15]), BarAt(20, "d20")), Check(2, 20)] + [Ack("x", "d10")] +
    Evaluation(3, ThesisX([5, 15]), BarAt(20, "d20"))
  }

  ghost predicate Reaches(t: Wording, steps: seq<Step>, w: World) {
    Run(t, steps) == w && OrderedRun(t, steps) && TimelyRun(t, steps, "x", true)
  }

  lemma Onward(t: Wording, steps: seq<Step>, w: World, s: Step)
    requires Reaches(t, steps, w) && InOrder(w, s) && Timely(w, s, "x", true)
    ensures Reaches(t, steps + [s], Next(t, w, s))
  {
    assert (steps + [s])[..|steps|] == steps;
  }

  /** What is known of a world in which only thesis "x" was ever looked at. */
  ghost predicate Stands(w: World, tickets: nat, m: Marker, counts: seq<Count>, lastBar: int) {
    && |w.tickets| == tickets && w.markers == map["x" := m] && w.counts == counts && w.lastBar == map["x" := lastBar]
    && m.baselineAt <= m.asOf <= lastBar
  }

  lemma FirstEvaluation(t: Wording, th: Thesis, bar: Bar)
    requires th.id == "x"
    ensures var steps := Evaluation(0, th, bar);
      Reaches(t, steps, Run(t, steps)) && Stands(Run(t, steps), 1, Baseline(th, bar), [], bar.ts)
  {
    var s := Evaluation(0, th, bar);
    var w1 := Next(t, START, s[0]);
    var w2 := Next(t, w1, s[1]);
    Onward(t, [], START, s[0]);
    Onward(t, [] + [s[0]], w1, s[1]);
    Onward(t, [] + [s[0]] + [s[1]], w2, s[2]);
    assert [] + [s[0]] + [s[1]] + [s[2]] == s;
  }

  lemma ThreeSteps(t: Wording, done: seq<Step>, w: World, a: Step, b: Step, c: Step)
    requires Reaches(t, done, w) && InOrder(w, a) && Timely(w, a, "x", true)
    requires var w1 := Next(t, w, a);
      InOrder(w1, b) && Timely(w1, b, "x", true) && InOrder(Next(t, w1, b), c) && Timely(Next(t, w1, b), c, "x", true)
    ensures Reaches(t, done + [a, b, c], Next(t, Next(t, Next(t, w, a), b), c))
  {
    Onward(t, done, w, a);
    Onward(t, done + [a], Next(t, w, a), b);
    Onward(t, done + [a] + [b], Next(t, Next(t, w, a), b), c);
    assert done + [a] + [b] + [c] == done + [a, b, c];
  }

  /** Where a run of these steps stands. */
  ghost predicate At(t: Wording, steps: seq<Step>, tickets: nat, m: Marker, counts: seq<Count>, lastBar: int) {
    OrderedRun(t, steps) && TimelyRun(t, steps, "x", true) && Stands(Run(t, steps), tickets, m, counts, lastBar)
  }

  /** Unmoved prices, and `n` dates due. */
  predicate Due(m: Marker, lastBar: int, due: seq<int>, bar: Bar, n: nat) {
    && lastBar <= bar.ts && 0 <= m.baselineAt && m.baselinePx == bar.close == 100.0
    && n == DueSince(due, m.baselineAt, bar.ts) && n > 0
  }

  function Told(t: Wording, m: Marker, due: seq<int>, bar: Bar, n: nat): Marker {
    Stale(t, ThesisX(due), m, bar, t.due(n), bar.ts)
  }

  lemma DueIsReason(t: Wording, m: Marker, lastBar: int, due: seq<int>, bar: Bar, n: nat)
    requires Due(m, lastBar, due, bar, n)
    ensures FirstRead(t, map["x" := m], ThesisX(due), bar) == Suspect(t.due(n))
  {
    assert MovePct(100.0, 100.0) == 0.0;
  }

  /** An evaluation whose sentence has been said already. */
  lemma StaysSilent(
    t: Wording, done: seq<Step>, k: nat, m: Marker, counts: seq<Count>, last: int, due: seq<int>, bar: Bar, n: nat)
    requires At(t, done, k, m, counts, last) && Due(m, last, due, bar, n)
    requires m.lastFired == t.firedKey("material", t.due(n))
    ensures At(t, done + Evaluation(k, ThesisX(due), bar), k + 1, m,
               counts + [Count("x", m.baselineAt, bar.ts, due, 0, false)], bar.ts)
  {
    DueIsReason(t, m, last, due, bar, n);
    ThreeSteps(t, done, Run(t, done), Look(ThesisX(due), bar), Check(k, bar.ts), Publish(k));
  }

  /** One that has something new to say, stopped before its publication. */
  lemma Decides(
    t: Wording, done: seq<Step>, k: nat, m: Marker, counts: seq<Count>, last: int, due: seq<int>, bar: Bar, n: nat)
    requires At(t, done, k, m, counts, last) && Due(m, last, due, bar, n)
    requires m.lastFired != t.firedKey("material", t.due(n))
    ensures var steps := done + [Look(ThesisX(due), bar), Check(k, bar.ts)];
      && At(t, steps, k + 1, m, counts, bar.ts)
      && Decided(Run(t, steps), k, ThesisX(due), bar, m, Told(t, m, due, bar, n))
  {
    var w, look, check := Run(t, done), Look(ThesisX(due), bar), Check(k, bar.ts);
    DueIsReason(t, m, last, due, bar, n);
    Onward(t, done, w, look);
    Onward(t, done + [look], Next(t, w, look), check);
    assert done + [look] + [check] == done + [look, check];
  }

  ghost predicate Decided(w: World, k: nat, th: Thesis, bar: Bar, m: Marker, v: Marker) {
    k < |w.tickets| && w.tickets[k].(at := 0) == Ticket(th, bar, Some(m), 0, Firing(v))
  }

  /** The whole evaluation, when nothing interrupts it. */
  lemma Tells(
    t: Wording, done: seq<Step>, k: nat, m: Marker, counts: seq<Count>, last: int, due: seq<int>, bar: Bar, n: nat)
    requires At(t, done, k, m, counts, last) && Due(m, last, due, bar, n)
    requires m.lastFired != t.firedKey("material", t.due(n))
    ensures At(t, done + Evaluation(k, ThesisX(due), bar), k + 1, Told(t, m, due, bar, n),
               counts + [Count("x", m.baselineAt, bar.ts, due, 0, true)], bar.ts)
  {
    var decided := done + [Look(ThesisX(due), bar), Check(k, bar.ts)];
    Decides(t, done, k, m, counts, last, due, bar, n);
    PublishesDecision(t, Run(t, decided), k, m, counts, due, bar, n);
    Onward(t, decided, Run(t, decided), Publish(k));
    assert decided + [Publish(k)] == done + Evaluation(k, ThesisX(due), bar);
  }

  lemma PublishesDecision(t: Wording, w: World, k: nat, m: Marker, counts: seq<Count>, due: seq<int>, bar: Bar, n: nat)
    requires Stands(w, k + 1, m, counts, bar.ts) && Decided(w, k, ThesisX(due), bar, m, Told(t, m, due, bar, n))
    requires m.baselinePx == bar.close == 100.0
    ensures Timely(w, Publish(k), "x", true)
    ensures Stands(Next(t, w, Publish(k)), k + 1, Told(t, m, due, bar, n),
                   counts + [Count("x", m.baselineAt, bar.ts, due, 0, true)], bar.ts)
  {
    assert MovePct(100.0, 100.0) == 0.0;
  }

  lemma AckedTo(t: Wording, done: seq<Step>, k: nat, m: Marker, counts: seq<Count>, last: int)
    requires At(t, done, k, m, counts, last) && m.stale
    ensures At(t, done + [Ack("x", m.asOfISO)], k, Acknowledged(m), counts, last)
    ensures Run(t, done + [Ack("x", m.asOfISO)]).tickets == Run(t, done).tickets
  {
    Onward(t, done, Run(t, done), Ack("x", m.asOfISO));
  }

  /** A thesis with one date due by bar 10, from its first sighting to its first report. */
  function Begun(due: seq<int>): seq<Step> {
    Evaluation(0, ThesisX(due), BarAt(0, "d0")) + Evaluation(1, ThesisX(due), BarAt(10, "d10"))
  }

  function FirstReport(t: Wording, due: seq<int>): Marker {
    Told(t, Baseline(ThesisX(due), BarAt(0, "d0")), due, BarAt(10, "d10"), 1)
  }

  lemma Begins(t: Wording, due: seq<int>)
    requires GoodWording(t) && DueSince(due, 0, 10) == 1
    ensures At(t, Begun(due), 2, FirstReport(t, due), [Count("x", 0, 10, due, 0, true)], 10)
  {
    FirstEvaluation(t, ThesisX(due), BarAt(0, "d0"));
    var m := Baseline(ThesisX(due), BarAt(0, "d0"));
    Tells(t, Evaluation(0, ThesisX(due), BarAt(0, "d0")), 1, m, [], 0, due, BarAt(10, "d10"), 1);
    var c := Count("x", 0, 10, due, 0, true);
    assert [] + [c] == [c];
  }

  /** The job of the first report completes, and a later bar is reported. */
  lemma AcksAndTells(t: Wording, done: seq<Step>, k: nat, m: Marker, counts: seq<Count>, due: seq<int>, bar: Bar)
    requires GoodWording(t) && At(t, done, k, m, counts, 20) && m.stale && Due(Acknowledged(m), 20, due, bar, 1)
    ensures At(t, done + [Ack("x", m.asOfISO)] + Evaluation(k, ThesisX(due), bar), k + 1,
               Told(t, Acknowledged(m), due, bar, 1),
               counts + [Count("x", m.asOf, bar.ts, due, 0, true)], bar.ts)
  {
    AckedTo(t, done, k, m, counts, 20);
    Tells(t, done + [Ack("x", m.asOfISO)], k, Acknowledged(m), counts, 20, due, bar, 1);
  }

  /** A legal and timely run in which a silent count of an edited list is repeated under a later
      baseline. */
  lemma SilentCountCanRepeat(t: Wording)
    requires GoodWording(t)
    ensures OrderedRun(t, EditedDates()) && TimelyRun(t, EditedDates(), "x", true)
    ensures Run(t, EditedDates()).counts ==
      [Count("x", 0, 10, [5], 0, true), Count("x", 0, 20, [15], 0, false), Count("x", 10, 30, [15], 0, true)]
  {
    assert DueSince([5], 0, 10) == 1 && DueSince([15], 0, 20) == 1 && DueSince([15], 10, 30) == 1;
    var m, c1, c2 := FirstReport(t, [5]), Count("x", 0, 10, [5], 0, true), Count("x", 0, 20, [15], 0, false);
    Begins(t, [5]);
    StaysSilent(t, Begun([5]), 2, m, [c1], 10, [15], BarAt(20, "d20"), 1);
    var done := Begun([5]) + Evaluation(2, ThesisX([15]), BarAt(20, "d20"));
    AcksAndTells(t, done, 3, m, [c1] + [c2], [15], BarAt(30, "d30"));
  }

  lemma TwoDates()
    ensures DueSince([5, 15], 0, 10) == 1 && DueSince([5, 15], 0, 20) == 2 && DueSince([5, 15], 10, 20) == 1
  {
    assert [5, 15][..1] == [5];
  }

  /** A legal run, timely up to its last step, in which overlapping sweeps report the date 15 under two
      baselines. */
  lemma OverlapReportsTwice(t: Wording)
    requires GoodWording(t)
    ensures OrderedRun(t, OverlappingSweeps() + [Publish(2)]) && TimelyRun(t, OverlappingSweeps(), "x", true)
    ensures Run(t, OverlappingSweeps() + [Publish(2)]).counts ==
      [Count("x", 0, 10, [5, 15], 0, true), Count("x", 10, 20, [5, 15], 0, true), Count("x", 0, 20, [5, 15], 0, true)]
  {
    var due, bar := [5, 15], BarAt(20, "d20");
    TwoDates();
    var m, c1, c2 := FirstReport(t, due), Count("x", 0, 10, due, 0, true), Count("x", 10, 20, due, 0, true);
    Begins(t, due);
    var decided := Begun(due) + [Look(ThesisX(due), bar), Check(2, 20)];
    Decides(t, Begun(due), 2, m, [c1], 10, due, bar, 2);
    AckedTo(t, decided, 3, m, [c1], 20);
    AcksAndTells(t, decided, 3, m, [c1], due, bar);
    assert OverlappingSweeps() == decided + [Ack("x", "d10")] + Evaluation(3, ThesisX(due), bar);
    PublishesLate(t, decided + [Ack("x", "d10")], ThesisX(due), bar, m, Told(t, m, due, bar, 2));
    assert [c1] + [c2] == [c1, c2];
  }

  lemma StaysDecided(t: Wording, w: World, s: Step, th: Thesis, bar: Bar, m: Marker, v: Marker)
    requires Decided(w, 2, th, bar, m, v) && (s.Look? || ((s.Check? || s.Publish?) && s.k == 3))
    ensures Decided(Next(t, w, s), 2, th, bar, m, v)
  {
  }

  /** An evaluation decided earlier is not touched by another one, and can then publish. */
  lemma PublishesLate(t: Wording, done: seq<Step>, th: Thesis, bar: Bar, m: Marker, v: Marker)
    requires OrderedRun(t, done + Evaluation(3, th, bar))
    requires Decided(Run(t, done), 2, th, bar, m, v) && m.baselinePx == bar.close
    ensures var steps := done + Evaluation(3, th, bar);
      && OrderedRun(t, steps + [Publish(2)])
      && Run(t, steps + [Publish(2)]).counts == Run(t, steps).counts +
           [Count(th.id, m.baselineAt, bar.ts, th.catalystsDue, th.lastReviewAt, true)]
  {
    var a, b, c := Look(th, bar), Check(3, bar.ts), Publish(3);
    var steps := done + Evaluation(3, th, bar);
    assert steps == done + [a] + [b] + [c];
    RunSnoc(t, done, a);
    StaysDecided(t, Run(t, done), a, th, bar, m, v);
    RunSnoc(t, done + [a], b);
    StaysDecided(t, Run(t, done + [a]), b, th, bar, m, v);
    RunSnoc(t, done + [a] + [b], c);
    StaysDecided(t, Run(t, done + [a] + [b]), c, th, bar, m, v);
    RunSnoc(t, steps, Publish(2));
    CountsLate(t, Run(t, steps), th, bar, m, v);
  }

  lemma CountsLate(t: Wording, w: World, th: Thesis, bar: Bar, m: Marker, v: Marker)
    requires Decided(w, 2, th, bar, m, v) && m.baselinePx == bar.close
    ensures Next(t, w, Publish(2)).counts ==
      w.counts + [Count(th.id, m.baselineAt, bar.ts, th.catalystsDue, th.lastReviewAt, true)]
  {
    assert Pending(w, 2);
    assert MovePct(m.baselinePx, bar.close) == 0.0;
  }

  // ------------------------------------------------------------------ looks out of bar order

  /** One sweep has read bar 10; another reads bar 20 and establishes the baseline there; the first then
      evaluates and reports its bar, and the job it made completes. */
  function OlderBarLater(): seq<Step> {
    [Look(ThesisX([]), BarAt(20, "d20")), Publish(0), Look(ThesisX([]), Bar(10, "d10", 110.0)), Check(1, 30),
     Publish(1)]
  }

  /** The report leaves the marker behind its own baseline, and the acknowledgement moves the baseline back
      with no overtaken publication at all. */
  lemma OlderBarPutsBaselineBack(t: Wording)
    requires GoodWording(t)
    ensures var w := Run(t, OlderBarLater());
      && "x" in w.markers && w.markers["x"].asOf == 10 && w.markers["x"].baselineAt == 20
      && Acks(w, Ack("x", "d10"), "x") && Lowers(w, Ack("x", "d10"), "x")
      && BaselineOf(Next(t, w, Ack("x", "d10")), "x") == 10
  {
    var s, th, late := OlderBarLater(), ThesisX([]), Bar(10, "d10", 110.0);
    var m := Baseline(th, BarAt(20, "d20"));
    FirstTwo(t, th, BarAt(20, "d20"));
    assert s[..2] == [Look(th, BarAt(20, "d20")), Publish(0)];
    var w2 := Run(t, s[..2]);
    assert Reason(t, th, m, late).Some? by { assert MovePct(100.0, 110.0) == 10.0; }
    var w3 := Next(t, w2, s[2]);
    assert w3.tickets[1].phase.Comparing? && w3.tickets[1].seen == Some(m);
    assert s[..3][..2] == s[..2] && s[..4][..3] == s[..3] && s[..5] == s && s[..4] == s[..|s| - 1];
    assert Run(t, s[..3]) == w3 && Run(t, s[..4]) == Next(t, w3, s[3]);
  }

  lemma FirstTwo(t: Wording, th: Thesis, bar: Bar)
    ensures var w := Run(t, [Look(th, bar), Publish(0)]);
      w.markers == map[th.id := Baseline(th, bar)] && |w.tickets| == 1
  {
    var one := [Look(th, bar)];
    assert [] + one == one && one + [Publish(0)] == [Look(th, bar), Publish(0)];
    RunSnoc(t, [], Look(th, bar));
    RunSnoc(t, one, Publish(0));
    assert Run(t, one).tickets == [Opened(t, Run(t, []), th, bar)];
  }
}
