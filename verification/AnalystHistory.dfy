/** Every run of the analyst registry, late runners included: when a begin attaches, when it starts a
    second runner beside a live one, and when an id never has two. */
module AnalystHistory {
  import opened Common
  import opened AnalystRuns

  ghost predicate PossibleRun(steps: seq<Step>) {
    steps == [] ||
    (PossibleRun(steps[..|steps| - 1]) && Possible(Run(steps[..|steps| - 1]), steps[|steps| - 1]))
  }

  /** The step is a begin of this id that attaches to nothing. */
  predicate Starts(w: World, s: Step, id: string) {
    s.Begin? && s.id == id && !InFlight(Swept(w.reg, s.now), id)
  }

  /** The runner of this id that was started last. */
  function Newest(steps: seq<Step>, id: string): Option<Runner> {
    if steps == [] then None
    else
      var w, s := Run(steps[..|steps| - 1]), steps[|steps| - 1];
      if Starts(w, s, id) then Some(Runner(id, w.made, s.started)) else Newest(steps[..|steps| - 1], id)
  }

  /** Some runner of this id, the newest or an older one, has reported since the newest was started. */
  predicate ReportedSince(steps: seq<Step>, id: string) {
    steps != [] &&
    var w, s := Run(steps[..|steps| - 1]), steps[|steps| - 1];
    !Starts(w, s, id) && ((s.Finish? && s.runner.id == id) || ReportedSince(steps[..|steps| - 1], id))
  }

  predicate Overdue(r: Runner, now: int) { now - r.startedAt > TIMEOUT + GRACE }

  /** What the registry holds for an id, told by its newest runner and whether one has reported since. */
  ghost predicate Told(w: World, newest: Option<Runner>, reported: bool, id: string) {
    && (forall r :: r in w.live ==> r.serial < w.made && (r.id == id ==> newest.Some?))
    && match newest
       case None => id !in w.reg
       case Some(n) =>
         && n.id == id && n.serial < w.made
         && (reported ==> id in w.reg ==> !w.reg[id].status.Running?)
         && (!reported ==> if id in w.reg then w.reg[id] == NewJob(id, n.startedAt) else Overdue(n, w.clock))
  }

  lemma ToldStep(w: World, newest: Option<Runner>, reported: bool, id: string, s: Step)
    requires Told(w, newest, reported, id) && Possible(w, s)
    ensures Told(Next(w, s), if Starts(w, s, id) then Some(Runner(id, w.made, s.started)) else newest,
                 !Starts(w, s, id) && ((s.Finish? && s.runner.id == id) || reported), id)
  {
  }

  lemma {:induction false} RunTold(steps: seq<Step>, id: string)
    requires PossibleRun(steps)
    ensures Told(Run(steps), Newest(steps, id), ReportedSince(steps, id), id)
  {
    if steps != [] {
      var n := |steps| - 1;
      RunTold(steps[..n], id);
      ToldStep(Run(steps[..n]), Newest(steps[..n], id), ReportedSince(steps[..n], id), id, steps[n]);
    }
  }

  /** A begin attaches exactly when a runner of its id was ever started, none has reported since the newest
      one was, and that one is not overdue. */
  lemma BeginAttachesIff(steps: seq<Step>, id: string, now: int, started: int)
    requires PossibleRun(steps) && Possible(Run(steps), Begin(id, now, started))
    ensures !Starts(Run(steps), Begin(id, now, started), id) <==>
      Newest(steps, id).Some? && !ReportedSince(steps, id) && !Overdue(Newest(steps, id).value, now)
  {
    RunTold(steps, id);
  }

  predicate Alive(w: World, id: string) { exists r :: r in w.live && r.id == id }

  /** A begin starts another runner beside a live one exactly when one is alive and either some runner of
      the id has reported since the newest was started, however young that one is, or the newest is
      overdue. */
  lemma SecondRunnerIff(steps: seq<Step>, id: string, now: int, started: int)
    requires PossibleRun(steps) && Possible(Run(steps), Begin(id, now, started))
    ensures var w := Run(steps);
      var w' := Next(w, Begin(id, now, started));
      (exists r, q :: r in w.live && r.id == id && q in w'.live && q !in w.live && q.id == id) <==>
      Alive(w, id) && Newest(steps, id).Some? && (ReportedSince(steps, id) || Overdue(Newest(steps, id).value, now))
  {
    RunTold(steps, id);
    BeginAttachesIff(steps, id, now, started);
    var w := Run(steps);
    var w', q := Next(w, Begin(id, now, started)), Runner(id, w.made, started);
    if Alive(w, id) && Starts(w, Begin(id, now, started), id) {
      var r :| r in w.live && r.id == id;
      assert q in w'.live && q !in w.live && q.id == id;
    }
  }

  // ------------------------------------------------------------------ one runner at all times

  ghost predicate Sole(live: set<Runner>, id: string) {
    forall r, q :: r in live && q in live && r.id == id && q.id == id ==> r == q
  }

  /** At no moment of the run are two runners of this id alive. */
  ghost predicate AlwaysSole(steps: seq<Step>, id: string) {
    Sole(Run(steps).live, id) && (steps != [] ==> AlwaysSole(steps[..|steps| - 1], id))
  }

  /** A begin of this id while a live runner of it is overdue. */
  predicate BeginsOverdue(w: World, s: Step, id: string) {
    s.Begin? && s.id == id && exists r :: r in w.live && r.id == id && Overdue(r, s.now)
  }

  predicate SomeBeginsOverdue(steps: seq<Step>, id: string) {
    steps != [] && var n := |steps| - 1;
      SomeBeginsOverdue(steps[..n], id) || BeginsOverdue(Run(steps[..n]), steps[n], id)
  }

  /** The live runner is the newest, and nobody has reported since it was started. */
  ghost predicate LiveIsNewest(steps: seq<Step>, id: string) {
    forall r :: r in Run(steps).live && r.id == id ==> Newest(steps, id) == Some(r) && !ReportedSince(steps, id)
  }

  /** Over every run, an id never has two runners alive at once exactly when no begin of it comes while a
      live runner of it is overdue. */
  lemma {:induction false} SoleRunnerIff(steps: seq<Step>, id: string)
    requires PossibleRun(steps)
    ensures AlwaysSole(steps, id) <==> !SomeBeginsOverdue(steps, id)
    ensures AlwaysSole(steps, id) ==> LiveIsNewest(steps, id)
  {
    if steps != [] {
      var n := |steps| - 1;
      SoleRunnerIff(steps[..n], id);
      if AlwaysSole(steps[..n], id) {
        SoleStep(steps[..n], steps[n], id);
        assert steps == steps[..n] + [steps[n]];
      }
    }
  }

  lemma SoleStep(init: seq<Step>, s: Step, id: string)
    requires PossibleRun(init) && Possible(Run(init), s) && Sole(Run(init).live, id) && LiveIsNewest(init, id)
    ensures Sole(Next(Run(init), s).live, id) <==> !BeginsOverdue(Run(init), s, id)
    ensures Sole(Next(Run(init), s).live, id) ==> LiveIsNewest(init + [s], id)
  {
    var w := Run(init);
    assert (init + [s])[..|init|] == init;
    RunTold(init, id);
    if s.Begin? && s.id == id {
      BeginAttachesIff(init, id, s.now, s.started);
      var q := Runner(id, w.made, s.started);
      if Starts(w, s, id) && Alive(w, id) {
        var r :| r in w.live && r.id == id;
        assert Overdue(r, s.now);
        assert r in Next(w, s).live && q in Next(w, s).live && r != q;
      }
    }
  }

  /** So while an id has had one runner at a time, the next step gives it a second one exactly when it is
      such a begin. */
  lemma SecondRunnerIffOverdue(steps: seq<Step>, s: Step, id: string)
    requires PossibleRun(steps) && Possible(Run(steps), s) && AlwaysSole(steps, id)
    ensures !Sole(Next(Run(steps), s).live, id) <==> BeginsOverdue(Run(steps), s, id)
  {
    SoleRunnerIff(steps, id);
    SoleStep(steps, s, id);
  }

  // ------------------------------------------------------------------ after a late report

  /** Reports land on the newest run's record: a runner that is not the newest ends the newer run with its
      own result. */
  lemma LateReportEndsNewest(steps: seq<Step>, r: Runner, now: int, result: string, err: string)
    requires PossibleRun(steps) && Possible(Run(steps), Finish(r, now, result, err)) && InFlight(Run(steps).reg, r.id)
    ensures Newest(steps, r.id).Some?
    ensures Next(Run(steps), Finish(r, now, result, err)).reg[r.id] ==
      Ended(NewJob(r.id, Newest(steps, r.id).value.startedAt), now, result, err)
  {
    RunTold(steps, r.id);
  }

  /** Two runners of one id are alive; the older one's report makes the next begin start a third, although
      the second is two seconds old. */
  function LateReport(id: string): seq<Step> {
    [Begin(id, 0, 0), Begin(id, 901, 901), Finish(Runner(id, 0, 0), 902, "", ""), Begin(id, 903, 903)]
  }

  lemma ThirdRunnerStartsEarly(id: string)
    ensures PossibleRun(LateReport(id))
    ensures Run(LateReport(id)).live == {Runner(id, 1, 901), Runner(id, 2, 903)}
  {
    var s := LateReport(id);
    assert s[..3][..2] == s[..2] && s[..2][..1] == s[..1] && s[..1][..0] == [];
    assert s[..4] == s && PossibleRun(s[..0]) && PossibleRun(s[..1]);
    assert Run(s[..1]).live == {Runner(id, 0, 0)} && Run(s[..1]).reg == map[id := NewJob(id, 0)];
    assert PossibleRun(s[..2]) && Run(s[..2]).live == {Runner(id, 0, 0), Runner(id, 1, 901)};
    assert Run(s[..2]).reg == map[id := NewJob(id, 901)];
    assert PossibleRun(s[..3]) && Run(s[..3]).live == {Runner(id, 1, 901)};
    assert Run(s[..3]).reg == map[id := Job(id, Done, 901, 902, "", "")];
  }

  // ------------------------------------------------------------------ terminal records

  /** In any run, a finished record stays as it is within its retention unless its id is begun again or a
      runner of it reports. */
  lemma {:induction false} FinishedRecordIsKept(steps: seq<Step>, more: seq<Step>, id: string)
    requires Terminal(Run(steps), id)
    requires forall k :: 0 <= k < |more| ==>
      && !(more[k].Begin? && more[k].id == id) && !(more[k].Finish? && more[k].runner.id == id)
      && (more[k].Finish? || more[k].now - Run(steps).reg[id].endedAt <= RETENTION)
    ensures Terminal(Run(steps + more), id) && Run(steps + more).reg[id] == Run(steps).reg[id]
    decreases |more|
  {
    if more == [] {
      assert steps + more == steps;
    } else {
      var init := more[..|more| - 1];
      assert (steps + more)[..|steps + more| - 1] == steps + init;
      assert forall k :: 0 <= k < |init| ==> init[k] == more[k];
      FinishedRecordIsKept(steps, init, id);
    }
  }
}
