/** The in-memory registry of analyst runs: one background runner per run id, attached to by later
    requests, and swept by time. Times are in seconds. */
module AnalystRuns {
  import opened Common

  const TIMEOUT := 600
  const GRACE := 300
  const RETENTION := 1800

  datatype Status = Running | Done | Failed

  datatype Job = Job(id: string, status: Status, startedAt: int, endedAt: int, result: string, err: string)

  type Registry = map<string, Job>

  predicate Stale(j: Job, now: int) {
    if j.status.Running? then now - j.startedAt > TIMEOUT + GRACE else now - j.endedAt > RETENTION
  }

  function Swept(reg: Registry, now: int): Registry {
    map id | id in reg && !Stale(reg[id], now) :: reg[id]
  }

  function NewJob(id: string, now: int): Job {
    Job(id, Running, now, 0, "", "")
  }

  predicate InFlight(reg: Registry, id: string) { id in reg && reg[id].status.Running? }

  function AfterBegin(reg: Registry, id: string, now: int, started: int): Registry {
    var swept := Swept(reg, now);
    if InFlight(swept, id) then swept else swept[id := NewJob(id, started)]
  }

  function Ended(j: Job, now: int, result: string, err: string): Job {
    j.(endedAt := now, result := result, err := err, status := if err != "" then Failed else Done)
  }

  function AfterFinish(reg: Registry, id: string, now: int, result: string, err: string): Registry {
    if id in reg then reg[id := Ended(reg[id], now, result, err)] else reg
  }

  /** A sweep keeps a running record until fifteen minutes after its start and any other until half an hour
      after its end, as it was. */
  lemma SweptInFields(reg: Registry, now: int, id: string)
    ensures id in Swept(reg, now) <==>
      && id in reg
      && (reg[id].status == Running ==> now - reg[id].startedAt <= 900)
      && (reg[id].status != Running ==> now - reg[id].endedAt <= 1800)
    ensures id in Swept(reg, now) ==> Swept(reg, now)[id] == reg[id]
  {
  }

  /** A begin leaves a running record alone and otherwise puts a new running one in its place; every other
      record is as the sweep left it. */
  lemma BegunInFields(reg: Registry, id: string, now: int, started: int, other: string)
    ensures id in AfterBegin(reg, id, now, started)
    ensures var swept, j := Swept(reg, now), AfterBegin(reg, id, now, started)[id];
      if id in swept && swept[id].status == Running then j == swept[id]
      else j.id == id && j.status == Running && j.startedAt == started && j.endedAt == 0
           && j.result == "" && j.err == ""
    ensures other != id ==>
      (other in AfterBegin(reg, id, now, started) <==> other in Swept(reg, now))
    ensures other != id && other in Swept(reg, now) ==>
      AfterBegin(reg, id, now, started)[other] == Swept(reg, now)[other]
  {
  }

  /** A report ends the record that has the id, as failed exactly when there is an error, and touches nothing
      else; without a record it changes nothing. */
  lemma FinishedInFields(reg: Registry, id: string, now: int, result: string, err: string, other: string)
    ensures AfterFinish(reg, id, now, result, err).Keys == reg.Keys
    ensures id in reg ==>
      var j := AfterFinish(reg, id, now, result, err)[id];
      && (err != "" ==> j.status == Failed) && (err == "" ==> j.status == Done)
      && j.endedAt == now && j.result == result && j.err == err
      && j.id == reg[id].id && j.startedAt == reg[id].startedAt
    ensures other in reg && other != id ==> AfterFinish(reg, id, now, result, err)[other] == reg[other]
  {
  }

  // ------------------------------------------------------------------ the registry object

  class Jobs {
    var byID: Registry

    constructor ()
      ensures byID == map[]
    {
      byID := map[];
    }

    method Sweep(now: int)
      modifies this
      ensures byID == Swept(old(byID), now)
    {
      var left := byID.Keys;
      while left != {}
        invariant left <= old(byID).Keys
        invariant forall id :: id in byID <==> id in old(byID) && (id in left || !Stale(old(byID)[id], now))
        invariant forall id :: id in byID ==> byID[id] == old(byID)[id]
        decreases left
      {
        var id :| id in left;
        left := left - {id};
        var job := byID[id];
        match job.status {
          case Running =>
            if now - job.startedAt > TIMEOUT + GRACE { byID := byID - {id}; }
          case _ =>
            if now - job.endedAt > RETENTION { byID := byID - {id}; }
        }
      }
    }

    /** Registers a run unless one is in flight; `owned` tells the caller to start the runner. */
    method Begin(id: string, now: int, started: int) returns (job: Job, owned: bool)
      modifies this
      ensures byID == AfterBegin(old(byID), id, now, started)
      ensures owned <==> !InFlight(Swept(old(byID), now), id)
      ensures id in byID && job == byID[id]
    {
      Sweep(now);
      if id in byID && byID[id].status == Running {
        return byID[id], false;
      }
      job := Job(id, Running, started, 0, "", "");
      byID := byID[id := job];
      owned := true;
    }

    method Finish(id: string, now: int, result: string, err: string)
      modifies this
      ensures byID == AfterFinish(old(byID), id, now, result, err)
    {
      if id !in byID {
        return;
      }
      var job := byID[id].(endedAt := now, result := result, err := err);
      job := job.(status := if err != "" then Failed else Done);
      byID := byID[id := job];
    }

    method Get(id: string, now: int) returns (job: Option<Job>)
      modifies this
      ensures byID == Swept(old(byID), now)
      ensures job == if id in byID then Some(byID[id]) else None
    {
      Sweep(now);
      job := if id in byID then Some(byID[id]) else None;
    }
  }

  // ------------------------------------------------------------------ runs

  /** A runner, from the moment its record was made until it reports. */
  datatype Runner = Runner(id: string, serial: nat, startedAt: int)

  datatype World = World(reg: Registry, live: set<Runner>, made: nat, clock: int)

  datatype Step =
    | Begin(id: string, now: int, started: int)
    | Finish(runner: Runner, now: int, result: string, err: string)
    | Get(now: int)

  /** The moment of a step: a begin takes the lock at `now` and stamps its record at `started`. */
  function EndOf(s: Step): int { if s.Begin? then s.started else s.now }

  ghost predicate Possible(w: World, s: Step) {
    && w.clock <= s.now <= EndOf(s)
    && (s.Finish? ==> s.runner in w.live)
  }

  /** No runner is still out after its timeout and the grace. */
  ghost predicate InTime(w: World, now: int) {
    forall r :: r in w.live ==> now - r.startedAt <= TIMEOUT + GRACE
  }

  function Next(w: World, s: Step): World {
    match s
    case Begin(id, now, started) =>
      var reg := AfterBegin(w.reg, id, now, started);
      if InFlight(Swept(w.reg, now), id) then w.(reg := reg, clock := started)
      else World(reg, w.live + {Runner(id, w.made, started)}, w.made + 1, started)
    case Finish(r, now, result, err) =>
      World(AfterFinish(w.reg, r.id, now, result, err), w.live - {r}, w.made, now)
    case Get(now) => w.(reg := Swept(w.reg, now), clock := now)
  }

  function Run(steps: seq<Step>): World {
    if steps == [] then World(map[], {}, 0, 0)
    else Next(Run(steps[..|steps| - 1]), steps[|steps| - 1])
  }

  /** A run in which every runner reports in time. */
  ghost predicate LegalRun(steps: seq<Step>) {
    steps == [] ||
    (var w, s := Run(steps[..|steps| - 1]), steps[|steps| - 1];
     LegalRun(steps[..|steps| - 1]) && Possible(w, s) && InTime(w, s.now))
  }

  ghost predicate AtMostOne(live: set<Runner>) {
    forall r, q :: r in live && q in live && r.id == q.id ==> r == q
  }

  /** Running records and live runners correspond one to one. */
  ghost predicate RunOk(w: World) {
    && (forall r :: r in w.live ==> InFlight(w.reg, r.id) && w.reg[r.id].startedAt == r.startedAt && r.serial < w.made)
    && (forall id :: InFlight(w.reg, id) ==> exists r :: r in w.live && r.id == id)
    && AtMostOne(w.live)
  }

  lemma RunOkStep(w: World, s: Step)
    requires RunOk(w) && Possible(w, s) && InTime(w, s.now)
    ensures RunOk(Next(w, s))
  {
    var w' := Next(w, s);
    match s {
      case Begin(id, now, started) =>
        forall other | InFlight(w'.reg, other)
          ensures exists r :: r in w'.live && r.id == other
        {
          if other == id && !InFlight(Swept(w.reg, now), id) {
            assert Runner(id, w.made, started) in w'.live;
          } else {
            assert InFlight(w.reg, other);
            var r :| r in w.live && r.id == other;
            assert r in w'.live;
          }
        }
      case Finish(r, now, result, err) =>
        forall other | InFlight(w'.reg, other)
          ensures exists q :: q in w'.live && q.id == other
        {
          assert other != r.id && InFlight(w.reg, other);
          var q :| q in w.live && q.id == other;
          assert q in w'.live;
        }
      case Get(now) =>
        forall other | InFlight(w'.reg, other)
          ensures exists q :: q in w'.live && q.id == other
        {
          assert InFlight(w.reg, other);
        }
    }
  }

  lemma {:induction false} RunInvariant(steps: seq<Step>)
    requires LegalRun(steps)
    ensures RunOk(Run(steps))
  {
    if steps != [] {
      RunInvariant(steps[..|steps| - 1]);
      RunOkStep(Run(steps[..|steps| - 1]), steps[|steps| - 1]);
    }
  }

  /** At any time at most one runner per run id is alive. */
  lemma SingleLiveRunner(steps: seq<Step>, r: Runner, q: Runner)
    requires LegalRun(steps) && r in Run(steps).live && q in Run(steps).live && r.id == q.id
    ensures r == q
  {
    RunInvariant(steps);
  }

  /** A begin attaches exactly when a runner for its id is alive, and then starts nothing. */
  lemma BeginAttachesToTheLiveRunner(steps: seq<Step>, id: string, now: int, started: int)
    requires LegalRun(steps) && Possible(Run(steps), Begin(id, now, started)) && InTime(Run(steps), now)
    ensures var w := Run(steps);
      && (InFlight(Swept(w.reg, now), id) <==> exists r :: r in w.live && r.id == id)
      && ((exists r :: r in w.live && r.id == id) ==> Next(w, Begin(id, now, started)).live == w.live)
  {
    RunInvariant(steps);
    var w := Run(steps);
    if InFlight(Swept(w.reg, now), id) {
      assert InFlight(w.reg, id);
    }
  }

  /** In a run where runners report in time, a report finds the record its runner was started for, and leaves
      the error or the result there. */
  lemma ReportIsRecorded(steps: seq<Step>, r: Runner, now: int, result: string, err: string)
    requires LegalRun(steps) && Possible(Run(steps), Finish(r, now, result, err)) && InTime(Run(steps), now)
    ensures r.id in Run(steps).reg && Run(steps).reg[r.id].startedAt == r.startedAt
    ensures var w := Run(steps + [Finish(r, now, result, err)]);
      && r.id in w.reg && r !in w.live
      && var j := w.reg[r.id];
         && (err != "" ==> j.status == Failed) && (err == "" ==> j.status == Done)
         && j.startedAt == r.startedAt && j.endedAt == now && j.result == result && j.err == err
  {
    RunInvariant(steps);
    assert (steps + [Finish(r, now, result, err)])[..|steps|] == steps;
    FinishedInFields(Run(steps).reg, r.id, now, result, err, "");
  }

  // ------------------------------------------------------------------ terminal records

  ghost predicate Terminal(w: World, id: string) { id in w.reg && !w.reg[id].status.Running? }

  /** A terminal record is untouched by every step but a begin of its own id, as long as its retention
      has not run out. */
  lemma TerminalStep(w: World, s: Step, id: string)
    requires RunOk(w) && Possible(w, s) && InTime(w, s.now) && Terminal(w, id)
    requires !(s.Begin? && s.id == id) && s.now - w.reg[id].endedAt <= RETENTION
    ensures Terminal(Next(w, s), id) && Next(w, s).reg[id] == w.reg[id]
  {
  }

  /** A finished run's record stays as it is until a new begin or half an hour after its end. */
  lemma {:induction false} TerminalRecordIsKept(steps: seq<Step>, more: seq<Step>, id: string)
    requires LegalRun(steps + more) && Terminal(Run(steps), id)
    requires forall k :: 0 <= k < |more| ==>
      !(more[k].Begin? && more[k].id == id) && more[k].now - Run(steps).reg[id].endedAt <= RETENTION
    ensures Terminal(Run(steps + more), id) && Run(steps + more).reg[id] == Run(steps).reg[id]
    decreases |more|
  {
    if more == [] {
      assert steps + more == steps;
    } else {
      var init, last := more[..|more| - 1], more[|more| - 1];
      assert (steps + more)[..|steps + more| - 1] == steps + init;
      assert forall k :: 0 <= k < |init| ==> init[k] == more[k];
      TerminalRecordIsKept(steps, init, id);
      RunInvariant(steps + init);
      TerminalStep(Run(steps + init), last, id);
    }
  }

  /** Past its retention the next sweep drops it. */
  lemma ExpiredRecordIsSwept(w: World, id: string, now: int)
    requires Terminal(w, id) && now - w.reg[id].endedAt > RETENTION
    ensures id !in Next(w, Get(now)).reg
  {
  }

  // ------------------------------------------------------------------ when a runner is late

  /** A begin beside an overdue runner starts a second one, and the late report lands on its record. */
  lemma LateReportOverwrites(w: World, r: Runner, now: int, started: int, later: int, result: string)
    requires RunOk(w) && r in w.live && Possible(w, Begin(r.id, now, started)) && now - r.startedAt > TIMEOUT + GRACE
    ensures var second := Next(w, Begin(r.id, now, started));
      var third := Next(second, Finish(r, later, result, ""));
      && second.reg[r.id] == NewJob(r.id, started)
      && third.reg[r.id] == Job(r.id, Done, started, later, result, "")
      && Runner(r.id, w.made, started) in third.live
  {
    var second := Next(w, Begin(r.id, now, started));
    assert Runner(r.id, w.made, started) in second.live;
    assert Runner(r.id, w.made, started) != r;
  }
}
