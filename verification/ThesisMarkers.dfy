/** The stale-marker side of the thesis monitor: how one reading is compared with a thesis's baseline,
    what a sweep does to the marker map, and what every run of sweeps and completions keeps. */
module ThesisMarkers {
  import opened Common
  import opened ResynthQueue

  const STALE_MOVE_PCT := 5.0
  const MAX_THESES := 200

  datatype Severity = Clear | Material

  datatype Marker = Marker(
    thesisId: string, userId: string, ticker: string, stale: bool, severity: Severity, reason: string,
    asOf: int, asOfISO: string, markedAt: int, baselineAt: int, baselinePx: real, observedPx: real,
    movePct: real, lastFired: string)

  datatype Thesis = Thesis(id: string, userId: string, ticker: string, lastReviewAt: int, catalystsDue: seq<int>)

  datatype Bar = Bar(ts: int, iso: string, close: real)

  /** The two sentence formats and the hash, which stay abstract. */
  datatype Wording = Wording(
    moved: (real, bool, real, real) -> string, due: nat -> string, firedKey: (string, string) -> string)

  type Markers = map<string, Marker>

  // ------------------------------------------------------------------ the comparison

  predicate IsDue(at: int, after: int, upTo: int) { after < at <= upTo }

  function DueSince(due: seq<int>, after: int, upTo: int): (n: nat)
    ensures n > 0 <==> exists i :: 0 <= i < |due| && IsDue(due[i], after, upTo)
  {
    if due == [] then 0
    else
      var last := |due| - 1;
      assert forall i :: 0 <= i < last ==> due[..last][i] == due[i];
      DueSince(due[..last], after, upTo) + if IsDue(due[last], after, upTo) then 1 else 0
  }

  method CountDue(due: seq<int>, after: int, upTo: int) returns (n: nat)
    ensures n == DueSince(due, after, upTo)
  {
    n := 0;
    for i := 0 to |due|
      invariant n == DueSince(due[..i], after, upTo)
    {
      assert due[..i + 1][..i] == due[..i];
      if due[i] > after && due[i] <= upTo {
        n := n + 1;
      }
    }
    assert due[..|due|] == due;
  }

  /** The stored baseline still stands: there is one, and the user has not reviewed since. */
  predicate HasBaseline(markers: Markers, th: Thesis) {
    && th.id in markers
    && markers[th.id].baselinePx != 0.0
    && th.lastReviewAt <= markers[th.id].baselineAt
  }

  function MovePct(from: real, to: real): real {
    if from == 0.0 then 0.0 else (to - from) / from * 100.0
  }

  function Abs(v: real): (r: real)
    ensures r >= 0.0 && (r == v || r == -v)
  {
    if v < 0.0 then -v else v
  }

  datatype Verdict =
    | Rebase(marker: Marker)
    | Quiet
    | Fire(marker: Marker)

  function Baseline(th: Thesis, bar: Bar): Marker {
    Marker(th.id, th.userId, th.ticker, false, Clear, "baseline established", bar.ts, bar.iso, 0,
           bar.ts, bar.close, bar.close, 0.0, "")
  }

  function Reason(w: Wording, th: Thesis, m: Marker, bar: Bar): Option<string> {
    var move := MovePct(m.baselinePx, bar.close);
    var n := DueSince(th.catalystsDue, m.baselineAt, bar.ts);
    if Abs(move) >= STALE_MOVE_PCT then Some(w.moved(Abs(move), move < 0.0, m.baselinePx, bar.close))
    else if n > 0 then Some(w.due(n))
    else None
  }

  function Stale(w: Wording, th: Thesis, m: Marker, bar: Bar, reason: string, now: int): Marker {
    Marker(th.id, th.userId, th.ticker, true, Material, reason, bar.ts, bar.iso, now, m.baselineAt,
           m.baselinePx, bar.close, MovePct(m.baselinePx, bar.close), w.firedKey("material", reason))
  }

  /** What the first read of the marker leads to: a baseline to establish, nothing, or a condition that
      still has to be compared with the last one reported. */
  datatype Glance = Establish | Nothing | Suspect(reason: string)

  function FirstRead(w: Wording, markers: Markers, th: Thesis, bar: Bar): Glance {
    if !HasBaseline(markers, th) then Establish
    else match Reason(w, th, markers[th.id], bar)
      case None => Nothing
      case Some(reason) => Suspect(reason)
  }

  /** The second read: this condition is the one the marker last reported. */
  predicate AlreadySaid(w: Wording, markers: Markers, id: string, reason: string) {
    id in markers && markers[id].lastFired == w.firedKey("material", reason)
  }

  /** Both reads with nothing in between. */
  function Evaluate(w: Wording, markers: Markers, th: Thesis, bar: Bar, now: int): Verdict {
    match FirstRead(w, markers, th, bar)
    case Establish => Rebase(Baseline(th, bar))
    case Nothing => Quiet
    case Suspect(reason) =>
      if AlreadySaid(w, markers, th.id, reason) then Quiet
      else Fire(Stale(w, th, markers[th.id], bar, reason, now))
  }

  /** The close moved by at least a twentieth of the baseline price, either way. */
  predicate MovedFar(from: real, to: real) {
    20.0 * (to - from) >= Abs(from) || 20.0 * (from - to) >= Abs(from)
  }

  lemma MoveThreshold(from: real, to: real)
    requires from != 0.0
    ensures Abs(MovePct(from, to)) >= STALE_MOVE_PCT <==> MovedFar(from, to)
  {
    var q := (to - from) / from;
    assert q * from == to - from;
    if from > 0.0 {
      Scales(q, from);
    } else {
      assert q * -from == from - to;
      Scales(q, -from);
    }
  }

  lemma Scales(q: real, unit: real)
    requires unit > 0.0
    ensures q * 100.0 >= 5.0 <==> 20.0 * (q * unit) >= unit
    ensures q * 100.0 <= -5.0 <==> -20.0 * (q * unit) >= unit
  {
    if q * 20.0 >= 1.0 { assert (q * 20.0 - 1.0) * unit >= 0.0; }
    if q * 20.0 < 1.0 { assert (1.0 - q * 20.0) * unit > 0.0; }
    if q * 20.0 <= -1.0 { assert (-1.0 - q * 20.0) * unit >= 0.0; }
    if q * 20.0 > -1.0 { assert (q * 20.0 + 1.0) * unit > 0.0; }
  }

  /** A thesis is published as stale exactly when it has a baseline the user has not reviewed since,
      its close moved far from that baseline or one of its dates came due, and that condition is not
      the one already reported. The marker then shows the new reading over the old baseline. */
  lemma FiresExactlyWhen(w: Wording, markers: Markers, th: Thesis, bar: Bar, now: int)
    ensures Evaluate(w, markers, th, bar, now).Fire? <==>
      && th.id in markers && markers[th.id].baselinePx != 0.0 && th.lastReviewAt <= markers[th.id].baselineAt
      && (MovedFar(markers[th.id].baselinePx, bar.close)
          || exists i :: 0 <= i < |th.catalystsDue| && IsDue(th.catalystsDue[i], markers[th.id].baselineAt, bar.ts))
      && (Reason(w, th, markers[th.id], bar).Some? ==>
            markers[th.id].lastFired != w.firedKey("material", Reason(w, th, markers[th.id], bar).value))
    ensures Evaluate(w, markers, th, bar, now).Fire? ==>
      var m := Evaluate(w, markers, th, bar, now).marker;
      && m.thesisId == th.id && m.stale && m.asOf == bar.ts && m.observedPx == bar.close
      && m.baselineAt == markers[th.id].baselineAt && m.baselinePx == markers[th.id].baselinePx
  {
    if th.id in markers && markers[th.id].baselinePx != 0.0 {
      MoveThreshold(markers[th.id].baselinePx, bar.close);
    }
  }

  function AfterVerdict(markers: Markers, v: Verdict): Markers {
    match v
    case Quiet => markers
    case Rebase(m) => markers[m.thesisId := m]
    case Fire(m) => markers[m.thesisId := m]
  }

  /** A completed re-synthesis moves the baseline to the reading the job was about, provided the
      marker still shows that reading. */
  predicate Acknowledges(markers: Markers, thesisId: string, asOf: string) {
    thesisId in markers && markers[thesisId].stale && markers[thesisId].asOfISO == asOf
  }

  function Acknowledged(m: Marker): Marker {
    m.(stale := false, severity := Clear, reason := "re-synthesis completed", baselineAt := m.asOf,
       baselinePx := m.observedPx, lastFired := "")
  }

  function AfterAck(markers: Markers, thesisId: string, asOf: string): Markers {
    if Acknowledges(markers, thesisId, asOf) then markers[thesisId := Acknowledged(markers[thesisId])] else markers
  }

  // ------------------------------------------------------------------ one sweep

  /** The monitor's durable state. */
  datatype State = State(markers: Markers, queue: seq<Job>, dropped: nat)

  /** The counters a sweep reports. */
  datatype Tally = Tally(examined: nat, marked: nat, enqueued: nat, asOf: string)

  function JobFor(w: Wording, m: Marker, now: int): (j: Job)
    ensures Fresh(j)
  {
    Job("rsy_" + w.firedKey(m.thesisId, m.lastFired + "\0" + m.asOfISO), m.thesisId, m.userId, m.ticker,
        m.reason, if m.severity.Material? then "material" else "", m.asOfISO, now, Queued, 0, 0, 0, "", 0, 0, "")
  }

  /** From firing to completion: the job of a published marker, once completed while the marker still
      shows that reading, settles the thesis there, and the next far move from that price fires again. */
  lemma CompletedJobRearms(w: Wording, markers: Markers, th: Thesis, bar: Bar, now: int, next: Bar, later: int)
    requires Evaluate(w, markers, th, bar, now).Fire?
    requires bar.close != 0.0 && markers[th.id].baselineAt <= bar.ts
    ensures var m := Evaluate(w, markers, th, bar, now).marker;
      var j := JobFor(w, m, now);
      var after := AfterAck(AfterVerdict(markers, Evaluate(w, markers, th, bar, now)), j.thesisId, j.asOf);
      && j.thesisId == th.id && j.asOf == bar.iso && j.reason == m.reason
      && th.id in after && !after[th.id].stale
      && after[th.id].baselineAt == bar.ts && after[th.id].baselinePx == bar.close
      && Evaluate(w, after, th, bar, later).Quiet?
      && (MovedFar(bar.close, next.close) && Reason(w, th, after[th.id], next).Some?
          && w.firedKey("material", Reason(w, th, after[th.id], next).value) != ""
          ==> Evaluate(w, after, th, next, later).Fire?)
  {
    var v := Evaluate(w, markers, th, bar, now);
    var after := AfterAck(AfterVerdict(markers, v), th.id, bar.iso);
    assert MovePct(bar.close, bar.close) == 0.0;
    assert DueSince(th.catalystsDue, bar.ts, bar.ts) == 0;
    FiresExactlyWhen(w, after, th, next, later);
  }

  function SweepOne(w: Wording, st: State, th: Thesis, bar: Bar, now: int): State {
    var v := Evaluate(w, st.markers, th, bar, now);
    var st' := st.(markers := AfterVerdict(st.markers, v));
    if v.Fire? then
      var j := JobFor(w, v.marker, now);
      st'.(queue := AfterEnqueue(st.queue, j), dropped := st.dropped + DroppedBy(st.queue, j))
    else st'
  }

  function TallyOne(w: Wording, st: State, t: Tally, th: Thesis, bar: Bar, now: int): Tally {
    var v := Evaluate(w, st.markers, th, bar, now);
    Tally(t.examined + 1,
          t.marked + if v.Fire? then 1 else 0,
          t.enqueued + if v.Fire? && IsNew(st.queue, JobFor(w, v.marker, now).id) then 1 else 0,
          if t.asOf == "" then bar.iso else t.asOf)
  }

  /** Theses in order; those whose ticker had no readable bar are skipped. */
  function Sweep(w: Wording, st: State, theses: seq<Thesis>, bars: map<string, Bar>, now: int): State {
    if theses == [] then st
    else
      var n := |theses| - 1;
      var before := Sweep(w, st, theses[..n], bars, now);
      if theses[n].ticker in bars then SweepOne(w, before, theses[n], bars[theses[n].ticker], now) else before
  }

  function SweepTally(w: Wording, st: State, theses: seq<Thesis>, bars: map<string, Bar>, now: int): Tally {
    if theses == [] then Tally(0, 0, 0, "")
    else
      var n := |theses| - 1;
      var before := SweepTally(w, st, theses[..n], bars, now);
      if theses[n].ticker in bars then
        TallyOne(w, Sweep(w, st, theses[..n], bars, now), before, theses[n], bars[theses[n].ticker], now)
      else before
  }

  function Examined(theses: seq<Thesis>): seq<Thesis> {
    if |theses| > MAX_THESES then theses[..MAX_THESES] else theses
  }

  // ------------------------------------------------------------------ repeating a sweep

  /** Evaluating this thesis against this bar once more has no effect. */
  ghost predicate Settled(w: Wording, markers: Markers, th: Thesis, bar: Bar) {
    forall now ::
      var v := Evaluate(w, markers, th, bar, now); !v.Fire? && AfterVerdict(markers, v) == markers
  }

  lemma SweepOneSettles(w: Wording, st: State, th: Thesis, bar: Bar, now: int)
    ensures Settled(w, SweepOne(w, st, th, bar, now).markers, th, bar)
  {
    var markers := SweepOne(w, st, th, bar, now).markers;
    var v := Evaluate(w, st.markers, th, bar, now);
    if v.Rebase? {
      var m := markers[th.id];
      assert m == Baseline(th, bar);
      assert MovePct(m.baselinePx, bar.close) == 0.0;
      assert DueSince(th.catalystsDue, m.baselineAt, bar.ts) == 0;
    }
  }

  lemma OthersStaySettled(w: Wording, st: State, th: Thesis, bar: Bar, other: Thesis, otherBar: Bar, now: int)
    requires th.id != other.id && Settled(w, st.markers, th, bar)
    ensures Settled(w, SweepOne(w, st, other, otherBar, now).markers, th, bar)
  {
    var markers := SweepOne(w, st, other, otherBar, now).markers;
    assert (th.id in markers) == (th.id in st.markers);
    assert th.id in markers ==> markers[th.id] == st.markers[th.id];
    forall later
      ensures var v := Evaluate(w, markers, th, bar, later); !v.Fire? && AfterVerdict(markers, v) == markers
    {
      var v := Evaluate(w, st.markers, th, bar, later);
      assert v == Evaluate(w, markers, th, bar, later);
      if v.Rebase? {
        assert st.markers[th.id := v.marker] == st.markers;
        assert th.id in st.markers;
      }
    }
  }

  ghost predicate DistinctIds(theses: seq<Thesis>) {
    DistinctBy(theses, (th: Thesis) => th.id)
  }

  lemma {:induction false} SweepSettles(
    w: Wording, st: State, theses: seq<Thesis>, bars: map<string, Bar>, now: int, k: nat)
    requires DistinctIds(theses) && k < |theses| && theses[k].ticker in bars
    ensures Settled(w, Sweep(w, st, theses, bars, now).markers, theses[k], bars[theses[k].ticker])
  {
    var n := |theses| - 1;
    var before := Sweep(w, st, theses[..n], bars, now);
    if k < n {
      SweepSettles(w, st, theses[..n], bars, now, k);
    }
    if theses[n].ticker in bars {
      if k == n {
        SweepOneSettles(w, before, theses[n], bars[theses[n].ticker], now);
      } else {
        OthersStaySettled(w, before, theses[k], bars[theses[k].ticker], theses[n], bars[theses[n].ticker], now);
      }
    }
  }

  lemma {:induction false} SettledSweepIsIdentity(
    w: Wording, st: State, theses: seq<Thesis>, bars: map<string, Bar>, now: int)
    requires forall k :: 0 <= k < |theses| && theses[k].ticker in bars ==>
      Settled(w, st.markers, theses[k], bars[theses[k].ticker])
    ensures Sweep(w, st, theses, bars, now) == st
    ensures SweepTally(w, st, theses, bars, now).marked == 0
    ensures SweepTally(w, st, theses, bars, now).enqueued == 0
  {
    if theses != [] {
      var n := |theses| - 1;
      assert forall k :: 0 <= k < n ==> theses[..n][k] == theses[k];
      SettledSweepIsIdentity(w, st, theses[..n], bars, now);
      assert theses[n].ticker in bars ==> Settled(w, st.markers, theses[n], bars[theses[n].ticker]);
    }
  }

  /** Sweeping the same theses over the same bars again, at any later wall-clock time, changes no
      marker and adds no job. */
  lemma RepeatedSweepIsSilent(
    w: Wording, st: State, theses: seq<Thesis>, bars: map<string, Bar>, now: int, later: int)
    requires DistinctIds(theses)
    ensures var once := Sweep(w, st, theses, bars, now);
      && Sweep(w, once, theses, bars, later) == once
      && SweepTally(w, once, theses, bars, later).marked == 0
      && SweepTally(w, once, theses, bars, later).enqueued == 0
  {
    var once := Sweep(w, st, theses, bars, now);
    forall k | 0 <= k < |theses| && theses[k].ticker in bars
      ensures Settled(w, once.markers, theses[k], bars[theses[k].ticker])
    {
      SweepSettles(w, st, theses, bars, now, k);
    }
    SettledSweepIsIdentity(w, once, theses, bars, later);
  }

  // ------------------------------------------------------------------ in fields

  /** A thesis without a usable baseline is given one at the bar, and nothing is reported. */
  lemma RebaseInFields(w: Wording, markers: Markers, th: Thesis, bar: Bar, now: int)
    ensures Evaluate(w, markers, th, bar, now).Rebase? <==>
      th.id !in markers || markers[th.id].baselinePx == 0.0 || th.lastReviewAt > markers[th.id].baselineAt
    ensures Evaluate(w, markers, th, bar, now).Rebase? ==>
      var m := Evaluate(w, markers, th, bar, now).marker;
      && m.thesisId == th.id && m.userId == th.userId && m.ticker == th.ticker && !m.stale && m.severity == Clear
      && m.reason == "baseline established" && m.asOf == bar.ts && m.asOfISO == bar.iso && m.markedAt == 0
      && m.baselineAt == bar.ts && m.baselinePx == bar.close && m.observedPx == bar.close && m.movePct == 0.0
      && m.lastFired == ""
  {
  }

  /** What a thesis with a baseline is said to be stale for: the move of its close, however many dates are
      due, or else the number of dates due. */
  lemma ReasonInFields(w: Wording, th: Thesis, m: Marker, bar: Bar)
    requires m.baselinePx != 0.0
    ensures var pct := (bar.close - m.baselinePx) / m.baselinePx * 100.0;
      var n := DueSince(th.catalystsDue, m.baselineAt, bar.ts);
      && (MovedFar(m.baselinePx, bar.close) ==>
            Reason(w, th, m, bar) == Some(w.moved(if pct < 0.0 then -pct else pct, pct < 0.0, m.baselinePx, bar.close)))
      && (!MovedFar(m.baselinePx, bar.close) && n > 0 ==> Reason(w, th, m, bar) == Some(w.due(n)))
      && (!MovedFar(m.baselinePx, bar.close) && n == 0 ==> Reason(w, th, m, bar) == None)
  {
    MoveThreshold(m.baselinePx, bar.close);
  }

  /** What a published marker shows. */
  lemma FireInFields(w: Wording, markers: Markers, th: Thesis, bar: Bar, now: int)
    requires Evaluate(w, markers, th, bar, now).Fire?
    ensures var m, was := Evaluate(w, markers, th, bar, now).marker, markers[th.id];
      && m.thesisId == th.id && m.userId == th.userId && m.ticker == th.ticker && m.stale && m.severity == Material
      && Reason(w, th, was, bar) == Some(m.reason) && m.lastFired == w.firedKey("material", m.reason)
      && m.asOf == bar.ts && m.asOfISO == bar.iso && m.markedAt == now
      && m.baselineAt == was.baselineAt && m.baselinePx == was.baselinePx && m.observedPx == bar.close
      && m.movePct == (bar.close - was.baselinePx) / was.baselinePx * 100.0
  {
  }

  /** Publishing a verdict writes the thesis's own marker and no other. */
  lemma VerdictInFields(w: Wording, markers: Markers, th: Thesis, bar: Bar, now: int)
    ensures var v := Evaluate(w, markers, th, bar, now);
      && (v.Quiet? ==> AfterVerdict(markers, v) == markers)
      && (!v.Quiet? ==> AfterVerdict(markers, v) == markers[th.id := v.marker])
  {
  }

  /** As many as there are positions holding a date in the window. */
  lemma {:induction false} DueSinceCounts(due: seq<int>, after: int, upTo: int)
    ensures DueSince(due, after, upTo) == |set i | 0 <= i < |due| && after < due[i] <= upTo|
  {
    if due != [] {
      var n := |due| - 1;
      DueSinceCounts(due[..n], after, upTo);
      var s, s' := set i | 0 <= i < n && after < due[..n][i] <= upTo, set i | 0 <= i < |due| && after < due[i] <= upTo;
      assert s' == s + if after < due[n] <= upTo then {n} else {};
    }
  }

  /** A tick examines the first two hundred theses. */
  lemma ExaminedIsTheFront(theses: seq<Thesis>)
    ensures Examined(theses) <= theses && |Examined(theses)| == if |theses| > 200 then 200 else |theses|
  {
  }

  /** The sweep finds its thesis `k` newly stale. */
  predicate FiresAt(t: Wording, st: State, theses: seq<Thesis>, bars: map<string, Bar>, now: int, k: nat) {
    && k < |theses| && theses[k].ticker in bars
    && Evaluate(t, Sweep(t, st, theses[..k], bars, now).markers, theses[k], bars[theses[k].ticker], now).Fire?
  }

  predicate HasBar(theses: seq<Thesis>, bars: map<string, Bar>, k: nat) {
    k < |theses| && theses[k].ticker in bars
  }

  function WithBar(theses: seq<Thesis>, bars: map<string, Bar>): set<nat> {
    set k: nat | k < |theses| && HasBar(theses, bars, k)
  }

  function NewlyStale(w: Wording, st: State, theses: seq<Thesis>, bars: map<string, Bar>, now: int): set<nat> {
    set k: nat | k < |theses| && FiresAt(w, st, theses, bars, now, k)
  }

  lemma SetsGrow(w: Wording, st: State, theses: seq<Thesis>, bars: map<string, Bar>, now: int)
    requires theses != []
    ensures var n := |theses| - 1;
      && WithBar(theses, bars) == WithBar(theses[..n], bars) + (if HasBar(theses, bars, n) then {n} else {})
      && NewlyStale(w, st, theses, bars, now) ==
         NewlyStale(w, st, theses[..n], bars, now) + (if FiresAt(w, st, theses, bars, now, n) then {n} else {})
  {
    var n := |theses| - 1;
    forall k: nat | k < n
      ensures HasBar(theses, bars, k) == HasBar(theses[..n], bars, k)
      ensures FiresAt(w, st, theses, bars, now, k) == FiresAt(w, st, theses[..n], bars, now, k)
    {
      assert theses[..n][k] == theses[k] && theses[..n][..k] == theses[..k];
    }
  }

  /** The sweep counts the theses that have a bar and those it finds newly stale. */
  lemma {:induction false} TallyInFields(w: Wording, st: State, theses: seq<Thesis>, bars: map<string, Bar>, now: int)
    ensures SweepTally(w, st, theses, bars, now).examined == |WithBar(theses, bars)|
    ensures SweepTally(w, st, theses, bars, now).marked == |NewlyStale(w, st, theses, bars, now)|
  {
    if theses == [] {
      assert WithBar(theses, bars) == {} && NewlyStale(w, st, theses, bars, now) == {};
    } else {
      var n := |theses| - 1;
      TallyInFields(w, st, theses[..n], bars, now);
      SetsGrow(w, st, theses, bars, now);
      assert n !in WithBar(theses[..n], bars) && n !in NewlyStale(w, st, theses[..n], bars, now);
      assert theses[..n] == theses[..|theses| - 1];
    }
  }

  /** And the jobs that came in, kept or at the price of an older one. */
  lemma {:induction false} TallyCountsJobs(w: Wording, st: State, theses: seq<Thesis>, bars: map<string, Bar>, now: int)
    requires |st.queue| <= 5000
    ensures var tally, st' := SweepTally(w, st, theses, bars, now), Sweep(w, st, theses, bars, now);
      |st'.queue| + st'.dropped == |st.queue| + st.dropped + tally.enqueued && |st'.queue| <= 5000
  {
    if theses != [] {
      TallyCountsJobs(w, st, theses[..|theses| - 1], bars, now);
    }
  }

  /** The tick is dated by the first bar it examined. */
  lemma {:induction false} TallyIsDated(
    w: Wording, st: State, theses: seq<Thesis>, bars: map<string, Bar>, now: int, k: nat)
    requires HasBar(theses, bars, k) && bars[theses[k].ticker].iso != ""
    requires forall i: nat :: i < k ==> !HasBar(theses, bars, i)
    ensures SweepTally(w, st, theses, bars, now).asOf == bars[theses[k].ticker].iso
  {
    var n := |theses| - 1;
    if k < n {
      assert forall i: nat :: i <= k ==> HasBar(theses[..n], bars, i) == HasBar(theses, bars, i);
      TallyIsDated(w, st, theses[..n], bars, now, k);
    } else {
      forall i: nat | i < n ensures theses[..n][i].ticker !in bars { assert !HasBar(theses, bars, i); }
      NothingExamined(w, st, theses[..n], bars, now);
    }
  }

  lemma {:induction false} NothingExamined(w: Wording, st: State, theses: seq<Thesis>, bars: map<string, Bar>, now: int)
    requires forall i :: 0 <= i < |theses| ==> theses[i].ticker !in bars
    ensures SweepTally(w, st, theses, bars, now).asOf == ""
  {
    if theses != [] {
      NothingExamined(w, st, theses[..|theses| - 1], bars, now);
    }
  }
}
