/** One rule over any sequence of evaluation passes: what it emits is exactly the rising edges of what
    was durably observed, thinned by the cooldown. */
module AlertTrace {
  import opened Common
  import opened AlertRules

  /** A pass as one rule sees it: the time, the reading, and whether the store accepted the write. */
  datatype Pass = Pass(now: int, reading: Reading, writeOk: bool)

  function NewRule(id: string, userId: string, createdAt: int, body: Body): Rule {
    Rule(id, userId, createdAt, body, 0, Nothing)
  }

  function RuleAfter(r: Rule, passes: seq<Pass>): Rule {
    if passes == [] then r
    else
      var p := passes[|passes| - 1];
      var before := RuleAfter(r, passes[..|passes| - 1]);
      if p.writeOk then Updated(before, UpdateFor(before, p.reading, p.now)) else before
  }

  /** The times of the events a rule emits. Nothing is emitted on a pass whose write failed. */
  function Emitted(r: Rule, passes: seq<Pass>): seq<int> {
    if passes == [] then []
    else
      var p := passes[|passes| - 1];
      Emitted(r, passes[..|passes| - 1]) +
      if p.writeOk && Fires(RuleAfter(r, passes[..|passes| - 1]), p.reading, p.now) then [p.now] else []
  }

  // ------------------------------------------------------------------ the reference

  datatype Observation = Observation(at: int, state: Memory)

  /** What a reading shows, independent of any memory. */
  function Shown(t: Trigger, reading: Reading): Option<Memory> {
    match (t, reading)
    case (Region(_), Side(w)) => Some(Word(w))
    case (Cross(_), Side(w)) => Some(Word(w))
    case (Flip, Side(w)) => if w == "" then None else Some(Word(w))
    case (Threshold, Truth(b)) => Some(Flag(b))
    case (Conflict(_), Truth(b)) => Some(Flag(b))
    case (Cadence, Truth(b)) => Some(Flag(b))
    case _ => None
  }

  /** The observations that reached the store, in order. */
  function Durable(t: Trigger, passes: seq<Pass>): seq<Observation> {
    if passes == [] then []
    else
      var p := passes[|passes| - 1];
      Durable(t, passes[..|passes| - 1]) +
      if p.writeOk && Shown(t, p.reading).Some? then [Observation(p.now, Shown(t, p.reading).value)] else []
  }

  /** Observation `k` is an edge the rule is about. Region and Threshold are entered, also by the very
      first observation; the others need a witnessed change. */
  predicate EdgeAt(t: Trigger, obs: seq<Observation>, k: nat)
    requires k < |obs|
  {
    match t
    case Region(target) => obs[k].state == Word(target) && (k == 0 || obs[k - 1].state != Word(target))
    case Threshold => obs[k].state == Flag(true) && (k == 0 || obs[k - 1].state != Flag(true))
    case Cross(target) =>
      obs[k].state == Word(target) && k > 0 && obs[k - 1].state != Word(target) && obs[k - 1].state != Word("")
    case Flip => k > 0 && obs[k].state != obs[k - 1].state
    case Conflict(appears) => k > 0 && obs[k].state == Flag(appears) && obs[k - 1].state == Flag(!appears)
    case Cadence => obs[k].state == Flag(true)
  }

  function EdgeTimes(t: Trigger, obs: seq<Observation>): seq<int> {
    if obs == [] then []
    else
      EdgeTimes(t, obs[..|obs| - 1]) + if EdgeAt(t, obs, |obs| - 1) then [obs[|obs| - 1].at] else []
  }

  /** Keep the first edge, and every later one that is a full cooldown after the last one kept. */
  function Thinned(edges: seq<int>, cooldown: int): seq<int> {
    if edges == [] then []
    else
      var kept := Thinned(edges[..|edges| - 1], cooldown);
      var at := edges[|edges| - 1];
      if kept == [] || at - kept[|kept| - 1] >= cooldown then kept + [at] else kept
  }

  // ------------------------------------------------------------------ the theorem

  predicate Named(t: Trigger) {
    (t.Region? ==> t.target != "") && (t.Cross? ==> t.target != "")
  }

  /** The rule's fields summarise the trace so far. */
  ghost predicate Summarises(r: Rule, obs: seq<Observation>, kept: seq<int>) {
    && r.lastState == (if obs == [] then Nothing else obs[|obs| - 1].state)
    && r.lastTriggered == (if kept == [] then 0 else kept[|kept| - 1])
    && (kept != [] ==> kept[|kept| - 1] > 0)
  }

  lemma ShownShapes(t: Trigger, passes: seq<Pass>, k: nat)
    requires k < |Durable(t, passes)|
    ensures match t
      case Threshold => Durable(t, passes)[k].state.Flag?
      case Conflict(_) => Durable(t, passes)[k].state.Flag?
      case Cadence => Durable(t, passes)[k].state.Flag?
      case Flip => Durable(t, passes)[k].state.Word? && Durable(t, passes)[k].state != Word("")
      case _ => Durable(t, passes)[k].state.Word?
  {
  }

  /** On an observed pass the edge helper reports exactly the reference's edge. */
  lemma {:induction false} HelperSeesEdge(r: Rule, passes: seq<Pass>, reading: Reading, now: int)
    requires Named(r.body.trigger) && r.body.active
    requires var obs := Durable(r.body.trigger, passes);
      r.lastState == if obs == [] then Nothing else obs[|obs| - 1].state
    ensures var t, obs := r.body.trigger, Durable(r.body.trigger, passes);
      match Evaluate(t, r.lastState, reading)
      case Skip => Shown(t, reading).None?
      case Observed(fired, state) =>
        && Shown(t, reading) == Some(state)
        && (fired <==> EdgeAt(t, obs + [Observation(now, state)], |obs|))
        && (fired && !t.Cadence? ==> r.lastState != state)
  {
    var obs := Durable(r.body.trigger, passes);
    if obs != [] {
      ShownShapes(r.body.trigger, passes, |obs| - 1);
    }
  }

  lemma DurableSnoc(t: Trigger, passes: seq<Pass>, p: Pass)
    ensures Durable(t, passes + [p]) ==
      if p.writeOk && Shown(t, p.reading).Some? then
        Durable(t, passes) + [Observation(p.now, Shown(t, p.reading).value)]
      else Durable(t, passes)
  {
    assert (passes + [p])[..|passes|] == passes;
  }

  lemma RuleSnoc(r: Rule, passes: seq<Pass>, p: Pass)
    ensures var before := RuleAfter(r, passes);
      && RuleAfter(r, passes + [p]) ==
         (if p.writeOk then Updated(before, UpdateFor(before, p.reading, p.now)) else before)
      && Emitted(r, passes + [p]) ==
         (if p.writeOk && Fires(before, p.reading, p.now) then Emitted(r, passes) + [p.now] else Emitted(r, passes))
  {
    assert (passes + [p])[..|passes|] == passes;
  }

  /** The rule's fields and its emissions agree with the reference after these passes. */
  ghost predicate Agrees(r: Rule, passes: seq<Pass>) {
    var obs := Durable(r.body.trigger, passes);
    var kept := Thinned(EdgeTimes(r.body.trigger, obs), r.body.cooldownSec);
    && Emitted(r, passes) == kept
    && Summarises(RuleAfter(r, passes), obs, kept)
    && RuleAfter(r, passes).body == r.body
  }

  /** What a durable observation does to a rule that agrees so far. */
  lemma ObservationAgrees(r: Rule, passes: seq<Pass>, p: Pass, obs: seq<Observation>, edges: seq<int>)
    requires r.body.active && Named(r.body.trigger) && p.now > 0 && Agrees(r, passes)
    requires obs == Durable(r.body.trigger, passes) && edges == EdgeTimes(r.body.trigger, obs)
    requires Shown(r.body.trigger, p.reading).Some?
    ensures var rule, o := RuleAfter(r, passes), Observation(p.now, Shown(r.body.trigger, p.reading).value);
      var kept' := Thinned(EdgeTimes(r.body.trigger, obs + [o]), r.body.cooldownSec);
      && kept' == (if Fires(rule, p.reading, p.now) then Emitted(r, passes) + [p.now] else Emitted(r, passes))
      && Summarises(Updated(rule, UpdateFor(rule, p.reading, p.now)), obs + [o], kept')
  {
    var o := Observation(p.now, Shown(r.body.trigger, p.reading).value);
    HelperSeesEdge(RuleAfter(r, passes), passes, p.reading, p.now);
    assert (obs + [o])[..|obs|] == obs && (edges + [p.now])[..|edges|] == edges;
    assert edges + [] == edges;
  }

  lemma OnePassAgrees(r: Rule, passes: seq<Pass>, p: Pass)
    requires r.body.active && Named(r.body.trigger) && p.now > 0 && Agrees(r, passes)
    ensures Agrees(r, passes + [p])
  {
    var t, rule, obs := r.body.trigger, RuleAfter(r, passes), Durable(r.body.trigger, passes);
    DurableSnoc(t, passes, p);
    RuleSnoc(r, passes, p);
    if p.writeOk && Shown(t, p.reading).Some? {
      ObservationAgrees(r, passes, p, obs, EdgeTimes(t, obs));
    } else {
      HelperSeesEdge(rule, passes, p.reading, p.now);
    }
  }

  /** For one active, unedited rule and any sequence of skipped, observed and failed passes, the events
      are exactly the durably observed edges, thinned by the cooldown. */
  lemma {:induction false} EmissionsAreThinnedEdges(r: Rule, passes: seq<Pass>)
    requires r.lastTriggered == 0 && r.lastState == Nothing && r.body.active && Named(r.body.trigger)
    requires forall i :: 0 <= i < |passes| ==> passes[i].now > 0
    ensures Agrees(r, passes)
  {
    if passes != [] {
      EmissionsAreThinnedEdges(r, passes[..|passes| - 1]);
      OnePassAgrees(r, passes[..|passes| - 1], passes[|passes| - 1]);
      assert passes == passes[..|passes| - 1] + [passes[|passes| - 1]];
    }
  }

  /** Emissions of one rule are at least a cooldown apart, in order. */
  lemma {:induction false} ThinnedIsSpaced(edges: seq<int>, cooldown: int, i: nat)
    requires i + 1 < |Thinned(edges, cooldown)|
    ensures Thinned(edges, cooldown)[i + 1] - Thinned(edges, cooldown)[i] >= cooldown
  {
    var before := Thinned(edges[..|edges| - 1], cooldown);
    if i + 1 < |before| {
      ThinnedIsSpaced(edges[..|edges| - 1], cooldown, i);
    }
  }

  /** One more pass over an unedited rule, in terms of its last reading and its last event: it emits when the
      write is stored, the reading is an edge and a cooldown has passed since the last event. */
  lemma PassInFields(r: Rule, passes: seq<Pass>, p: Pass)
    requires r.lastTriggered == 0 && r.lastState == Nothing && r.body.active && Named(r.body.trigger)
    requires forall i :: 0 <= i < |passes| ==> passes[i].now > 0
    ensures var t, e, rule := r.body.trigger, Emitted(r, passes), RuleAfter(r, passes);
      && Emitted(r, passes + [p]) ==
         (if p.writeOk && IsEdge(t, rule.lastState, p.reading)
             && (e == [] || p.now >= e[|e| - 1] + r.body.cooldownSec)
          then e + [p.now] else e)
      && RuleAfter(r, passes + [p]).lastState ==
         if p.writeOk && Readable(t, p.reading) then Remembered(p.reading) else rule.lastState
  {
    EmissionsAreThinnedEdges(r, passes);
    RuleSnoc(r, passes, p);
    FiresInFields(RuleAfter(r, passes), p.reading, p.now);
    UpdatedInFields(RuleAfter(r, passes), p.reading, p.now);
  }
}
