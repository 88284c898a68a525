/** Alert rules and the edge-trigger semantics of each rule type. */
module AlertRules {
  import opened Common

  const DEFAULT_COOLDOWN := 3600

  /** What a rule remembers about the previous observation: nothing, a truth value or a word. */
  datatype Memory = Nothing | Flag(b: bool) | Word(w: string)

  /** The conditions a rule can watch, by the edge helper that decides them:
      Region is price_cross and rsi_threshold; Threshold is pct_move, calendar_event and a one-shot
      review; Cross is macd_cross and vwap_cross; Flip is trend_flip and new_8k; Conflict is
      confluence_conflict; Cadence is a recurring thesis review. */
  datatype Trigger =
    | Region(target: string)
    | Threshold
    | Cross(target: string)
    | Flip
    | Conflict(appears: bool)
    | Cadence

  /** What the user may edit. */
  datatype Body = Body(ticker: string, trigger: Trigger, active: bool, cooldownSec: int, thesisId: string)

  datatype Rule = Rule(
    id: string, userId: string, createdAt: int, body: Body, lastTriggered: int, lastState: Memory)

  /** What a submitted rule body becomes: a negative cooldown is refused, and none means the default. */
  function Vetted(b: Body): Result<Body> {
    if b.cooldownSec < 0 then Err
    else if b.cooldownSec == 0 then Ok(b.(cooldownSec := DEFAULT_COOLDOWN))
    else Ok(b)
  }

  /** Only the cooldown is looked at, and only a missing one is filled in. */
  lemma VettedInFields(b: Body)
    ensures Vetted(b).Ok? <==> b.cooldownSec >= 0
    ensures Vetted(b).Ok? ==>
      var v := Vetted(b).value;
      && v.ticker == b.ticker && v.trigger == b.trigger && v.active == b.active && v.thesisId == b.thesisId
      && v.cooldownSec == if b.cooldownSec == 0 then 3600 else b.cooldownSec
  {
  }

  /** The deterministic reading a pass obtained for a rule, if upstream answered. */
  datatype Reading = Missing | Side(w: string) | Truth(b: bool)

  datatype EvalResult = Skip | Observed(fired: bool, state: Memory)

  function AsString(m: Memory): string {
    if m.Word? then m.w else ""
  }

  function EnterRegion(prev: Memory, current: string, target: string): EvalResult {
    Observed(current == target && AsString(prev) != target, Word(current))
  }

  function EnterBool(prev: Memory, satisfied: bool): EvalResult {
    Observed(satisfied && prev != Flag(true), Flag(satisfied))
  }

  function TransitionTo(prev: Memory, current: string, target: string): EvalResult {
    Observed(AsString(prev) != "" && current == target && AsString(prev) != target, Word(current))
  }

  function Evaluate(t: Trigger, prev: Memory, reading: Reading): EvalResult {
    match (t, reading)
    case (Region(target), Side(w)) => EnterRegion(prev, w, target)
    case (Threshold, Truth(b)) => EnterBool(prev, b)
    case (Cross(target), Side(w)) => TransitionTo(prev, w, target)
    case (Flip, Side(w)) =>
      if w == "" then Skip else Observed(AsString(prev) != "" && AsString(prev) != w, Word(w))
    case (Conflict(appears), Truth(has)) =>
      Observed(prev.Flag? && has == appears && prev.b != appears, Flag(has))
    case (Cadence, Truth(due)) => Observed(due, Flag(due))
    case _ => Skip
  }

  /** The change one pass makes to a rule. */
  datatype Update = Update(lastTriggered: int, lastState: Memory)

  predicate CooledDown(r: Rule, now: int) {
    r.lastTriggered == 0 || now - r.lastTriggered >= r.body.cooldownSec
  }

  /** The rule raises an event on this pass. */
  predicate Fires(r: Rule, reading: Reading, now: int) {
    var res := Evaluate(r.body.trigger, r.lastState, reading);
    r.body.active && res.Observed? && res.fired && CooledDown(r, now)
  }

  /** The rule's stored fields move on this pass. */
  function UpdateFor(r: Rule, reading: Reading, now: int): Option<Update> {
    var res := Evaluate(r.body.trigger, r.lastState, reading);
    if !r.body.active || res.Skip? then None
    else if Fires(r, reading, now) then Some(Update(now, res.state))
    else if r.lastState != res.state then Some(Update(r.lastTriggered, res.state))
    else None
  }

  function Updated(r: Rule, u: Option<Update>): Rule {
    match u
    case None => r
    case Some(v) => r.(lastTriggered := v.lastTriggered, lastState := v.lastState)
  }

  // ------------------------------------------------------------------ in terms of readings

  /** The reading is of the kind the condition watches. */
  predicate Readable(t: Trigger, reading: Reading) {
    match t
    case Region(_) => reading.Side?
    case Cross(_) => reading.Side?
    case Flip => reading.Side? && reading.w != ""
    case Threshold => reading.Truth?
    case Conflict(_) => reading.Truth?
    case Cadence => reading.Truth?
  }

  /** What is remembered of a reading. */
  function Remembered(reading: Reading): Memory {
    match reading case Missing => Nothing case Side(w) => Word(w) case Truth(b) => Flag(b)
  }

  predicate WasOther(prev: Memory, word: string) { prev.Word? && prev.w != "" && prev.w != word }

  /** The reading is an edge after what was remembered: a region or threshold is entered unless it was held
      already, a cross and a flip come from another word, a conflict from the opposite truth, and a review
      that is due needs no change. */
  predicate IsEdge(t: Trigger, prev: Memory, reading: Reading) {
    match t
    case Region(target) => reading == Side(target) && prev != Word(target) && (target == "" ==> WasOther(prev, ""))
    case Threshold => reading == Truth(true) && prev != Flag(true)
    case Cross(target) => reading == Side(target) && WasOther(prev, target)
    case Flip => reading.Side? && reading.w != "" && WasOther(prev, reading.w)
    case Conflict(appears) => reading == Truth(appears) && prev == Flag(!appears)
    case Cadence => reading == Truth(true)
  }

  lemma EvaluatedInFields(t: Trigger, prev: Memory, reading: Reading)
    ensures Evaluate(t, prev, reading) ==
      if Readable(t, reading) then Observed(IsEdge(t, prev, reading), Remembered(reading)) else Skip
  {
  }

  /** An active rule fires on an edge once its cooldown has passed, to the second. */
  lemma FiresInFields(r: Rule, reading: Reading, now: int)
    ensures Fires(r, reading, now) <==>
      && r.body.active && IsEdge(r.body.trigger, r.lastState, reading)
      && (r.lastTriggered == 0 || now >= r.lastTriggered + r.body.cooldownSec)
  {
    EvaluatedInFields(r.body.trigger, r.lastState, reading);
  }

  /** What a pass leaves on a rule: the reading, if it was of the right kind and the rule is active, and the
      time, if it fired. */
  lemma UpdatedInFields(r: Rule, reading: Reading, now: int)
    ensures var u := Updated(r, UpdateFor(r, reading, now));
      && u.id == r.id && u.userId == r.userId && u.createdAt == r.createdAt && u.body == r.body
      && u.lastTriggered == (if Fires(r, reading, now) then now else r.lastTriggered)
      && u.lastState ==
         if r.body.active && Readable(r.body.trigger, reading) then Remembered(reading) else r.lastState
  {
    EvaluatedInFields(r.body.trigger, r.lastState, reading);
  }

  ghost predicate DistinctIds(rules: seq<Rule>) {
    DistinctBy(rules, (r: Rule) => r.id)
  }
}
