/** One rule in a run of the whole evaluator and store: what the run emits for it is what the trace of its
    own passes says, whatever happens to other rules meanwhile. */
module AlertProjection {
  import opened Common
  import opened AlertRules
  import opened AlertStore
  import opened AlertEvaluator
  import opened AlertDedupe
  import D = AlertDedupe
  import T = AlertTrace

  /** The rule as its creation stored it. */
  function Birth(steps: seq<Step>, id: string): Option<Rule> {
    if steps == [] then None
    else
      var s := steps[|steps| - 1];
      if s.Change? && s.op.Add? && s.op.id == id && s.writeOk then Some(Created(s.op.rule, id, s.op.now))
      else Birth(steps[..|steps| - 1], id)
  }

  /** The step does not edit or delete this rule. */
  predicate Spares(s: Step, id: string) {
    s.Change? && s.writeOk && (s.op.Replace? || s.op.Delete?) ==> s.op.target != id
  }

  predicate Holds(rules: seq<Rule>, id: string) { exists r :: r in rules && r.id == id }

  /** The write that ends a pass is refused. */
  predicate Refused(w: World, s: Step)
    requires s.End?
  {
    Writes(w.image, ApplyUpdates(s.updates)) && !s.writeOk
  }

  /** The passes that had the rule in their snapshot, each with its reading and whether it was stored. */
  function PassesOf(steps: seq<Step>, id: string): seq<T.Pass> {
    if steps == [] then []
    else
      var before, s, w := PassesOf(steps[..|steps| - 1], id), steps[|steps| - 1], D.Run(steps[..|steps| - 1]);
      if s.End? && Holds(w.snapshot, id) then before + [T.Pass(w.began, ReadingOf(s.readings, id), !Refused(w, s))]
      else before
  }

  /** When a rule fired. */
  function TimesOf(emitted: seq<Emission>, id: string): seq<int> {
    if emitted == [] then []
    else
      var e := emitted[|emitted| - 1];
      TimesOf(emitted[..|emitted| - 1], id) + if e.ruleId == id then [e.ts] else []
  }

  lemma {:induction false} TimesOfConcat(a: seq<Emission>, b: seq<Emission>, id: string)
    ensures TimesOf(a + b, id) == TimesOf(a, id) + TimesOf(b, id)
    decreases |b|
  {
    if b == [] {
      assert a + b == a;
    } else {
      assert (a + b)[..|a + b| - 1] == a + b[..|b| - 1];
      TimesOfConcat(a, b[..|b| - 1], id);
    }
  }

  lemma {:induction false} NoTimes(fired: seq<Emission>, id: string)
    requires forall e :: e in fired ==> e.ruleId != id
    ensures TimesOf(fired, id) == []
  {
    if fired != [] {
      NoTimes(fired[..|fired| - 1], id);
    }
  }

  /** A pass has one event for each rule that fires, so the rule's times are its one time or none. */
  lemma {:induction false} OneTime(fired: seq<Emission>, e: Emission)
    requires e in fired && forall i, j :: 0 <= i < j < |fired| ==> fired[i].ruleId != fired[j].ruleId
    ensures TimesOf(fired, e.ruleId) == [e.ts]
  {
    var n := |fired| - 1;
    var k :| 0 <= k < |fired| && fired[k] == e;
    if k == n {
      forall x | x in fired[..n] ensures x.ruleId != e.ruleId {
        var i :| 0 <= i < n && fired[i] == x;
      }
      NoTimes(fired[..n], e.ruleId);
    } else {
      assert fired[..n][k] == e;
      OneTime(fired[..n], e);
    }
  }

  // ------------------------------------------------------------------ one rule through one step

  /** Where a rule stands: not there and never heard of, or there as its trace says. */
  ghost predicate Follows(w: World, id: string, birth: Option<Rule>, passes: seq<T.Pass>) {
    match birth
    case None =>
      passes == [] && !Holds(w.image.rules, id) && !Holds(w.snapshot, id) && TimesOf(w.emitted, id) == []
    case Some(b) =>
      && b.id == id && id in w.used
      && T.RuleAfter(b, passes) in w.image.rules
      && (forall r :: r in w.snapshot && r.id == id ==> r == T.RuleAfter(b, passes))
      && TimesOf(w.emitted, id) == T.Emitted(b, passes)
  }

  /** A rule that a change does not edit or delete stays as it is. */
  lemma RuleSurvives(m: Image, op: Op, writeOk: bool, r: Rule)
    requires r in m.rules && !op.ApplyUpdates?
    requires writeOk && (op.Replace? || op.Delete?) ==> op.target != r.id
    ensures r in After(m, op, writeOk).rules
  {
    var k :| 0 <= k < |m.rules| && m.rules[k] == r;
    var rules := After(m, op, writeOk).rules;
    if writeOk && op.Delete? && IndexOf(m.rules, op.target) < k {
      assert rules[k - 1] == r;
    } else {
      assert rules[k] == r;
    }
  }

  lemma {:induction false} IdIsKept(r: Rule, passes: seq<T.Pass>)
    ensures T.RuleAfter(r, passes).id == r.id
  {
    if passes != [] { IdIsKept(r, passes[..|passes| - 1]); }
  }

  lemma ChangeFollows(w: World, s: Step, id: string, birth: Option<Rule>, passes: seq<T.Pass>)
    requires WorldOk(w) && Legal(w, s) && s.Change? && Spares(s, id) && Follows(w, id, birth, passes)
    requires !(s.op.Add? && s.op.id == id)
    ensures Follows(Next(w, s), id, birth, passes)
  {
    if birth.None? {
      forall r | r in After(w.image, s.op, s.writeOk).rules ensures r.id != id {
        if r.id == id {
          var q := OldRule(w.image, s.op, s.writeOk, r);
          assert Holds(w.image.rules, id);
        }
      }
    } else {
      IdIsKept(birth.value, passes);
      RuleSurvives(w.image, s.op, s.writeOk, T.RuleAfter(birth.value, passes));
    }
  }

  lemma CreationFollows(w: World, s: Step, id: string)
    requires WorldOk(w) && Legal(w, s) && s.Change? && s.op.Add? && s.op.id == id
    requires Follows(w, id, None, [])
    ensures Follows(Next(w, s), id, if s.writeOk then Some(Created(s.op.rule, id, s.op.now)) else None, [])
  {
    var b := Created(s.op.rule, id, s.op.now);
    if s.writeOk {
      assert Next(w, s).image.rules[|w.image.rules|] == b;
    }
  }

  lemma BeginFollows(w: World, s: Step, id: string, birth: Option<Rule>, passes: seq<T.Pass>)
    requires WorldOk(w) && Legal(w, s) && s.Begin? && Follows(w, id, birth, passes)
    ensures Follows(Next(w, s), id, birth, passes)
  {
    if birth.Some? {
      IdIsKept(birth.value, passes);
      forall r | r in w.image.rules && r.id == id ensures r == T.RuleAfter(birth.value, passes) {
        IdsSayWhich(w.image.rules, r, T.RuleAfter(birth.value, passes));
      }
    }
  }

  /** The end of a pass whose snapshot lacks the rule. */
  lemma EndFollowsOthers(w: World, s: Step, id: string, birth: Option<Rule>, passes: seq<T.Pass>)
    requires WorldOk(w) && Legal(w, s) && s.End? && Follows(w, id, birth, passes) && !Holds(w.snapshot, id)
    ensures Follows(Next(w, s), id, birth, passes)
  {
    assert id !in s.updates;
    forall e | e in s.fired ensures e.ruleId != id {
      var r :| r in w.snapshot && FiresIn(r, s.readings, w.began) && e == EmissionOf(r, w.began);
    }
    NoTimes(s.fired, id);
    TimesOfConcat(w.emitted, s.fired, id);
    if birth.Some? {
      IdIsKept(birth.value, passes);
      NotUpdated(w, s, T.RuleAfter(birth.value, passes));
    } else {
      NoneAppears(w, s, id);
    }
  }

  lemma NotUpdated(w: World, s: Step, r: Rule)
    requires s.End? && r in w.image.rules && r.id !in s.updates
    ensures r in Next(w, s).image.rules
  {
    var k :| 0 <= k < |w.image.rules| && w.image.rules[k] == r;
    assert Next(w, s).image.rules[k] == r;
  }

  lemma NoneAppears(w: World, s: Step, id: string)
    requires s.End? && !Holds(w.image.rules, id)
    ensures !Holds(Next(w, s).image.rules, id)
  {
    var rules := Next(w, s).image.rules;
    forall r | r in rules ensures r.id != id {
      var k :| 0 <= k < |rules| && rules[k] == r;
      assert w.image.rules[k] in w.image.rules && w.image.rules[k].id == r.id;
    }
  }

  /** What the end of a pass does to a rule of the store, and emits for it, is one step of its trace. */
  lemma EndIsOnePass(w: World, s: Step, id: string, r: Rule)
    requires WorldOk(w) && Legal(w, s) && s.End? && r in w.image.rules && r in w.snapshot && r.id == id
    ensures var p := T.Pass(w.began, ReadingOf(s.readings, id), !Refused(w, s));
      && (if p.writeOk then Updated(r, UpdateFor(r, p.reading, p.now)) else r) in Next(w, s).image.rules
      && TimesOf(Next(w, s).emitted, id) ==
         TimesOf(w.emitted, id) + (if p.writeOk && Fires(r, p.reading, p.now) then [p.now] else [])
  {
    TimesOfConcat(w.emitted, s.fired, id);
    if Refused(w, s) {
      assert Next(w, s).image == w.image && Next(w, s).emitted == w.emitted;
    } else {
      StoredUpdate(w, s, r);
      FiredOnce(w, s, r);
    }
  }

  lemma StoredUpdate(w: World, s: Step, r: Rule)
    requires Legal(w, s) && s.End? && r in w.image.rules && r in w.snapshot && !Refused(w, s)
    ensures Updated(r, UpdateIn(r, s.readings, w.began)) in Next(w, s).image.rules
  {
    var k :| 0 <= k < |w.image.rules| && w.image.rules[k] == r;
    assert Next(w, s).image.rules[k] == WithUpdate(r, s.updates);
  }

  lemma FiredOnce(w: World, s: Step, r: Rule)
    requires WorldOk(w) && Legal(w, s) && s.End? && r in w.snapshot
    ensures TimesOf(s.fired, r.id) == if FiresIn(r, s.readings, w.began) then [w.began] else []
  {
    if FiresIn(r, s.readings, w.began) {
      OneTime(s.fired, EmissionOf(r, w.began));
    } else {
      forall e | e in s.fired ensures e.ruleId != r.id {
        var q :| q in w.snapshot && FiresIn(q, s.readings, w.began) && e == EmissionOf(q, w.began);
        if q.id == r.id { IdsSayWhich(w.snapshot, q, r); }
      }
      NoTimes(s.fired, r.id);
    }
  }

  lemma EndFollows(w: World, s: Step, id: string, b: Rule, passes: seq<T.Pass>)
    requires WorldOk(w) && Legal(w, s) && s.End? && Follows(w, id, Some(b), passes) && Holds(w.snapshot, id)
    ensures Follows(Next(w, s), id, Some(b), passes + [T.Pass(w.began, ReadingOf(s.readings, id), !Refused(w, s))])
  {
    var r := T.RuleAfter(b, passes);
    var q :| q in w.snapshot && q.id == id;
    EndIsOnePass(w, s, id, r);
    T.RuleSnoc(b, passes, T.Pass(w.began, ReadingOf(s.readings, id), !Refused(w, s)));
  }

  // ------------------------------------------------------------------ whole runs

  lemma {:induction false} RunFollows(steps: seq<Step>, id: string)
    requires LegalRun(steps) && forall i :: 0 <= i < |steps| ==> Spares(steps[i], id)
    ensures Follows(D.Run(steps), id, Birth(steps, id), PassesOf(steps, id))
  {
    if steps != [] {
      var init, s := steps[..|steps| - 1], steps[|steps| - 1];
      var w, birth, passes := D.Run(init), Birth(init, id), PassesOf(init, id);
      RunFollows(init, id);
      WorldInvariant(init);
      match s {
        case Change(op, _) =>
          if op.Add? && op.id == id { CreationFollows(w, s, id); } else { ChangeFollows(w, s, id, birth, passes); }
        case Begin(_) => BeginFollows(w, s, id, birth, passes);
        case End(_, _, _, _) =>
          if Holds(w.snapshot, id) {
            EndFollows(w, s, id, birth.value, passes);
          } else {
            EndFollowsOthers(w, s, id, birth, passes);
          }
      }
    }
  }

  lemma {:induction false} PassesHaveTimes(steps: seq<Step>, id: string)
    requires LegalRun(steps)
    ensures forall i :: 0 <= i < |PassesOf(steps, id)| ==> PassesOf(steps, id)[i].now > 0
  {
    if steps != [] {
      PassesHaveTimes(steps[..|steps| - 1], id);
      WorldInvariant(steps[..|steps| - 1]);
    }
  }

  lemma {:induction false} BornFresh(steps: seq<Step>, id: string)
    requires Birth(steps, id).Some?
    ensures Birth(steps, id).value.lastTriggered == 0 && Birth(steps, id).value.lastState == Nothing
  {
    var s := steps[|steps| - 1];
    if !(s.Change? && s.op.Add? && s.op.id == id && s.writeOk) { BornFresh(steps[..|steps| - 1], id); }
  }

  /** In every run of the evaluator and the store, with other rules created, edited and deleted also in
      the middle of a pass, the events of an active rule that is never edited or deleted are exactly the
      durably observed edges of its own passes, thinned by its cooldown. */
  lemma RunEmitsThinnedEdges(steps: seq<Step>, id: string)
    requires LegalRun(steps) && forall i :: 0 <= i < |steps| ==> Spares(steps[i], id)
    requires Birth(steps, id).Some?
    ensures var r, passes := Birth(steps, id).value, PassesOf(steps, id);
      && TimesOf(D.Run(steps).emitted, id) == T.Emitted(r, passes)
      && (r.body.active && T.Named(r.body.trigger) ==>
            TimesOf(D.Run(steps).emitted, id) ==
            T.Thinned(T.EdgeTimes(r.body.trigger, T.Durable(r.body.trigger, passes)), r.body.cooldownSec))
  {
    RunFollows(steps, id);
    PassesHaveTimes(steps, id);
    BornFresh(steps, id);
    var r := Birth(steps, id).value;
    if r.body.active && T.Named(r.body.trigger) {
      T.EmissionsAreThinnedEdges(r, PassesOf(steps, id));
    }
  }

  // ------------------------------------------------------------------ deleted rules

  /** The id was used, and no rule of it is stored or in a pass under way. */
  ghost predicate Gone(w: World, id: string) {
    id in w.used && !Holds(w.image.rules, id) && !Holds(w.snapshot, id)
  }

  lemma GoneStep(w: World, s: Step, id: string)
    requires WorldOk(w) && Legal(w, s) && Gone(w, id)
    ensures Gone(Next(w, s), id) && TimesOf(Next(w, s).emitted, id) == TimesOf(w.emitted, id)
  {
    match s {
      case Change(op, writeOk) =>
        forall r | r in After(w.image, op, writeOk).rules ensures r.id != id {
          if r.id == id {
            var q := OldRule(w.image, op, writeOk, r);
            assert Holds(w.image.rules, id);
          }
        }
      case Begin(_) =>
      case End(readings, updates, fired, _) =>
        NoneAppears(w, s, id);
        forall e | e in fired ensures e.ruleId != id {
          var r :| r in w.snapshot && FiresIn(r, readings, w.began) && e == EmissionOf(r, w.began);
        }
        NoTimes(fired, id);
        TimesOfConcat(w.emitted, fired, id);
    }
  }

  lemma {:induction false} GoneStaysGone(steps: seq<Step>, more: seq<Step>, id: string)
    requires LegalRun(steps + more) && Gone(D.Run(steps), id)
    ensures Gone(D.Run(steps + more), id)
    ensures TimesOf(D.Run(steps + more).emitted, id) == TimesOf(D.Run(steps).emitted, id)
    decreases |more|
  {
    if more == [] {
      assert steps + more == steps;
    } else {
      var init, last := more[..|more| - 1], more[|more| - 1];
      assert (steps + more)[..|steps + more| - 1] == steps + init;
      GoneStaysGone(steps, init, id);
      WorldInvariant(steps + init);
      GoneStep(D.Run(steps + init), last, id);
    }
  }

  /** Once a rule's deletion is stored, only a pass that was under way can still emit an event of it: from
      the first pass that begins after the deletion on, the rule emits nothing and is never there again. */
  lemma DeletedRuleIsSilent(steps: seq<Step>, id: string, now: int, more: seq<Step>)
    requires Holds(D.Run(steps).image.rules, id)
    requires LegalRun(steps + [Change(Delete(id), true), Begin(now)] + more)
    ensures var begun := D.Run(steps + [Change(Delete(id), true), Begin(now)]);
      var later := D.Run(steps + [Change(Delete(id), true), Begin(now)] + more);
      TimesOf(later.emitted, id) == TimesOf(begun.emitted, id) && !Holds(later.image.rules, id)
  {
    var delete, begin := Change(Delete(id), true), Begin(now);
    var begun := steps + [delete, begin];
    assert begun[..|begun| - 1] == steps + [delete] && (steps + [delete])[..|steps|] == steps;
    LegalPrefix(begun, more);
    LegalPrefix(steps, [delete, begin]);
    WorldInvariant(steps);
    var w := D.Run(steps);
    DeleteInFields(w.image, id);
    var r :| r in w.image.rules && r.id == id;
    assert D.Run(steps + [delete]) == Next(w, delete);
    assert D.Run(begun) == Next(Next(w, delete), begin);
    GoneStaysGone(begun, more, id);
  }

  lemma {:induction false} LegalPrefix(steps: seq<Step>, more: seq<Step>)
    requires LegalRun(steps + more)
    ensures LegalRun(steps)
    decreases |more|
  {
    if more == [] {
      assert steps + more == steps;
    } else {
      assert (steps + more)[..|steps + more| - 1] == steps + more[..|more| - 1];
      LegalPrefix(steps, more[..|more| - 1]);
    }
  }
}
