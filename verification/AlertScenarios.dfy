/** Concrete runs in which editing a rule's cooldown costs the change set a firing. */
module AlertScenarios {
  import opened Common
  import opened AlertRules
  import opened AlertStore
  import opened AlertEvaluator
  import opened AlertDedupe
  import opened AlertCollisions
  import D = AlertDedupe

  function RuleWith(id: string, cooldown: int): Rule {
    Rule(id, "u", 1, Body("T", Threshold, true, cooldown, "th"), 0, Nothing)
  }

  /** A pass that sees the condition satisfied, fires, and stores the rule's new state. */
  function FiringPass(r: Rule, now: int): seq<Step> {
    [Begin(now), End(map[r.id := Truth(true)], map[r.id := Update(now, Flag(true))], [EmissionOf(r, now)], true)]
  }

  function Fired(r: Rule, now: int): Rule { r.(lastTriggered := now, lastState := Flag(true)) }

  /** The edit: a new cooldown, and parameters, which clears the edge memory. */
  function Edit(id: string, cooldown: int): Step { Change(Replace(id, RuleWith(id, cooldown)), true) }

  /** Create under `c`, fire at `a`, edit to `d`, fire at `b`. */
  function EditedRule(id: string, c: int, a: int, d: int, b: int): seq<Step> {
    [Change(Add(RuleWith(id, c), id, 1), true)] + FiringPass(RuleWith(id, c), a) + [Edit(id, d)] +
    FiringPass(RuleWith(id, d).(lastTriggered := a), b)
  }

  /** Where a run that created one rule only stands between passes. */
  ghost predicate At(steps: seq<Step>, r: Rule, emitted: seq<Emission>, clock: int) {
    var w := D.Run(steps);
    LegalRun(steps) && w.image.rules == [r] && w.emitted == emitted && w.clock == clock
  }

  lemma PassFires(steps: seq<Step>, r: Rule, emitted: seq<Emission>, clock: int, now: int)
    requires At(steps, r, emitted, clock) && clock <= now && 0 < now
    requires r.body.active && r.body.trigger == Threshold && r.lastState == Nothing && CooledDown(r, now)
    ensures At(steps + FiringPass(r, now), Fired(r, now), emitted + [EmissionOf(r, now)], now)
  {
    var pass := FiringPass(r, now);
    assert steps + pass == steps + [pass[0]] + [pass[1]];
    RunSnoc(steps, pass[0]);
    RunSnoc(steps + [pass[0]], pass[1]);
    var w := D.Run(steps + [pass[0]]);
    assert Fires(r, Truth(true), now) && UpdateFor(r, Truth(true), now) == Some(Update(now, Flag(true)));
    assert r in [r] && pass[1].fired[0] == EmissionOf(r, now);
    assert w.image.rules[0].id in pass[1].updates;
  }

  lemma EditKeepsAt(steps: seq<Step>, r: Rule, emitted: seq<Emission>, clock: int, cooldown: int)
    requires At(steps, r, emitted, clock) && r.userId == "u" && r.createdAt == 1
    ensures At(steps + [Edit(r.id, cooldown)], RuleWith(r.id, cooldown).(lastTriggered := r.lastTriggered),
               emitted, clock)
  {
    RunSnoc(steps, Edit(r.id, cooldown));
    assert IndexOf([r], r.id) == 0;
  }

  /** Two properly spaced firings around an edit. */
  lemma EditedRuleRuns(id: string, c: int, a: int, d: int, b: int)
    requires 0 < a && b - a >= d >= 0
    ensures At(EditedRule(id, c, a, d, b), Fired(RuleWith(id, d).(lastTriggered := a), b),
               [Emission(id, a, c), Emission(id, b, d)], b)
  {
    var r, q := RuleWith(id, c), RuleWith(id, d).(lastTriggered := a);
    var s1 := [Change(Add(r, id, 1), true)];
    RunSnoc([], s1[0]);
    assert [] + s1 == s1;
    assert At(s1, r, [], 0);
    PassFires(s1, r, [], 0, a);
    var s2 := s1 + FiringPass(r, a);
    EditKeepsAt(s2, Fired(r, a), [] + [EmissionOf(r, a)], a, d);
    PassFires(s2 + [Edit(id, d)], q, [] + [EmissionOf(r, a)], a, b);
  }

  /** Whenever two properly spaced firings of an edited rule can collide, there is a run in which they do:
      both are emitted, under one key, and the change set shows the first only. */
  lemma EditedRuleLosesAFiring(h: Hash, id: string, c: int, a: int, d: int, b: int)
    requires c >= 1 && d >= 1 && Collides(c, a, d, b) && forall s :: h(s) != ""
    ensures var steps := EditedRule(id, c, a, d, b);
      LegalRun(steps) && D.Run(steps).emitted == [Emission(id, a, c), Emission(id, b, d)]
    ensures var first := Row("th", a, DedupeKey(h, Emission(id, a, c)));
      var second := Row("th", b, DedupeKey(h, Emission(id, b, d)));
      first.key == second.key && Kept([first, second], "th", 0) == [first]
  {
    EditedRuleRuns(id, c, a, d, b);
    OneKept(Row("th", a, DedupeKey(h, Emission(id, a, c))), Row("th", b, DedupeKey(h, Emission(id, b, d))));
  }

  lemma OneKept(first: Row, second: Row)
    requires first.thesisId == second.thesisId == "th" && 0 < first.ts && first.key == second.key != ""
    ensures Kept([first, second], "th", 0) == [first]
  {
    assert [first, second][..1] == [first] && [first][..0] == [];
    assert Relevant([first][0], "th", 0) && [first][0].key in KeysSeen([first], "th", 0);
    assert Kept([first], "th", 0) == [first];
  }

  /** Fire at 100 under a cooldown of 1, at 104 under 4, and at 300 under 3. */
  function EditedTwice(id: string): seq<Step> {
    EditedRule(id, 1, 100, 4, 104) + [Edit(id, 3)] + FiringPass(RuleWith(id, 3).(lastTriggered := 104), 300)
  }

  /** The last edit lowers the cooldown, and still its firing shares the key of the first one and is lost. */
  lemma LoweredCooldownLosesAFiring(h: Hash, id: string)
    ensures LegalRun(EditedTwice(id))
    ensures D.Run(EditedTwice(id)).emitted == [Emission(id, 100, 1), Emission(id, 104, 4), Emission(id, 300, 3)]
    ensures DedupeKey(h, Emission(id, 100, 1)) == DedupeKey(h, Emission(id, 300, 3))
    ensures Exposes(D.Run(EditedRule(id, 1, 100, 4, 104)).emitted, id, 0, 3, 104, 104)
      && !Exposes(D.Run(EditedRule(id, 1, 100, 4, 104)).emitted, id, 1, 3, 104, 104)
  {
    var steps, q := EditedRule(id, 1, 100, 4, 104), RuleWith(id, 4).(lastTriggered := 100);
    var two := [Emission(id, 100, 1), Emission(id, 104, 4)];
    EditedRuleRuns(id, 1, 100, 4, 104);
    EditKeepsAt(steps, Fired(q, 104), two, 104, 3);
    PassFires(steps + [Edit(id, 3)], RuleWith(id, 3).(lastTriggered := 104), two, 104, 300);
  }
}
