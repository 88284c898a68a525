/** When the next firing of a rule with any history can share the key of an earlier one, and the run in
    which it does. */
module AlertCollisions {
  import opened Common
  import opened AlertRules
  import opened AlertStore
  import opened AlertEvaluator
  import opened AlertDedupe
  import D = AlertDedupe

  // ------------------------------------------------------------------ last triggers

  /** The rule has not fired, or its last trigger is the time of one of its events. */
  ghost predicate TriggerEmitted(r: Rule, emitted: seq<Emission>) {
    r.lastTriggered == 0 || exists e :: e in emitted && e.ruleId == r.id && e.ts == r.lastTriggered
  }

  ghost predicate TriggersEmitted(rules: seq<Rule>, emitted: seq<Emission>) {
    forall r :: r in rules ==> TriggerEmitted(r, emitted)
  }

  lemma EmittedLater(r: Rule, emitted: seq<Emission>, more: seq<Emission>)
    requires TriggerEmitted(r, emitted)
    ensures TriggerEmitted(r, emitted + more)
  {
    if r.lastTriggered != 0 {
      var e :| e in emitted && e.ruleId == r.id && e.ts == r.lastTriggered;
      assert e in emitted + more;
    }
  }

  lemma ChangeKeepsTriggers(w: World, s: Step)
    requires WorldOk(w) && D.Legal(w, s) && s.Change? && TriggersEmitted(w.image.rules, w.emitted)
    ensures TriggersEmitted(Next(w, s).image.rules, w.emitted)
  {
    forall r | r in Next(w, s).image.rules ensures TriggerEmitted(r, w.emitted) {
      if s.op.Add? && r.id == s.op.id {
        NewRule(w, s.op, s.writeOk, r);
      } else {
        var q := OldRule(w.image, s.op, s.writeOk, r);
        assert TriggerEmitted(q, w.emitted);
      }
    }
  }

  lemma EndKeepsTriggers(w: World, s: Step)
    requires WorldOk(w) && D.Legal(w, s) && s.End?
    requires TriggersEmitted(w.image.rules, w.emitted) && TriggersEmitted(w.snapshot, w.emitted)
    ensures TriggersEmitted(Next(w, s).image.rules, Next(w, s).emitted)
  {
    var w' := Next(w, s);
    if !(Writes(w.image, ApplyUpdates(s.updates)) && !s.writeOk) {
      forall r' | r' in w'.image.rules ensures TriggerEmitted(r', w'.emitted) {
        var k :| 0 <= k < |w'.image.rules| && w'.image.rules[k] == r';
        assert w.image.rules[k] in w.image.rules;
        UpdatedTrigger(w, s, w.image.rules[k]);
      }
    }
  }

  lemma UpdatedTrigger(w: World, s: Step, r: Rule)
    requires WorldOk(w) && D.Legal(w, s) && s.End? && TriggerEmitted(r, w.emitted)
    requires TriggersEmitted(w.snapshot, w.emitted)
    ensures TriggerEmitted(WithUpdate(r, s.updates), w.emitted + s.fired)
  {
    if r.id in s.updates {
      var q :| q in w.snapshot && q.id == r.id;
      assert UpdateIn(q, s.readings, w.began) == Some(s.updates[q.id]);
      if FiresIn(q, s.readings, w.began) {
        assert EmissionOf(q, w.began) in s.fired && EmissionOf(q, w.began) in w.emitted + s.fired;
      } else {
        EmittedLater(q, w.emitted, s.fired);
      }
    } else {
      EmittedLater(r, w.emitted, s.fired);
    }
  }

  lemma {:induction false} RunTriggers(steps: seq<Step>)
    requires LegalRun(steps)
    ensures TriggersEmitted(D.Run(steps).image.rules, D.Run(steps).emitted)
    ensures TriggersEmitted(D.Run(steps).snapshot, D.Run(steps).emitted)
  {
    if steps != [] {
      var w, s := D.Run(steps[..|steps| - 1]), steps[|steps| - 1];
      RunTriggers(steps[..|steps| - 1]);
      WorldInvariant(steps[..|steps| - 1]);
      match s {
        case Change(_, _) => ChangeKeepsTriggers(w, s);
        case Begin(_) =>
        case End(_, _, _, _) => EndKeepsTriggers(w, s);
      }
    }
  }

  // ------------------------------------------------------------------ the next firing

  /** Emission `n` is the rule's latest firing. */
  ghost predicate Latest(emitted: seq<Emission>, ruleId: string, n: nat) {
    n < |emitted| && emitted[n].ruleId == ruleId && forall i :: n < i < |emitted| ==> emitted[i].ruleId != ruleId
  }

  /** Events come in the order of their times, none after the clock. */
  ghost predicate Rising(emitted: seq<Emission>, clock: int) {
    && (forall i, j :: 0 <= i < j < |emitted| ==> emitted[i].ts <= emitted[j].ts)
    && (forall i :: 0 <= i < |emitted| ==> emitted[i].ts <= clock)
  }

  lemma {:induction false} EmittedRising(steps: seq<Step>)
    requires LegalRun(steps)
    ensures Rising(D.Run(steps).emitted, D.Run(steps).clock)
  {
    if steps != [] {
      var w, s := D.Run(steps[..|steps| - 1]), steps[|steps| - 1];
      EmittedRising(steps[..|steps| - 1]);
      WorldInvariant(steps[..|steps| - 1]);
      if s.End? {
        forall i | 0 <= i < |s.fired| ensures s.fired[i].ts == w.clock {
          assert s.fired[i] in s.fired;
        }
      }
    }
  }

  lemma LatestIsTrigger(r: Rule, e: seq<Emission>, clock: int, n: nat)
    requires Rising(e, clock) && TriggerEmitted(r, e) && Remembers(r, e) && Latest(e, r.id, n)
    ensures r.lastTriggered == e[n].ts > 0
  {
    assert e[n] in e;
    var x :| x in e && x.ruleId == r.id && x.ts == r.lastTriggered;
    var i :| 0 <= i < |e| && e[i] == x;
    assert i <= n;
  }

  /** The rule's last trigger is its latest firing. */
  lemma LastTriggerIsLatest(steps: seq<Step>, r: Rule, n: nat)
    requires LegalRun(steps) && r in D.Run(steps).image.rules && Latest(D.Run(steps).emitted, r.id, n)
    ensures r.lastTriggered == D.Run(steps).emitted[n].ts > 0
  {
    WorldInvariant(steps);
    RunTriggers(steps);
    EmittedRising(steps);
    LatestIsTrigger(r, D.Run(steps).emitted, D.Run(steps).clock, n);
  }

  /** A firing of the rule at `b` under cooldown `d` shares the key of its earlier firing `i`. */
  ghost predicate SharesKey(h: Hash, emitted: seq<Emission>, ruleId: string, i: nat, d: int, b: int) {
    && i < |emitted| && emitted[i].ruleId == ruleId && emitted[i].ts >= 0 && b >= 0
    && DedupeKey(h, emitted[i]) == DedupeKey(h, Emission(ruleId, b, d))
  }

  /** Firing `i` of the rule lies in a bucket whose number, read under cooldown `d`, starts after the last
      firing and is not over. */
  ghost predicate Exposes(emitted: seq<Emission>, ruleId: string, i: nat, d: int, last: int, now: int) {
    && i < |emitted| && emitted[i].ruleId == ruleId && emitted[i].ts >= 0
    && d * Bucket(emitted[i].cooldownSec, emitted[i].ts) > last
    && d * Bucket(emitted[i].cooldownSec, emitted[i].ts) + d > now
  }

  lemma FiringExposedIff(h: Hash, e: seq<Emission>, ruleId: string, i: nat, d: int, last: int, now: int)
    requires Injective(h) && d >= 1 && last > 0 && i < |e| && e[i].ruleId == ruleId && e[i].ts >= 0
    ensures (exists b :: b >= now && b - last >= d && SharesKey(h, e, ruleId, i, d, b)) <==>
      Exposes(e, ruleId, i, d, last, now)
  {
    var q := Bucket(e[i].cooldownSec, e[i].ts);
    BucketReachedIff(last, now, d, q);
    forall b | b - last >= d ensures SharesKey(h, e, ruleId, i, d, b) <==> b / d == q {
      SameKeyIff(h, e[i], Emission(ruleId, b, d));
    }
    if d * q > last && d * q + d > now {
      var b :| b >= now && b - last >= d && b / d == q;
      assert SharesKey(h, e, ruleId, i, d, b);
    }
  }

  /** The rule with a new cooldown, watching a threshold, with its edge memory cleared. */
  function Edited(r: Rule, d: int): Rule {
    r.(body := r.body.(trigger := Threshold, active := true, cooldownSec := d), lastState := Nothing)
  }

  /** Edit the rule's cooldown to `d`, and run a pass at `b` that finds its condition met. */
  function Refire(r: Rule, d: int, b: int): seq<Step> {
    [Change(Replace(r.id, Edited(r, d)), true), Begin(b),
     End(map[r.id := Truth(true)], map[r.id := Update(b, Flag(true))], [Emission(r.id, b, d)], true)]
  }

  lemma RunSnoc(steps: seq<Step>, s: Step)
    ensures D.Run(steps + [s]) == Next(D.Run(steps), s)
    ensures LegalRun(steps + [s]) <==> LegalRun(steps) && D.Legal(D.Run(steps), s)
  {
    assert (steps + [s])[..|steps|] == steps;
  }

  /** The pass reads nothing for any other rule, so it is the edited rule's alone. */
  lemma PassOfOne(rules: seq<Rule>, q: Rule, b: int)
    requires DistinctIds(rules) && q in rules && q.body.active && q.body.trigger == Threshold && q.lastState == Nothing
    ensures var readings := map[q.id := Truth(true)];
      var trigger := if CooledDown(q, b) then b else q.lastTriggered;
      && UpdatesExactly(rules, readings, b, map[q.id := Update(trigger, Flag(true))])
      && (FiresExactly(rules, readings, b, [EmissionOf(q, b)]) <==> CooledDown(q, b))
  {
    var readings := map[q.id := Truth(true)];
    forall r | r in rules ensures r.id == q.id <==> r == q {
      if r.id == q.id { IdsSayWhich(rules, r, q); }
    }
    forall r | r in rules && r != q ensures UpdateIn(r, readings, b) == None && !FiresIn(r, readings, b) {
      assert ReadingOf(readings, r.id) == Missing;
    }
    if CooledDown(q, b) {
      assert FiresIn(q, readings, b);
    } else {
      assert EmissionOf(q, b) in [EmissionOf(q, b)];
    }
  }

  lemma EditedIsThere(m: Image, r: Rule, d: int)
    requires r in m.rules && DistinctIds(m.rules)
    ensures Edited(r, d) in After(m, Replace(r.id, Edited(r, d)), true).rules
  {
    var k := IndexOf(m.rules, r.id);
    assert k < |m.rules|;
    IdsSayWhich(m.rules, m.rules[k], r);
    assert After(m, Replace(r.id, Edited(r, d)), true).rules[k] == Edited(r, d);
  }

  /** That is a run exactly when the time has come and the rule has cooled down. */
  lemma RefireIsLegal(steps: seq<Step>, r: Rule, d: int, b: int)
    requires LegalRun(steps) && r in D.Run(steps).image.rules && r.lastTriggered > 0 && d >= 1
    ensures LegalRun(steps + Refire(r, d, b)) <==> b >= D.Run(steps).clock && b - r.lastTriggered >= d
    ensures LegalRun(steps + Refire(r, d, b)) ==>
      D.Run(steps + Refire(r, d, b)).emitted == D.Run(steps).emitted + [Emission(r.id, b, d)]
  {
    var s, w, q := Refire(r, d, b), D.Run(steps), Edited(r, d);
    WorldInvariant(steps);
    assert steps + s == steps + [s[0]] + [s[1]] + [s[2]];
    RunSnoc(steps, s[0]);
    RunSnoc(steps + [s[0]], s[1]);
    RunSnoc(steps + [s[0]] + [s[1]], s[2]);
    OpKeepsIdsDistinct(w.image, s[0].op, true);
    EditedIsThere(w.image, r, d);
    assert Remembers(r, w.emitted);
    var rules := Next(w, s[0]).image.rules;
    PassOfOne(rules, q, b);
    assert EmissionOf(q, b) == Emission(r.id, b, d);
  }

  /** In every run and for every rule in it, whatever edits it went through: some edit to cooldown `d` and
      pass give it an event under the key of an earlier one exactly when one of its firings so far is
      exposed. */
  lemma NextFiringCanCollideIff(h: Hash, steps: seq<Step>, r: Rule, n: nat, d: int)
    requires Injective(h) && LegalRun(steps) && d >= 1
    requires r in D.Run(steps).image.rules && Latest(D.Run(steps).emitted, r.id, n)
    ensures var w := D.Run(steps);
      (exists i, b :: LegalRun(steps + Refire(r, d, b)) && SharesKey(h, w.emitted, r.id, i, d, b)) <==>
      (exists i :: Exposes(w.emitted, r.id, i, d, w.emitted[n].ts, w.clock))
  {
    WorldInvariant(steps);
    LastTriggerIsLatest(steps, r, n);
    var w := D.Run(steps);
    var e, last := w.emitted, w.emitted[n].ts;
    forall b ensures LegalRun(steps + Refire(r, d, b)) <==> b >= w.clock && b - last >= d {
      RefireIsLegal(steps, r, d, b);
    }
    forall i: nat | i < |e| && e[i].ruleId == r.id
      ensures (exists b :: b >= w.clock && b - last >= d && SharesKey(h, e, r.id, i, d, b)) <==>
        Exposes(e, r.id, i, d, last, w.clock)
    {
      assert e[i] in e;
      FiringExposedIff(h, e, r.id, i, d, last, w.clock);
    }
  }
}
