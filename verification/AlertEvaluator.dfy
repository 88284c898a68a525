/** One evaluation pass over all rules, and whole runs in which passes interleave with the rule
    operations of the store. */
module AlertEvaluator {
  import opened Common
  import opened AlertRules
  import opened AlertStore

  datatype Emission = Emission(ruleId: string, ts: int, cooldownSec: int)

  function ReadingOf(readings: map<string, Reading>, id: string): Reading {
    if id in readings then readings[id] else Missing
  }

  function EmissionOf(r: Rule, now: int): Emission {
    Emission(r.id, now, r.body.cooldownSec)
  }

  predicate FiresIn(r: Rule, readings: map<string, Reading>, now: int) {
    Fires(r, ReadingOf(readings, r.id), now)
  }

  function UpdateIn(r: Rule, readings: map<string, Reading>, now: int): Option<Update> {
    UpdateFor(r, ReadingOf(readings, r.id), now)
  }

  /** `updates` holds exactly the changes the rules ask for. */
  ghost predicate UpdatesExactly(rules: seq<Rule>, readings: map<string, Reading>, now: int, updates: Updates) {
    && (forall id :: id in updates ==> exists r :: r in rules && r.id == id)
    && (forall r :: r in rules ==>
          (r.id in updates <==> UpdateIn(r, readings, now).Some?)
          && (r.id in updates ==> updates[r.id] == UpdateIn(r, readings, now).value))
  }

  /** `fired` holds exactly one event for each rule that fires. */
  ghost predicate FiresExactly(rules: seq<Rule>, readings: map<string, Reading>, now: int, fired: seq<Emission>) {
    && (forall e :: e in fired ==> exists r :: r in rules && FiresIn(r, readings, now) && e == EmissionOf(r, now))
    && (forall r :: r in rules && FiresIn(r, readings, now) ==> EmissionOf(r, now) in fired)
    && (forall i, j :: 0 <= i < j < |fired| ==> fired[i].ruleId != fired[j].ruleId)
  }

  /** The active rules by ticker, in snapshot order. */
  function Grouped(rules: seq<Rule>): map<string, seq<Rule>> {
    if rules == [] then map[]
    else
      var m, r := Grouped(rules[..|rules| - 1]), rules[|rules| - 1];
      if r.body.active then m[r.body.ticker := (if r.body.ticker in m then m[r.body.ticker] else []) + [r]] else m
  }

  method GroupByTicker(rules: seq<Rule>) returns (byTicker: map<string, seq<Rule>>)
    ensures byTicker == Grouped(rules)
  {
    byTicker := map[];
    for i := 0 to |rules|
      invariant byTicker == Grouped(rules[..i])
    {
      var r := rules[i];
      assert rules[..i + 1][..i] == rules[..i];
      if r.body.active {
        var group := if r.body.ticker in byTicker then byTicker[r.body.ticker] else [];
        byTicker := byTicker[r.body.ticker := group + [r]];
      }
    }
    assert rules[..|rules|] == rules;
  }

  /** Every active rule is in the group of its ticker and in no other. */
  ghost predicate GroupsOf(rules: seq<Rule>, byTicker: map<string, seq<Rule>>) {
    && (forall t :: t in byTicker ==> DistinctIds(byTicker[t]))
    && (forall t, r :: t in byTicker && r in byTicker[t] ==> r in rules && r.body.active && r.body.ticker == t)
    && (forall r :: r in rules && r.body.active ==> r.body.ticker in byTicker && r in byTicker[r.body.ticker])
  }

  lemma {:induction false} GroupedIsGroups(rules: seq<Rule>)
    requires DistinctIds(rules)
    ensures GroupsOf(rules, Grouped(rules))
  {
    if rules != [] {
      var init, r := rules[..|rules| - 1], rules[|rules| - 1];
      assert rules == init + [r];
      GroupedIsGroups(init);
      if r.body.active {
        GroupGains(init, Grouped(init), r);
      }
    }
  }

  lemma GroupGains(init: seq<Rule>, m: map<string, seq<Rule>>, r: Rule)
    requires GroupsOf(init, m) && DistinctIds(init + [r]) && r.body.active
    ensures GroupsOf(init + [r], m[r.body.ticker := (if r.body.ticker in m then m[r.body.ticker] else []) + [r]])
  {
    var t := r.body.ticker;
    var group := if t in m then m[t] else [];
    forall q | q in init ensures q.id != r.id { LastIdIsNew(init, r, q); }
    forall k | 0 <= k < |group| ensures group[k].id != r.id {
      assert group[k] in init;
    }
  }

  /** The changes of one group on top of earlier ones, and its events, in order. */
  function WithUpdates(group: seq<Rule>, readings: map<string, Reading>, now: int, u0: Updates): Updates {
    if group == [] then u0
    else
      var r := group[|group| - 1];
      var u := WithUpdates(group[..|group| - 1], readings, now, u0);
      match UpdateIn(r, readings, now) case None => u case Some(v) => u[r.id := v]
  }

  function Firings(group: seq<Rule>, readings: map<string, Reading>, now: int): seq<Emission> {
    if group == [] then []
    else
      var r := group[|group| - 1];
      Firings(group[..|group| - 1], readings, now) + if FiresIn(r, readings, now) then [EmissionOf(r, now)] else []
  }

  /** Earlier updates stay, and the new ones are of the group's rules. */
  lemma {:induction false} WithUpdatesKeeps(group: seq<Rule>, readings: map<string, Reading>, now: int, u0: Updates)
    requires forall r :: r in group ==> r.id !in u0
    ensures var u := WithUpdates(group, readings, now, u0);
      && (forall id :: id in u ==> id in u0 || exists r :: r in group && r.id == id)
      && (forall id :: id in u0 ==> id in u && u[id] == u0[id])
  {
    if group != [] {
      var init, r := group[..|group| - 1], group[|group| - 1];
      assert group == init + [r];
      WithUpdatesKeeps(init, readings, now, u0);
    }
  }

  /** Each rule of the group has exactly the update it asks for. */
  lemma {:induction false} WithUpdatesExactly(group: seq<Rule>, readings: map<string, Reading>, now: int, u0: Updates)
    requires DistinctIds(group) && forall r :: r in group ==> r.id !in u0
    ensures var u := WithUpdates(group, readings, now, u0);
      forall r :: r in group ==>
        (r.id in u <==> UpdateIn(r, readings, now).Some?)
        && (r.id in u ==> u[r.id] == UpdateIn(r, readings, now).value)
  {
    if group != [] {
      var init, r := group[..|group| - 1], group[|group| - 1];
      assert group == init + [r];
      WithUpdatesExactly(init, readings, now, u0);
      WithUpdatesKeeps(init, readings, now, u0);
      forall q | q in init ensures q.id != r.id { LastIdIsNew(init, r, q); }
    }
  }

  lemma LastIdIsNew(init: seq<Rule>, r: Rule, q: Rule)
    requires DistinctIds(init + [r]) && q in init
    ensures q.id != r.id
  {
    var k :| 0 <= k < |init| && init[k] == q;
    assert (init + [r])[k] == q && (init + [r])[|init|] == r;
  }

  lemma {:induction false} FiringsExactly(group: seq<Rule>, readings: map<string, Reading>, now: int)
    requires DistinctIds(group)
    ensures FiresExactly(group, readings, now, Firings(group, readings, now))
  {
    if group != [] {
      var init, r := group[..|group| - 1], group[|group| - 1];
      assert group == init + [r];
      FiringsExactly(init, readings, now);
      forall q | q in init ensures q.id != r.id { LastIdIsNew(init, r, q); }
      var before := Firings(init, readings, now);
      forall i | 0 <= i < |before| ensures before[i].ruleId != r.id {
        assert before[i] in before;
      }
    }
  }

  /** Evaluates one ticker's group, extending the updates and the events. */
  method PlanGroup(group: seq<Rule>, readings: map<string, Reading>, now: int, updates0: Updates, fired0: seq<Emission>)
    returns (updates: Updates, fired: seq<Emission>)
    requires forall r :: r in group ==> r.body.active
    ensures updates == WithUpdates(group, readings, now, updates0)
    ensures fired == fired0 + Firings(group, readings, now)
  {
    updates, fired := updates0, fired0;
    for n := 0 to |group|
      invariant updates == WithUpdates(group[..n], readings, now, updates0)
      invariant fired == fired0 + Firings(group[..n], readings, now)
    {
      var rule := group[n];
      assert group[..n + 1][..n] == group[..n] && rule in group;
      var res := Evaluate(rule.body.trigger, rule.lastState, ReadingOf(readings, rule.id));
      if res.Observed? {
        var changed := rule.lastState != res.state;
        var lastTriggered := rule.lastTriggered;
        if res.fired {
          if rule.lastTriggered == 0 || now - rule.lastTriggered >= rule.body.cooldownSec {
            fired := fired + [EmissionOf(rule, now)];
            lastTriggered := now;
            changed := true;
          }
        }
        if changed {
          updates := updates[rule.id := Update(lastTriggered, res.state)];
        }
      }
    }
    assert group[..|group|] == group;
  }

  /** `updates` and `fired` so far, with the tickers in `left` still to come. */
  ghost predicate UpdatesBut(
    rules: seq<Rule>, readings: map<string, Reading>, now: int, left: set<string>, updates: Updates) {
    && (forall id :: id in updates ==> exists r :: r in rules && r.id == id && r.body.ticker !in left)
    && (forall r :: r in rules && r.body.ticker !in left ==>
          (r.id in updates <==> UpdateIn(r, readings, now).Some?)
          && (r.id in updates ==> updates[r.id] == UpdateIn(r, readings, now).value))
  }

  ghost predicate FiresBut(
    rules: seq<Rule>, readings: map<string, Reading>, now: int, left: set<string>, fired: seq<Emission>) {
    && (forall e :: e in fired ==>
          exists r :: r in rules && r.body.ticker !in left && FiresIn(r, readings, now) && e == EmissionOf(r, now))
    && (forall r :: r in rules && r.body.ticker !in left && FiresIn(r, readings, now) ==> EmissionOf(r, now) in fired)
    && (forall i, j :: 0 <= i < j < |fired| ==> fired[i].ruleId != fired[j].ruleId)
  }

  lemma IdsSayWhich(rules: seq<Rule>, q: Rule, r: Rule)
    requires DistinctIds(rules) && q in rules && r in rules && q.id == r.id
    ensures q == r
  {
  }

  lemma UpdatesGain(rules: seq<Rule>, byTicker: map<string, seq<Rule>>, readings: map<string, Reading>, now: int,
                    left: set<string>, updates: Updates, t: string)
    requires DistinctIds(rules) && GroupsOf(rules, byTicker) && t in left && t in byTicker
    requires UpdatesBut(rules, readings, now, left, updates)
    ensures UpdatesBut(rules, readings, now, left - {t}, WithUpdates(byTicker[t], readings, now, updates))
  {
    forall r | r in byTicker[t] ensures r.id !in updates {
      if r.id in updates {
        UpdatedBefore(rules, readings, now, left, updates, r);
      }
    }
    WithUpdatesExactly(byTicker[t], readings, now, updates);
    WithUpdatesKeeps(byTicker[t], readings, now, updates);
    var u := WithUpdates(byTicker[t], readings, now, updates);
    forall r | r in rules && r.body.ticker !in left - {t}
      ensures r.id in u <==> UpdateIn(r, readings, now).Some?
      ensures r.id in u ==> u[r.id] == UpdateIn(r, readings, now).value
    {
      GroupUpdate(rules, byTicker, readings, now, left, updates, t, r);
    }
  }

  lemma GroupUpdate(rules: seq<Rule>, byTicker: map<string, seq<Rule>>, readings: map<string, Reading>, now: int,
                    left: set<string>, updates: Updates, t: string, r: Rule)
    requires DistinctIds(rules) && GroupsOf(rules, byTicker) && t in left && t in byTicker
    requires UpdatesBut(rules, readings, now, left, updates)
    requires forall q :: q in byTicker[t] ==> q.id !in updates
    requires r in rules && r.body.ticker !in left - {t}
    ensures var u := WithUpdates(byTicker[t], readings, now, updates);
      && (r.id in u <==> UpdateIn(r, readings, now).Some?)
      && (r.id in u ==> u[r.id] == UpdateIn(r, readings, now).value)
  {
    WithUpdatesExactly(byTicker[t], readings, now, updates);
    WithUpdatesKeeps(byTicker[t], readings, now, updates);
    if r.id in updates {
      UpdatedBefore(rules, readings, now, left, updates, r);
    } else if q :| q in byTicker[t] && q.id == r.id {
      IdsSayWhich(rules, q, r);
    }
  }

  lemma UpdatedBefore(
    rules: seq<Rule>, readings: map<string, Reading>, now: int, left: set<string>, updates: Updates, r: Rule)
    requires DistinctIds(rules) && UpdatesBut(rules, readings, now, left, updates) && r in rules && r.id in updates
    ensures r.body.ticker !in left
  {
    var q :| q in rules && q.id == r.id && q.body.ticker !in left;
    IdsSayWhich(rules, q, r);
  }

  lemma FiringsGain(rules: seq<Rule>, byTicker: map<string, seq<Rule>>, readings: map<string, Reading>, now: int,
                    left: set<string>, fired: seq<Emission>, t: string)
    requires DistinctIds(rules) && GroupsOf(rules, byTicker) && t in left && t in byTicker
    requires FiresBut(rules, readings, now, left, fired)
    ensures FiresBut(rules, readings, now, left - {t}, fired + Firings(byTicker[t], readings, now))
  {
    FiringsExactly(byTicker[t], readings, now);
    var more := Firings(byTicker[t], readings, now);
    forall i, j | 0 <= i < |fired| && 0 <= j < |more|
      ensures fired[i].ruleId != more[j].ruleId
    {
      assert fired[i] in fired && more[j] in more;
      var q :| q in rules && q.body.ticker !in left && fired[i] == EmissionOf(q, now);
      var r :| r in byTicker[t] && more[j] == EmissionOf(r, now);
      assert q != r && r in rules;
    }
  }

  /** Plans a pass over a snapshot, one ticker at a time in no particular order. */
  method Plan(
    rules: seq<Rule>, readings: map<string, Reading>, now: int) returns (updates: Updates, fired: seq<Emission>)
    requires DistinctIds(rules)
    ensures UpdatesExactly(rules, readings, now, updates) && FiresExactly(rules, readings, now, fired)
  {
    var byTicker := GroupByTicker(rules);
    GroupedIsGroups(rules);
    updates, fired := map[], [];
    var left := byTicker.Keys;
    while left != {}
      invariant left <= byTicker.Keys
      invariant UpdatesBut(rules, readings, now, left, updates) && FiresBut(rules, readings, now, left, fired)
      decreases left
    {
      var t :| t in left;
      UpdatesGain(rules, byTicker, readings, now, left, updates, t);
      FiringsGain(rules, byTicker, readings, now, left, fired, t);
      updates, fired := PlanGroup(byTicker[t], readings, now, updates, fired);
      left := left - {t};
    }
  }

  /** The end of a pass over a snapshot taken earlier, whatever others did to the store since: plan, write
      the rule changes, and only then hand out the events. `lost` names the rules whose event could not be
      appended. */
  method EndPass(
    store: Store, snapshot: seq<Rule>, readings: map<string, Reading>, now: int, writeOk: bool, lost: set<string>)
    returns (updates: Updates, fired: seq<Emission>, emitted: seq<Emission>, appended: seq<Emission>)
    requires store.Valid() && DistinctIds(snapshot)
    modifies store
    ensures store.Valid()
    ensures UpdatesExactly(snapshot, readings, now, updates) && FiresExactly(snapshot, readings, now, fired)
    ensures store.Memory() == After(old(store.Memory()), ApplyUpdates(updates), writeOk)
    ensures emitted == if Writes(old(store.Memory()), ApplyUpdates(updates)) && !writeOk then [] else fired
    ensures forall e :: e in appended <==> e in emitted && e.ruleId !in lost
  {
    updates, fired := Plan(snapshot, readings, now);
    var ok := store.ApplyEvalUpdates(updates, writeOk);
    if !ok {
      return updates, fired, [], [];
    }
    emitted, appended := fired, [];
    for n := 0 to |fired|
      invariant store.Valid() && store.Memory() == After(old(store.Memory()), ApplyUpdates(updates), writeOk)
      invariant forall e :: e in appended <==> e in fired[..n] && e.ruleId !in lost
    {
      assert fired[..n + 1] == fired[..n] + [fired[n]];
      if fired[n].ruleId !in lost {
        appended := appended + [fired[n]];
      }
    }
    assert fired[..|fired|] == fired;
  }

  /** A whole pass that no other operation interrupts. */
  method EvalAll(store: Store, readings: map<string, Reading>, now: int, writeOk: bool, lost: set<string>)
    returns (emitted: seq<Emission>, appended: seq<Emission>)
    requires store.Valid() && DistinctIds(store.rules)
    modifies store
    ensures store.Valid()
    ensures store.watermarks == old(store.watermarks) && store.readIds == old(store.readIds)
    ensures |store.rules| == |old(store.rules)|
    ensures !writeOk ==> store.rules == old(store.rules)
    ensures writeOk ==> forall i :: 0 <= i < |store.rules| ==>
      store.rules[i] == Updated(old(store.rules)[i], UpdateIn(old(store.rules)[i], readings, now))
    ensures writeOk ==> FiresExactly(old(store.rules), readings, now, emitted)
    ensures !writeOk ==> forall e :: e !in emitted
    ensures forall e :: e in appended <==> e in emitted && e.ruleId !in lost
  {
    var snapshot := store.rules;
    var updates, fired: seq<Emission>;
    updates, fired, emitted, appended := EndPass(store, snapshot, readings, now, writeOk, lost);
    forall i | 0 <= i < |snapshot|
      ensures snapshot[i].id in updates <==> UpdateIn(snapshot[i], readings, now).Some?
      ensures snapshot[i].id in updates ==> updates[snapshot[i].id] == UpdateIn(snapshot[i], readings, now).value
    {
      assert snapshot[i] in snapshot;
    }
    if !writeOk && !Writes(old(store.Memory()), ApplyUpdates(updates)) {
      SilentWithoutUpdates(snapshot, readings, now, updates, fired);
    }
  }

  /** A pass that has nothing to write has nothing to say. */
  lemma SilentWithoutUpdates(
    rules: seq<Rule>, readings: map<string, Reading>, now: int, updates: Updates, fired: seq<Emission>)
    requires UpdatesExactly(rules, readings, now, updates) && FiresExactly(rules, readings, now, fired)
    requires forall i :: 0 <= i < |rules| ==> rules[i].id !in updates
    ensures forall e :: e !in fired
  {
    forall r | r in rules ensures !FiresIn(r, readings, now) {
      var i :| 0 <= i < |rules| && rules[i] == r;
      assert rules[i].id !in updates;
    }
  }
}
