/** Passes interleaved with rule creation, editing and deletion, and the consumer that collapses
    events by dedupe key: why the collapse loses no firing, and when it would. */
module AlertDedupe {
  import opened Common
  import opened AlertRules
  import opened AlertStore
  import opened AlertEvaluator
  import Text

  // ------------------------------------------------------------------ interleaved runs

  /** One evaluator, working from the snapshot it took when its pass began, beside a store that others
      keep changing. */
  datatype World = World(
    image: Image, snapshot: seq<Rule>, began: int, clock: int, used: set<string>, emitted: seq<Emission>)

  datatype Step =
    | Change(op: Op, writeOk: bool)
    | Begin(now: int)
    | End(readings: map<string, Reading>, updates: Updates, fired: seq<Emission>, writeOk: bool)

  ghost predicate Legal(w: World, s: Step) {
    match s
    case Change(op, _) => !op.ApplyUpdates? && (op.Add? ==> op.id !in w.used)
    case Begin(now) => w.clock <= now && 0 < now
    case End(readings, updates, fired, _) =>
      UpdatesExactly(w.snapshot, readings, w.began, updates) && FiresExactly(w.snapshot, readings, w.began, fired)
  }

  function Next(w: World, s: Step): World {
    match s
    case Change(op, writeOk) =>
      w.(image := After(w.image, op, writeOk), used := if op.Add? then w.used + {op.id} else w.used)
    case Begin(now) => w.(snapshot := w.image.rules, began := now, clock := now)
    case End(_, updates, fired, writeOk) =>
      var failed := Writes(w.image, ApplyUpdates(updates)) && !writeOk;
      w.(image := After(w.image, ApplyUpdates(updates), writeOk), snapshot := [],
         emitted := if failed then w.emitted else w.emitted + fired)
  }

  function Run(steps: seq<Step>): World {
    if steps == [] then World(Image([], map[], map[]), [], 0, 0, {}, [])
    else Next(Run(steps[..|steps| - 1]), steps[|steps| - 1])
  }

  ghost predicate LegalRun(steps: seq<Step>) {
    steps == [] ||
    (LegalRun(steps[..|steps| - 1]) && Legal(Run(steps[..|steps| - 1]), steps[|steps| - 1]))
  }

  /** A rule's last trigger is no older than anything the rule has emitted. */
  ghost predicate Remembers(r: Rule, emitted: seq<Emission>) {
    forall e :: e in emitted && e.ruleId == r.id ==> 0 < e.ts <= r.lastTriggered
  }

  ghost predicate Known(rules: seq<Rule>, w: World) {
    && DistinctIds(rules)
    && forall r :: r in rules ==> r.id in w.used && r.lastTriggered <= w.clock && Remembers(r, w.emitted)
  }

  ghost predicate Spaced(emitted: seq<Emission>) {
    forall i, j :: 0 <= i < j < |emitted| && emitted[i].ruleId == emitted[j].ruleId ==>
      emitted[j].ts - emitted[i].ts >= emitted[j].cooldownSec && 0 < emitted[i].ts
  }

  ghost predicate WorldOk(w: World) {
    && Known(w.image.rules, w) && Known(w.snapshot, w)
    && (forall e :: e in w.emitted ==> e.ruleId in w.used && 0 < e.ts)
    && 0 <= w.clock && (w.snapshot != [] ==> 0 < w.began == w.clock)
    && Spaced(w.emitted)
  }

  lemma ChangeKeepsOk(w: World, s: Step)
    requires WorldOk(w) && Legal(w, s) && s.Change?
    ensures WorldOk(Next(w, s))
  {
    var rules' := After(w.image, s.op, s.writeOk).rules;
    OpKeepsIdsDistinct(w.image, s.op, s.writeOk);
    forall r | r in rules'
      ensures r.id in Next(w, s).used && r.lastTriggered <= w.clock && Remembers(r, w.emitted)
    {
      if s.op.Add? && r.id == s.op.id {
        NewRule(w, s.op, s.writeOk, r);
      } else {
        var q := OldRule(w.image, s.op, s.writeOk, r);
      }
    }
  }

  lemma NewRule(w: World, op: Op, writeOk: bool, r: Rule)
    requires WorldOk(w) && op.Add? && op.id !in w.used
    requires r in After(w.image, op, writeOk).rules && r.id == op.id
    ensures r.lastTriggered == 0 && Remembers(r, w.emitted)
  {
    assert forall q :: q in w.image.rules ==> q.id != op.id;
  }

  /** A rule present after a change, other than the one created, comes from one with the same id and
      last trigger. */
  lemma OldRule(m: Image, op: Op, writeOk: bool, r: Rule) returns (q: Rule)
    requires !op.ApplyUpdates? && r in After(m, op, writeOk).rules && !(op.Add? && r.id == op.id)
    ensures q in m.rules && q.id == r.id && q.lastTriggered == r.lastTriggered
  {
    var rules := After(m, op, writeOk).rules;
    if rules == m.rules {
      q := r;
    } else if op.Delete? {
      q := r;
      LeftAfterRemoval(m.rules, IndexOf(m.rules, op.target), r);
    } else {
      var k :| 0 <= k < |rules| && rules[k] == r;
      q := m.rules[k];
    }
  }

  lemma LeftAfterRemoval(rules: seq<Rule>, k: nat, r: Rule)
    requires k < |rules| && r in rules[..k] + rules[k + 1..]
    ensures r in rules
  {
  }

  lemma FiredIsSpaced(w: World, readings: map<string, Reading>, fired: seq<Emission>)
    requires WorldOk(w) && FiresExactly(w.snapshot, readings, w.began, fired)
    ensures Spaced(w.emitted + fired)
    ensures forall e :: e in fired ==> e.ruleId in w.used && e.ts == w.began && 0 < e.ts
  {
    var all := w.emitted + fired;
    forall i, j | 0 <= i < j < |all| && all[i].ruleId == all[j].ruleId
      ensures all[j].ts - all[i].ts >= all[j].cooldownSec && 0 < all[i].ts
    {
      if j >= |w.emitted| {
        assert all[j] == fired[j - |w.emitted|] && all[j] in fired;
        var r :| r in w.snapshot && FiresIn(r, readings, w.began) && all[j] == EmissionOf(r, w.began);
        assert i < |w.emitted| && all[i] in w.emitted;
        assert Remembers(r, w.emitted);
      }
    }
  }

  lemma EndKeepsOk(w: World, s: Step)
    requires WorldOk(w) && Legal(w, s) && s.End?
    ensures WorldOk(Next(w, s))
  {
    FiredIsSpaced(w, s.readings, s.fired);
    var w' := Next(w, s);
    var failed := Writes(w.image, ApplyUpdates(s.updates)) && !s.writeOk;
    OpKeepsIdsDistinct(w.image, ApplyUpdates(s.updates), s.writeOk);
    if !failed {
      forall r' | r' in w'.image.rules
        ensures r'.id in w'.used && r'.lastTriggered <= w'.clock && Remembers(r', w'.emitted)
      {
        var k :| 0 <= k < |w'.image.rules| && w'.image.rules[k] == r';
        var r := w.image.rules[k];
        assert r in w.image.rules && r' == WithUpdate(r, s.updates);
        EndOnOneRule(w, s, r);
      }
    }
  }

  lemma EndOnOneRule(w: World, s: Step, r: Rule)
    requires WorldOk(w) && Legal(w, s) && s.End? && r in w.image.rules
    ensures var r' := WithUpdate(r, s.updates);
      r'.id == r.id && r'.lastTriggered <= w.clock && Remembers(r', w.emitted + s.fired)
  {
    var r' := WithUpdate(r, s.updates);
    assert Remembers(r, w.emitted);
    if r.id in s.updates {
      var q :| q in w.snapshot && q.id == r.id;
      assert UpdateIn(q, s.readings, w.began) == Some(s.updates[q.id]);
      assert Remembers(q, w.emitted);
      forall e | e in s.fired && e.ruleId == r.id
        ensures 0 < e.ts <= r'.lastTriggered
      {
        var f :| f in w.snapshot && FiresIn(f, s.readings, w.began) && e == EmissionOf(f, w.began);
        assert f == q;
      }
    } else {
      forall e | e in s.fired ensures e.ruleId != r.id {
        var f :| f in w.snapshot && FiresIn(f, s.readings, w.began) && e == EmissionOf(f, w.began);
        assert f.id in s.updates;
      }
    }
  }

  lemma {:induction false} WorldInvariant(steps: seq<Step>)
    requires LegalRun(steps)
    ensures WorldOk(Run(steps))
  {
    if steps != [] {
      var w, s := Run(steps[..|steps| - 1]), steps[|steps| - 1];
      WorldInvariant(steps[..|steps| - 1]);
      match s {
        case Change(_, _) => ChangeKeepsOk(w, s);
        case Begin(_) =>
        case End(_, _, _, _) => EndKeepsOk(w, s);
      }
    }
  }

  /** Two firings of one rule are at least the later one's cooldown apart, whatever rules were created,
      edited or deleted meanwhile, also in the middle of a pass. */
  lemma FiringsAreSpaced(steps: seq<Step>, i: int, j: int)
    requires LegalRun(steps)
    requires var e := Run(steps).emitted; 0 <= i < j < |e| && e[i].ruleId == e[j].ruleId
    ensures var e := Run(steps).emitted; e[j].ts - e[i].ts >= e[j].cooldownSec && 0 < e[i].ts
  {
    WorldInvariant(steps);
  }

  // ------------------------------------------------------------------ vetted rules

  /** The body went through the checks every submitted rule goes through. */
  ghost predicate IsVetted(b: Body) { exists raw :: Vetted(raw) == Ok(b) }

  ghost predicate VettedOps(steps: seq<Step>) {
    forall i :: 0 <= i < |steps| && steps[i].Change? ==>
      && (steps[i].op.Add? ==> IsVetted(steps[i].op.rule.body))
      && (steps[i].op.Replace? ==> IsVetted(steps[i].op.next.body))
  }

  ghost predicate AllVetted(rules: seq<Rule>) { forall r :: r in rules ==> IsVetted(r.body) }

  /** A rule's body comes from the rule as it was, or from the operation. */
  lemma BodyFrom(m: Image, op: Op, writeOk: bool)
    requires AllVetted(m.rules)
    requires (op.Add? ==> IsVetted(op.rule.body)) && (op.Replace? ==> IsVetted(op.next.body))
    ensures AllVetted(After(m, op, writeOk).rules)
  {
    var rules := After(m, op, writeOk).rules;
    forall r | r in rules ensures IsVetted(r.body) {
      var k :| 0 <= k < |rules| && rules[k] == r;
      if op.Delete? && |rules| < |m.rules| && k >= IndexOf(m.rules, op.target) {
        assert m.rules[k + 1] in m.rules;
      } else if k < |m.rules| {
        assert m.rules[k] in m.rules;
      }
    }
  }

  /** While every created or edited rule is vetted, every firing has a cooldown of at least a second. */
  lemma {:induction false} VettedFiringsCool(steps: seq<Step>)
    requires LegalRun(steps) && VettedOps(steps)
    ensures AllVetted(Run(steps).image.rules) && AllVetted(Run(steps).snapshot)
    ensures forall e :: e in Run(steps).emitted ==> e.cooldownSec >= 1
  {
    if steps != [] {
      var n := |steps| - 1;
      var w, s := Run(steps[..n]), steps[n];
      assert forall i :: 0 <= i < n ==> steps[..n][i] == steps[i];
      VettedFiringsCool(steps[..n]);
      match s {
        case Change(op, writeOk) => BodyFrom(w.image, op, writeOk);
        case Begin(_) =>
        case End(readings, updates, fired, writeOk) =>
          BodyFrom(w.image, ApplyUpdates(updates), writeOk);
          forall e | e in fired ensures e.cooldownSec >= 1 {
            var r :| r in w.snapshot && FiresIn(r, readings, w.began) && e == EmissionOf(r, w.began);
            assert IsVetted(r.body);
          }
      }
    }
  }

  // ------------------------------------------------------------------ the dedupe key

  type Hash = string -> string

  ghost predicate Injective(h: Hash) {
    forall x, y :: h(x) == h(y) ==> x == y
  }

  function Bucket(cooldownSec: int, ts: int): int
    requires ts >= 0
  {
    if cooldownSec > 0 then ts / cooldownSec else ts
  }

  /** The bucket is the number of whole cooldowns since the epoch. */
  lemma BucketInFields(cooldownSec: int, ts: int)
    requires ts >= 0
    ensures cooldownSec > 0 ==>
      cooldownSec * Bucket(cooldownSec, ts) <= ts < cooldownSec * (Bucket(cooldownSec, ts) + 1)
    ensures cooldownSec <= 0 ==> Bucket(cooldownSec, ts) == ts
  {
    if cooldownSec > 0 {
      var q := ts / cooldownSec;
      assert ts == cooldownSec * q + ts % cooldownSec;
      assert cooldownSec * (q + 1) == cooldownSec * q + cooldownSec;
    }
  }

  function KeyText(ruleId: string, cooldownSec: int, ts: int): string
    requires ts >= 0
  {
    ruleId + "\0" + Text.FormatInt(Bucket(cooldownSec, ts))
  }

  function DedupeKey(h: Hash, e: Emission): string
    requires e.ts >= 0
  {
    h(KeyText(e.ruleId, e.cooldownSec, e.ts))
  }

  /** The key text determines the rule and the bucket, even for ids that contain a NUL. */
  lemma KeyTextInjective(id1: string, b1: int, id2: string, b2: int)
    requires id1 + "\0" + Text.FormatInt(b1) == id2 + "\0" + Text.FormatInt(b2)
    ensures id1 == id2 && b1 == b2
  {
    var f1, f2 := Text.FormatInt(b1), Text.FormatInt(b2);
    var s := id1 + "\0" + f1;
    assert s == id2 + "\0" + f2;
    assert s[|id1|] == '\0' && s[|id2|] == '\0';
    forall k | |id1| < k < |s| ensures s[k] != '\0' {
      assert s[k] == f1[k - |id1| - 1];
    }
    forall k | |id2| < k < |s| ensures s[k] != '\0' {
      assert s[k] == f2[k - |id2| - 1];
    }
    assert |id1| == |id2|;
    assert s[..|id1|] == id1 && s[..|id2|] == id2;
    assert s[|id1| + 1..] == f1 && s[|id2| + 1..] == f2;
    Text.FormatInjective(b1, b2);
  }

  /** Two firings share a key exactly when they are of one rule and fall in one bucket, each bucket
      computed with the cooldown of its own moment. */
  lemma SameKeyIff(h: Hash, e: Emission, f: Emission)
    requires Injective(h) && e.ts >= 0 && f.ts >= 0
    ensures DedupeKey(h, e) == DedupeKey(h, f) <==>
      e.ruleId == f.ruleId && Bucket(e.cooldownSec, e.ts) == Bucket(f.cooldownSec, f.ts)
  {
    if DedupeKey(h, e) == DedupeKey(h, f) {
      KeyTextInjective(e.ruleId, Bucket(e.cooldownSec, e.ts), f.ruleId, Bucket(f.cooldownSec, f.ts));
    }
  }

  lemma MulLess(c: int, x: int, y: int)
    requires c >= 1 && c * x < c * y
    ensures x < y
  {
  }

  lemma QuotientIs(z: int, y: int, q: int)
    requires y >= 1 && y * q <= z < y * (q + 1)
    ensures z / y == q
  {
    var r := z / y;
    assert z == y * r + z % y;
    assert y * (r + 1) == y * r + y;
    MulLess(y, r, q + 1);
    MulLess(y, q, r + 1);
  }

  lemma MulKeepsOrder(x: int, y: int, q: int)
    requires x <= y && q >= 0
    ensures x * q <= y * q
  {
  }

  lemma DivShrinks(a: int, c: int, d: int)
    requires a >= 0 && 1 <= d <= c
    ensures a / c <= a / d
  {
    var q, r := a / c, a / d;
    assert a == c * q + a % c && a == d * r + a % d;
    MulKeepsOrder(d, c, q);
    assert d * (r + 1) == d * r + d;
    MulLess(d, q, r + 1);
  }

  /** Firings spaced by the later one's cooldown fall in different buckets if the cooldown was not
      raised between them. */
  lemma SpacedBucketsDiffer(c: int, a: int, d: int, b: int)
    requires 1 <= d <= c && a >= 0 && b - a >= d
    ensures a / c < b / d
  {
    DivShrinks(a, c, d);
    assert a == d * (a / d) + a % d && b == d * (b / d) + b % d;
    assert d * (b / d + 1) == d * (b / d) + d;
    assert d * (a / d + 1) == d * (a / d) + d;
    MulLess(d, a / d + 1, b / d + 1);
  }

  /** A firing at `a` under cooldown `c` and a later one at `b` under `d`, properly spaced, that share a
      bucket number. */
  ghost predicate Collides(c: int, a: int, d: int, b: int)
    requires c >= 1 && d >= 1
  {
    0 < a && b - a >= d && a / c == b / d
  }

  /** Some moment at least a cooldown `d` after `last`, and not before `now`, falls in bucket `q` under `d`
      exactly when the bucket starts after `last` and does not end by `now`. */
  lemma BucketReachedIff(last: int, now: int, d: int, q: int)
    requires last > 0 && d >= 1
    ensures (exists b :: b >= now && b - last >= d && b / d == q) <==> d * q > last && d * q + d > now
  {
    assert d * (q + 1) == d * q + d;
    if d * q > last && d * q + d > now {
      var b := d * q + d - 1;
      QuotientIs(b, d, q);
      assert b >= now && b - last >= d && b / d == q;
    }
    forall b | b >= now && b - last >= d && b / d == q ensures d * q > last && d * q + d > now {
      assert b == d * (b / d) + b % d;
    }
  }

  /** For a rule that has fired once, at `a` under cooldown `c`: from then on an edit to `d` lets a later
      firing share the key exactly when `d * (a / c) > a`. */
  lemma EditCanCollideIff(c: int, a: int, d: int)
    requires a > 0 && c >= 1 && d >= 1
    ensures (exists b :: Collides(c, a, d, b)) <==> d * (a / c) > a
  {
    var q := a / c;
    BucketReachedIff(a, a, d, q);
    if d * q > a {
      var b :| b >= a && b - a >= d && b / d == q;
      assert Collides(c, a, d, b);
    }
    forall b | Collides(c, a, d, b) ensures d * q > a {
      assert b >= a && b - a >= d && b / d == q;
    }
  }

  /** So for a pair of cooldowns, some lone firing is exposed by the edit exactly when it raises the cooldown. */
  lemma RaisingExposesIff(c: int, d: int)
    requires c >= 1 && d >= 1
    ensures (exists a, b :: Collides(c, a, d, b)) <==> d > c
  {
    if d > c {
      var a := d * c;
      MulKeepsOrder(1, c, d);
      QuotientIs(a, c, d);
      MulLessBoth(d, c);
      EditCanCollideIff(c, a, d);
      var b :| Collides(c, a, d, b);
    } else if a, b :| Collides(c, a, d, b) {
      SpacedBucketsDiffer(c, a, d, b);
    }
  }

  lemma MulLessBoth(d: int, c: int)
    requires 1 <= c < d
    ensures d * c < d * d
  {
  }

  /** Every firing of this rule had a cooldown of at least a second, never raised between firings. */
  ghost predicate NeverRaised(emitted: seq<Emission>, ruleId: string) {
    && (forall i :: 0 <= i < |emitted| && emitted[i].ruleId == ruleId ==> emitted[i].cooldownSec >= 1)
    && (forall i, j :: 0 <= i < j < |emitted| && emitted[i].ruleId == emitted[j].ruleId == ruleId ==>
          emitted[j].cooldownSec <= emitted[i].cooldownSec)
  }

  lemma KeysAreDistinct(h: Hash, steps: seq<Step>, i: int, j: int)
    requires Injective(h) && LegalRun(steps)
    requires 0 <= i < j < |Run(steps).emitted|
    requires NeverRaised(Run(steps).emitted, Run(steps).emitted[i].ruleId)
    ensures var e := Run(steps).emitted;
      e[i].ts >= 0 && e[j].ts >= 0 && DedupeKey(h, e[i]) != DedupeKey(h, e[j])
  {
    WorldInvariant(steps);
    var all := Run(steps).emitted;
    var e, f := all[i], all[j];
    assert e in all && f in all;
    SameKeyIff(h, e, f);
    if e.ruleId == f.ruleId {
      SpacedBucketsDiffer(e.cooldownSec, e.ts, f.cooldownSec, f.ts);
    }
  }

  /** Firings of different rules never share a key. */
  lemma OtherRulesKeysDiffer(h: Hash, e: Emission, f: Emission)
    requires Injective(h) && e.ts >= 0 && f.ts >= 0 && e.ruleId != f.ruleId
    ensures DedupeKey(h, e) != DedupeKey(h, f)
  {
    SameKeyIff(h, e, f);
  }

  // ------------------------------------------------------------------ the consumer

  /** An alert event as the gateway reads it back. */
  datatype Row = Row(thesisId: string, ts: int, key: string)

  predicate Relevant(r: Row, thesisId: string, since: int) {
    r.thesisId == thesisId && r.ts > since
  }

  /** The rows the change set keeps: relevant ones, less those whose key an earlier relevant one had. */
  function Kept(rows: seq<Row>, thesisId: string, since: int): seq<Row> {
    if rows == [] then []
    else
      var init, r := rows[..|rows| - 1], rows[|rows| - 1];
      Kept(init, thesisId, since) +
      if Relevant(r, thesisId, since) && (r.key == "" || r.key !in KeysSeen(init, thesisId, since)) then [r] else []
  }

  function KeysSeen(rows: seq<Row>, thesisId: string, since: int): set<string> {
    set i | 0 <= i < |rows| && Relevant(rows[i], thesisId, since) && rows[i].key != "" :: rows[i].key
  }

  method ChangesFromAlertEvents(rows: seq<Row>, thesisId: string, since: int) returns (out: seq<Row>)
    ensures out == Kept(rows, thesisId, since)
  {
    out := [];
    var seen: set<string> := {};
    for i := 0 to |rows|
      invariant out == Kept(rows[..i], thesisId, since)
      invariant seen == KeysSeen(rows[..i], thesisId, since)
    {
      var r := rows[i];
      assert rows[..i + 1][..i] == rows[..i];
      KeysSeenSnoc(rows[..i], r, thesisId, since);
      assert rows[..i + 1] == rows[..i] + [r];
      if r.thesisId == thesisId && r.ts > since {
        if r.key == "" || r.key !in seen {
          out := out + [r];
        }
        if r.key != "" {
          seen := seen + {r.key};
        }
      }
    }
    assert rows[..|rows|] == rows;
  }

  lemma KeysSeenSnoc(rows: seq<Row>, r: Row, thesisId: string, since: int)
    ensures KeysSeen(rows + [r], thesisId, since) ==
      KeysSeen(rows, thesisId, since) + if Relevant(r, thesisId, since) && r.key != "" then {r.key} else {}
  {
    var all := rows + [r];
    forall k | k in KeysSeen(rows, thesisId, since)
      ensures k in KeysSeen(all, thesisId, since)
    {
      var i :| 0 <= i < |rows| && Relevant(rows[i], thesisId, since) && rows[i].key != "" && rows[i].key == k;
      assert all[i] == rows[i];
    }
    if Relevant(r, thesisId, since) && r.key != "" {
      assert all[|rows|] == r;
    }
  }

  /** What is kept is relevant, no key is kept twice, and every relevant row is kept or has its key kept. */
  lemma {:induction false} KeptInFields(rows: seq<Row>, thesisId: string, since: int)
    ensures var kept := Kept(rows, thesisId, since);
      && (forall r :: r in kept ==> r in rows && r.thesisId == thesisId && r.ts > since)
      && (forall i, j :: 0 <= i < j < |kept| ==> kept[i].key == "" || kept[i].key != kept[j].key)
      && (forall r :: r in rows && r.thesisId == thesisId && r.ts > since ==>
            r in kept || (r.key != "" && exists q :: q in kept && q.key == r.key))
  {
    if rows != [] {
      var init, r := rows[..|rows| - 1], rows[|rows| - 1];
      assert rows == init + [r];
      KeptInFields(init, thesisId, since);
      KeysOfKept(init, thesisId, since, r.key);
    }
  }

  /** The keys seen are the keys kept. */
  lemma {:induction false} KeysOfKept(rows: seq<Row>, thesisId: string, since: int, key: string)
    ensures key in KeysSeen(rows, thesisId, since) <==>
      key != "" && exists r :: r in Kept(rows, thesisId, since) && r.key == key
  {
    if rows != [] {
      var init, r := rows[..|rows| - 1], rows[|rows| - 1];
      assert rows == init + [r];
      KeysOfKept(init, thesisId, since, key);
      KeysSeenSnoc(init, r, thesisId, since);
      assert forall q :: q in Kept(init, thesisId, since) ==> q in Kept(rows, thesisId, since);
      if Relevant(r, thesisId, since) && r.key == key != "" {
        KeysOfKept(init, thesisId, since, r.key);
      }
    }
  }

  /** A relevant row survives the collapse when no other relevant row shares its key. */
  lemma {:induction false} UnsharedKeySurvives(rows: seq<Row>, thesisId: string, since: int, k: nat)
    requires k < |rows| && Relevant(rows[k], thesisId, since)
    requires forall i :: 0 <= i < k && Relevant(rows[i], thesisId, since) ==> rows[i].key != rows[k].key
    ensures rows[k] in Kept(rows, thesisId, since)
  {
    if k < |rows| - 1 {
      UnsharedKeySurvives(rows[..|rows| - 1], thesisId, since, k);
    }
  }

  /** The rows carry firings of a run, each at most once and in any order, possibly among rows of other
      origin whose keys are not rule keys. `source[k]` is the firing behind row `k`, or -1. */
  ghost predicate Delivers(h: Hash, rows: seq<Row>, source: seq<int>, emitted: seq<Emission>) {
    && |source| == |rows|
    && (forall k :: 0 <= k < |rows| ==> -1 <= source[k] < |emitted|)
    && (forall k :: 0 <= k < |rows| && source[k] >= 0 ==>
          emitted[source[k]].ts >= 0 && rows[k].key == DedupeKey(h, emitted[source[k]]))
    && (forall i, k :: 0 <= i < k < |rows| && source[i] >= 0 && source[k] >= 0 ==> source[i] != source[k])
    && (forall i, k :: 0 <= i < |rows| && 0 <= k < |rows| && source[i] < 0 && source[k] >= 0 ==>
          rows[i].key != rows[k].key)
  }

  /** The collapse drops no firing of a rule whose cooldown was never raised. */
  lemma CollapseKeepsEveryFiring(
    h: Hash, steps: seq<Step>, rows: seq<Row>, source: seq<int>, thesisId: string, since: int, k: nat)
    requires Injective(h) && LegalRun(steps) && Delivers(h, rows, source, Run(steps).emitted)
    requires k < |rows| && source[k] >= 0 && Relevant(rows[k], thesisId, since)
    requires NeverRaised(Run(steps).emitted, Run(steps).emitted[source[k]].ruleId)
    ensures rows[k] in Kept(rows, thesisId, since)
  {
    var e := Run(steps).emitted;
    forall i | 0 <= i < k && Relevant(rows[i], thesisId, since)
      ensures rows[i].key != rows[k].key
    {
      if source[i] >= 0 && e[source[i]].ruleId != e[source[k]].ruleId {
        OtherRulesKeysDiffer(h, e[source[i]], e[source[k]]);
      } else if source[i] >= 0 {
        if source[i] < source[k] {
          KeysAreDistinct(h, steps, source[i], source[k]);
        } else {
          KeysAreDistinct(h, steps, source[k], source[i]);
        }
      }
    }
    UnsharedKeySurvives(rows, thesisId, since, k);
  }
}
