/** Under how many baselines a due date is counted, over whole runs of the marker map: once aloud while
    publications are timely, and exactly when again. */
module MarkerCounts {
  import opened Common
  import opened ThesisMarkers
  import opened MarkerRuns

  predicate Counts(c: Count, date: int) {
    date in c.dates && IsDue(date, c.after, c.upTo)
  }

  // ------------------------------------------------------------------ timely runs

  /** The marker already shows a newer baseline or a later reading than the verdict. */
  predicate Behind(w: World, k: nat)
    requires Pending(w, k)
  {
    var x := w.tickets[k];
    x.th.id in w.markers &&
    (VerdictOf(x).baselineAt < w.markers[x.th.id].baselineAt || VerdictOf(x).asOf < w.markers[x.th.id].asOf)
  }

  /** The second read finds the baseline the first one found. */
  predicate SameBaseline(w: World, k: nat)
    requires Comparable(w, k)
  {
    var x := w.tickets[k];
    x.th.id in w.markers && w.markers[x.th.id].baselineAt == x.seen.value.baselineAt
  }

  /** No publication about this thesis is behind; with `checks`, no baseline moves between two reads. */
  predicate Timely(w: World, s: Step, id: string, checks: bool) {
    && (s.Publish? && Pending(w, s.k) && w.tickets[s.k].th.id == id ==> !Behind(w, s.k))
    && (checks && s.Check? && Comparable(w, s.k) && w.tickets[s.k].th.id == id ==> SameBaseline(w, s.k))
  }

  ghost predicate TimelyRun(t: Wording, steps: seq<Step>, id: string, checks: bool) {
    steps == [] || var n := |steps| - 1;
      TimelyRun(t, steps[..n], id, checks) && Timely(Run(t, steps[..n]), steps[n], id, checks)
  }

  // ------------------------------------------------------------------ what timely runs keep

  predicate InScope(c: Count, id: string, all: bool) { c.thesisId == id && (c.aloud || all) }

  /** Everything counted lies behind the reading shown, and was counted under this baseline or lies
      behind it. */
  ghost predicate Covers(m: Marker, c: Count) {
    forall date :: Counts(c, date) ==> date <= m.asOf && (c.after == m.baselineAt || date <= m.baselineAt)
  }

  /** A count under an older baseline than the one an evaluation saw lies behind that baseline. */
  ghost predicate BehindSeen(x: Ticket, c: Count) {
    x.seen.Some? && c.after < x.seen.value.baselineAt ==>
      forall date :: Counts(c, date) ==> date <= x.seen.value.baselineAt
  }

  ghost predicate Agree(c: Count, d: Count) {
    forall date :: Counts(c, date) && Counts(d, date) ==> c.after == d.after
  }

  ghost predicate TicketsOk(w: World, id: string, all: bool) {
    && (forall k :: 0 <= k < |w.tickets| && w.tickets[k].th.id == id && w.tickets[k].seen.Some? ==>
          id in w.markers && w.tickets[k].seen.value.baselineAt <= w.markers[id].baselineAt)
    && (forall k, c :: 0 <= k < |w.tickets| && w.tickets[k].th.id == id && c in w.counts && InScope(c, id, all) ==>
          BehindSeen(w.tickets[k], c))
  }

  ghost predicate CountsOk(w: World, id: string, all: bool) {
    && !Ahead(w, id)
    && (forall c :: c in w.counts && c.thesisId == id ==> id in w.markers && c.after <= w.markers[id].baselineAt)
    && (forall c :: c in w.counts && InScope(c, id, all) ==> Covers(w.markers[id], c))
    && (forall c, d :: c in w.counts && d in w.counts && InScope(c, id, all) && InScope(d, id, all) ==> Agree(c, d))
  }

  /** A silent count adds no date behind which the marker's reading lies. */
  ghost predicate SilentWithin(t: Wording, w: World, s: Step, id: string) {
    s.Check? && Comparable(w, s.k) && w.tickets[s.k].th.id == id
      && AlreadySaid(t, w.markers, id, w.tickets[s.k].phase.reason) ==>
      forall date :: Counts(CountOf(w.tickets[s.k], false), date) ==> date <= w.markers[id].asOf
  }

  /** A new count under the marker's own baseline, of dates up to its reading. */
  lemma NewCount(w: World, id: string, all: bool, c: Count)
    requires TicketsOk(w, id, all) && CountsOk(w, id, all) && c.thesisId == id && id in w.markers
    requires c.after <= w.markers[id].baselineAt
    requires InScope(c, id, all) ==> c.after == w.markers[id].baselineAt
    requires InScope(c, id, all) ==> forall date :: Counts(c, date) ==> date <= w.markers[id].asOf
    ensures var w' := w.(counts := w.counts + [c]); TicketsOk(w', id, all) && CountsOk(w', id, all)
  {
    var w' := w.(counts := w.counts + [c]);
    assert forall d :: d in w'.counts <==> d in w.counts || d == c;
    if InScope(c, id, all) {
      forall d | d in w.counts && InScope(d, id, all) ensures Agree(c, d) && Agree(d, c) {
        assert Covers(w.markers[id], d);
      }
    }
  }

  /** A write that moves the marker's baseline and reading only forward, the baseline to itself or to the
      new reading or past everything counted. */
  lemma ForwardPut(w: World, id: string, all: bool, m: Marker, cause: Cause)
    requires TicketsOk(w, id, all) && CountsOk(w, id, all)
    requires id in w.markers ==> w.markers[id].baselineAt <= m.baselineAt && w.markers[id].asOf <= m.asOf
    requires id in w.markers ==> m.baselineAt == w.markers[id].baselineAt || w.markers[id].asOf <= m.baselineAt
    requires m.baselineAt <= m.asOf
    ensures var w' := Put(w, id, m, cause); TicketsOk(w', id, all) && CountsOk(w', id, all)
  {
    forall c | c in w.counts && InScope(c, id, all) ensures Covers(m, c) {
      assert Covers(w.markers[id], c);
    }
  }

  lemma OtherPut(w: World, id: string, all: bool, other: string, m: Marker, cause: Cause)
    requires TicketsOk(w, id, all) && CountsOk(w, id, all) && other != id
    ensures var w' := Put(w, other, m, cause); TicketsOk(w', id, all) && CountsOk(w', id, all)
  {
  }

  /** Moving a ticket to another phase. */
  lemma Rephased(w: World, id: string, all: bool, k: nat, p: Phase)
    requires TicketsOk(w, id, all) && CountsOk(w, id, all) && k < |w.tickets|
    ensures var w' := w.(tickets := w.tickets[k := w.tickets[k].(phase := p)]);
      TicketsOk(w', id, all) && CountsOk(w', id, all)
  {
    var w' := w.(tickets := w.tickets[k := w.tickets[k].(phase := p)]);
    forall n, c | 0 <= n < |w'.tickets| && w'.tickets[n].th.id == id && c in w.counts && InScope(c, id, all)
      ensures BehindSeen(w'.tickets[n], c)
    {
      assert BehindSeen(w.tickets[n], c);
    }
  }

  lemma OtherCount(w: World, id: string, all: bool, c: Count)
    requires TicketsOk(w, id, all) && CountsOk(w, id, all) && c.thesisId != id
    ensures var w' := w.(counts := w.counts + [c]); TicketsOk(w', id, all) && CountsOk(w', id, all)
  {
    assert forall d :: d in w.counts + [c] <==> d in w.counts || d == c;
  }

  lemma LookKeepsOnce(t: Wording, w: World, s: Step, id: string, all: bool)
    requires TicketsOk(w, id, all) && CountsOk(w, id, all) && s.Look?
    ensures TicketsOk(Next(t, w, s), id, all) && CountsOk(Next(t, w, s), id, all)
  {
    var x := Opened(t, w, s.th, s.bar);
    if s.th.id == id {
      forall c | c in w.counts && InScope(c, id, all) ensures BehindSeen(x, c) {
        assert Covers(w.markers[id], c);
      }
    }
  }

  lemma CheckKeepsOnce(t: Wording, w: World, s: Step, id: string, all: bool)
    requires Traced(t, w) && TicketsOk(w, id, all) && CountsOk(w, id, all)
    requires s.Check? && Timely(w, s, id, all) && (all ==> SilentWithin(t, w, s, id))
    ensures TicketsOk(Next(t, w, s), id, all) && CountsOk(Next(t, w, s), id, all)
  {
    if Comparable(w, s.k) {
      var x := w.tickets[s.k];
      if AlreadySaid(t, w.markers, x.th.id, x.phase.reason) {
        Rephased(w, id, all, s.k, Closed);
        var w1 := w.(tickets := w.tickets[s.k := x.(phase := Closed)]);
        var c := CountOf(x, false);
        if x.th.id == id { NewCount(w1, id, all, c); } else { OtherCount(w1, id, all, c); }
      } else {
        Rephased(w, id, all, s.k, Firing(Stale(t, x.th, x.seen.value, x.bar, x.phase.reason, s.now)));
      }
    }
  }

  /** A publication that is not behind and does not rebase is under the marker's own baseline. */
  lemma PublishKeepsOnce(t: Wording, w: World, s: Step, id: string, all: bool)
    requires Traced(t, w) && TicketsOk(w, id, all) && CountsOk(w, id, all)
    requires s.Publish? && Timely(w, s, id, all)
    ensures TicketsOk(Next(t, w, s), id, all) && CountsOk(Next(t, w, s), id, all)
  {
    if Pending(w, s.k) {
      var x := w.tickets[s.k];
      var v := VerdictOf(x);
      assert TicketOk(t, x, w.writes);
      var cause := if x.phase.Rebasing? then Rebased else Published;
      var w1 := Put(w, x.th.id, v, cause);
      if x.th.id == id { ForwardPut(w, id, all, v, cause); } else { OtherPut(w, id, all, x.th.id, v, cause); }
      var p := if x.phase.Rebasing? then Closed else Reported(v);
      Rephased(w1, id, all, s.k, p);
      var w2 := w1.(tickets := w.tickets[s.k := x.(phase := p)]);
      if x.phase.Firing? {
        var c := CountOf(x, true);
        if x.th.id == id { NewCount(w2, id, all, c); } else { OtherCount(w2, id, all, c); }
      }
    }
  }

  lemma OnceStep(t: Wording, w: World, s: Step, id: string, all: bool)
    requires Traced(t, w) && TicketsOk(w, id, all) && CountsOk(w, id, all)
    requires Timely(w, s, id, all) && (all ==> SilentWithin(t, w, s, id))
    ensures TicketsOk(Next(t, w, s), id, all) && CountsOk(Next(t, w, s), id, all)
  {
    match s {
      case Look(_, _) => LookKeepsOnce(t, w, s, id, all);
      case Check(_, _) => CheckKeepsOnce(t, w, s, id, all);
      case Publish(_) => PublishKeepsOnce(t, w, s, id, all);
      case Hand(k) => if k < |w.tickets| { Rephased(w, id, all, k, Closed); }
      case Ack(other, asOf) =>
        if Acknowledges(w.markers, other, asOf) {
          var m := Acknowledged(w.markers[other]);
          if other == id { ForwardPut(w, id, all, m, Acked); } else { OtherPut(w, id, all, other, m, Acked); }
        }
    }
  }

  // ------------------------------------------------------------------ counted aloud

  lemma {:induction false} AloudOnce(t: Wording, steps: seq<Step>, id: string)
    requires TimelyRun(t, steps, id, false)
    ensures TicketsOk(Run(t, steps), id, false) && CountsOk(Run(t, steps), id, false)
  {
    if steps != [] {
      var n := |steps| - 1;
      AloudOnce(t, steps[..n], id);
      RunTraced(t, steps[..n]);
      OnceStep(t, Run(t, steps[..n]), steps[n], id, false);
    }
  }

  /** While no publication about a thesis is behind its marker, a due date that two published markers
      counted was counted under the same baseline both times. */
  lemma CatalystReportedUnderOneBaseline(t: Wording, steps: seq<Step>, id: string, c: Count, d: Count, date: int)
    requires TimelyRun(t, steps, id, false)
    requires c in Run(t, steps).counts && d in Run(t, steps).counts
    requires c.thesisId == id && d.thesisId == id && c.aloud && d.aloud && Counts(c, date) && Counts(d, date)
    ensures c.after == d.after
  {
    AloudOnce(t, steps, id);
    assert Agree(c, d);
  }

  /** After a run that was timely so far, publishing a verdict counts a date again under another baseline
      exactly when a report under a newer baseline has counted it; the verdict is then behind. */
  lemma PublishRecountsIff(t: Wording, steps: seq<Step>, k: nat, date: int)
    requires Pending(Run(t, steps), k) && Run(t, steps).tickets[k].phase.Firing?
    requires var id := Run(t, steps).tickets[k].th.id; TimelyRun(t, steps, id, false)
    requires Counts(CountOf(Run(t, steps).tickets[k], true), date)
    ensures var w := Run(t, steps);
      var v, id := CountOf(w.tickets[k], true), w.tickets[k].th.id;
      && ((exists c :: c in w.counts && InScope(c, id, false) && Counts(c, date) && c.after != v.after)
          <==> (exists c :: c in w.counts && InScope(c, id, false) && Counts(c, date) && v.after < c.after))
      && ((exists c :: c in w.counts && InScope(c, id, false) && Counts(c, date) && v.after < c.after) ==> Behind(w, k))
  {
    var w := Run(t, steps);
    var x := w.tickets[k];
    var v := CountOf(x, true);
    AloudOnce(t, steps, x.th.id);
    RunTraced(t, steps);
    assert TicketOk(t, x, w.writes);
    forall c | c in w.counts && InScope(c, x.th.id, false) && Counts(c, date) ensures v.after <= c.after {
      assert BehindSeen(x, c);
    }
  }

  // ------------------------------------------------------------------ counted again

  /** After a run that was timely so far, a look counts a date again that was counted under another
      baseline exactly when that count was silent and the baseline has since moved, but not to the date. */
  lemma CountedAgainIff(t: Wording, steps: seq<Step>, c: Count, date: int, bar: Bar)
    requires TimelyRun(t, steps, c.thesisId, false)
    requires c in Run(t, steps).counts && Counts(c, date) && date <= bar.ts
    ensures c.thesisId in Run(t, steps).markers
    ensures var b := Run(t, steps).markers[c.thesisId].baselineAt;
      b != c.after && IsDue(date, b, bar.ts) <==> !c.aloud && c.after < b < date
  {
    AloudOnce(t, steps, c.thesisId);
    var w := Run(t, steps);
    if c.aloud {
      assert InScope(c, c.thesisId, false) && Covers(w.markers[c.thesisId], c);
    }
  }

  /** In any run at all, acknowledging a marker makes a date counted under its present baseline countable
      again, under another one, exactly when the reading acknowledged is newer than that baseline and
      older than the date. */
  lemma AckReopensIff(t: Wording, steps: seq<Step>, c: Count, date: int, bar: Bar)
    requires c in Run(t, steps).counts && c.thesisId in Run(t, steps).markers
    requires var m := Run(t, steps).markers[c.thesisId]; m.stale && c.after == m.baselineAt
    requires Counts(c, date) && date <= bar.ts
    ensures var m := Run(t, steps).markers[c.thesisId];
      var w' := Next(t, Run(t, steps), Ack(c.thesisId, m.asOfISO));
      var b := w'.markers[c.thesisId].baselineAt;
      b != c.after && IsDue(date, b, bar.ts) <==> m.asOf != m.baselineAt && m.asOf < date
  {
  }

  /** And so does a publication, timely or not: rebasing reopens what was counted behind its bar, and a
      late report what was counted behind the baseline it looked under. */
  lemma PublishReopensIff(t: Wording, steps: seq<Step>, k: nat, c: Count, date: int, bar: Bar)
    requires Pending(Run(t, steps), k) && c in Run(t, steps).counts
    requires var id := Run(t, steps).tickets[k].th.id;
      c.thesisId == id && id in Run(t, steps).markers && c.after == Run(t, steps).markers[id].baselineAt
    requires Counts(c, date) && date <= bar.ts
    ensures var w := Run(t, steps);
      var x, b := w.tickets[k], Next(t, w, Publish(k)).markers[c.thesisId].baselineAt;
      var from := if x.phase.Rebasing? then x.bar.ts else x.seen.value.baselineAt;
      b != c.after && IsDue(date, b, bar.ts) <==> from != c.after && from < date
  {
    RunTraced(t, steps);
    assert TicketOk(t, Run(t, steps).tickets[k], Run(t, steps).writes);
  }

  // ------------------------------------------------------------------ while the dates are not edited

  /** No two of the reported sentences share a key, and none has the empty one. */
  ghost predicate GoodWording(t: Wording) {
    && (forall r, r' :: t.firedKey("material", r) == t.firedKey("material", r') ==> r == r')
    && (forall r :: t.firedKey("material", r) != "")
    && (forall n, n' :: t.due(n) == t.due(n') ==> n == n')
    && (forall n, a, b, c, d :: t.due(n) != t.moved(a, b, c, d))
  }

  ghost predicate Unchanged(steps: seq<Step>, id: string, dates: seq<int>) {
    forall i :: 0 <= i < |steps| && steps[i].Look? && steps[i].th.id == id ==> steps[i].th.catalystsDue == dates
  }

  /** If the marker reported a number of due dates, it is the number up to its reading. */
  ghost predicate Says(t: Wording, dates: seq<int>, m: Marker) {
    forall n :: m.lastFired == t.firedKey("material", t.due(n)) ==> n == DueSince(dates, m.baselineAt, m.asOf)
  }

  ghost predicate SaysOk(t: Wording, w: World, id: string, dates: seq<int>) {
    && (id in w.markers ==> Says(t, dates, w.markers[id]))
    && (forall k :: 0 <= k < |w.tickets| && w.tickets[k].th.id == id ==>
          w.tickets[k].th.catalystsDue == dates
          && (w.tickets[k].phase.Firing? ==> Says(t, dates, w.tickets[k].phase.marker)))
  }

  lemma StaleSays(t: Wording, th: Thesis, m: Marker, bar: Bar, reason: string, now: int)
    requires GoodWording(t) && Reason(t, th, m, bar) == Some(reason)
    ensures Says(t, th.catalystsDue, Stale(t, th, m, bar, reason, now))
  {
  }

  lemma CheckSays(t: Wording, w: World, k: nat, now: int, id: string, dates: seq<int>)
    requires GoodWording(t) && Traced(t, w) && SaysOk(t, w, id, dates) && Comparable(w, k)
    ensures SaysOk(t, AfterCheck(t, w, k, now), id, dates)
  {
    var x := w.tickets[k];
    assert TicketOk(t, x, w.writes);
    StaleSays(t, x.th, x.seen.value, x.bar, x.phase.reason, now);
  }

  lemma PublishSays(t: Wording, w: World, k: nat, id: string, dates: seq<int>)
    requires GoodWording(t) && SaysOk(t, w, id, dates) && Pending(w, k)
    ensures SaysOk(t, AfterPublish(w, k), id, dates)
  {
  }

  lemma SaysStep(t: Wording, w: World, s: Step, id: string, dates: seq<int>)
    requires GoodWording(t) && Traced(t, w) && SaysOk(t, w, id, dates)
    requires s.Look? && s.th.id == id ==> s.th.catalystsDue == dates
    ensures SaysOk(t, Next(t, w, s), id, dates)
  {
    match s {
      case Look(_, _) =>
      case Check(k, now) => if Comparable(w, k) { CheckSays(t, w, k, now, id, dates); }
      case Publish(k) => if Pending(w, k) { PublishSays(t, w, k, id, dates); }
      case Hand(_) =>
      case Ack(_, _) =>
    }
  }

  /** The dates in a longer window are those in its two parts. */
  lemma {:induction false} DueSinceSplits(due: seq<int>, after: int, mid: int, upTo: int)
    requires after <= mid <= upTo
    ensures DueSince(due, after, upTo) == DueSince(due, after, mid) + DueSince(due, mid, upTo)
  {
    if due != [] {
      DueSinceSplits(due[..|due| - 1], after, mid, upTo);
    }
  }

  /** While the list of dates is not edited, repeating a sentence counts nothing behind the reading it was
      first said about. */
  lemma SilentIsWithin(t: Wording, w: World, s: Step, id: string, dates: seq<int>)
    requires GoodWording(t) && Traced(t, w) && SaysOk(t, w, id, dates) && Timely(w, s, id, true) && !Ahead(w, id)
    ensures SilentWithin(t, w, s, id)
  {
    if s.Check? && Comparable(w, s.k) && w.tickets[s.k].th.id == id
       && AlreadySaid(t, w.markers, id, w.tickets[s.k].phase.reason) {
      var x, m := w.tickets[s.k], w.markers[id];
      var c := CountOf(x, false);
      assert TicketOk(t, x, w.writes) && SameBaseline(w, s.k);
      if c.dates != [] {
        assert x.phase.reason == t.due(DueSince(dates, c.after, c.upTo));
        NoneBeyond(dates, m.baselineAt, m.asOf, c.upTo);
      }
    }
  }

  lemma NoneBeyond(dates: seq<int>, after: int, mid: int, upTo: int)
    requires after <= mid && DueSince(dates, after, upTo) == DueSince(dates, after, mid)
    ensures forall date :: date in dates && date <= upTo ==> date <= mid
  {
    if mid < upTo {
      DueSinceSplits(dates, after, mid, upTo);
      forall date | date in dates && date <= upTo ensures date <= mid {
        var i :| 0 <= i < |dates| && dates[i] == date;
        assert !IsDue(dates[i], mid, upTo);
      }
    }
  }

  lemma {:induction false} AllOnce(t: Wording, steps: seq<Step>, id: string, dates: seq<int>)
    requires TimelyRun(t, steps, id, true) && GoodWording(t) && Unchanged(steps, id, dates)
    ensures TicketsOk(Run(t, steps), id, true) && CountsOk(Run(t, steps), id, true)
    ensures SaysOk(t, Run(t, steps), id, dates)
  {
    if steps != [] {
      var n := |steps| - 1;
      var w := Run(t, steps[..n]);
      assert forall i :: 0 <= i < n ==> steps[..n][i] == steps[i];
      AllOnce(t, steps[..n], id, dates);
      RunTraced(t, steps[..n]);
      SilentIsWithin(t, w, steps[n], id, dates);
      OnceStep(t, w, steps[n], id, true);
      SaysStep(t, w, steps[n], id, dates);
    }
  }

  /** While the list of dates is not edited and baselines do not move under an evaluation, every date is
      counted under one baseline only, silent counts included. */
  lemma UnchangedListCountsOnce(
    t: Wording, steps: seq<Step>, id: string, dates: seq<int>, c: Count, d: Count, date: int)
    requires TimelyRun(t, steps, id, true) && GoodWording(t) && Unchanged(steps, id, dates)
    requires c in Run(t, steps).counts && d in Run(t, steps).counts
    requires c.thesisId == id && d.thesisId == id && Counts(c, date) && Counts(d, date)
    ensures c.after == d.after
  {
    AllOnce(t, steps, id, dates);
    assert Agree(c, d);
  }
}
