/** The monitor object: its marker map, its queue and its drop counter, updated in place by the sweep
    and by the two worker calls. */
module ThesisMonitor {
  import opened Common
  import opened ResynthQueue
  import opened ThesisMarkers

  datatype QueueStats = QueueStats(depth: nat, queued: nat, processing: nat, completed: nat, failed: nat, dropped: nat)

  datatype TickReport = TickReport(reachable: bool, theses: nat, truncated: bool, tally: Tally)

  /** The places among the first `n` of the queue whose job is in that state. */
  function In(q: seq<Job>, n: nat, s: JobState): set<int>
    requires n <= |q|
  {
    set i | 0 <= i < n && q[i].state == s
  }

  lemma InStep(q: seq<Job>, s: JobState, i: nat)
    requires i < |q|
    ensures |In(q, i + 1, s)| == |In(q, i, s)| + if q[i].state == s then 1 else 0
  {
    var before := In(q, i, s);
    assert i !in before;
    if q[i].state == s {
      InNext(q, s, i, before + {i});
    } else {
      InNext(q, s, i, before);
    }
  }

  lemma InNext(q: seq<Job>, s: JobState, i: nat, next: set<int>)
    requires i < |q|
    requires forall k :: k in next <==> k in In(q, i, s) || (k == i && q[i].state == s)
    ensures next == In(q, i + 1, s)
  {
    forall k ensures k in next <==> k in In(q, i + 1, s) {
    }
  }

  class Monitor {
    const wording: Wording
    var markers: Markers
    var queue: seq<Job>
    var dropped: nat

    constructor (wording: Wording)
      ensures this.wording == wording && Contents() == State(map[], [], 0)
    {
      this.wording := wording;
      markers, queue, dropped := map[], [], 0;
    }

    ghost function Contents(): State
      reads this
    {
      State(markers, queue, dropped)
    }

    /** Appends the job of a stale marker unless its id is already queued. */
    method Enqueue(marker: Marker, now: int) returns (accepted: bool)
      modifies this`queue, this`dropped
      ensures var j := JobFor(wording, marker, now);
        && accepted == (marker.stale && IsNew(old(queue), j.id))
        && queue == (if marker.stale then AfterEnqueue(old(queue), j) else old(queue))
        && dropped == old(dropped) + (if marker.stale then DroppedBy(old(queue), j) else 0)
    {
      if !marker.stale {
        return false;
      }
      var job := JobFor(wording, marker, now);
      for i := 0 to |queue|
        invariant queue == old(queue) && dropped == old(dropped)
        invariant forall k :: 0 <= k < i ==> queue[k].id != job.id
      {
        if queue[i].id == job.id {
          return false;
        }
      }
      queue := queue + [job];
      if |queue| > MAX_QUEUE {
        var drop := |queue| - MAX_QUEUE;
        queue := queue[drop..];
        dropped := dropped + drop;
      }
      return true;
    }

    /** Claims the oldest leasable job, failing the exhausted ones it walks past. */
    method LeaseResynth(now: int, token: string) returns (leased: Option<Job>)
      modifies this`queue
      ensures queue == AfterLease(old(queue), now, token)
      ensures var k := FirstLeasable(old(queue), now);
        leased == if k < |old(queue)| then Some(queue[k]) else None
    {
      ghost var before := queue;
      for i := 0 to |queue|
        invariant |queue| == |before|
        invariant forall k :: 0 <= k < i ==> !Leasable(before[k], now) && queue[k] == Passed(before[k], now)
        invariant forall k :: i <= k < |queue| ==> queue[k] == before[k]
      {
        var job := queue[i];
        if job.state == Failed && job.failedAt > 0 && job.failedAt + RETRY_DELAY <= now {
          job := job.(state := Queued, attempts := 0, failedAt := 0);
        }
        var eligible := job.state == Queued ||
          (job.state == Processing && job.leaseUntil > 0 && job.leaseUntil <= now);
        if eligible {
          if job.attempts >= MAX_ATTEMPTS {
            job := job.(state := Failed, failedAt := now, leasedAt := 0, leaseUntil := 0, leaseToken := "");
            if job.lastError == "" {
              job := job.(lastError := EXHAUSTED_ERROR);
            }
            queue := queue[i := job];
          } else {
            job := job.(state := Processing, attempts := job.attempts + 1, leasedAt := now,
                        leaseUntil := now + LEASE_SECONDS, leaseToken := token, lastError := "");
            assert Leasable(before[i], now);
            assert FirstLeasable(before, now) == i;
            queue := queue[i := job];
            assert queue == AfterLease(before, now, token);
            return Some(job);
          }
        }
      }
      assert FirstLeasable(before, now) == |before|;
      assert queue == AfterLease(before, now, token);
      return None;
    }

    /** Acknowledges a lease; success also moves the thesis's baseline. */
    method CompleteResynth(id: string, token: string, outcome: Outcome, detail: string, now: int)
      returns (ok: bool)
      modifies this`queue, this`markers
      ensures ok == Accepted(old(queue), id, token, outcome)
      ensures queue == AfterComplete(old(queue), id, token, outcome, detail, now)
      ensures markers ==
        if Resolves(old(queue), id, token, outcome) && outcome.Done? then
          var j := old(queue)[IndexOf(old(queue), id)]; AfterAck(old(markers), j.thesisId, j.asOf)
        else old(markers)
    {
      for i := 0 to |queue|
        invariant queue == old(queue) && markers == old(markers)
        invariant forall k :: 0 <= k < i ==> queue[k].id != id
      {
        var job := queue[i];
        if job.id == id {
          assert IndexOf(queue, id) == i;
          if token == "" || job.leaseToken != token { return false; }
          if job.state == Completed { return true; }
          if job.state != Processing { return false; }
          match outcome {
            case Done =>
              job := job.(state := Completed, completedAt := now);
              queue := queue[i := job.(leasedAt := 0, leaseUntil := 0, lastError := "")];
              if job.thesisId in markers && markers[job.thesisId].stale && markers[job.thesisId].asOfISO == job.asOf {
                var marker := markers[job.thesisId];
                markers := markers[job.thesisId := marker.(stale := false, severity := Clear,
                  reason := "re-synthesis completed", baselineAt := marker.asOf,
                  baselinePx := marker.observedPx, lastFired := "")];
              }
            case Retry =>
              job := job.(lastError := Clipped(detail), leasedAt := 0, leaseUntil := 0, leaseToken := "");
              if job.attempts >= MAX_ATTEMPTS {
                job := job.(state := Failed, failedAt := now);
              } else {
                job := job.(state := Queued);
              }
              queue := queue[i := job];
            case Unknown =>
              return false;
          }
          return true;
        }
      }
      assert IndexOf(queue, id) == |queue|;
      return false;
    }

    /** One bar per distinct ticker; a ticker that answers nothing is left out. */
    method ReadBars(theses: seq<Thesis>, upstream: map<string, Bar>) returns (bars: map<string, Bar>)
      ensures forall k :: 0 <= k < |theses| ==> (theses[k].ticker in bars <==> theses[k].ticker in upstream - {""})
      ensures forall sym :: sym in bars ==> sym in upstream && bars[sym] == upstream[sym]
    {
      bars := map[];
      for i := 0 to |theses|
        invariant forall k :: 0 <= k < i ==> (theses[k].ticker in bars <==> theses[k].ticker in upstream - {""})
        invariant forall sym :: sym in bars ==> sym in upstream - {""} && bars[sym] == upstream[sym]
      {
        var sym := theses[i].ticker;
        if sym != "" && sym !in bars && sym in upstream {
          bars := bars[sym := upstream[sym]];
        }
      }
    }

    /** One thesis of a sweep: compare, publish, enqueue, and count. */
    method Examine(th: Thesis, bar: Bar, now: int, tally: Tally) returns (t: Tally)
      modifies this
      ensures Contents() == SweepOne(wording, old(Contents()), th, bar, now)
      ensures t == TallyOne(wording, old(Contents()), tally, th, bar, now)
    {
      t := tally.(examined := tally.examined + 1, asOf := if tally.asOf == "" then bar.iso else tally.asOf);
      match FirstRead(wording, markers, th, bar) {
        case Nothing =>
        case Establish =>
          markers := markers[th.id := Baseline(th, bar)];
        case Suspect(reason) =>
          if !AlreadySaid(wording, markers, th.id, reason) {
            var marker := Stale(wording, th, markers[th.id], bar, reason, now);
            markers := markers[th.id := marker];
            var accepted := Enqueue(marker, now);
            t := t.(marked := t.marked + 1, enqueued := t.enqueued + if accepted then 1 else 0);
          }
      }
    }

    /** One sweep over what the journal and the bar store answered; None is an unreachable journal. */
    method Tick(fetched: Option<seq<Thesis>>, upstream: map<string, Bar>, now: int) returns (report: TickReport)
      modifies this
      ensures fetched.None? ==> Contents() == old(Contents()) && !report.reachable
      ensures fetched.Some? ==>
        var theses := Examined(fetched.value);
        && Contents() == Sweep(wording, old(Contents()), theses, upstream - {""}, now)
        && report == TickReport(true, |theses|, |fetched.value| > MAX_THESES,
                                SweepTally(wording, old(Contents()), theses, upstream - {""}, now))
    {
      if fetched.None? {
        return TickReport(false, 0, false, Tally(0, 0, 0, ""));
      }
      var theses := fetched.value;
      if |theses| > MAX_THESES {
        theses := theses[..MAX_THESES];
      }
      var bars := ReadBars(theses, upstream);
      var tally := Tally(0, 0, 0, "");
      for i := 0 to |theses|
        invariant Contents() == Sweep(wording, old(Contents()), theses[..i], upstream - {""}, now)
        invariant tally == SweepTally(wording, old(Contents()), theses[..i], upstream - {""}, now)
      {
        assert theses[..i + 1][..i] == theses[..i];
        if theses[i].ticker in bars {
          tally := Examine(theses[i], bars[theses[i].ticker], now, tally);
        }
      }
      assert theses[..|theses|] == theses;
      return TickReport(true, |theses|, |fetched.value| > MAX_THESES, tally);
    }

    /** Backlog and history, counted by state; the four counts add up to the queue. */
    method Stats() returns (stats: QueueStats)
      ensures stats.queued == |In(queue, |queue|, Queued)| && stats.processing == |In(queue, |queue|, Processing)|
      ensures stats.completed == |In(queue, |queue|, Completed)| && stats.failed == |In(queue, |queue|, Failed)|
      ensures stats.depth == stats.queued + stats.processing
      ensures stats.queued + stats.processing + stats.completed + stats.failed == |queue|
      ensures stats.dropped == dropped
    {
      var a, b, c, d: nat := 0, 0, 0, 0;
      for i := 0 to |queue|
        invariant a == |In(queue, i, Queued)| && b == |In(queue, i, Processing)|
        invariant c == |In(queue, i, Completed)| && d == |In(queue, i, Failed)|
        invariant a + b + c + d == i
      {
        InStep(queue, Queued, i);
        InStep(queue, Processing, i);
        InStep(queue, Completed, i);
        InStep(queue, Failed, i);
        match queue[i].state {
          case Queued => a := a + 1;
          case Processing => b := b + 1;
          case Completed => c := c + 1;
          case Failed => d := d + 1;
        }
      }
      stats := QueueStats(a + b, a, b, c, d, dropped);
    }
  }
}
