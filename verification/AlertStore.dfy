/** The write-through store: rules and read state held in memory and in a durable cell whose write may
    fail. Every operation that writes takes the outcome of that write as `writeOk`. */
module AlertStore {
  import opened Common
  import opened AlertRules

  type Watermarks = map<string, int>
  type ReadSets = map<string, map<string, bool>>
  type Updates = map<string, Update>

  /** What the store remembers, in memory or on disk. */
  datatype Image = Image(rules: seq<Rule>, watermarks: Watermarks, readIds: ReadSets)

  datatype Op =
    | Add(rule: Rule, id: string, now: int)
    | Replace(target: string, next: Rule)
    | Delete(target: string)
    | ApplyUpdates(updates: Updates)
    | MarkAll(uid: string, now: int)
    | MarkOne(uid: string, eventId: string)

  function IndexOf(rules: seq<Rule>, id: string): (k: nat)
    ensures k <= |rules|
    ensures k < |rules| ==> rules[k].id == id
    ensures forall i :: 0 <= i < k ==> rules[i].id != id
  {
    FirstWhere(rules, (r: Rule) => r.id == id)
  }

  /** The rule as stored: the server owns its id, its creation time and its memory. */
  function Created(r: Rule, id: string, now: int): Rule {
    r.(id := id, createdAt := now, lastTriggered := 0, lastState := Nothing)
  }

  /** An edit keeps everything the server owns. */
  function Merged(cur: Rule, next: Rule): Rule {
    next.(id := cur.id, userId := cur.userId, createdAt := cur.createdAt, lastTriggered := cur.lastTriggered)
  }

  function WithUpdate(r: Rule, updates: Updates): Rule {
    if r.id in updates then Updated(r, Some(updates[r.id])) else r
  }

  function AllUpdated(rules: seq<Rule>, updates: Updates): (r: seq<Rule>)
    ensures |r| == |rules|
    ensures forall i :: 0 <= i < |rules| ==> r[i] == WithUpdate(rules[i], updates)
  {
    seq(|rules|, i requires 0 <= i < |rules| => WithUpdate(rules[i], updates))
  }

  function ReadSet(m: Image, uid: string): map<string, bool> {
    if uid in m.readIds then m.readIds[uid] else map[]
  }

  /** The state an operation asks for. */
  function Wanted(m: Image, op: Op): Image {
    match op
    case Add(r, id, now) => m.(rules := m.rules + [Created(r, id, now)])
    case Replace(id, next) =>
      var k := IndexOf(m.rules, id);
      if k < |m.rules| then m.(rules := m.rules[k := Merged(m.rules[k], next)]) else m
    case Delete(id) =>
      var k := IndexOf(m.rules, id);
      if k < |m.rules| then m.(rules := m.rules[..k] + m.rules[k + 1..]) else m
    case ApplyUpdates(updates) => m.(rules := AllUpdated(m.rules, updates))
    case MarkAll(uid, now) => m.(watermarks := m.watermarks[uid := now])
    case MarkOne(uid, id) =>
      if id == "" then m else m.(readIds := m.readIds[uid := ReadSet(m, uid)[id := true]])
  }

  /** Whether the operation reaches the durable cell at all. */
  predicate Writes(m: Image, op: Op) {
    match op
    case Add(_, _, _) => true
    case Replace(id, _) => IndexOf(m.rules, id) < |m.rules|
    case Delete(id) => IndexOf(m.rules, id) < |m.rules|
    case ApplyUpdates(updates) => exists i :: 0 <= i < |m.rules| && m.rules[i].id in updates
    case MarkAll(_, _) => true
    case MarkOne(_, id) => id != ""
  }

  /** An operation whose write fails leaves no trace. */
  function After(m: Image, op: Op, writeOk: bool): Image {
    if Writes(m, op) && !writeOk then m else Wanted(m, op)
  }

  class Store {
    var rules: seq<Rule>
    var watermarks: Watermarks
    var readIds: ReadSets
    var disk: Image

    constructor ()
      ensures Memory() == disk == Image([], map[], map[])
    {
      rules, watermarks, readIds := [], map[], map[];
      disk := Image([], map[], map[]);
    }

    ghost function Memory(): Image
      reads this
    {
      Image(rules, watermarks, readIds)
    }

    /** Memory and disk agree between operations. */
    ghost predicate Valid()
      reads this
    {
      Memory() == disk
    }

    method PersistRules(writeOk: bool) returns (ok: bool)
      modifies this`disk
      ensures ok == writeOk
      ensures disk == if writeOk then old(disk).(rules := rules) else old(disk)
    {
      if writeOk { disk := disk.(rules := rules); }
      return writeOk;
    }

    method PersistState(writeOk: bool) returns (ok: bool)
      modifies this`disk
      ensures ok == writeOk
      ensures disk == if writeOk then old(disk).(watermarks := watermarks, readIds := readIds) else old(disk)
    {
      if writeOk { disk := disk.(watermarks := watermarks, readIds := readIds); }
      return writeOk;
    }

    method AddRule(r: Rule, id: string, now: int, writeOk: bool) returns (res: Result<Rule>)
      requires Valid()
      modifies this
      ensures Valid() && Memory() == After(old(Memory()), Add(r, id, now), writeOk)
      ensures res == if writeOk then Ok(Created(r, id, now)) else Err
    {
      var created := r.(id := id, createdAt := now, lastTriggered := 0, lastState := Nothing);
      rules := rules + [created];
      var ok := PersistRules(writeOk);
      if !ok {
        rules := rules[..|rules| - 1];
        return Err;
      }
      return Ok(created);
    }

    method ReplaceRule(id: string, next: Rule, writeOk: bool) returns (res: Result<Option<Rule>>)
      requires Valid()
      modifies this
      ensures Valid() && Memory() == After(old(Memory()), Replace(id, next), writeOk)
      ensures var k := IndexOf(old(rules), id);
        res == if k == |old(rules)| then Ok(None)
               else if writeOk then Ok(Some(Merged(old(rules)[k], next))) else Err
    {
      for i := 0 to |rules|
        invariant rules == old(rules) && Memory() == old(Memory()) && disk == old(disk)
        invariant forall j :: 0 <= j < i ==> rules[j].id != id
      {
        if rules[i].id == id {
          assert IndexOf(rules, id) == i;
          var cur := rules[i];
          var edited := next.(id := cur.id, userId := cur.userId);
          rules := rules[i := edited.(createdAt := cur.createdAt, lastTriggered := cur.lastTriggered)];
          var ok := PersistRules(writeOk);
          if !ok {
            rules := rules[i := cur];
            assert rules == old(rules);
            return Err;
          }
          return Ok(Some(rules[i]));
        }
      }
      assert IndexOf(rules, id) == |rules|;
      return Ok(None);
    }

    method DeleteRule(id: string, writeOk: bool) returns (res: Result<bool>)
      requires Valid()
      modifies this
      ensures Valid() && Memory() == After(old(Memory()), Delete(id), writeOk)
      ensures res == if IndexOf(old(rules), id) == |old(rules)| then Ok(false)
                     else if writeOk then Ok(true) else Err
    {
      for i := 0 to |rules|
        invariant Memory() == old(Memory()) && disk == old(disk)
        invariant forall j :: 0 <= j < i ==> rules[j].id != id
      {
        if rules[i].id == id {
          assert IndexOf(rules, id) == i;
          var before := rules;
          rules := rules[..i] + rules[i + 1..];
          var ok := PersistRules(writeOk);
          if !ok {
            rules := before;
            return Err;
          }
          return Ok(true);
        }
      }
      assert IndexOf(rules, id) == |rules|;
      return Ok(false);
    }

    method ApplyEvalUpdates(updates: Updates, writeOk: bool) returns (ok: bool)
      requires Valid()
      modifies this
      ensures Valid() && Memory() == After(old(Memory()), ApplyUpdates(updates), writeOk)
      ensures ok == (writeOk || !Writes(old(Memory()), ApplyUpdates(updates)))
    {
      if |updates| == 0 {
        assert AllUpdated(rules, updates) == rules;
        return true;
      }
      var before := rules;
      var changed := false;
      for i := 0 to |rules|
        invariant |rules| == |before| && disk == old(disk)
        invariant watermarks == old(watermarks) && readIds == old(readIds)
        invariant forall j :: 0 <= j < i ==> rules[j] == WithUpdate(before[j], updates)
        invariant forall j :: i <= j < |rules| ==> rules[j] == before[j]
        invariant changed <==> exists j :: 0 <= j < i && before[j].id in updates
      {
        if rules[i].id in updates {
          var u := updates[rules[i].id];
          rules := rules[i := rules[i].(lastTriggered := u.lastTriggered, lastState := u.lastState)];
          changed := true;
        }
      }
      assert rules == AllUpdated(before, updates);
      ok := true;
      if changed {
        ok := PersistRules(writeOk);
        if !ok {
          rules := before;
        }
      } else {
        assert rules == before;
      }
    }

    method MarkEventsRead(uid: string, now: int, writeOk: bool) returns (ok: bool)
      requires Valid()
      modifies this
      ensures Valid() && Memory() == After(old(Memory()), MarkAll(uid, now), writeOk) && ok == writeOk
    {
      var existed := uid in watermarks;
      var previous := if existed then watermarks[uid] else 0;
      watermarks := watermarks[uid := now];
      ok := PersistState(writeOk);
      if !ok {
        if existed {
          watermarks := watermarks[uid := previous];
        } else {
          watermarks := watermarks - {uid};
        }
        assert watermarks == old(watermarks);
      }
    }

    method MarkEventRead(uid: string, id: string, writeOk: bool) returns (ok: bool)
      requires Valid()
      modifies this
      ensures Valid() && Memory() == After(old(Memory()), MarkOne(uid, id), writeOk)
      ensures ok == (writeOk || id == "")
    {
      if id == "" {
        return true;
      }
      var createdSet := uid !in readIds;
      var marks := if createdSet then map[] else readIds[uid];
      var existed := id in marks;
      var previous := existed && marks[id];
      readIds := readIds[uid := marks[id := true]];
      ok := PersistState(writeOk);
      if !ok {
        readIds := Unmarked(readIds, uid, id, existed, previous, createdSet);
        UnmarkRestores(old(readIds), uid, id);
        assert readIds == old(readIds);
      }
    }
  }

  /** The rollback of a read mark: put the flag back, and drop a set that was made for it. */
  function Unmarked(ids: ReadSets, uid: string, id: string, existed: bool, previous: bool, createdSet: bool): ReadSets
    requires uid in ids
  {
    var marks := if existed then ids[uid][id := previous] else ids[uid] - {id};
    if createdSet && |marks| == 0 then ids - {uid} else ids[uid := marks]
  }

  lemma UnmarkRestores(before: ReadSets, uid: string, id: string)
    ensures var marks := if uid in before then before[uid] else map[];
      var existed := id in marks;
      Unmarked(before[uid := marks[id := true]], uid, id, existed, existed && marks[id], uid !in before) == before
  {
    var marks := if uid in before then before[uid] else map[];
    var marked := before[uid := marks[id := true]];
    if id in marks {
      assert marked[uid][id := marks[id]] == marks;
    } else {
      assert marked[uid] - {id} == marks;
    }
    if uid in before {
      assert marked[uid := marks] == before;
    } else {
      assert marked - {uid} == before;
    }
  }

  // ------------------------------------------------------------------ sequences of operations

  datatype Attempt = Attempt(op: Op, writeOk: bool)

  function Run(m: Image, attempts: seq<Attempt>): Image {
    if attempts == [] then m
    else
      var last := attempts[|attempts| - 1];
      After(Run(m, attempts[..|attempts| - 1]), last.op, last.writeOk)
  }

  /** The attempts that were not turned away by the disk. */
  function Durable(m: Image, attempts: seq<Attempt>): seq<Attempt> {
    if attempts == [] then []
    else
      var last, init := attempts[|attempts| - 1], attempts[..|attempts| - 1];
      Durable(m, init) + if Writes(Run(m, init), last.op) && !last.writeOk then [] else [Attempt(last.op, true)]
  }

  /** Whatever the disk did, the store ends where the successful operations alone would have taken it. */
  lemma {:induction false} FailuresLeaveNoTrace(m: Image, attempts: seq<Attempt>)
    ensures Run(m, attempts) == Run(m, Durable(m, attempts))
    ensures forall a :: a in Durable(m, attempts) ==> a.writeOk
  {
    if attempts != [] {
      var last, init := attempts[|attempts| - 1], attempts[..|attempts| - 1];
      FailuresLeaveNoTrace(m, init);
      var kept := Durable(m, init);
      if Writes(Run(m, init), last.op) && !last.writeOk {
        assert kept + [] == kept;
      } else {
        assert (kept + [Attempt(last.op, true)])[..|kept|] == kept;
      }
    }
  }

  /** Ids handed out by creation are new. */
  ghost predicate FreshIds(m: Image, attempts: seq<Attempt>) {
    attempts == [] ||
    (var last, init := attempts[|attempts| - 1], attempts[..|attempts| - 1];
     && FreshIds(m, init)
     && (last.op.Add? ==>
           && (forall r :: r in m.rules ==> r.id != last.op.id)
           && (forall a :: a in init && a.op.Add? ==> a.op.id != last.op.id)))
  }

  /** Ids present at any time come from the start or from a creation. */
  lemma {:induction false} IdsAreKnown(m: Image, attempts: seq<Attempt>, k: nat)
    requires k < |Run(m, attempts).rules|
    ensures (exists r :: r in m.rules && r.id == Run(m, attempts).rules[k].id)
         || (exists a :: a in attempts && a.op.Add? && a.op.id == Run(m, attempts).rules[k].id)
  {
    if attempts == [] {
      assert m.rules[k] in m.rules;
    } else {
      var last, init := attempts[|attempts| - 1], attempts[..|attempts| - 1];
      var before, id := Run(m, init), Run(m, attempts).rules[k].id;
      if i: nat :| i < |before.rules| && before.rules[i].id == id {
        IdsAreKnown(m, init, i);
        assert forall a :: a in init ==> a in attempts;
      } else {
        assert last in attempts;
        assert last.op.Add? by {
          if !last.op.Add? { NoNewIds(before, last.op, last.writeOk, k); }
        }
      }
    }
  }

  lemma NoNewIds(m: Image, op: Op, writeOk: bool, k: nat)
    requires !op.Add? && k < |After(m, op, writeOk).rules|
    ensures exists i: nat :: i < |m.rules| && m.rules[i].id == After(m, op, writeOk).rules[k].id
  {
    var id := After(m, op, writeOk).rules[k].id;
    if op.Delete? && |After(m, op, writeOk).rules| < |m.rules| && k >= IndexOf(m.rules, op.target) {
      assert m.rules[k + 1].id == id;
    } else {
      assert m.rules[k].id == id;
    }
  }

  lemma RemovalKeepsDistinct(rules: seq<Rule>, k: nat)
    requires DistinctIds(rules) && k < |rules|
    ensures DistinctIds(rules[..k] + rules[k + 1..])
  {
  }

  lemma SameIdsDistinct(before: seq<Rule>, after: seq<Rule>)
    requires DistinctIds(before) && |before| == |after| && forall i :: 0 <= i < |before| ==> before[i].id == after[i].id
    ensures DistinctIds(after)
  {
  }

  lemma OpKeepsIdsDistinct(m: Image, op: Op, writeOk: bool)
    requires DistinctIds(m.rules)
    requires op.Add? ==> forall r :: r in m.rules ==> r.id != op.id
    ensures DistinctIds(After(m, op, writeOk).rules)
  {
    var rules := After(m, op, writeOk).rules;
    match op {
      case Add(_, _, _) => assert forall i :: 0 <= i < |m.rules| ==> m.rules[i] in m.rules;
      case Delete(id) => if IndexOf(m.rules, id) < |m.rules| { RemovalKeepsDistinct(m.rules, IndexOf(m.rules, id)); }
      case _ => SameIdsDistinct(m.rules, rules);
    }
  }

  /** Ids stay distinct. */
  lemma {:induction false} IdsStayDistinct(m: Image, attempts: seq<Attempt>)
    requires DistinctIds(m.rules) && FreshIds(m, attempts)
    ensures DistinctIds(Run(m, attempts).rules)
  {
    if attempts != [] {
      var last, init := attempts[|attempts| - 1], attempts[..|attempts| - 1];
      IdsStayDistinct(m, init);
      var before := Run(m, init);
      if last.op.Add? {
        forall r | r in before.rules ensures r.id != last.op.id {
          var i :| 0 <= i < |before.rules| && before.rules[i] == r;
          IdsAreKnown(m, init, i);
        }
      }
      OpKeepsIdsDistinct(before, last.op, last.writeOk);
    }
  }

  /** The fields the server owns: edits, deletions of others and read marks never move a rule's owner
      or creation time, and only an evaluation moves its last trigger. */
  lemma ServerOwnedFields(m: Image, op: Op, writeOk: bool, i: nat, k: nat)
    requires DistinctIds(m.rules) && i < |m.rules| && k < |After(m, op, writeOk).rules|
    requires op.Add? ==> forall r :: r in m.rules ==> r.id != op.id
    requires After(m, op, writeOk).rules[k].id == m.rules[i].id
    ensures var was, is' := m.rules[i], After(m, op, writeOk).rules[k];
      && is'.userId == was.userId && is'.createdAt == was.createdAt
      && (!op.ApplyUpdates? ==> is'.lastTriggered == was.lastTriggered)
      && (!op.Replace? ==> is'.body == was.body)
  {
    assert m.rules[i] in m.rules;
  }

  // ------------------------------------------------------------------ what the rule operations do to a list

  lemma RemovedMembers(rules: seq<Rule>, k: nat, r: Rule)
    requires DistinctIds(rules) && k < |rules|
    ensures r in rules[..k] + rules[k + 1..] <==> r in rules && r.id != rules[k].id
  {
    var left := rules[..k] + rules[k + 1..];
    if r in rules && r.id != rules[k].id {
      var p :| 0 <= p < |rules| && rules[p] == r;
      assert left[if p < k then p else p - 1] == r;
    }
    if r in left {
      var p :| 0 <= p < |left| && left[p] == r;
      assert r == rules[if p < k then p else p + 1];
    }
  }

  /** A stored deletion takes the rule of that id out, and leaves all others. */
  lemma DeleteInFields(m: Image, id: string)
    requires DistinctIds(m.rules)
    ensures var rules := After(m, Delete(id), true).rules;
      && (forall r :: r in rules <==> r in m.rules && r.id != id)
      && |rules| == |m.rules| - (if exists r :: r in m.rules && r.id == id then 1 else 0)
  {
    var k, rules := IndexOf(m.rules, id), After(m, Delete(id), true).rules;
    if k < |m.rules| {
      assert m.rules[k] in m.rules;
      forall r ensures r in rules <==> r in m.rules && r.id != id { RemovedMembers(m.rules, k, r); }
    } else {
      forall r | r in m.rules ensures r.id != id {
        var p :| 0 <= p < |m.rules| && m.rules[p] == r;
      }
    }
  }

  /** And it keeps their order. */
  lemma DeleteKeepsOrder(m: Image, id: string, i: nat, j: nat)
    requires i < j < |After(m, Delete(id), true).rules|
    ensures var rules := After(m, Delete(id), true).rules;
      exists p, q :: 0 <= p < q < |m.rules| && rules[i] == m.rules[p] && rules[j] == m.rules[q]
  {
    var k, rules := IndexOf(m.rules, id), After(m, Delete(id), true).rules;
    var p, q := if i < k then i else i + 1, if j < k then j else j + 1;
    if k < |m.rules| {
      assert rules[i] == m.rules[p] && rules[j] == m.rules[q];
    } else {
      assert rules[i] == m.rules[i] && rules[j] == m.rules[j];
    }
  }

  /** A stored creation puts the rule last, untriggered and without memory, and leaves all others. */
  lemma AddInFields(m: Image, r: Rule, id: string, now: int)
    ensures var rules := After(m, Add(r, id, now), true).rules;
      && |rules| == |m.rules| + 1 && rules[..|m.rules|] == m.rules
      && var c := rules[|m.rules|];
         && c.id == id && c.createdAt == now && c.lastTriggered == 0 && c.lastState == Nothing
         && c.userId == r.userId && c.body == r.body
  {
  }

  /** A stored edit gives the rule of that id its new body and memory, keeps what the server owns, and
      leaves all others where they are. */
  lemma ReplaceInFields(m: Image, id: string, next: Rule, i: nat)
    requires DistinctIds(m.rules) && i < |m.rules|
    ensures var r, rules := m.rules[i], After(m, Replace(id, next), true).rules;
      && |rules| == |m.rules| && (r.id != id ==> rules[i] == r)
      && (r.id == id ==>
            && rules[i].body == next.body && rules[i].lastState == next.lastState && rules[i].id == id
            && rules[i].userId == r.userId && rules[i].createdAt == r.createdAt
            && rules[i].lastTriggered == r.lastTriggered)
  {
    assert IndexOf(m.rules, id) <= i || m.rules[i].id != id;
  }

  /** A stored batch sets the memory and last trigger of the rules it names, and nothing else. */
  lemma UpdatesInFields(m: Image, updates: Updates, i: nat)
    requires i < |m.rules|
    ensures var r, rules := m.rules[i], After(m, ApplyUpdates(updates), true).rules;
      && |rules| == |m.rules|
      && (r.id !in updates ==> rules[i] == r)
      && (r.id in updates ==>
            && rules[i].lastTriggered == updates[r.id].lastTriggered && rules[i].lastState == updates[r.id].lastState
            && rules[i].id == r.id && rules[i].userId == r.userId && rules[i].createdAt == r.createdAt
            && rules[i].body == r.body)
  {
  }

  /** No operation on rules touches the read state, and no read mark touches the rules. */
  lemma OpsKeepApart(m: Image, op: Op, writeOk: bool)
    ensures var m' := After(m, op, writeOk);
      && (!op.MarkAll? ==> m'.watermarks == m.watermarks) && (!op.MarkOne? ==> m'.readIds == m.readIds)
      && (op.MarkAll? || op.MarkOne? ==> m'.rules == m.rules)
  {
  }

  // ------------------------------------------------------------------ unread counts

  datatype Event = Event(id: string, ts: int)

  /** The user has seen this event: it is at or before the watermark, or was marked on its own. */
  predicate IsRead(m: Image, uid: string, e: Event) {
    || e.ts <= (if uid in m.watermarks then m.watermarks[uid] else 0)
    || (e.id in ReadSet(m, uid) && ReadSet(m, uid)[e.id])
  }

  function Unread(m: Image, uid: string, events: seq<Event>): (n: nat)
    ensures n == 0 <==> forall i :: 0 <= i < |events| ==> IsRead(m, uid, events[i])
  {
    if events == [] then 0
    else
      var k := |events| - 1;
      assert forall i :: 0 <= i < k ==> events[..k][i] == events[i];
      Unread(m, uid, events[..k]) + if IsRead(m, uid, events[k]) then 0 else 1
  }

  method CountUnread(events: seq<Event>, watermark: int, readSet: map<string, bool>, ghost m: Image, ghost uid: string)
    returns (n: nat)
    requires watermark == (if uid in m.watermarks then m.watermarks[uid] else 0) && readSet == ReadSet(m, uid)
    ensures n == Unread(m, uid, events)
  {
    n := 0;
    for i := 0 to |events|
      invariant n == Unread(m, uid, events[..i])
    {
      assert events[..i + 1][..i] == events[..i];
      if events[i].ts > watermark && !(events[i].id in readSet && readSet[events[i].id]) {
        n := n + 1;
      }
    }
    assert events[..|events|] == events;
  }

  /** Marking everything read clears the count of what had happened by then, if it was stored. */
  lemma MarkAllClears(m: Image, uid: string, now: int, writeOk: bool, events: seq<Event>)
    requires forall i :: 0 <= i < |events| ==> events[i].ts <= now
    ensures Unread(After(m, MarkAll(uid, now), writeOk), uid, events) == if writeOk then 0 else Unread(m, uid, events)
  {
    if writeOk {
      assert forall i :: 0 <= i < |events| ==> IsRead(After(m, MarkAll(uid, now), writeOk), uid, events[i]);
    }
  }

  /** After marking everything read at `now`, an event is read exactly when it had happened by then or was
      marked on its own. */
  lemma MarkAllReads(m: Image, uid: string, now: int, e: Event)
    ensures IsRead(After(m, MarkAll(uid, now), true), uid, e) <==>
      e.ts <= now || (uid in m.readIds && e.id in m.readIds[uid] && m.readIds[uid][e.id])
  {
  }

  /** Reading one more event lowers the count by one if that event was unread, and by nothing
      otherwise. */
  lemma {:induction false} OneMoreRead(m: Image, m': Image, uid: string, events: seq<Event>, k: nat)
    requires k < |events| && IsRead(m', uid, events[k])
    requires forall i :: 0 <= i < |events| && i != k ==> IsRead(m', uid, events[i]) == IsRead(m, uid, events[i])
    ensures Unread(m', uid, events) == Unread(m, uid, events) - if IsRead(m, uid, events[k]) then 0 else 1
  {
    var n := |events| - 1;
    if k == n {
      SameReads(m, m', uid, events[..n]);
    } else {
      OneMoreRead(m, m', uid, events[..n], k);
    }
  }

  lemma {:induction false} SameReads(m: Image, m': Image, uid: string, events: seq<Event>)
    requires forall i :: 0 <= i < |events| ==> IsRead(m', uid, events[i]) == IsRead(m, uid, events[i])
    ensures Unread(m', uid, events) == Unread(m, uid, events)
  {
    if events != [] {
      SameReads(m, m', uid, events[..|events| - 1]);
    }
  }

  lemma MarkOneReads(m: Image, uid: string, id: string, e: Event)
    requires id != ""
    ensures IsRead(After(m, MarkOne(uid, id), true), uid, e) <==> IsRead(m, uid, e) || e.id == id
  {
  }

  /** Marking one event, of a list with distinct ids, takes it off the count if it was on it. */
  lemma MarkOneClearsOne(m: Image, uid: string, id: string, events: seq<Event>, k: nat)
    requires id != "" && k < |events| && events[k].id == id
    requires forall i, j :: 0 <= i < j < |events| ==> events[i].id != events[j].id
    ensures Unread(After(m, MarkOne(uid, id), true), uid, events) ==
      Unread(m, uid, events) - if IsRead(m, uid, events[k]) then 0 else 1
  {
    var m' := After(m, MarkOne(uid, id), true);
    forall i | 0 <= i < |events| ensures IsRead(m', uid, events[i]) == (IsRead(m, uid, events[i]) || i == k) {
      MarkOneReads(m, uid, id, events[i]);
    }
    OneMoreRead(m, m', uid, events, k);
  }

  /** Nobody's read marks touch another user's count. */
  lemma {:induction false} OtherUsersKeepTheirCount(m: Image, op: Op, writeOk: bool, uid: string, events: seq<Event>)
    requires (op.MarkAll? || op.MarkOne?) ==> op.uid != uid
    ensures Unread(After(m, op, writeOk), uid, events) == Unread(m, uid, events)
  {
    SameReads(m, After(m, op, writeOk), uid, events);
  }
}
