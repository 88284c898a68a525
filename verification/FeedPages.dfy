/** The Following feed: event rows made unique by id, put in a total order, and cut into pages by a
    cursor that names the last row already shown. */
module FeedPages {
  import opened Common
  import opened Text
  import opened Sorting

  datatype Item = Item(id: string, publishedAt: int, title: string)

  // ------------------------------------------------------------------ the order

  /** (publishedAt, id) descending. */
  predicate After(at: int, id: string, it: Item) {
    it.publishedAt < at || (it.publishedAt == at && Less(it.id, id))
  }

  predicate Newer(a: Item, b: Item) { After(a.publishedAt, a.id, b) }

  /** Later publication first, and of one time the larger id first. */
  lemma NewerInFields(a: Item, b: Item)
    ensures Newer(a, b) <==>
      a.publishedAt > b.publishedAt || (a.publishedAt == b.publishedAt && Less(b.id, a.id))
  {
  }

  const NEWER: (Item, Item) -> bool := (a, b) => Newer(a, b)

  lemma NewerTransitive(a: Item, b: Item, c: Item)
    requires Newer(a, b) && Newer(b, c)
    ensures Newer(a, c)
  {
    if a.publishedAt == b.publishedAt == c.publishedAt {
      LessTransitive(c.id, b.id, a.id);
    }
  }

  ghost predicate IdsUnique(s: set<Item>) {
    TellsApart((it: Item) => it.id, s)
  }

  /** Over rows with distinct ids the order is total. */
  lemma NewerOrders(s: set<Item>)
    requires IdsUnique(s)
    ensures Orders(NEWER, s)
  {
    forall x | x in s ensures !Newer(x, x) { LessTrichotomy(x.id, x.id); }
    forall x, y, z | x in s && y in s && z in s && Newer(x, y) && Newer(y, z) ensures Newer(x, z) {
      NewerTransitive(x, y, z);
    }
    forall x, y | x in s && y in s && x != y ensures Newer(x, y) || Newer(y, x) {
      LessTrichotomy(x.id, y.id);
    }
  }

  // ------------------------------------------------------------------ building a snapshot

  /** First occurrence of each non-empty id. */
  function Unique(events: seq<Item>): seq<Item> {
    if events == [] then []
    else
      var init, e := events[..|events| - 1], events[|events| - 1];
      Unique(init) + if e.id == "" || exists k :: 0 <= k < |init| && init[k].id == e.id then [] else [e]
  }

  method DedupeById(events: seq<Item>) returns (items: seq<Item>)
    ensures items == Unique(events)
  {
    items := [];
    var seen: set<string> := {};
    for i := 0 to |events|
      invariant items == Unique(events[..i])
      invariant forall id :: id in seen <==> id != "" && exists k :: 0 <= k < i && events[k].id == id
    {
      var ev := events[i];
      assert events[..i + 1][..i] == events[..i];
      assert forall k :: 0 <= k < i ==> events[..i][k] == events[k];
      if ev.id != "" && ev.id !in seen {
        seen := seen + {ev.id};
        items := items + [ev];
      }
    }
    assert events[..|events|] == events;
  }

  lemma {:induction false} UniqueHasUniqueIds(events: seq<Item>)
    ensures forall e :: e in Unique(events) ==> e.id != "" && e in events
    ensures forall i, j :: 0 <= i < j < |Unique(events)| ==> Unique(events)[i].id != Unique(events)[j].id
  {
    if events != [] {
      var init, e := events[..|events| - 1], events[|events| - 1];
      UniqueHasUniqueIds(init);
      assert events == init + [e];
      var before := Unique(init);
      forall i | 0 <= i < |before| && e.id == before[i].id
        ensures exists k :: 0 <= k < |init| && init[k].id == e.id
      {
        assert before[i] in before && before[i] in init;
      }
    }
  }

  lemma {:induction false} UniqueKeepsEveryId(events: seq<Item>, k: nat)
    requires k < |events| && events[k].id != ""
    ensures exists u :: u in Unique(events) && u.id == events[k].id
  {
    var init, e := events[..|events| - 1], events[|events| - 1];
    if k < |init| {
      UniqueKeepsEveryId(init, k);
      var u :| u in Unique(init) && u.id == events[k].id;
      assert u in Unique(events);
    } else if n: nat :| n < |init| && init[n].id == e.id {
      UniqueKeepsEveryId(init, n);
      var u :| u in Unique(init) && u.id == e.id;
      assert u in Unique(events);
    } else {
      assert Unique(events) == Unique(init) + [e];
    }
  }

  /** The row has an id, and no earlier row has the same. */
  ghost predicate FirstOfId(events: seq<Item>, k: int) {
    0 <= k < |events| && events[k].id != "" && forall i :: 0 <= i < k ==> events[i].id != events[k].id
  }

  /** Where the kept rows stand. */
  ghost function Firsts(events: seq<Item>): seq<int> {
    if events == [] then []
    else Firsts(events[..|events| - 1]) + if FirstOfId(events, |events| - 1) then [|events| - 1] else []
  }

  /** `u` are the rows of `events` at the places `f`, in order, each the first of its id. */
  ghost predicate KeepsFirst(events: seq<Item>, u: seq<Item>, f: seq<int>) {
    && |u| == |f| && StrictlyIncreasing(f)
    && forall i :: 0 <= i < |f| ==> FirstOfId(events, f[i]) && u[i] == events[f[i]]
  }

  lemma KeepsFirstSnoc(init: seq<Item>, e: Item, u: seq<Item>, f: seq<int>)
    requires KeepsFirst(init, u, f)
    ensures KeepsFirst(init + [e], u, f)
    ensures FirstOfId(init + [e], |init|) ==> KeepsFirst(init + [e], u + [e], f + [|init|])
  {
    forall i | 0 <= i < |f| ensures FirstOfId(init + [e], f[i]) && u[i] == (init + [e])[f[i]] && f[i] < |init| {
      assert FirstOfId(init, f[i]);
      assert forall k :: 0 <= k < |init| ==> (init + [e])[k] == init[k];
    }
  }

  lemma FirstWhenNew(init: seq<Item>, e: Item)
    ensures FirstOfId(init + [e], |init|) <==> e.id != "" && !exists k :: 0 <= k < |init| && init[k].id == e.id
  {
    assert forall k :: 0 <= k < |init| ==> (init + [e])[k] == init[k];
    assert (init + [e])[|init|] == e;
  }

  /** Of rows with one id exactly the first is kept, and the kept rows come in their order. */
  lemma {:induction false} UniqueKeepsFirst(events: seq<Item>)
    ensures KeepsFirst(events, Unique(events), Firsts(events))
  {
    if events != [] {
      var init, e := events[..|events| - 1], events[|events| - 1];
      UniqueKeepsFirst(init);
      assert events == init + [e];
      KeepsFirstSnoc(init, e, Unique(init), Firsts(init));
      FirstWhenNew(init, e);
    }
  }

  ghost predicate Snapshot(items: seq<Item>) { Ordered(NEWER, items) }

  /** What a request pages through: unique rows, in strict order. */
  lemma BuiltSnapshotIsOrdered(events: seq<Item>)
    ensures Snapshot(Sort(NEWER, Unique(events)))
    ensures multiset(Sort(NEWER, Unique(events))) == multiset(Unique(events))
  {
    UniqueHasUniqueIds(events);
    var u := Unique(events);
    assert IdsUnique(Elements(u));
    NewerOrders(Elements(u));
    SortOrders(NEWER, u);
    SortKeepsAll(NEWER, u);
  }

  // ------------------------------------------------------------------ cursors

  /** base64.RawURLEncoding. */
  datatype Codec = Codec(encode: string -> string, decode: string -> Option<string>)

  ghost predicate Faithful(c: Codec) {
    forall s :: c.decode(c.encode(s)) == Some(s) && (s != "" ==> c.encode(s) != "")
  }

  datatype Mark = Mark(at: int, id: string)

  function CursorText(at: int, id: string): string {
    FormatInt(at) + "|" + id
  }

  function EncodeCursor(c: Codec, at: int, id: string): string {
    c.encode(CursorText(at, id))
  }

  function DecodeCursor(c: Codec, cursor: string): Option<Mark> {
    match c.decode(cursor)
    case None => None
    case Some(raw) =>
      var k := IndexByte(raw, '|');
      if k == |raw| then None
      else
        match ParseInt(raw[..k])
        case None => None
        case Some(at) => Some(Mark(at, raw[k + 1..]))
  }

  predicate InRange(at: int) { MIN_INT64 <= at <= MAX_INT64 }

  /** A cursor decodes to the row it was made from, whatever the id contains. */
  lemma CursorRoundTrip(c: Codec, at: int, id: string)
    requires Faithful(c) && InRange(at)
    ensures EncodeCursor(c, at, id) != ""
    ensures DecodeCursor(c, EncodeCursor(c, at, id)) == Some(Mark(at, id))
  {
    ParseFormat(at);
    assert '|' !in FormatInt(at);
    IndexByteOfJoin(FormatInt(at), '|', id);
    var raw := CursorText(at, id);
    assert c.decode(c.encode(raw)) == Some(raw);
    assert raw == FormatInt(at) + ['|'] + id;
    assert raw[..|FormatInt(at)|] == FormatInt(at);
    assert raw[|FormatInt(at)| + 1..] == id;
  }

  /** A cursor is read exactly when its text has a separator with a 64-bit number before it; what follows
      the first separator is the id. */
  lemma DecodedInFields(c: Codec, cursor: string)
    ensures DecodeCursor(c, cursor).Some? ==>
      exists number: string, id :: '|' !in number && c.decode(cursor) == Some(number + ['|'] + id)
        && ParseInt(number) == Some(DecodeCursor(c, cursor).value.at) && id == DecodeCursor(c, cursor).value.id
    ensures forall number: string, id ::
      '|' !in number && c.decode(cursor) == Some(number + ['|'] + id) && ParseInt(number).Some? ==>
      DecodeCursor(c, cursor) == Some(Mark(ParseInt(number).value, id))
  {
    if c.decode(cursor).Some? {
      var raw := c.decode(cursor).value;
      var k := IndexByte(raw, '|');
      if k < |raw| {
        assert raw == raw[..k] + ['|'] + raw[k + 1..];
      }
      forall number: string, id | '|' !in number && raw == number + ['|'] + id
        ensures k == |number| && raw[..k] == number && raw[k + 1..] == id
      {
        IndexByteOfJoin(number, '|', id);
      }
    }
  }

  // ------------------------------------------------------------------ pages

  datatype Page = Page(items: seq<Item>, next: string, truncated: bool)

  /** The position of the first row strictly after a mark. */
  function FirstAfter(items: seq<Item>, m: Mark): (k: nat)
    ensures k <= |items|
    ensures k < |items| ==> After(m.at, m.id, items[k])
    ensures forall i :: 0 <= i < k ==> !After(m.at, m.id, items[i])
  {
    FirstWhere(items, (it: Item) => After(m.at, m.id, it))
  }

  function StartOf(c: Codec, items: seq<Item>, cursor: string): nat {
    if cursor == "" then 0
    else match DecodeCursor(c, cursor) case None => 0 case Some(m) => FirstAfter(items, m)
  }

  function PageFrom(c: Codec, items: seq<Item>, start: nat, limit: nat): Page
    requires limit >= 1
  {
    if start >= |items| then Page([], "", false)
    else if start + limit < |items| then
      var last := items[start + limit - 1];
      Page(items[start..start + limit], EncodeCursor(c, last.publishedAt, last.id), true)
    else Page(items[start..], "", false)
  }

  /** Cuts one page. An undecodable cursor starts over. */
  method PaginateFeed(c: Codec, items: seq<Item>, cursor: string, limit: nat) returns (p: Page)
    requires limit >= 1
    ensures p == PageFrom(c, items, StartOf(c, items, cursor), limit)
  {
    var start := StartOfPage(c, items, cursor);
    if start >= |items| {
      return Page([], "", false);
    }
    var end := if start + limit < |items| then start + limit else |items|;
    var page := items[start..end];
    if end < |items| {
      var last := page[|page| - 1];
      return Page(page, EncodeCursor(c, last.publishedAt, last.id), true);
    }
    return Page(page, "", false);
  }

  method StartOfPage(c: Codec, items: seq<Item>, cursor: string) returns (start: nat)
    ensures start == StartOf(c, items, cursor)
  {
    start := 0;
    if cursor != "" {
      var m := DecodeCursor(c, cursor);
      if m.Some? {
        start := SkipShown(items, m.value);
      }
    }
  }

  /** The scan that skips rows up to the marked one. */
  method SkipShown(items: seq<Item>, m: Mark) returns (start: nat)
    ensures start == FirstAfter(items, m)
  {
    start := 0;
    for i := 0 to |items|
      invariant start == i
      invariant forall k :: 0 <= k < i ==> !After(m.at, m.id, items[k])
    {
      var it := items[i];
      if it.publishedAt < m.at || (it.publishedAt == m.at && Less(it.id, m.id)) {
        start := i;
        break;
      }
      start := i + 1;
    }
  }

  /** No cursor, and one that cannot be read, start at the top; the page is the next rows up to the limit,
      and it is called truncated, and carries a cursor, exactly when rows remain. */
  lemma PageInFields(c: Codec, items: seq<Item>, cursor: string, limit: nat)
    requires Faithful(c) && limit >= 1 && GoodSnap(items)
    ensures var start := StartOf(c, items, cursor);
      var p := PageFrom(c, items, start, limit);
      && (cursor == "" || DecodeCursor(c, cursor).None? ==> start == 0)
      && |p.items| == (if start >= |items| then 0 else if |items| - start > limit then limit else |items| - start)
      && (forall i :: 0 <= i < |p.items| ==> p.items[i] == items[start + i])
      && (p.truncated <==> start + limit < |items|) && (p.next != "" <==> p.truncated)
  {
    if StartOf(c, items, cursor) + limit < |items| {
      NextResumes(c, items, StartOf(c, items, cursor), limit);
    }
  }

  // ------------------------------------------------------------------ walks

  type Pager = (seq<Item>, string) -> Page

  type Decode = string -> Option<Mark>

  function PagerOf(c: Codec, limit: nat): Pager
    requires limit >= 1
  {
    (items: seq<Item>, cursor: string) => PageFrom(c, items, StartOf(c, items, cursor), limit)
  }

  function DecodeOf(c: Codec): Decode {
    (cursor: string) => DecodeCursor(c, cursor)
  }

  /** What a client collects by following nextCursor from a position, one snapshot per request. */
  datatype Walked = Walked(items: seq<Item>, ended: bool)

  function Walk(pager: Pager, snaps: seq<seq<Item>>, cursor: string): Walked {
    if snaps == [] then Walked([], false)
    else
      var p := pager(snaps[0], cursor);
      if p.next == "" then Walked(p.items, true)
      else
        var rest := Walk(pager, snaps[1..], p.next);
        Walked(p.items + rest.items, rest.ended)
  }

  ghost predicate GoodSnap(items: seq<Item>) {
    Snapshot(items) && forall i :: 0 <= i < |items| ==> InRange(items[i].publishedAt)
  }

  ghost predicate GoodSnaps(snaps: seq<seq<Item>>) {
    forall k :: 0 <= k < |snaps| ==> GoodSnap(snaps[k])
  }

  function MarkOf(it: Item): Mark { Mark(it.publishedAt, it.id) }

  function Last(items: seq<Item>): Item
    requires items != []
  {
    items[|items| - 1]
  }

  /** A walk resumes after a mark, or at the top when there is none. */
  ghost predicate Resumes(d: Decode, cursor: string, m: Option<Mark>) {
    (cursor == "" && m.None?) || (cursor != "" && m.Some? && d(cursor) == m)
  }

  ghost predicate Beyond(m: Option<Mark>, it: Item) {
    m.Some? ==> After(m.value.at, m.value.id, it)
  }

  /** A page from a mark on: in order, beyond the mark, missing nothing before its end, and handing out
      a cursor to what is left. */
  ghost predicate PageOk(d: Decode, items: seq<Item>, m: Option<Mark>, p: Page) {
    && Leads(d, m, p)
    && (forall x :: x in items && Beyond(m, x) ==> x in p.items || (p.next != "" && Newer(Last(p.items), x)))
  }

  ghost predicate Leads(d: Decode, m: Option<Mark>, p: Page) {
    && Snapshot(p.items)
    && (forall i :: 0 <= i < |p.items| ==> Beyond(m, p.items[i]))
    && (p.next != "" ==> p.items != [] && Resumes(d, p.next, Some(MarkOf(Last(p.items)))))
  }

  ghost predicate Honest(d: Decode, pager: Pager) {
    forall items, cursor, m :: GoodSnap(items) && Resumes(d, cursor, m) ==> PageOk(d, items, m, pager(items, cursor))
  }

  lemma AfterTransitive(m: Mark, a: Item, b: Item)
    requires After(m.at, m.id, a) && Newer(a, b)
    ensures After(m.at, m.id, b)
  {
    NewerTransitive(Item(m.id, m.at, ""), a, b);
  }

  /** Rows at or behind the starting position are beyond the mark, rows before it are not. */
  lemma StartSplits(c: Codec, items: seq<Item>, cursor: string, m: Option<Mark>, i: nat)
    requires Snapshot(items) && Resumes(DecodeOf(c), cursor, m) && i < |items|
    ensures StartOf(c, items, cursor) <= |items|
    ensures Beyond(m, items[i]) <==> StartOf(c, items, cursor) <= i
  {
    if m.Some? {
      var k := FirstAfter(items, m.value);
      if k < i {
        AfterTransitive(m.value, items[k], items[i]);
      }
    }
  }

  /** The cursor a truncated page hands out resumes after the page's last row. */
  lemma NextResumes(c: Codec, items: seq<Item>, start: nat, limit: nat)
    requires Faithful(c) && limit >= 1 && start + limit < |items| && GoodSnap(items)
    ensures var p := PageFrom(c, items, start, limit);
      p.next != "" && Resumes(DecodeOf(c), p.next, Some(MarkOf(items[start + limit - 1])))
  {
    var last := items[start + limit - 1];
    CursorRoundTrip(c, last.publishedAt, last.id);
  }

  lemma PageCovers(c: Codec, items: seq<Item>, cursor: string, limit: nat, m: Option<Mark>, x: Item)
    requires Faithful(c) && limit >= 1 && GoodSnap(items) && Resumes(DecodeOf(c), cursor, m)
    requires x in items && Beyond(m, x)
    ensures var p := PageFrom(c, items, StartOf(c, items, cursor), limit);
      x in p.items || (p.next != "" && p.items != [] && Newer(Last(p.items), x))
  {
    var start := StartOf(c, items, cursor);
    var i :| 0 <= i < |items| && items[i] == x;
    StartSplits(c, items, cursor, m, i);
    PageHasOrPrecedes(c, items, start, limit, i);
  }

  lemma PageHasOrPrecedes(c: Codec, items: seq<Item>, start: nat, limit: nat, i: nat)
    requires Faithful(c) && limit >= 1 && GoodSnap(items) && start <= i < |items|
    ensures var p := PageFrom(c, items, start, limit);
      items[i] in p.items || (p.next != "" && p.items != [] && Newer(Last(p.items), items[i]))
  {
    var p := PageFrom(c, items, start, limit);
    if start + limit <= i {
      NextResumes(c, items, start, limit);
      assert NEWER(items[start + limit - 1], items[i]);
    } else {
      assert p.items[i - start] == items[i];
    }
  }

  lemma PageDescends(c: Codec, items: seq<Item>, cursor: string, limit: nat, m: Option<Mark>)
    requires Faithful(c) && limit >= 1 && GoodSnap(items) && Resumes(DecodeOf(c), cursor, m)
    ensures Leads(DecodeOf(c), m, PageFrom(c, items, StartOf(c, items, cursor), limit))
  {
    var start := StartOf(c, items, cursor);
    forall i | start <= i < |items| ensures Beyond(m, items[i]) { StartSplits(c, items, cursor, m, i); }
    PageLeads(c, items, start, limit, m);
  }

  lemma PageLeads(c: Codec, items: seq<Item>, start: nat, limit: nat, m: Option<Mark>)
    requires Faithful(c) && limit >= 1 && GoodSnap(items)
    requires forall i :: start <= i < |items| ==> Beyond(m, items[i])
    ensures Leads(DecodeOf(c), m, PageFrom(c, items, start, limit))
  {
    if start + limit < |items| {
      NextResumes(c, items, start, limit);
    }
  }

  /** The feed's pages keep all of this. */
  lemma PagerIsHonest(c: Codec, limit: nat)
    requires Faithful(c) && limit >= 1
    ensures Honest(DecodeOf(c), PagerOf(c, limit))
  {
    forall items, cursor, m | GoodSnap(items) && Resumes(DecodeOf(c), cursor, m)
      ensures PageOk(DecodeOf(c), items, m, PagerOf(c, limit)(items, cursor))
    {
      PageDescends(c, items, cursor, limit, m);
      forall x | x in items && Beyond(m, x)
        ensures var p := PagerOf(c, limit)(items, cursor); x in p.items || (p.next != "" && Newer(Last(p.items), x))
      {
        PageCovers(c, items, cursor, limit, m, x);
      }
    }
  }

  /** Everything a walk returns lies beyond where it resumed, in strict order across all its pages. */
  lemma {:induction false} WalkDescends(d: Decode, pager: Pager, snaps: seq<seq<Item>>, cursor: string, m: Option<Mark>)
    requires Honest(d, pager) && GoodSnaps(snaps) && Resumes(d, cursor, m)
    ensures var w := Walk(pager, snaps, cursor);
      Snapshot(w.items) && forall i :: 0 <= i < |w.items| ==> Beyond(m, w.items[i])
  {
    if snaps != [] {
      var p := pager(snaps[0], cursor);
      assert GoodSnap(snaps[0]) && PageOk(d, snaps[0], m, p);
      if p.next != "" {
        WalkDescends(d, pager, snaps[1..], p.next, Some(MarkOf(Last(p.items))));
        PagesJoin(p.items, Walk(pager, snaps[1..], p.next).items, m);
      }
    }
  }

  lemma PagesJoin(page: seq<Item>, rest: seq<Item>, m: Option<Mark>)
    requires page != [] && Snapshot(page) && Snapshot(rest)
    requires forall i :: 0 <= i < |page| ==> Beyond(m, page[i])
    requires forall i :: 0 <= i < |rest| ==> Newer(page[|page| - 1], rest[i])
    ensures Snapshot(page + rest) && forall i :: 0 <= i < |page + rest| ==> Beyond(m, (page + rest)[i])
  {
    var last := page[|page| - 1];
    forall i, j | 0 <= i < |page| && 0 <= j < |rest| ensures Newer(page[i], rest[j]) {
      if i < |page| - 1 {
        assert NEWER(page[i], last);
        NewerTransitive(page[i], last, rest[j]);
      }
    }
    forall i | 0 <= i < |rest| ensures Beyond(m, rest[i]) {
      if m.Some? {
        assert Beyond(m, last);
        AfterTransitive(m.value, last, rest[i]);
      }
    }
  }

  /** Following nextCursor from the top never returns a row twice, however the corpus changes. */
  lemma WalkNeverRepeats(c: Codec, snaps: seq<seq<Item>>, limit: nat, i: nat, j: nat)
    requires Faithful(c) && limit >= 1 && GoodSnaps(snaps)
    requires i < j < |Walk(PagerOf(c, limit), snaps, "").items|
    ensures var w := Walk(PagerOf(c, limit), snaps, "").items;
      Newer(w[i], w[j]) && (w[i].publishedAt, w[i].id) != (w[j].publishedAt, w[j].id)
  {
    PagerIsHonest(c, limit);
    WalkDescends(DecodeOf(c), PagerOf(c, limit), snaps, "", None);
    var w := Walk(PagerOf(c, limit), snaps, "").items;
    assert NEWER(w[i], w[j]);
    LessTrichotomy(w[i].id, w[j].id);
  }

  /** A walk that ends has returned every row beyond its start that all its snapshots held. */
  lemma {:induction false} WalkIsComplete(
    d: Decode, pager: Pager, snaps: seq<seq<Item>>, cursor: string, m: Option<Mark>, x: Item)
    requires Honest(d, pager) && GoodSnaps(snaps) && Resumes(d, cursor, m)
    requires Walk(pager, snaps, cursor).ended
    requires (forall k :: 0 <= k < |snaps| ==> x in snaps[k]) && Beyond(m, x)
    ensures x in Walk(pager, snaps, cursor).items
  {
    var p := pager(snaps[0], cursor);
    assert GoodSnap(snaps[0]) && PageOk(d, snaps[0], m, p);
    if x !in p.items {
      WalkIsComplete(d, pager, snaps[1..], p.next, Some(MarkOf(Last(p.items))), x);
    }
  }

  /** An ended walk from the top returns each row present throughout exactly once. */
  lemma WalkReturnsExactlyOnce(c: Codec, snaps: seq<seq<Item>>, limit: nat, x: Item)
    requires Faithful(c) && limit >= 1 && GoodSnaps(snaps) && Walk(PagerOf(c, limit), snaps, "").ended
    requires forall k :: 0 <= k < |snaps| ==> x in snaps[k]
    ensures multiset(Walk(PagerOf(c, limit), snaps, "").items)[x] == 1
  {
    PagerIsHonest(c, limit);
    WalkIsComplete(DecodeOf(c), PagerOf(c, limit), snaps, "", None, x);
    var w := Walk(PagerOf(c, limit), snaps, "").items;
    forall i, j | 0 <= i < j < |w| ensures w[i] != w[j] { WalkNeverRepeats(c, snaps, limit, i, j); }
    CountWithoutRepeats(w, x);
    assert x in multiset(w);
  }

  // ------------------------------------------------------------------ a corpus that stands still

  /** One snapshot per request, all alike. */
  function Same(items: seq<Item>, n: nat): seq<seq<Item>> {
    if n == 0 then [] else [items] + Same(items, n - 1)
  }

  function PagesNeeded(rows: nat, limit: nat): (n: nat)
    requires limit >= 1
    ensures n >= 1
  {
    if rows <= limit then 1 else 1 + PagesNeeded(rows - limit, limit)
  }

  /** `at` tells where each cursor starts in `items`; every page is the next `limit` rows, and its
      cursor starts where it stopped. */
  ghost predicate Steps(pager: Pager, items: seq<Item>, at: string -> nat, limit: nat) {
    forall cursor {:trigger pager(items, cursor)} :: at(cursor) <= |items| ==>
      StepsTo(pager(items, cursor), items, at(cursor), at, limit)
  }

  ghost predicate StepsTo(p: Page, items: seq<Item>, start: nat, at: string -> nat, limit: nat)
    requires start <= |items|
  {
    if start + limit < |items| then
      p.items == items[start..start + limit] && p.next != "" && at(p.next) == start + limit
    else p.items == items[start..] && p.next == ""
  }

  function StartsOf(c: Codec, items: seq<Item>): string -> nat {
    (cursor: string) => StartOf(c, items, cursor)
  }

  /** On the same corpus the next request starts where this page stopped. */
  lemma NextStartsWherePageEnds(c: Codec, items: seq<Item>, start: nat, limit: nat)
    requires Faithful(c) && limit >= 1 && GoodSnap(items) && start + limit < |items|
    ensures StartOf(c, items, PageFrom(c, items, start, limit).next) == start + limit
  {
    var k, next := start + limit, PageFrom(c, items, start, limit).next;
    var last := items[k - 1];
    NextResumes(c, items, start, limit);
    StartSplits(c, items, next, Some(MarkOf(last)), k);
    StartSplits(c, items, next, Some(MarkOf(last)), k - 1);
    assert NEWER(last, items[k]);
    LessTrichotomy(last.id, last.id);
  }

  lemma PageSteps(c: Codec, items: seq<Item>, start: nat, limit: nat)
    requires Faithful(c) && limit >= 1 && GoodSnap(items) && start <= |items|
    ensures StepsTo(PageFrom(c, items, start, limit), items, start, StartsOf(c, items), limit)
  {
    if start + limit < |items| {
      NextResumes(c, items, start, limit);
      NextStartsWherePageEnds(c, items, start, limit);
    }
  }

  lemma FeedSteps(c: Codec, items: seq<Item>, limit: nat)
    requires Faithful(c) && limit >= 1 && GoodSnap(items)
    ensures Steps(PagerOf(c, limit), items, StartsOf(c, items), limit)
  {
    forall cursor: string | StartOf(c, items, cursor) <= |items|
      ensures StepsTo(PagerOf(c, limit)(items, cursor), items, StartOf(c, items, cursor), StartsOf(c, items), limit)
    {
      PageSteps(c, items, StartOf(c, items, cursor), limit);
    }
  }

  lemma {:induction false} FixedWalkFrom(
    pager: Pager, items: seq<Item>, at: string -> nat, n: nat, cursor: string, limit: nat)
    requires limit >= 1 && Steps(pager, items, at, limit)
    requires at(cursor) <= |items| && n >= PagesNeeded(|items| - at(cursor), limit)
    ensures Walk(pager, Same(items, n), cursor) == Walked(items[at(cursor)..], true)
    decreases n
  {
    var p, start := pager(items, cursor), at(cursor);
    assert StepsTo(p, items, start, at, limit);
    WalkOne(pager, items, n, cursor);
    if start + limit < |items| {
      FixedWalkFrom(pager, items, at, n - 1, p.next, limit);
      SplitAt(items, start, limit);
    }
  }

  lemma WalkOne(pager: Pager, items: seq<Item>, n: nat, cursor: string)
    requires n >= 1
    ensures var p, rest := pager(items, cursor), Walk(pager, Same(items, n - 1), pager(items, cursor).next);
      Walk(pager, Same(items, n), cursor) ==
      if p.next == "" then Walked(p.items, true) else Walked(p.items + rest.items, rest.ended)
  {
    assert Same(items, n)[1..] == Same(items, n - 1);
  }

  lemma SplitAt(items: seq<Item>, start: nat, limit: nat)
    requires start + limit <= |items|
    ensures items[start..start + limit] + items[start + limit..] == items[start..]
  {
  }

  /** On a fixed corpus the walk ends within as many requests as the list has pages, and its pages put
      together are the whole list. */
  lemma FixedCorpusWalk(c: Codec, items: seq<Item>, n: nat, limit: nat)
    requires Faithful(c) && limit >= 1 && GoodSnap(items) && n >= PagesNeeded(|items|, limit)
    ensures Walk(PagerOf(c, limit), Same(items, n), "") == Walked(items, true)
  {
    FeedSteps(c, items, limit);
    FixedWalkFrom(PagerOf(c, limit), items, StartsOf(c, items), n, "", limit);
  }

  // ------------------------------------------------------------------ ids

  ghost predicate StableTimes(snaps: seq<seq<Item>>) {
    forall a, b, i, j :: 0 <= a < |snaps| && 0 <= b < |snaps| && 0 <= i < |snaps[a]| && 0 <= j < |snaps[b]| ==>
      snaps[a][i].id == snaps[b][j].id ==> snaps[a][i].publishedAt == snaps[b][j].publishedAt
  }

  /** The pager returns rows of the snapshot it is given. */
  ghost predicate Quotes(pager: Pager) {
    forall items, cursor, x :: x in pager(items, cursor).items ==> x in items
  }

  lemma {:induction false} WalkedRowsComeFromSnaps(pager: Pager, snaps: seq<seq<Item>>, cursor: string, x: Item)
    requires Quotes(pager) && x in Walk(pager, snaps, cursor).items
    ensures exists a :: 0 <= a < |snaps| && x in snaps[a]
  {
    var p := pager(snaps[0], cursor);
    if x in p.items {
      assert x in snaps[0];
    } else {
      WalkedRowsComeFromSnaps(pager, snaps[1..], p.next, x);
      var a :| 0 <= a < |snaps[1..]| && x in snaps[1..][a];
      assert x in snaps[a + 1];
    }
  }

  /** While no event changes its publication time, no id is returned twice either. */
  lemma StableIdsNeverRepeat(c: Codec, snaps: seq<seq<Item>>, limit: nat, i: nat, j: nat)
    requires Faithful(c) && limit >= 1 && GoodSnaps(snaps) && StableTimes(snaps)
    requires i < j < |Walk(PagerOf(c, limit), snaps, "").items|
    ensures Walk(PagerOf(c, limit), snaps, "").items[i].id != Walk(PagerOf(c, limit), snaps, "").items[j].id
  {
    var w := Walk(PagerOf(c, limit), snaps, "").items;
    WalkNeverRepeats(c, snaps, limit, i, j);
    WalkedRowsComeFromSnaps(PagerOf(c, limit), snaps, "", w[i]);
    WalkedRowsComeFromSnaps(PagerOf(c, limit), snaps, "", w[j]);
    var a :| 0 <= a < |snaps| && w[i] in snaps[a];
    var b :| 0 <= b < |snaps| && w[j] in snaps[b];
    var p :| 0 <= p < |snaps[a]| && snaps[a][p] == w[i];
    var q :| 0 <= q < |snaps[b]| && snaps[b][q] == w[j];
    assert snaps[a][p].id == snaps[b][q].id ==> snaps[a][p].publishedAt == snaps[b][q].publishedAt;
  }

  // ------------------------------------------------------------------ when a row is shown again

  /** From a mark, an ended walk returns a row that stays exactly when the row lies behind the mark. */
  lemma ReturnedIff(d: Decode, pager: Pager, snaps: seq<seq<Item>>, cursor: string, m: Option<Mark>, y: Item)
    requires Honest(d, pager) && GoodSnaps(snaps) && Resumes(d, cursor, m)
    requires Walk(pager, snaps, cursor).ended && forall k :: 0 <= k < |snaps| ==> y in snaps[k]
    ensures y in Walk(pager, snaps, cursor).items <==> Beyond(m, y)
  {
    WalkDescends(d, pager, snaps, cursor, m);
    if Beyond(m, y) {
      WalkIsComplete(d, pager, snaps, cursor, m, y);
    }
  }

  /** The cursor handed out by the last of these requests, if they all handed one out. */
  function CursorAfter(pager: Pager, snaps: seq<seq<Item>>, cursor: string): string {
    if snaps == [] then cursor else CursorAfter(pager, snaps[1..], pager(snaps[0], cursor).next)
  }

  /** Every one of these requests was answered with a cursor to more. */
  ghost predicate GoesOn(pager: Pager, snaps: seq<seq<Item>>, cursor: string) {
    snaps == [] || (pager(snaps[0], cursor).next != "" && GoesOn(pager, snaps[1..], pager(snaps[0], cursor).next))
  }

  /** A walk is its first pages followed by the walk from their last cursor. */
  lemma {:induction false} WalkSplits(pager: Pager, shown: seq<seq<Item>>, later: seq<seq<Item>>, cursor: string)
    requires GoesOn(pager, shown, cursor)
    ensures var first, rest := Walk(pager, shown, cursor), Walk(pager, later, CursorAfter(pager, shown, cursor));
      Walk(pager, shown + later, cursor) == Walked(first.items + rest.items, rest.ended)
    decreases |shown|
  {
    if shown == [] {
      assert shown + later == later;
    } else {
      WalkSplits(pager, shown[1..], later, pager(shown[0], cursor).next);
      assert (shown + later)[1..] == shown[1..] + later;
    }
  }

  /** That cursor resumes after the last row they showed. */
  lemma {:induction false} CursorResumes(
    d: Decode, pager: Pager, shown: seq<seq<Item>>, cursor: string, m: Option<Mark>)
    requires Honest(d, pager) && GoodSnaps(shown) && Resumes(d, cursor, m)
    requires GoesOn(pager, shown, cursor) && shown != []
    ensures var first := Walk(pager, shown, cursor).items;
      first != [] && Resumes(d, CursorAfter(pager, shown, cursor), Some(MarkOf(Last(first))))
    decreases |shown|
  {
    var p := pager(shown[0], cursor);
    assert GoodSnap(shown[0]) && PageOk(d, shown[0], m, p);
    if shown[1..] != [] {
      CursorResumes(d, pager, shown[1..], p.next, Some(MarkOf(Last(p.items))));
    } else {
      assert Walk(pager, shown, cursor).items == p.items;
    }
  }

  /** A row's new version, there from request `|shown|` on, is shown again after an earlier version
      exactly when its time and id now put it behind the last row shown so far. */
  lemma ShownAgainIff(c: Codec, shown: seq<seq<Item>>, later: seq<seq<Item>>, limit: nat, x: Item, y: Item)
    requires Faithful(c) && limit >= 1 && shown != [] && GoodSnaps(shown) && GoodSnaps(later)
    requires GoesOn(PagerOf(c, limit), shown, "") && Walk(PagerOf(c, limit), shown + later, "").ended
    requires x in Walk(PagerOf(c, limit), shown, "").items && x.id == y.id
    requires forall k :: 0 <= k < |later| ==> y in later[k]
    ensures var first := Walk(PagerOf(c, limit), shown, "").items;
      var all := Walk(PagerOf(c, limit), shown + later, "").items;
      && first != [] && first <= all
      && (y in all[|first|..] <==> Newer(Last(first), y))
  {
    var pager, d := PagerOf(c, limit), DecodeOf(c);
    PagerIsHonest(c, limit);
    WalkSplits(pager, shown, later, "");
    CursorResumes(d, pager, shown, "", None);
    var first := Walk(pager, shown, "").items;
    var cursor := CursorAfter(pager, shown, "");
    var rest := Walk(pager, later, cursor).items;
    assert (first + rest)[|first|..] == rest;
    ReturnedIff(d, pager, later, cursor, Some(MarkOf(Last(first))), y);
  }

  /** In particular a row that did not change is not shown again, and one that is redated to before the
      last row shown is. */
  lemma RedatedRowIsShownAgain(c: Codec, shown: seq<seq<Item>>, later: seq<seq<Item>>, limit: nat, x: Item, y: Item)
    requires Faithful(c) && limit >= 1 && shown != [] && GoodSnaps(shown) && GoodSnaps(later)
    requires GoesOn(PagerOf(c, limit), shown, "") && Walk(PagerOf(c, limit), shown + later, "").ended
    requires x in Walk(PagerOf(c, limit), shown, "").items && x.id == y.id
    requires forall k :: 0 <= k < |later| ==> y in later[k]
    ensures var first := Walk(PagerOf(c, limit), shown, "").items;
      var all := Walk(PagerOf(c, limit), shown + later, "").items;
      && first != [] && |first| <= |all|
      && (y.publishedAt >= x.publishedAt ==> y !in all[|first|..])
      && (y.publishedAt < Last(first).publishedAt ==> y in all[|first|..])
  {
    ShownAgainIff(c, shown, later, limit, x, y);
    PagerIsHonest(c, limit);
    WalkDescends(DecodeOf(c), PagerOf(c, limit), shown, "", None);
    if y.publishedAt >= x.publishedAt {
      LastIsOldest(Walk(PagerOf(c, limit), shown, "").items, x, y);
    }
  }

  lemma LastIsOldest(rows: seq<Item>, x: Item, y: Item)
    requires Snapshot(rows) && x in rows && x.id == y.id && y.publishedAt >= x.publishedAt
    ensures !Newer(Last(rows), y)
  {
    var i :| 0 <= i < |rows| && rows[i] == x;
    if i < |rows| - 1 {
      assert NEWER(rows[i], rows[|rows| - 1]);
    }
    LessTrichotomy(Last(rows).id, y.id);
  }

  /** The shortest such walk: two one-row pages that both show the same id. */
  lemma OneIdOnTwoPages(c: Codec, id: string, title: string)
    requires Faithful(c)
    ensures var x, y := Item(id, 10, title), Item(id, 7, title);
      Walk(PagerOf(c, 1), [[x, Item(id + "z", 5, title)], [y]], "") == Walked([x, y], true)
  {
    var x, y, z := Item(id, 10, title), Item(id, 7, title), Item(id + "z", 5, title);
    var s0, s1 := [x, z], [y];
    assert PageFrom(c, s0, 0, 1).items == [x];
    CursorRoundTrip(c, 10, id);
    assert [s0, s1][1..] == [s1];
    assert Walk(PagerOf(c, 1), [s1], EncodeCursor(c, 10, id)) == Walked([y], true);
  }
}
