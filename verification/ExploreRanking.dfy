/** The Explore ranking: six terms, a weighted score, a total order, and capped sections. */
module ExploreRanking {
  import opened Common
  import opened Sorting
  import Text

  const MARKET_MOVING := 0.70
  const TRENDING_DOCS := 3
  const MAX_SECTIONS := 2

  datatype Tier = Official | Professional | Discussion | OtherTier

  datatype EventType = EarningsResult | EarningsGuidance | MacroRelease | CentralBank | OtherType

  /** A ticker symbol, upper-cased, and whether the event is primarily about it. */
  datatype Mention = Mention(symbol: string, isPrimary: bool)

  datatype Event = Event(
    id: string, eventType: EventType, publishedAt: int, tier: Tier, importance: real, novelty: real,
    documentCount: int, mentions: seq<Mention>)

  /** The caller's follow set and clock: `decay` is the freshness of a publication time, `sectorOf` the
      static sector map, `explains` whether both mandatory sentences can be written for an event. */
  datatype Lens = Lens(
    follow: set<string>, sectorOf: map<string, string>, decay: int -> real, explains: (Event, Terms) -> bool)

  ghost predicate Decays(l: Lens) { forall t :: 0.0 <= l.decay(t) <= 1.0 }

  datatype Terms = Terms(
    importance: real, freshness: real, novelty: real, tier: real, relation: real, sector: real)

  // ------------------------------------------------------------------ the score

  function Clamp(v: real): (r: real)
    ensures 0.0 <= r <= 1.0 && (0.0 <= v <= 1.0 ==> r == v)
  {
    if v < 0.0 then 0.0 else if v > 1.0 then 1.0 else v
  }

  function TierWeight(t: Tier): (r: real)
    ensures 0.0 <= r <= 1.0
  {
    match t case Official => 1.0 case Professional => 0.60 case Discussion => 0.25 case OtherTier => 0.0
  }

  function Score(t: Terms): real {
    0.30 * t.importance + 0.20 * t.freshness + 0.15 * t.novelty + 0.10 * t.tier + 0.15 * t.relation + 0.10 * t.sector
  }

  predicate Unit(t: Terms) {
    && 0.0 <= t.importance <= 1.0 && 0.0 <= t.freshness <= 1.0 && 0.0 <= t.novelty <= 1.0
    && 0.0 <= t.tier <= 1.0 && 0.0 <= t.relation <= 1.0 && 0.0 <= t.sector <= 1.0
  }

  predicate NoHigher(a: Terms, b: Terms) {
    && a.importance <= b.importance && a.freshness <= b.freshness && a.novelty <= b.novelty
    && a.tier <= b.tier && a.relation <= b.relation && a.sector <= b.sector
  }

  function Touches(ev: Event, s: set<string>): bool {
    exists i :: 0 <= i < |ev.mentions| && ev.mentions[i].symbol in s
  }

  function SectorsOf(l: Lens): set<string> {
    set t | t in l.follow && t in l.sectorOf && l.sectorOf[t] != "" :: l.sectorOf[t]
  }

  function TermsOf(l: Lens, together: set<string>, ev: Event): Terms {
    Terms(
      Clamp(ev.importance), l.decay(ev.publishedAt), Clamp(ev.novelty), TierWeight(ev.tier),
      if Touches(ev, l.follow) then 1.0 else if Touches(ev, together) then 0.5 else 0.0,
      if exists i :: 0 <= i < |ev.mentions| && ev.mentions[i].symbol in l.sectorOf
                     && l.sectorOf[ev.mentions[i].symbol] in SectorsOf(l) then 1.0 else 0.0)
  }

  /** The six terms, the last two found by walking the event's companies. */
  method ScoreTerms(l: Lens, together: set<string>, ev: Event) returns (t: Terms)
    ensures t == TermsOf(l, together, ev)
  {
    var relation, sector := 0.0, 0.0;
    for i := 0 to |ev.mentions|
      invariant forall k :: 0 <= k < i ==> ev.mentions[k].symbol !in l.follow
      invariant relation == if exists k :: 0 <= k < i && ev.mentions[k].symbol in together then 0.5 else 0.0
    {
      if ev.mentions[i].symbol in l.follow {
        relation := 1.0;
        break;
      }
      if ev.mentions[i].symbol in together && relation < 0.5 {
        relation := 0.5;
      }
    }
    var sectors := SectorsOf(l);
    for i := 0 to |ev.mentions|
      invariant sector == 0.0
      invariant forall k :: 0 <= k < i ==>
        !(ev.mentions[k].symbol in l.sectorOf && l.sectorOf[ev.mentions[k].symbol] in sectors)
    {
      var symbol := ev.mentions[i].symbol;
      if symbol in l.sectorOf && l.sectorOf[symbol] in sectors {
        sector := 1.0;
        break;
      }
    }
    t := Terms(Clamp(ev.importance), l.decay(ev.publishedAt), Clamp(ev.novelty), TierWeight(ev.tier), relation, sector);
  }

  /** Every score lies in the unit interval, and raising any term never lowers it. */
  lemma ScoreIsMonotoneInUnit(l: Lens, together: set<string>, ev: Event, a: Terms, b: Terms)
    requires Decays(l)
    ensures Unit(TermsOf(l, together, ev)) && 0.0 <= Score(TermsOf(l, together, ev)) <= 1.0
    ensures Unit(a) ==> 0.0 <= Score(a) <= 1.0
    ensures NoHigher(a, b) ==> Score(a) <= Score(b)
    ensures NoHigher(a, b) && a != b ==> Score(a) < Score(b)
  {
  }

  // ------------------------------------------------------------------ companies seen together

  /** Companies that share some event with a followed one. */
  function Together(events: seq<Event>, follow: set<string>): set<string> {
    set e, m | e in events && Touches(e, follow) && m in e.mentions && m.symbol !in follow :: m.symbol
  }

  method CooccurrenceSet(events: seq<Event>, follow: set<string>) returns (out: set<string>)
    ensures out == Together(events, follow)
  {
    out := {};
    for i := 0 to |events|
      invariant out == Together(events[..i], follow)
    {
      var ev := events[i];
      assert events[..i + 1] == events[..i] + [ev];
      var touches := false;
      for j := 0 to |ev.mentions|
        invariant touches <==> exists k :: 0 <= k < j && ev.mentions[k].symbol in follow
      {
        if ev.mentions[j].symbol in follow {
          touches := true;
        }
      }
      assert touches == Touches(ev, follow);
      if touches {
        ghost var before := out;
        for j := 0 to |ev.mentions|
          invariant out == before + Others(ev.mentions[..j], follow)
        {
          assert ev.mentions[..j + 1] == ev.mentions[..j] + [ev.mentions[j]];
          if ev.mentions[j].symbol !in follow {
            out := out + {ev.mentions[j].symbol};
          }
        }
        assert ev.mentions[..|ev.mentions|] == ev.mentions;
      }
      TogetherSnoc(events[..i], ev, follow);
    }
    assert events[..|events|] == events;
  }

  function Others(ms: seq<Mention>, follow: set<string>): set<string> {
    set m | m in ms && m.symbol !in follow :: m.symbol
  }

  lemma TogetherSnoc(events: seq<Event>, ev: Event, follow: set<string>)
    ensures Together(events + [ev], follow) ==
      Together(events, follow) + if Touches(ev, follow) then Others(ev.mentions, follow) else {}
  {
    assert forall e :: e in events + [ev] <==> e in events || e == ev;
  }

  // ------------------------------------------------------------------ the order

  predicate Outranks(l: Lens, together: set<string>, a: Event, b: Event) {
    var x, y := Score(TermsOf(l, together, a)), Score(TermsOf(l, together, b));
    x > y || (x == y && (a.publishedAt > b.publishedAt || (a.publishedAt == b.publishedAt && Text.Less(b.id, a.id))))
  }

  function Order(l: Lens, together: set<string>): (Event, Event) -> bool {
    (a, b) => Outranks(l, together, a, b)
  }

  ghost predicate IdsUnique(s: set<Event>) {
    TellsApart((e: Event) => e.id, s)
  }

  lemma OutranksTransitive(l: Lens, together: set<string>, a: Event, b: Event, c: Event)
    requires Outranks(l, together, a, b) && Outranks(l, together, b, c)
    ensures Outranks(l, together, a, c)
  {
    if a.publishedAt == b.publishedAt == c.publishedAt && Text.Less(b.id, a.id) && Text.Less(c.id, b.id) {
      Text.LessTransitive(c.id, b.id, a.id);
    }
  }

  /** Over events with distinct ids the ranking order is total, however many scores tie. */
  lemma OrderIsTotal(l: Lens, together: set<string>, s: set<Event>)
    requires IdsUnique(s)
    ensures Orders(Order(l, together), s)
  {
    forall x | x in s ensures !Outranks(l, together, x, x) { Text.LessTrichotomy(x.id, x.id); }
    forall x, y, z | x in s && y in s && z in s && Outranks(l, together, x, y) && Outranks(l, together, y, z)
      ensures Outranks(l, together, x, z)
    {
      OutranksTransitive(l, together, x, y, z);
    }
    forall x, y | x in s && y in s && x != y ensures Outranks(l, together, x, y) || Outranks(l, together, y, x) {
      Text.LessTrichotomy(x.id, y.id);
    }
  }

  // ------------------------------------------------------------------ sections

  datatype Section = ForYou | Related | Earnings | Macro | MarketMoving | Trending

  /** The declared priority order. */
  const PRIORITY := [ForYou, Related, Earnings, Macro, MarketMoving, Trending]

  function PrimaryOf(ms: seq<Mention>): string {
    if ms == [] then "" else if ms[0].isPrimary then ms[0].symbol else PrimaryOf(ms[1..])
  }

  predicate PrimaryFollowed(l: Lens, ev: Event) {
    PrimaryOf(ev.mentions) != "" && PrimaryOf(ev.mentions) in l.follow
  }

  predicate Qualifies(l: Lens, together: set<string>, ev: Event, inForYou: bool, s: Section) {
    match s
    case ForYou => inForYou
    case Related => TermsOf(l, together, ev).relation > 0.0 && !PrimaryFollowed(l, ev)
    case Earnings => ev.eventType.EarningsResult? || ev.eventType.EarningsGuidance?
    case Macro => ev.eventType.MacroRelease? || ev.eventType.CentralBank?
    case MarketMoving => ev.importance >= MARKET_MOVING
    case Trending => ev.documentCount >= TRENDING_DOCS
  }

  /** The first `room` sections of a priority list that qualify. */
  function Picked(q: Section -> bool, order: seq<Section>, room: nat): (r: seq<Section>)
    ensures |r| <= room
    ensures forall s :: s in r ==> s in order && q(s)
  {
    if order == [] || room == 0 then []
    else if q(order[0]) then [order[0]] + Picked(q, order[1..], room - 1)
    else Picked(q, order[1..], room)
  }

  function QualifiesFor(l: Lens, together: set<string>, ev: Event, inForYou: bool): Section -> bool {
    (s: Section) => Qualifies(l, together, ev, inForYou, s)
  }

  function Assigned(l: Lens, together: set<string>, ev: Event, inForYou: bool): seq<Section> {
    Picked(QualifiesFor(l, together, ev, inForYou), PRIORITY, MAX_SECTIONS)
  }

  function HowMany(q: Section -> bool, order: seq<Section>): nat {
    if order == [] then 0 else (if q(order[0]) then 1 else 0) + HowMany(q, order[1..])
  }

  lemma {:induction false} PickedIff(q: Section -> bool, order: seq<Section>, room: nat, i: nat)
    requires NoRepeats(order) && i < |order|
    ensures order[i] in Picked(q, order, room) <==> q(order[i]) && HowMany(q, order[..i]) < room
  {
    var rest := order[1..];
    if i == 0 {
      assert order[0] !in rest;
    } else {
      assert order[..i][1..] == rest[..i - 1] && rest[i - 1] == order[i];
      PickedIff(q, rest, if q(order[0]) && room > 0 then room - 1 else room, i - 1);
    }
  }

  /** An event is placed in a section exactly when it qualifies and fewer than two sections of higher
      priority want it, so never in more than two. */
  lemma PlacedInEarliestTwo(l: Lens, together: set<string>, ev: Event, inForYou: bool, i: nat)
    requires i < |PRIORITY|
    ensures var q := QualifiesFor(l, together, ev, inForYou);
      PRIORITY[i] in Assigned(l, together, ev, inForYou) <==> q(PRIORITY[i]) && HowMany(q, PRIORITY[..i]) < MAX_SECTIONS
    ensures |Assigned(l, together, ev, inForYou)| <= 2
  {
    PriorityIsDistinct();
    PickedIff(QualifiesFor(l, together, ev, inForYou), PRIORITY, MAX_SECTIONS, i);
  }

  /** The sections the rules name. */
  method NamedSections(l: Lens, together: set<string>, ev: Event, inForYou: bool) returns (all: seq<Section>)
    ensures forall s :: s in all <==> Qualifies(l, together, ev, inForYou, s)
  {
    all := if inForYou then [ForYou] else [];
    var terms := ScoreTerms(l, together, ev);
    if terms.relation > 0.0 && !PrimaryFollowed(l, ev) {
      all := all + [Related];
    }
    match ev.eventType {
      case EarningsResult => all := all + [Earnings];
      case EarningsGuidance => all := all + [Earnings];
      case MacroRelease => all := all + [Macro];
      case CentralBank => all := all + [Macro];
      case OtherType =>
    }
    if ev.importance >= MARKET_MOVING {
      all := all + [MarketMoving];
    }
    if ev.documentCount >= TRENDING_DOCS {
      all := all + [Trending];
    }
  }

  /** The first two of them in priority order. */
  method AssignSections(l: Lens, together: set<string>, ev: Event, inForYou: bool) returns (picked: seq<Section>)
    ensures picked == Assigned(l, together, ev, inForYou)
  {
    var all := NamedSections(l, together, ev, inForYou);
    picked := InPriority(PRIORITY, all, MAX_SECTIONS, QualifiesFor(l, together, ev, inForYou));
  }

  method InPriority(
    order: seq<Section>, all: seq<Section>, room: nat, ghost q: Section -> bool) returns (picked: seq<Section>)
    requires room > 0 && forall s :: s in all <==> q(s)
    ensures picked == Picked(q, order, room)
  {
    picked := [];
    assert order[0..] == order;
    for i := 0 to |order|
      invariant |picked| < room
      invariant Picked(q, order, room) == picked + Picked(q, order[i..], room - |picked|)
    {
      PickedStep(q, order, i, room - |picked|);
      if order[i] in all {
        picked := picked + [order[i]];
        if |picked| == room {
          return;
        }
      }
    }
  }

  lemma PickedStep(q: Section -> bool, order: seq<Section>, i: nat, room: nat)
    requires i < |order| && room > 0
    ensures Picked(q, order[i..], room) ==
      if q(order[i]) then [order[i]] + Picked(q, order[i + 1..], room - 1) else Picked(q, order[i + 1..], room)
  {
    assert order[i..][0] == order[i] && order[i..][1..] == order[i + 1..];
  }

  lemma ThreeNeedThree(r: seq<Section>, a: Section, b: Section, c: Section)
    requires a != b && a != c && b != c && |r| <= 2
    ensures !(a in r && b in r && c in r)
  {
  }

  // ------------------------------------------------------------------ ranking

  predicate Named(e: Event) { e.id != "" }

  function Keep<T>(s: seq<T>, p: T -> bool): seq<T> {
    if s == [] then [] else Keep(s[..|s| - 1], p) + if p(s[|s| - 1]) then [s[|s| - 1]] else []
  }

  const NAMED: Event -> bool := (e: Event) => Named(e)

  function Ranked(l: Lens, events: seq<Event>): seq<Event> {
    Sort(Order(l, Together(events, l.follow)), Keep(events, NAMED))
  }

  function First<T>(s: seq<T>, n: nat): seq<T> { if |s| > n then s[..n] else s }

  /** The ids at the top of the ranking that are not about a followed company. */
  function ForYouIds(l: Lens, ranked: seq<Event>, limit: nat): set<string> {
    if ranked == [] then {}
    else
      var top, e := ForYouIds(l, ranked[..|ranked| - 1], limit), ranked[|ranked| - 1];
      if |top| < limit && !PrimaryFollowed(l, e) then top + {e.id} else top
  }

  /** They are the first `limit` such events, each counted once. */
  lemma {:induction false} ForYouIsTheTop(l: Lens, ranked: seq<Event>, limit: nat)
    requires DistinctEvents(ranked)
    ensures var picks := First(Keep(ranked, (e: Event) => !PrimaryFollowed(l, e)), limit);
      |ForYouIds(l, ranked, limit)| == |picks| && ForYouIds(l, ranked, limit) == set e | e in picks :: e.id
  {
    if ranked != [] {
      var n, p := |ranked| - 1, (e: Event) => !PrimaryFollowed(l, e);
      ForYouIsTheTop(l, ranked[..n], limit);
      assert ranked == ranked[..n] + [ranked[n]];
      FirstOfKeep(ranked[..n], p, ranked[n], limit);
      KeptBefore(ranked, p, limit);
    }
  }

  lemma KeptBefore(ranked: seq<Event>, p: Event -> bool, limit: nat)
    requires DistinctEvents(ranked) && ranked != []
    ensures forall e :: e in First(Keep(ranked[..|ranked| - 1], p), limit) ==> e.id != ranked[|ranked| - 1].id
  {
    var init := ranked[..|ranked| - 1];
    KeepKeepsDistinct(init, p);
    forall e | e in First(Keep(init, p), limit) ensures e.id != ranked[|ranked| - 1].id {
      assert e in Keep(init, p);
      var k :| 0 <= k < |init| && init[k] == e;
      assert ranked[k] == e;
    }
  }

  predicate Lands(l: Lens, together: set<string>, top: set<string>, ev: Event, s: Section) {
    s in Assigned(l, together, ev, ev.id in top) && l.explains(ev, TermsOf(l, together, ev))
  }

  /** One section: the highest-ranked events that land in it. */
  function SectionOf(l: Lens, events: seq<Event>, s: Section, limit: nat): seq<Event> {
    var together, ranked := Together(events, l.follow), Ranked(l, events);
    var top := ForYouIds(l, ranked, limit);
    First(Keep(ranked, (e: Event) => Lands(l, together, top, e, s)), limit)
  }

  type Sections = map<Section, seq<Event>>

  predicate Wanted(section: Option<Section>, s: Section) { section.None? || section.value == s }

  /** A section once one more event has been considered for it. */
  function With(
    l: Lens, together: set<string>, top: set<string>, section: Option<Section>, limit: nat, ev: Event, s: Section,
    cards: seq<Event>)
    : seq<Event>
  {
    if Wanted(section, s) && Lands(l, together, top, ev, s) && |cards| < limit then cards + [ev] else cards
  }

  /** Puts one event into the sections it was assigned to, where there is room. */
  method PlaceEvent(
    l: Lens, together: set<string>, top: set<string>, section: Option<Section>, limit: nat, ev: Event, out0: Sections)
    returns (out: Sections)
    requires forall s: Section :: s in out0
    ensures forall s: Section :: s in out && out[s] == With(l, together, top, section, limit, ev, s, out0[s])
  {
    out := out0;
    var placements := AssignSections(l, together, ev, ev.id in top);
    AssignedIsDistinct(l, together, ev, ev.id in top);
    for i := 0 to |placements|
      invariant forall s: Section :: s in out
      invariant forall s: Section :: s in placements[i..] ==> out[s] == out0[s]
      invariant forall s: Section :: s !in placements[i..] ==>
        out[s] == With(l, together, top, section, limit, ev, s, out0[s])
    {
      var s := placements[i];
      assert placements[i..] == [s] + placements[i + 1..];
      assert s !in placements[i + 1..];
      if Wanted(section, s) && |out[s]| < limit {
        if l.explains(ev, TermsOf(l, together, ev)) {
          out := out[s := out[s] + [ev]];
        }
      }
    }
  }

  lemma {:induction false} PickedIsDistinct(q: Section -> bool, order: seq<Section>, room: nat)
    requires NoRepeats(order)
    ensures NoRepeats(Picked(q, order, room))
  {
    if order != [] && room > 0 {
      var rest := order[1..];
      assert order[0] !in rest;
      PickedIsDistinct(q, rest, if q(order[0]) then room - 1 else room);
    }
  }

  lemma AssignedIsDistinct(l: Lens, together: set<string>, ev: Event, inForYou: bool)
    ensures NoRepeats(Assigned(l, together, ev, inForYou))
  {
    PriorityIsDistinct();
    PickedIsDistinct(QualifiesFor(l, together, ev, inForYou), PRIORITY, MAX_SECTIONS);
  }

  lemma PriorityIsDistinct()
    ensures NoRepeats(PRIORITY)
  {
    assert PRIORITY[0] == ForYou && PRIORITY[1] == Related && PRIORITY[2] == Earnings;
    assert PRIORITY[3] == Macro && PRIORITY[4] == MarketMoving && PRIORITY[5] == Trending;
  }

  function EmptySections(): Sections {
    map[ForYou := [], Related := [], Earnings := [], Macro := [], MarketMoving := [], Trending := []]
  }

  /** All six sections are always present. */
  lemma SixSections()
    ensures forall s: Section :: s in EmptySections() && EmptySections()[s] == []
  {
    forall s: Section
      ensures s in EmptySections() && EmptySections()[s] == []
    {
      match s case ForYou => case Related => case Earnings => case Macro => case MarketMoving => case Trending =>
    }
  }

  lemma FirstOfKeep(s: seq<Event>, p: Event -> bool, e: Event, limit: nat)
    ensures var cards := First(Keep(s, p), limit);
      First(Keep(s + [e], p), limit) == if p(e) && |cards| < limit then cards + [e] else cards
  {
    assert (s + [e])[..|s|] == s;
    assert Keep(s, p) + [] == Keep(s, p);
  }

  method TopPicks(l: Lens, ranked: seq<Event>, limit: nat) returns (top: set<string>)
    ensures top == ForYouIds(l, ranked, limit)
  {
    top := {};
    for i := 0 to |ranked|
      invariant top == ForYouIds(l, ranked[..i], limit)
    {
      assert ranked[..i + 1][..i] == ranked[..i];
      if |top| >= limit {
        FullStaysFull(l, ranked, limit, i);
        return;
      }
      if !PrimaryFollowed(l, ranked[i]) {
        top := top + {ranked[i].id};
      }
    }
    assert ranked[..|ranked|] == ranked;
  }

  lemma {:induction false} FullStaysFull(l: Lens, ranked: seq<Event>, limit: nat, i: nat)
    requires i <= |ranked| && |ForYouIds(l, ranked[..i], limit)| >= limit
    ensures ForYouIds(l, ranked, limit) == ForYouIds(l, ranked[..i], limit)
    decreases |ranked|
  {
    if i == |ranked| {
      assert ranked[..i] == ranked;
    } else {
      assert ranked[..|ranked| - 1][..i] == ranked[..i];
      FullStaysFull(l, ranked[..|ranked| - 1], limit, i);
    }
  }

  /** Every section that was asked for is there in full, and the others are empty. */
  ghost predicate LaysOut(l: Lens, events: seq<Event>, section: Option<Section>, limit: nat, out: Sections) {
    forall s: Section :: s in out && out[s] == if Wanted(section, s) then SectionOf(l, events, s, limit) else []
  }

  /** Ranks the events and lays them out; `section` asks for one section only. */
  method RankExplore(l: Lens, events: seq<Event>, section: Option<Section>, limit: nat) returns (out: Sections)
    ensures LaysOut(l, events, section, limit, out)
  {
    var together := CooccurrenceSet(events, l.follow);
    var ranked := Sort(Order(l, together), Keep(events, NAMED));
    var top := TopPicks(l, ranked, limit);
    assert ranked[..0] == [];
    out := EmptySections();
    SixSections();
    for i := 0 to |ranked|
      invariant forall s: Section :: s in out && out[s] == Partial(l, together, top, section, limit, s, ranked[..i])
    {
      assert ranked[..i + 1] == ranked[..i] + [ranked[i]];
      PartialSnoc(l, together, top, section, limit, ranked[..i], ranked[i]);
      out := PlaceEvent(l, together, top, section, limit, ranked[i], out);
    }
    assert ranked[..|ranked|] == ranked;
  }

  function Partial(
    l: Lens, together: set<string>, top: set<string>, section: Option<Section>, limit: nat, s: Section,
    ranked: seq<Event>)
    : seq<Event>
  {
    if Wanted(section, s) then First(Keep(ranked, (e: Event) => Lands(l, together, top, e, s)), limit) else []
  }

  lemma PartialSnoc(
    l: Lens, together: set<string>, top: set<string>, section: Option<Section>, limit: nat, ranked: seq<Event>,
    ev: Event)
    ensures forall s: Section ::
      (Partial(l, together, top, section, limit, s, ranked + [ev]) ==
       With(l, together, top, section, limit, ev, s, Partial(l, together, top, section, limit, s, ranked)))
  {
    forall s: Section
      ensures Partial(l, together, top, section, limit, s, ranked + [ev]) ==
        With(l, together, top, section, limit, ev, s, Partial(l, together, top, section, limit, s, ranked))
    {
      FirstOfKeep(ranked, (e: Event) => Lands(l, together, top, e, s), ev, limit);
    }
  }

  // ------------------------------------------------------------------ what the ranking guarantees

  lemma {:induction false} KeepIsSubsequence(s: seq<Event>, p: Event -> bool, before: (Event, Event) -> bool)
    requires Ordered(before, s)
    ensures Ordered(before, Keep(s, p))
    ensures forall e :: e in Keep(s, p) <==> e in s && p(e)
  {
    if s != [] {
      var n := |s| - 1;
      KeepIsSubsequence(s[..n], p, before);
      assert s == s[..n] + [s[n]];
      var k := Keep(s[..n], p);
      forall i | 0 <= i < |k| ensures before(k[i], s[n]) {
        assert k[i] in k;
        assert k[i] in s[..n];
      }
    }
  }

  ghost predicate DistinctEvents(events: seq<Event>) {
    DistinctBy(events, (e: Event) => e.id)
  }

  lemma {:induction false} KeepKeepsDistinct(events: seq<Event>, p: Event -> bool)
    requires DistinctEvents(events)
    ensures DistinctEvents(Keep(events, p)) && forall e :: e in Keep(events, p) ==> e in events
  {
    if events != [] {
      var n := |events| - 1;
      KeepKeepsDistinct(events[..n], p);
      assert events == events[..n] + [events[n]];
      var k := Keep(events[..n], p);
      forall i | 0 <= i < |k| ensures k[i].id != events[n].id {
        assert k[i] in events[..n];
      }
    }
  }

  lemma RankedIsOrdered(l: Lens, events: seq<Event>)
    requires DistinctEvents(events)
    ensures Ordered(Order(l, Together(events, l.follow)), Ranked(l, events))
    ensures forall e :: e in Ranked(l, events) <==> e in Keep(events, NAMED)
  {
    var named := Keep(events, NAMED);
    KeepKeepsDistinct(events, NAMED);
    assert IdsUnique(Elements(named));
    OrderIsTotal(l, Together(events, l.follow), Elements(named));
    SortOrders(Order(l, Together(events, l.follow)), named);
    SortKeepsAll(Order(l, Together(events, l.follow)), named);
  }

  /** Each section is strictly ordered by score, time and id, and no longer than the limit. */
  lemma SectionsAreOrderedAndCapped(l: Lens, events: seq<Event>, s: Section, limit: nat)
    requires DistinctEvents(events)
    ensures |SectionOf(l, events, s, limit)| <= limit
    ensures Ordered(Order(l, Together(events, l.follow)), SectionOf(l, events, s, limit))
  {
    var together, ranked := Together(events, l.follow), Ranked(l, events);
    var top := ForYouIds(l, ranked, limit);
    RankedIsOrdered(l, events);
    KeepIsSubsequence(ranked, (e: Event) => Lands(l, together, top, e, s), Order(l, together));
  }

  lemma InSectionLands(l: Lens, events: seq<Event>, s: Section, limit: nat, e: Event)
    requires DistinctEvents(events) && e in SectionOf(l, events, s, limit)
    ensures Lands(l, Together(events, l.follow), ForYouIds(l, Ranked(l, events), limit), e, s)
    ensures e in events && e.id != ""
  {
    var together, ranked := Together(events, l.follow), Ranked(l, events);
    var top := ForYouIds(l, ranked, limit);
    var p := (x: Event) => Lands(l, together, top, x, s);
    RankedIsOrdered(l, events);
    KeepIsSubsequence(ranked, p, Order(l, together));
    assert e in Keep(ranked, p);
    KeepIsPart(events, NAMED, e);
  }

  lemma {:induction false} KeepIsPart(s: seq<Event>, p: Event -> bool, e: Event)
    requires e in Keep(s, p)
    ensures e in s && p(e)
  {
    if e != s[|s| - 1] || e in Keep(s[..|s| - 1], p) {
      KeepIsPart(s[..|s| - 1], p, e);
    }
  }

  /** No event stands in three sections. */
  lemma NoEventInThreeSections(l: Lens, events: seq<Event>, limit: nat, e: Event, a: Section, b: Section, c: Section)
    requires DistinctEvents(events) && a != b && a != c && b != c
    requires e in SectionOf(l, events, a, limit) && e in SectionOf(l, events, b, limit)
    ensures e !in SectionOf(l, events, c, limit)
  {
    InSectionLands(l, events, a, limit, e);
    InSectionLands(l, events, b, limit, e);
    if e in SectionOf(l, events, c, limit) {
      InSectionLands(l, events, c, limit, e);
      var inForYou := e.id in ForYouIds(l, Ranked(l, events), limit);
      ThreeNeedThree(Assigned(l, Together(events, l.follow), e, inForYou), a, b, c);
    }
  }

  lemma {:induction false} KeepCounts(s: seq<Event>, p: Event -> bool, x: Event)
    ensures multiset(Keep(s, p))[x] == if p(x) then multiset(s)[x] else 0
  {
    if s != [] {
      KeepCounts(s[..|s| - 1], p, x);
      assert s == s[..|s| - 1] + [s[|s| - 1]];
    }
  }

  /** The ranking depends on the set of events only: any rearrangement of the input gives the same
      sections. */
  lemma RankingIgnoresInputOrder(l: Lens, events: seq<Event>, shuffled: seq<Event>, s: Section, limit: nat)
    requires DistinctEvents(events) && multiset(events) == multiset(shuffled)
    ensures SectionOf(l, events, s, limit) == SectionOf(l, shuffled, s, limit)
  {
    assert forall e :: e in events <==> e in multiset(events);
    assert forall e :: e in shuffled <==> e in multiset(shuffled);
    assert Together(events, l.follow) == Together(shuffled, l.follow);
    var a, b := Keep(events, NAMED), Keep(shuffled, NAMED);
    forall x ensures multiset(a)[x] == multiset(b)[x] {
      KeepCounts(events, NAMED, x);
      KeepCounts(shuffled, NAMED, x);
    }
    assert multiset(a) == multiset(b);
    KeepKeepsDistinct(events, NAMED);
    assert IdsUnique(Elements(a));
    OrderIsTotal(l, Together(events, l.follow), Elements(a));
    SortOfPermutation(Order(l, Together(events, l.follow)), a, b);
  }

  /** Asking for one section gives exactly that section of the full answer. */
  lemma NamedSectionIsTheFullOne(l: Lens, events: seq<Event>, s: Section, limit: nat, full: Sections, one: Sections)
    requires LaysOut(l, events, None, limit, full) && LaysOut(l, events, Some(s), limit, one)
    ensures s in one && s in full && one[s] == full[s] && forall t: Section :: t != s ==> t in one && one[t] == []
  {
  }
}
