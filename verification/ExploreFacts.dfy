/** What the Explore ranking's rules say of an event, mention by mention and field by field. */
module ExploreFacts {
  import opened Common
  import opened Sorting
  import opened ExploreRanking
  import Text

  // ------------------------------------------------------------------ the subject of an event

  /** Mention `i` is the first that names the subject. */
  ghost predicate FirstPrimary(ms: seq<Mention>, i: nat) {
    i < |ms| && ms[i].isPrimary && forall j :: 0 <= j < i ==> !ms[j].isPrimary
  }

  ghost predicate NoPrimary(ms: seq<Mention>) { forall j :: 0 <= j < |ms| ==> !ms[j].isPrimary }

  /** The subject is the company of the first mention marked primary, and there is none exactly when no
      mention is marked. */
  lemma {:induction false} PrimaryIsTheFirst(ms: seq<Mention>)
    ensures NoPrimary(ms) ==> PrimaryOf(ms) == ""
    ensures forall i: nat :: FirstPrimary(ms, i) ==> PrimaryOf(ms) == ms[i].symbol
    ensures !NoPrimary(ms) ==> exists i: nat :: FirstPrimary(ms, i)
  {
    if ms != [] {
      var rest := ms[1..];
      PrimaryIsTheFirst(rest);
      assert forall j :: 0 < j < |ms| ==> rest[j - 1] == ms[j];
      if ms[0].isPrimary {
        assert FirstPrimary(ms, 0);
      } else {
        forall i: nat | FirstPrimary(ms, i) ensures i > 0 && FirstPrimary(rest, i - 1) {
        }
        if i: nat :| FirstPrimary(rest, i) {
          assert FirstPrimary(ms, i + 1);
        }
      }
    }
  }

  /** The event is about a followed company. */
  ghost predicate AboutFollowed(l: Lens, ev: Event) {
    exists i: nat :: FirstPrimary(ev.mentions, i) && ev.mentions[i].symbol != "" && ev.mentions[i].symbol in l.follow
  }

  lemma PrimaryFollowedIff(l: Lens, ev: Event)
    ensures PrimaryFollowed(l, ev) <==> AboutFollowed(l, ev)
  {
    PrimaryIsTheFirst(ev.mentions);
  }

  ghost predicate MentionsFollowed(l: Lens, ev: Event) {
    exists i :: 0 <= i < |ev.mentions| && ev.mentions[i].symbol in l.follow
  }

  /** A company seen beside a followed one in some event. */
  ghost predicate SeenBeside(events: seq<Event>, l: Lens, symbol: string) {
    && symbol !in l.follow
    && exists k :: 0 <= k < |events| && MentionsFollowed(l, events[k]) && Mentions(events[k], symbol)
  }

  ghost predicate Mentions(ev: Event, symbol: string) {
    exists j :: 0 <= j < |ev.mentions| && ev.mentions[j].symbol == symbol
  }

  lemma TogetherInFields(events: seq<Event>, l: Lens, symbol: string)
    ensures symbol in Together(events, l.follow) <==> SeenBeside(events, l, symbol)
  {
    if symbol in Together(events, l.follow) {
      var e, m :| e in events && Touches(e, l.follow) && m in e.mentions && m.symbol !in l.follow && m.symbol == symbol;
      var k :| 0 <= k < |events| && events[k] == e;
      assert Mentions(events[k], symbol);
    }
    if SeenBeside(events, l, symbol) {
      var k :| 0 <= k < |events| && MentionsFollowed(l, events[k]) && Mentions(events[k], symbol);
      var j :| 0 <= j < |events[k].mentions| && events[k].mentions[j].symbol == symbol;
      assert events[k] in events && events[k].mentions[j] in events[k].mentions && Touches(events[k], l.follow);
    }
  }

  // ------------------------------------------------------------------ terms and order

  ghost predicate MentionsAny(ev: Event, symbols: set<string>) {
    exists i :: 0 <= i < |ev.mentions| && ev.mentions[i].symbol in symbols
  }

  /** Some company of the event is in a known sector that a followed company is in too. */
  ghost predicate SharesSector(l: Lens, ev: Event) {
    exists i, t :: 0 <= i < |ev.mentions| && t in l.follow && InSector(l, t) && InSector(l, ev.mentions[i].symbol)
      && l.sectorOf[t] == l.sectorOf[ev.mentions[i].symbol]
  }

  ghost predicate InSector(l: Lens, symbol: string) { symbol in l.sectorOf && l.sectorOf[symbol] != "" }

  ghost predicate IsClamped(v: real, r: real) {
    (v < 0.0 ==> r == 0.0) && (v > 1.0 ==> r == 1.0) && (0.0 <= v <= 1.0 ==> r == v)
  }

  /** The six terms of an event. */
  lemma TermsInFields(l: Lens, together: set<string>, ev: Event)
    ensures var t := TermsOf(l, together, ev);
      && IsClamped(ev.importance, t.importance) && t.freshness == l.decay(ev.publishedAt)
      && IsClamped(ev.novelty, t.novelty)
      && t.tier == (if ev.tier == Official then 1.0 else if ev.tier == Professional then 0.6
                    else if ev.tier == Discussion then 0.25 else 0.0)
      && t.relation == (if MentionsFollowed(l, ev) then 1.0 else if MentionsAny(ev, together) then 0.5 else 0.0)
      && t.sector == (if SharesSector(l, ev) then 1.0 else 0.0)
  {
    if SharesSector(l, ev) {
      var i, t :| 0 <= i < |ev.mentions| && t in l.follow && InSector(l, t) && InSector(l, ev.mentions[i].symbol)
        && l.sectorOf[t] == l.sectorOf[ev.mentions[i].symbol];
      assert l.sectorOf[t] in SectorsOf(l);
    }
  }

  /** Cards are ordered by the weighted sum of their terms, then by time, then by id, all downwards. */
  lemma OutranksInFields(l: Lens, together: set<string>, a: Event, b: Event)
    ensures var s, t := TermsOf(l, together, a), TermsOf(l, together, b);
      var x := 30.0 * s.importance + 20.0 * s.freshness + 15.0 * s.novelty + 10.0 * s.tier + 15.0 * s.relation
        + 10.0 * s.sector;
      var y := 30.0 * t.importance + 20.0 * t.freshness + 15.0 * t.novelty + 10.0 * t.tier + 15.0 * t.relation
        + 10.0 * t.sector;
      Outranks(l, together, a, b) <==>
        x > y || (x == y && (a.publishedAt > b.publishedAt
                             || (a.publishedAt == b.publishedAt && Text.Less(b.id, a.id))))
  {
  }

  // ------------------------------------------------------------------ where an event belongs

  /** The rules of the six sections. */
  ghost predicate Wants(l: Lens, together: set<string>, ev: Event, inForYou: bool, s: Section) {
    match s
    case ForYou => inForYou
    case Related => (MentionsFollowed(l, ev) || MentionsAny(ev, together)) && !AboutFollowed(l, ev)
    case Earnings => ev.eventType == EarningsResult || ev.eventType == EarningsGuidance
    case Macro => ev.eventType == MacroRelease || ev.eventType == CentralBank
    case MarketMoving => ev.importance >= 0.7
    case Trending => ev.documentCount >= 3
  }

  lemma QualifiesInFields(l: Lens, together: set<string>, ev: Event, inForYou: bool, s: Section)
    ensures Qualifies(l, together, ev, inForYou, s) <==> Wants(l, together, ev, inForYou, s)
  {
    PrimaryFollowedIff(l, ev);
  }

  function Rank(s: Section): nat {
    match s
    case ForYou => 0
    case Related => 1
    case Earnings => 2
    case Macro => 3
    case MarketMoving => 4
    case Trending => 5
  }

  lemma PriorityInFields(s: Section)
    ensures |PRIORITY| == 6 && PRIORITY[Rank(s)] == s
  {
    match s case ForYou => case Related => case Earnings => case Macro => case MarketMoving => case Trending =>
  }

  lemma {:induction false} TwoAhead(q: Section -> bool, order: seq<Section>)
    requires HowMany(q, order) >= 2
    ensures exists i, j :: 0 <= i < j < |order| && q(order[i]) && q(order[j])
  {
    var rest := order[1..];
    assert forall j :: 1 <= j < |order| ==> rest[j - 1] == order[j];
    if q(order[0]) {
      var j := OneAhead(q, rest);
      assert q(order[j + 1]);
    } else {
      TwoAhead(q, rest);
      var i, j :| 0 <= i < j < |rest| && q(rest[i]) && q(rest[j]);
      assert q(order[i + 1]) && q(order[j + 1]);
    }
  }

  lemma {:induction false} OneAhead(q: Section -> bool, order: seq<Section>) returns (k: nat)
    requires HowMany(q, order) >= 1
    ensures k < |order| && q(order[k])
  {
    if q(order[0]) {
      k := 0;
    } else {
      k := OneAhead(q, order[1..]);
      k := k + 1;
    }
  }

  lemma {:induction false} AheadCounts(q: Section -> bool, order: seq<Section>, i: nat, j: nat)
    requires i <= j < |order| && q(order[i]) && q(order[j])
    ensures HowMany(q, order) >= if i < j then 2 else 1
  {
    if i == 0 && j > 0 {
      assert order[1..][j - 1] == order[j];
      AheadCounts(q, order[1..], j - 1, j - 1);
    } else if i > 0 {
      assert order[1..][i - 1] == order[i] && order[1..][j - 1] == order[j];
      AheadCounts(q, order[1..], i - 1, j - 1);
    }
  }

  ghost predicate TwoBefore(q: Section -> bool, s: Section) {
    exists a, b :: Rank(a) < Rank(b) < Rank(s) && q(a) && q(b)
  }

  lemma TwoBeforeIff(q: Section -> bool, s: Section)
    ensures Rank(s) < |PRIORITY| && (HowMany(q, PRIORITY[..Rank(s)]) >= 2 <==> TwoBefore(q, s))
  {
    PriorityInFields(s);
    var ahead := PRIORITY[..Rank(s)];
    if HowMany(q, ahead) >= 2 {
      TwoAhead(q, ahead);
      var i, j :| 0 <= i < j < |ahead| && q(ahead[i]) && q(ahead[j]);
      RankOf(i);
      RankOf(j);
    }
    if a, b :| Rank(a) < Rank(b) < Rank(s) && q(a) && q(b) {
      PriorityInFields(a);
      PriorityInFields(b);
      AheadCounts(q, ahead, Rank(a), Rank(b));
    }
  }

  ghost function WantedBy(l: Lens, together: set<string>, ev: Event, inForYou: bool): Section -> bool {
    (s: Section) => Wants(l, together, ev, inForYou, s)
  }

  ghost predicate TwoHigher(l: Lens, together: set<string>, ev: Event, inForYou: bool, s: Section) {
    TwoBefore(WantedBy(l, together, ev, inForYou), s)
  }

  lemma SameBefore(p: Section -> bool, q: Section -> bool, s: Section)
    requires forall t :: p(t) <==> q(t)
    ensures TwoBefore(p, s) <==> TwoBefore(q, s)
  {
  }

  lemma TwoHigherIff(l: Lens, together: set<string>, ev: Event, inForYou: bool, s: Section)
    ensures TwoBefore(QualifiesFor(l, together, ev, inForYou), s) <==> TwoHigher(l, together, ev, inForYou, s)
  {
    var p, q := QualifiesFor(l, together, ev, inForYou), WantedBy(l, together, ev, inForYou);
    forall t ensures p(t) <==> q(t) {
      QualifiesInFields(l, together, ev, inForYou, t);
    }
    SameBefore(p, q, s);
  }

  /** An event goes into a section exactly when the section's rule wants it and no two rules of higher priority
      do. */
  lemma PlacedIff(l: Lens, together: set<string>, ev: Event, inForYou: bool, s: Section)
    ensures s in Assigned(l, together, ev, inForYou) <==>
      Wants(l, together, ev, inForYou, s) && !TwoHigher(l, together, ev, inForYou, s)
  {
    PriorityInFields(s);
    PlacedInEarliestTwo(l, together, ev, inForYou, Rank(s));
    QualifiesInFields(l, together, ev, inForYou, s);
    TwoBeforeIff(QualifiesFor(l, together, ev, inForYou), s);
    TwoHigherIff(l, together, ev, inForYou, s);
  }

  lemma RankOf(k: nat)
    requires k < 6
    ensures |PRIORITY| == 6 && Rank(PRIORITY[k]) == k
  {
    assert PRIORITY == [ForYou, Related, Earnings, Macro, MarketMoving, Trending];
  }

  // ------------------------------------------------------------------ the discovery sections

  lemma PickIsNotFollowed(l: Lens, ranked: seq<Event>, limit: nat, e: Event)
    requires DistinctEvents(ranked) && e in ranked && e.id in ForYouIds(l, ranked, limit)
    ensures !AboutFollowed(l, e)
  {
    var p := (x: Event) => !PrimaryFollowed(l, x);
    ForYouIsTheTop(l, ranked, limit);
    var pick :| pick in First(Keep(ranked, p), limit) && pick.id == e.id;
    assert pick in Keep(ranked, p);
    KeepIsPart(ranked, p, pick);
    SameIdSameEvent(ranked, pick, e);
    PrimaryFollowedIff(l, e);
  }

  lemma SameIdSameEvent(events: seq<Event>, a: Event, b: Event)
    requires DistinctEvents(events) && a in events && b in events && a.id == b.id
    ensures a == b
  {
    var i :| 0 <= i < |events| && events[i] == a;
    var j :| 0 <= j < |events| && events[j] == b;
    assert i == j;
  }

  lemma RankedIsDistinct(l: Lens, events: seq<Event>)
    requires DistinctEvents(events)
    ensures DistinctEvents(Ranked(l, events)) && forall e :: e in Ranked(l, events) ==> e in events
  {
    var ranked, before := Ranked(l, events), Order(l, Together(events, l.follow));
    RankedIsOrdered(l, events);
    KeepKeepsDistinct(events, NAMED);
    forall i, j | 0 <= i < j < |ranked| ensures ranked[i].id != ranked[j].id {
      assert before(ranked[i], ranked[j]);
      if ranked[i].id == ranked[j].id {
        assert ranked[i] in Keep(events, NAMED) && ranked[j] in Keep(events, NAMED);
        SameIdSameEvent(Keep(events, NAMED), ranked[i], ranked[j]);
        Text.LessTrichotomy(ranked[i].id, ranked[i].id);
      }
    }
  }

  /** No card for you, and none related to your companies, is about a company you follow. */
  lemma DiscoveryIsNotFollowed(
    l: Lens, events: seq<Event>, section: Option<Section>, limit: nat, out: Sections, e: Event)
    requires DistinctEvents(events) && LaysOut(l, events, section, limit, out)
    requires ForYou in out && Related in out && (e in out[ForYou] || e in out[Related])
    ensures !AboutFollowed(l, e)
  {
    var s := if e in out[ForYou] then ForYou else Related;
    assert e in SectionOf(l, events, s, limit);
    var together, top := Together(events, l.follow), ForYouIds(l, Ranked(l, events), limit);
    InSectionLands(l, events, s, limit, e);
    PlacedIff(l, together, e, e.id in top, s);
    if s == ForYou {
      RankedIsDistinct(l, events);
      RankedIsOrdered(l, events);
      NamedIsKept(events, e);
      PickIsNotFollowed(l, Ranked(l, events), limit, e);
    }
  }

  lemma {:induction false} NamedIsKept(events: seq<Event>, e: Event)
    requires e in events && e.id != ""
    ensures e in Keep(events, NAMED)
  {
    var n := |events| - 1;
    if e != events[n] {
      assert e in events[..n];
      NamedIsKept(events[..n], e);
    }
  }

  /** An event that mentions a followed company without being about one is always placed among the related. */
  lemma MentionIsRelated(l: Lens, together: set<string>, ev: Event, inForYou: bool)
    requires MentionsFollowed(l, ev) && !AboutFollowed(l, ev)
    ensures Related in Assigned(l, together, ev, inForYou)
  {
    PlacedIff(l, together, ev, inForYou, Related);
  }

  // ------------------------------------------------------------------ what a section leaves out

  /** An event that lands in a section is shown there, unless the section is full of events that outrank it. */
  lemma SectionHoldsTheBest(l: Lens, events: seq<Event>, s: Section, limit: nat, e: Event)
    requires DistinctEvents(events) && e in events && e.id != ""
    requires Lands(l, Together(events, l.follow), ForYouIds(l, Ranked(l, events), limit), e, s)
    ensures e in SectionOf(l, events, s, limit)
      || (|SectionOf(l, events, s, limit)| == limit
          && forall c :: c in SectionOf(l, events, s, limit) ==> Outranks(l, Together(events, l.follow), c, e))
  {
    var together, ranked := Together(events, l.follow), Ranked(l, events);
    var top := ForYouIds(l, ranked, limit);
    var p, before := (x: Event) => Lands(l, together, top, x, s), Order(l, together);
    RankedIsOrdered(l, events);
    NamedIsKept(events, e);
    KeepIsSubsequence(ranked, p, before);
    FirstIsBest(before, Keep(ranked, p), limit, e);
    forall c | c in SectionOf(l, events, s, limit) && before(c, e) ensures Outranks(l, together, c, e) {
    }
  }

  lemma FirstIsBest(before: (Event, Event) -> bool, all: seq<Event>, limit: nat, e: Event)
    requires Ordered(before, all) && e in all
    ensures e in First(all, limit)
      || (|First(all, limit)| == limit && forall c :: c in First(all, limit) ==> before(c, e))
  {
    var k :| 0 <= k < |all| && all[k] == e;
    if k < limit {
      assert First(all, limit)[k] == e;
    } else {
      forall c | c in First(all, limit) ensures before(c, e) {
        var j :| 0 <= j < limit && all[..limit][j] == c;
        assert all[j] == c;
      }
    }
  }

  lemma {:induction false} IdsCount(cards: seq<Event>)
    requires DistinctEvents(cards)
    ensures |IdSet(cards)| == |cards|
  {
    if cards != [] {
      var init, e := cards[..|cards| - 1], cards[|cards| - 1];
      IdsCount(init);
      assert cards == init + [e];
      IdSetSnoc(init, e);
      assert e.id !in IdSet(init);
    }
  }

  lemma IdSetSnoc(cards: seq<Event>, e: Event)
    ensures IdSet(cards + [e]) == IdSet(cards) + {e.id}
  {
  }

  function IdSet(cards: seq<Event>): set<string> { set c | c in cards :: c.id }

  lemma SubsetNoLarger(a: set<string>, b: set<string>)
    requires a <= b
    ensures |a| <= |b|
  {
    assert b == a + (b - a);
  }

  /** The cards for you are exactly the explained ones among the top events not about a followed company. */
  lemma ForYouShowsThePicks(l: Lens, events: seq<Event>, limit: nat, e: Event)
    requires DistinctEvents(events)
    ensures e in SectionOf(l, events, ForYou, limit) <==>
      var ranked, together := Ranked(l, events), Together(events, l.follow);
      && e in First(Keep(ranked, (x: Event) => !PrimaryFollowed(l, x)), limit)
      && l.explains(e, TermsOf(l, together, e))
  {
    var ranked, together := Ranked(l, events), Together(events, l.follow);
    var top, p := ForYouIds(l, ranked, limit), (x: Event) => !PrimaryFollowed(l, x);
    RankedIsDistinct(l, events);
    RankedIsOrdered(l, events);
    ForYouIsTheTop(l, ranked, limit);
    PlacedIff(l, together, e, e.id in top, ForYou);
    if e in SectionOf(l, events, ForYou, limit) {
      InSectionLands(l, events, ForYou, limit, e);
      NamedIsKept(events, e);
      var pick :| pick in First(Keep(ranked, p), limit) && pick.id == e.id;
      KeepIsPart(ranked, p, pick);
      SameIdSameEvent(ranked, pick, e);
    } else if e in First(Keep(ranked, p), limit) && l.explains(e, TermsOf(l, together, e)) {
      KeepIsPart(ranked, p, e);
      KeepIsPart(events, NAMED, e);
      RoomForPicks(l, events, limit, e);
    }
  }

  lemma RoomForPicks(l: Lens, events: seq<Event>, limit: nat, e: Event)
    requires DistinctEvents(events) && e in events && e.id != ""
    requires e.id in ForYouIds(l, Ranked(l, events), limit)
    requires Lands(l, Together(events, l.follow), ForYouIds(l, Ranked(l, events), limit), e, ForYou)
    ensures e in SectionOf(l, events, ForYou, limit)
  {
    var cards, top := SectionOf(l, events, ForYou, limit), ForYouIds(l, Ranked(l, events), limit);
    SectionHoldsTheBest(l, events, ForYou, limit, e);
    if e !in cards {
      CardsAreDistinct(l, events, ForYou, limit);
      RankedIsDistinct(l, events);
      ForYouIsTheTop(l, Ranked(l, events), limit);
      IdsCount(cards);
      forall c | c in cards ensures c.id in top - {e.id} {
        InSectionLands(l, events, ForYou, limit, c);
        PlacedIff(l, Together(events, l.follow), c, c.id in top, ForYou);
        if c.id == e.id {
          SameIdSameEvent(events, c, e);
        }
      }
      SubsetNoLarger(IdSet(cards), top - {e.id});
      assert false;
    }
  }

  lemma CardsAreDistinct(l: Lens, events: seq<Event>, s: Section, limit: nat)
    requires DistinctEvents(events)
    ensures DistinctEvents(SectionOf(l, events, s, limit))
  {
    var together, ranked := Together(events, l.follow), Ranked(l, events);
    var top := ForYouIds(l, ranked, limit);
    RankedIsDistinct(l, events);
    KeepKeepsDistinct(ranked, (x: Event) => Lands(l, together, top, x, s));
  }
}
