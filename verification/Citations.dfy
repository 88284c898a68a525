/** The run-wide source table and the conversion of a stage's findings into cited ones. */
module Citations {
  import opened Common
  import Text

  const MAX_SOURCES := 40
  const MAX_FINDINGS := 40
  const MAX_STATEMENT := 2000
  const MAX_PUBLISHER := 200

  datatype RawSource = RawSource(title: string, url: string, publishedAt: string, publisher: string)

  datatype Source = Source(id: string, title: string, url: string, publishedAt: string, publisher: string)

  datatype Provenance = Sourced | Calculated | Inferred | Unknown | Other(word: string)

  datatype RawFinding = RawFinding(statement: string, provenance: Provenance, sourceUrls: seq<string>, basis: string)

  datatype Finding = Finding(statement: string, provenance: Provenance, sourceIds: seq<string>, basis: string)

  datatype RawContradiction = RawContradiction(statement: string, sourceUrls: seq<string>)

  datatype Contradiction = Contradiction(statement: string, sourceIds: seq<string>)

  /** URL normalisation and the date grammar, which stay abstract. */
  datatype Env = Env(norm: string -> Option<string>, dateOk: string -> bool)

  /** Ids by normalised URL, and the sources in the order they were declared. */
  datatype Table = Table(byURL: map<string, string>, sources: seq<Source>)

  function SourceId(i: nat): string { "s" + Text.FormatInt(i + 1) }

  lemma SourceIdInjective(i: nat, j: nat)
    requires SourceId(i) == SourceId(j)
    ensures i == j
  {
    assert SourceId(i)[1..] == Text.FormatInt(i + 1) && SourceId(j)[1..] == Text.FormatInt(j + 1);
    Text.FormatInjective(i + 1, j + 1);
  }

  ghost predicate EntryOk(t: Table, i: nat)
    requires i < |t.sources|
  {
    var s := t.sources[i];
    s.id == SourceId(i) && s.url in t.byURL && t.byURL[s.url] == s.id
  }

  /** The list and the map say the same: ids s1..sN in order, one per normalised URL, at most forty. */
  ghost predicate TableOk(t: Table) {
    && |t.sources| <= MAX_SOURCES
    && (forall i :: 0 <= i < |t.sources| ==> EntryOk(t, i))
    && (forall u :: u in t.byURL ==> exists i :: 0 <= i < |t.sources| && t.sources[i].url == u)
  }

  /** In a table the ids are pairwise different and so are the URLs. */
  lemma TableIsOneToOne(t: Table, i: nat, j: nat)
    requires TableOk(t) && i < j < |t.sources|
    ensures t.sources[i].id != t.sources[j].id && t.sources[i].url != t.sources[j].url
  {
    assert EntryOk(t, i) && EntryOk(t, j);
    if SourceId(i) == SourceId(j) {
      SourceIdInjective(i, j);
    }
  }

  /** The longer table keeps every entry of the shorter one as it was. */
  ghost predicate Extends(t: Table, t': Table) {
    t.sources <= t'.sources && forall u :: u in t.byURL ==> u in t'.byURL && t'.byURL[u] == t.byURL[u]
  }

  // ------------------------------------------------------------------ declaring sources

  function Entry(n: nat, key: string, src: RawSource): Source {
    Source(SourceId(n), Text.Clip(Text.TrimSpace(src.title), MAX_STATEMENT), key,
           Text.TrimSpace(src.publishedAt), Text.Clip(Text.TrimSpace(src.publisher), MAX_PUBLISHER))
  }

  function Registered(env: Env, t: Table, src: RawSource): Result<Table> {
    match env.norm(src.url)
    case None => Err
    case Some(key) =>
      if key in t.byURL then Ok(t)
      else if |t.sources| >= MAX_SOURCES then Err
      else if Text.TrimSpace(src.title) == "" then Err
      else if !env.dateOk(Text.TrimSpace(src.publishedAt)) then Err
      else
        var n := |t.sources|;
        Ok(Table(t.byURL[key := SourceId(n)], t.sources + [Entry(n, key, src)]))
  }

  /** A source is taken exactly when its URL normalises and its page is known, or there is room and it has a
      title and a date; a new one is listed last, with its trimmed and clipped words. */
  lemma RegisteredInFields(env: Env, t: Table, src: RawSource)
    ensures Registered(env, t, src).Ok? <==>
      && env.norm(src.url).Some?
      && (env.norm(src.url).value in t.byURL
          || (|t.sources| < 40 && Text.TrimSpace(src.title) != "" && env.dateOk(Text.TrimSpace(src.publishedAt))))
    ensures Registered(env, t, src).Ok? ==>
      var t', page := Registered(env, t, src).value, env.norm(src.url).value;
      && (page in t.byURL ==> t' == t)
      && (page !in t.byURL ==>
            && |t'.sources| == |t.sources| + 1 && t'.sources[..|t.sources|] == t.sources
            && t'.byURL == t.byURL[page := "s" + Text.FormatInt(|t.sources| + 1)]
            && var e := t'.sources[|t.sources|];
               && e.id == "s" + Text.FormatInt(|t.sources| + 1) && e.url == page
               && e.title == Text.Clip(Text.TrimSpace(src.title), 2000)
               && e.publishedAt == Text.TrimSpace(src.publishedAt)
               && e.publisher == Text.Clip(Text.TrimSpace(src.publisher), 200))
  {
  }

  function RegisteredAll(env: Env, t: Table, srcs: seq<RawSource>): Result<Table> {
    if srcs == [] then Ok(t)
    else match RegisteredAll(env, t, srcs[..|srcs| - 1])
      case Err => Err
      case Ok(t') => Registered(env, t', srcs[|srcs| - 1])
  }

  // ------------------------------------------------------------------ a list of declarations

  const EMPTY := Table(map[], [])

  function PageOf(env: Env, src: RawSource): string {
    match env.norm(src.url) case None => "" case Some(page) => page
  }

  function Pages(env: Env, srcs: seq<RawSource>): (ps: seq<string>)
    ensures |ps| == |srcs| && forall i :: 0 <= i < |srcs| ==> ps[i] == PageOf(env, srcs[i])
  {
    seq(|srcs|, i requires 0 <= i < |srcs| => PageOf(env, srcs[i]))
  }

  function Urls(sources: seq<Source>): (us: seq<string>)
    ensures |us| == |sources| && forall i :: 0 <= i < |sources| ==> us[i] == sources[i].url
  {
    seq(|sources|, i requires 0 <= i < |sources| => sources[i].url)
  }

  ghost predicate Describes(env: Env, raw: RawSource, s: Source) {
    && env.norm(raw.url) == Some(s.url)
    && s.title == Text.Clip(Text.TrimSpace(raw.title), 2000) && Text.TrimSpace(raw.title) != ""
    && s.publishedAt == Text.TrimSpace(raw.publishedAt) && env.dateOk(s.publishedAt)
    && s.publisher == Text.Clip(Text.TrimSpace(raw.publisher), 200)
  }

  /** Each declared page once, in the order of its first declaration and in that declaration's words, under
      the ids s1, s2 and so on. */
  ghost predicate Lists(env: Env, srcs: seq<RawSource>, sources: seq<Source>) {
    && Urls(sources) == Uniq(Pages(env, srcs))
    && (forall i :: 0 <= i < |sources| ==> ListedAt(env, srcs, sources, i))
  }

  /** The words of the first declaration of its page. */
  ghost predicate FirstDeclared(env: Env, srcs: seq<RawSource>, s: Source) {
    var k := PositionOf(Pages(env, srcs), s.url);
    k < |srcs| && Describes(env, srcs[k], s)
  }

  ghost predicate Titled(env: Env, src: RawSource) {
    Text.TrimSpace(src.title) != "" && env.dateOk(Text.TrimSpace(src.publishedAt))
  }

  ghost predicate AllPages(env: Env, srcs: seq<RawSource>) {
    forall k :: 0 <= k < |srcs| ==> env.norm(srcs[k].url).Some?
  }

  ghost predicate FirstTitled(env: Env, srcs: seq<RawSource>) {
    forall k :: 0 <= k < |srcs| && PageOf(env, srcs[k]) !in Pages(env, srcs)[..k] ==> Titled(env, srcs[k])
  }

  /** Every URL normalises, the first declaration of each page has a title and a date, and there are at most
      forty pages. */
  ghost predicate Declarable(env: Env, srcs: seq<RawSource>) {
    AllPages(env, srcs) && FirstTitled(env, srcs) && |Uniq(Pages(env, srcs))| <= 40
  }

  lemma PagesSnoc(env: Env, srcs: seq<RawSource>, src: RawSource)
    ensures Pages(env, srcs + [src]) == Pages(env, srcs) + [PageOf(env, src)]
  {
  }

  lemma FirstTitledSnoc(env: Env, srcs: seq<RawSource>, src: RawSource)
    ensures FirstTitled(env, srcs + [src]) <==>
      FirstTitled(env, srcs) && (PageOf(env, src) in Pages(env, srcs) || Titled(env, src))
  {
    var pages, all := Pages(env, srcs), srcs + [src];
    PagesSnoc(env, srcs, src);
    assert forall k :: 0 <= k <= |srcs| ==> Pages(env, all)[..k] == pages[..k];
    assert all[|srcs|] == src && pages[..|srcs|] == pages;
    assert forall k :: 0 <= k < |srcs| ==> all[k] == srcs[k];
  }

  lemma AllPagesSnoc(env: Env, srcs: seq<RawSource>, src: RawSource)
    ensures AllPages(env, srcs + [src]) <==> AllPages(env, srcs) && env.norm(src.url).Some?
  {
    var all := srcs + [src];
    assert all[|srcs|] == src && forall k :: 0 <= k < |srcs| ==> all[k] == srcs[k];
  }

  lemma DeclarableSnoc(env: Env, srcs: seq<RawSource>, src: RawSource)
    ensures Declarable(env, srcs + [src]) <==>
      var pages, page := Pages(env, srcs), PageOf(env, src);
      && Declarable(env, srcs) && env.norm(src.url).Some?
      && (page in pages || (Titled(env, src) && |Uniq(pages)| < 40))
  {
    FirstTitledSnoc(env, srcs, src);
    AllPagesSnoc(env, srcs, src);
    PagesSnoc(env, srcs, src);
    UniqSnoc(Pages(env, srcs), PageOf(env, src));
  }

  lemma FirstDeclaredStays(env: Env, srcs: seq<RawSource>, src: RawSource, s: Source)
    requires FirstDeclared(env, srcs, s)
    ensures FirstDeclared(env, srcs + [src], s)
  {
    PagesSnoc(env, srcs, src);
    PositionSnoc(Pages(env, srcs), s.url, PageOf(env, src));
  }

  lemma NewPageIsFirst(env: Env, srcs: seq<RawSource>, src: RawSource, n: nat)
    requires env.norm(src.url).Some? && PageOf(env, src) !in Pages(env, srcs) && Titled(env, src)
    ensures FirstDeclared(env, srcs + [src], Entry(n, PageOf(env, src), src))
  {
    PagesSnoc(env, srcs, src);
    PositionSnoc(Pages(env, srcs), PageOf(env, src), PageOf(env, src));
    assert (srcs + [src])[|srcs|] == src;
  }

  lemma KnownPageListed(env: Env, srcs: seq<RawSource>, sources: seq<Source>, src: RawSource)
    requires Lists(env, srcs, sources) && PageOf(env, src) in Pages(env, srcs)
    ensures Lists(env, srcs + [src], sources)
  {
    PagesSnoc(env, srcs, src);
    UniqSnoc(Pages(env, srcs), PageOf(env, src));
    forall i | 0 <= i < |sources| ensures ListedAt(env, srcs + [src], sources, i) {
      assert ListedAt(env, srcs, sources, i);
      FirstDeclaredStays(env, srcs, src, sources[i]);
    }
  }

  lemma UrlsSnoc(sources: seq<Source>, s: Source)
    ensures Urls(sources + [s]) == Urls(sources) + [s.url]
  {
  }

  ghost predicate ListedAt(env: Env, srcs: seq<RawSource>, sources: seq<Source>, i: nat) {
    i < |sources| && FirstDeclared(env, srcs, sources[i]) && sources[i].id == SourceId(i)
  }

  lemma ListedAtStays(env: Env, srcs: seq<RawSource>, sources: seq<Source>, src: RawSource, s: Source, i: nat)
    requires ListedAt(env, srcs, sources, i)
    ensures ListedAt(env, srcs + [src], sources + [s], i)
  {
    FirstDeclaredStays(env, srcs, src, sources[i]);
    assert (sources + [s])[i] == sources[i];
  }

  lemma NewPageListed(env: Env, srcs: seq<RawSource>, sources: seq<Source>, src: RawSource, s: Source)
    requires Lists(env, srcs, sources) && FirstDeclared(env, srcs + [src], s) && s.id == SourceId(|sources|)
    requires s.url == PageOf(env, src) && s.url !in Pages(env, srcs)
    ensures Lists(env, srcs + [src], sources + [s])
  {
    PagesSnoc(env, srcs, src);
    UniqSnoc(Pages(env, srcs), PageOf(env, src));
    UrlsSnoc(sources, s);
    forall i | 0 <= i < |sources| + 1 ensures ListedAt(env, srcs + [src], sources + [s], i) {
      if i < |sources| {
        ListedAtStays(env, srcs, sources, src, s, i);
      }
    }
  }

  ghost predicate ListedBy(env: Env, srcs: seq<RawSource>, t: Table) {
    Lists(env, srcs, t.sources) && SameKeys(t.byURL, Pages(env, srcs))
  }

  lemma ListedStep(env: Env, srcs: seq<RawSource>, t: Table, src: RawSource)
    requires ListedBy(env, srcs, t) && Declarable(env, srcs)
    ensures Registered(env, t, src).Ok? <==> Declarable(env, srcs + [src])
  {
    DeclarableSnoc(env, srcs, src);
    assert |t.sources| == |Urls(t.sources)|;
  }

  ghost predicate SameKeys(m: map<string, string>, pages: seq<string>) { forall p :: p in m <==> p in pages }

  lemma SameKeysSnoc(m: map<string, string>, pages: seq<string>, page: string, id: string)
    requires SameKeys(m, pages)
    ensures SameKeys(m[page := id], pages + [page]) && (page in pages ==> SameKeys(m, pages + [page]))
  {
    assert forall p :: p in pages + [page] <==> p in pages || p == page;
  }

  lemma GrownIsListed(env: Env, srcs: seq<RawSource>, t: Table, src: RawSource, s: Source)
    requires ListedBy(env, srcs, t) && FirstDeclared(env, srcs + [src], s) && s.id == SourceId(|t.sources|)
    requires s.url == PageOf(env, src) && s.url !in Pages(env, srcs)
    ensures ListedBy(env, srcs + [src], Table(t.byURL[s.url := s.id], t.sources + [s]))
  {
    PagesSnoc(env, srcs, src);
    NewPageListed(env, srcs, t.sources, src, s);
    SameKeysSnoc(t.byURL, Pages(env, srcs), s.url, s.id);
  }

  lemma KnownIsListed(env: Env, srcs: seq<RawSource>, t: Table, src: RawSource)
    requires ListedBy(env, srcs, t) && PageOf(env, src) in t.byURL
    ensures ListedBy(env, srcs + [src], t)
  {
    PagesSnoc(env, srcs, src);
    KnownPageListed(env, srcs, t.sources, src);
    SameKeysSnoc(t.byURL, Pages(env, srcs), PageOf(env, src), "");
  }

  lemma ListedNext(env: Env, srcs: seq<RawSource>, t: Table, src: RawSource)
    requires ListedBy(env, srcs, t) && Registered(env, t, src).Ok?
    ensures ListedBy(env, srcs + [src], Registered(env, t, src).value)
  {
    var page := PageOf(env, src);
    if page in t.byURL {
      KnownIsListed(env, srcs, t, src);
    } else {
      NewPageIsFirst(env, srcs, src, |t.sources|);
      GrownIsListed(env, srcs, t, src, Entry(|t.sources|, page, src));
    }
  }

  /** Declarations are taken exactly when they are declarable, and the table then lists them. */
  lemma {:induction false} DeclarationsAreListed(env: Env, srcs: seq<RawSource>)
    ensures RegisteredAll(env, EMPTY, srcs).Ok? <==> Declarable(env, srcs)
    ensures RegisteredAll(env, EMPTY, srcs).Ok? ==> ListedBy(env, srcs, RegisteredAll(env, EMPTY, srcs).value)
  {
    if srcs != [] {
      var init, src := srcs[..|srcs| - 1], srcs[|srcs| - 1];
      assert srcs == init + [src];
      DeclarationsAreListed(env, init);
      DeclarableSnoc(env, init, src);
      if RegisteredAll(env, EMPTY, init).Ok? {
        ListedStep(env, init, RegisteredAll(env, EMPTY, init).value, src);
      }
      if RegisteredAll(env, EMPTY, srcs).Ok? {
        ListedNext(env, init, RegisteredAll(env, EMPTY, init).value, src);
      }
    }
  }

  lemma {:induction false} RegisteredInParts(env: Env, t: Table, a: seq<RawSource>, b: seq<RawSource>)
    ensures RegisteredAll(env, t, a + b) ==
      match RegisteredAll(env, t, a) case Err => Err case Ok(t') => RegisteredAll(env, t', b)
  {
    if b == [] {
      assert a + b == a;
    } else {
      var n := |b| - 1;
      RegisteredInParts(env, t, a, b[..n]);
      assert (a + b)[..|a + b| - 1] == a + b[..n] && (a + b)[|a + b| - 1] == b[n];
    }
  }

  lemma TableGrows(t: Table, e: Source)
    requires TableOk(t) && |t.sources| < MAX_SOURCES && e.id == SourceId(|t.sources|) && e.url !in t.byURL
    ensures TableOk(Table(t.byURL[e.url := e.id], t.sources + [e]))
    ensures Extends(t, Table(t.byURL[e.url := e.id], t.sources + [e]))
  {
    var t' := Table(t.byURL[e.url := e.id], t.sources + [e]);
    var n := |t.sources|;
    forall i | 0 <= i < |t'.sources|
      ensures EntryOk(t', i)
    {
      if i < n {
        assert EntryOk(t, i) && t'.sources[i] == t.sources[i];
      } else {
        assert t'.sources[i] == e;
      }
    }
    forall u | u in t'.byURL
      ensures exists i :: 0 <= i < |t'.sources| && t'.sources[i].url == u
    {
      if u == e.url {
        assert t'.sources[|t.sources|].url == u;
      } else {
        var i :| 0 <= i < |t.sources| && t.sources[i].url == u;
        assert t'.sources[i].url == u;
      }
    }
  }

  lemma RegisteredKeepsTable(env: Env, t: Table, src: RawSource)
    requires TableOk(t) && Registered(env, t, src).Ok?
    ensures TableOk(Registered(env, t, src).value) && Extends(t, Registered(env, t, src).value)
  {
    var key := env.norm(src.url).value;
    if key !in t.byURL {
      TableGrows(t, Entry(|t.sources|, key, src));
    }
  }

  lemma RegisteredOrRefused(env: Env, t: Table, src: RawSource)
    requires TableOk(t)
    ensures Registered(env, t, src).Ok? ==>
      TableOk(Registered(env, t, src).value) && Extends(t, Registered(env, t, src).value)
      && Lookup(env, Registered(env, t, src).value, src.url).Ok?
  {
    if Registered(env, t, src).Ok? {
      RegisteredKeepsTable(env, t, src);
    }
  }

  /** No later declaration alters an earlier entry, and the list and map stay in step. */
  lemma {:induction false} RegisteredAllKeepsTable(env: Env, t: Table, srcs: seq<RawSource>)
    requires TableOk(t) && RegisteredAll(env, t, srcs).Ok?
    ensures TableOk(RegisteredAll(env, t, srcs).value) && Extends(t, RegisteredAll(env, t, srcs).value)
  {
    if srcs != [] {
      RegisteredAllKeepsTable(env, t, srcs[..|srcs| - 1]);
      RegisteredKeepsTable(env, RegisteredAll(env, t, srcs[..|srcs| - 1]).value, srcs[|srcs| - 1]);
    }
  }

  // ------------------------------------------------------------------ citing

  function Lookup(env: Env, t: Table, url: string): Result<string> {
    match env.norm(url)
    case None => Err
    case Some(key) => if key in t.byURL then Ok(t.byURL[key]) else Err
  }

  /** The ids of the cited URLs, each once, in the order first cited. */
  function Cited(env: Env, t: Table, urls: seq<string>): Result<seq<string>> {
    if urls == [] then Ok([])
    else match Cited(env, t, urls[..|urls| - 1])
      case Err => Err
      case Ok(ids) =>
        match Lookup(env, t, urls[|urls| - 1])
        case Err => Err
        case Ok(id) => Ok(if id in ids then ids else ids + [id])
  }

  function LookupOf(env: Env, t: Table): string -> Result<string> { (url: string) => Lookup(env, t, url) }

  /** As Cited, without removing repeats. */
  function CitedEach(env: Env, t: Table, urls: seq<string>): Result<seq<string>> {
    MapAll(LookupOf(env, t), urls)
  }

  predicate ProvenanceOk(f: RawFinding) {
    var basis := Text.TrimSpace(f.basis);
    match f.provenance
    case Sourced => f.sourceUrls != [] && basis == ""
    case Calculated => basis != "" && f.sourceUrls != []
    case Inferred => basis == ""
    case Unknown => basis == ""
    case Other(_) => false
  }

  function Converted(env: Env, t: Table, f: RawFinding): Result<Finding> {
    var statement := Text.TrimSpace(f.statement);
    if statement == "" || |statement| > MAX_STATEMENT then Err
    else if !ProvenanceOk(f) then Err
    else match Cited(env, t, f.sourceUrls)
      case Err => Err
      case Ok(ids) => Ok(Finding(statement, f.provenance, ids, Text.Clip(Text.TrimSpace(f.basis), MAX_STATEMENT)))
  }

  function ConverterOf(env: Env, t: Table): RawFinding -> Result<Finding> {
    (f: RawFinding) => Converted(env, t, f)
  }

  function ConvertedAll(env: Env, t: Table, fs: seq<RawFinding>): Result<seq<Finding>> {
    MapAll(ConverterOf(env, t), fs)
  }

  function ConvertedBox(env: Env, t: Table, fs: seq<RawFinding>): Result<seq<Finding>> {
    if |fs| > MAX_FINDINGS then Err else ConvertedAll(env, t, fs)
  }

  function ConvertedContradiction(env: Env, t: Table, c: RawContradiction): Result<Contradiction> {
    var statement := Text.TrimSpace(c.statement);
    if statement == "" then Err
    else match CitedEach(env, t, c.sourceUrls)
      case Err => Err
      case Ok(ids) => Ok(Contradiction(Text.Clip(statement, MAX_STATEMENT), ids))
  }

  function ContradictionOf(env: Env, t: Table): RawContradiction -> Result<Contradiction> {
    (c: RawContradiction) => ConvertedContradiction(env, t, c)
  }

  function ConvertedContradictions(env: Env, t: Table, cs: seq<RawContradiction>): Result<seq<Contradiction>> {
    MapAll(ContradictionOf(env, t), cs)
  }

  // ------------------------------------------------------------------ what a citation is worth

  ghost predicate Declares(sources: seq<Source>, id: string) {
    exists i :: 0 <= i < |sources| && sources[i].id == id
  }

  ghost predicate IdsDeclared(sources: seq<Source>, ids: seq<string>) {
    forall k :: 0 <= k < |ids| ==> Declares(sources, ids[k])
  }

  /** A finding cites declared sources only, none twice, and at least one when it claims to rest on any. */
  ghost predicate WellCited(sources: seq<Source>, f: Finding) {
    && IdsDeclared(sources, f.sourceIds)
    && (forall i, j :: 0 <= i < j < |f.sourceIds| ==> f.sourceIds[i] != f.sourceIds[j])
    && (f.provenance.Sourced? || f.provenance.Calculated? ==> f.sourceIds != [])
    && !f.provenance.Other?
  }

  ghost predicate AllWellCited(sources: seq<Source>, fs: seq<Finding>) {
    forall k :: 0 <= k < |fs| ==> WellCited(sources, fs[k])
  }

  lemma LookupDeclares(env: Env, t: Table, url: string)
    requires TableOk(t) && Lookup(env, t, url).Ok?
    ensures Declares(t.sources, Lookup(env, t, url).value)
  {
    var key := env.norm(url).value;
    var i :| 0 <= i < |t.sources| && t.sources[i].url == key;
    assert EntryOk(t, i);
  }

  lemma {:induction false} CitedAreDeclared(env: Env, t: Table, urls: seq<string>)
    requires TableOk(t) && Cited(env, t, urls).Ok?
    ensures var ids := Cited(env, t, urls).value;
      && IdsDeclared(t.sources, ids) && (urls != [] ==> ids != [])
      && (forall i, j :: 0 <= i < j < |ids| ==> ids[i] != ids[j])
  {
    if urls != [] {
      CitedAreDeclared(env, t, urls[..|urls| - 1]);
      LookupDeclares(env, t, urls[|urls| - 1]);
    }
  }

  ghost predicate Cites(env: Env, urls: seq<string>, page: string) {
    exists k :: 0 <= k < |urls| && env.norm(urls[k]) == Some(page)
  }

  lemma LookupFinds(env: Env, t: Table, url: string, i: nat)
    requires TableOk(t) && Lookup(env, t, url).Ok? && i < |t.sources|
    ensures Lookup(env, t, url).value == t.sources[i].id <==> env.norm(url) == Some(t.sources[i].url)
  {
    assert EntryOk(t, i);
    var key := env.norm(url).value;
    var j :| 0 <= j < |t.sources| && t.sources[j].url == key;
    assert EntryOk(t, j);
    if i < j {
      TableIsOneToOne(t, i, j);
    } else if j < i {
      TableIsOneToOne(t, j, i);
    }
  }

  /** The ids of a citation stand for exactly the pages it names. */
  lemma {:induction false} CitationsResolve(env: Env, t: Table, urls: seq<string>, i: nat)
    requires TableOk(t) && Cited(env, t, urls).Ok? && i < |t.sources|
    ensures t.sources[i].id in Cited(env, t, urls).value <==> Cites(env, urls, t.sources[i].url)
  {
    if urls != [] {
      var init, url := urls[..|urls| - 1], urls[|urls| - 1];
      CitationsResolve(env, t, init, i);
      LookupFinds(env, t, url, i);
      assert urls == init + [url];
      CitesSnoc(env, init, url, t.sources[i].url);
    }
  }

  lemma CitesSnoc(env: Env, init: seq<string>, url: string, page: string)
    ensures Cites(env, init + [url], page) <==> Cites(env, init, page) || env.norm(url) == Some(page)
  {
    var urls := init + [url];
    assert urls[|init|] == url;
    if k :| 0 <= k < |init| && env.norm(init[k]) == Some(page) {
      assert urls[k] == init[k];
    }
  }

  lemma ConvertedIsWellCited(env: Env, t: Table, f: RawFinding)
    requires TableOk(t) && Converted(env, t, f).Ok?
    ensures WellCited(t.sources, Converted(env, t, f).value)
  {
    CitedAreDeclared(env, t, f.sourceUrls);
  }

  lemma ProvenanceInFields(f: RawFinding)
    ensures ProvenanceOk(f) <==>
      && !f.provenance.Other? && (Text.TrimSpace(f.basis) != "" <==> f.provenance == Calculated)
      && (f.provenance == Sourced || f.provenance == Calculated ==> f.sourceUrls != [])
  {
  }

  /** A finding is taken exactly when its statement is there and fits, its provenance is known, it has a basis
      exactly when it was calculated, it cites something if it was sourced or calculated, and every page it
      cites was declared. */
  lemma ConvertedIff(env: Env, t: Table, f: RawFinding)
    ensures Converted(env, t, f).Ok? <==>
      && 0 < |Text.TrimSpace(f.statement)| <= 2000 && !f.provenance.Other?
      && (Text.TrimSpace(f.basis) != "" <==> f.provenance == Calculated)
      && (f.provenance == Sourced || f.provenance == Calculated ==> f.sourceUrls != [])
      && (forall i :: 0 <= i < |f.sourceUrls| ==>
            env.norm(f.sourceUrls[i]).Some? && env.norm(f.sourceUrls[i]).value in t.byURL)
  {
    ProvenanceInFields(f);
    CitedWhenDeclared(env, t, f.sourceUrls);
  }

  /** It keeps its words and provenance. */
  lemma ConvertedInFields(env: Env, t: Table, f: RawFinding)
    requires Converted(env, t, f).Ok?
    ensures var g := Converted(env, t, f).value;
      && g.statement == Text.TrimSpace(f.statement) && g.statement != "" && g.provenance == f.provenance
      && g.basis == Text.Clip(Text.TrimSpace(f.basis), 2000)
      && Cited(env, t, f.sourceUrls) == Ok(g.sourceIds)
  {
  }

  lemma {:induction false} CitedWhenDeclared(env: Env, t: Table, urls: seq<string>)
    ensures Cited(env, t, urls).Ok? <==>
      forall i :: 0 <= i < |urls| ==> env.norm(urls[i]).Some? && env.norm(urls[i]).value in t.byURL
  {
    if urls != [] {
      var n := |urls| - 1;
      CitedWhenDeclared(env, t, urls[..n]);
      assert forall i :: 0 <= i < n ==> urls[..n][i] == urls[i];
    }
  }

  /** Findings are converted one for one, in order. */
  lemma ConvertedOneForOne(env: Env, t: Table, fs: seq<RawFinding>)
    ensures ConvertedAll(env, t, fs).Ok? <==> forall i :: 0 <= i < |fs| ==> Converted(env, t, fs[i]).Ok?
    ensures ConvertedAll(env, t, fs).Ok? ==>
      && |ConvertedAll(env, t, fs).value| == |fs|
      && forall i :: 0 <= i < |fs| ==> Converted(env, t, fs[i]) == Ok(ConvertedAll(env, t, fs).value[i])
  {
    MapAllInOrder(ConverterOf(env, t), fs);
  }

  lemma ConvertedAreWellCited(env: Env, t: Table, fs: seq<RawFinding>)
    requires TableOk(t) && ConvertedAll(env, t, fs).Ok?
    ensures AllWellCited(t.sources, ConvertedAll(env, t, fs).value)
  {
    ConvertedOneForOne(env, t, fs);
    forall i | 0 <= i < |fs| ensures WellCited(t.sources, ConvertedAll(env, t, fs).value[i]) {
      ConvertedIsWellCited(env, t, fs[i]);
    }
  }

  /** A contradiction names an id for every page it cites, in order, repeats included. */
  lemma EachInOrder(env: Env, t: Table, urls: seq<string>)
    requires CitedEach(env, t, urls).Ok?
    ensures |CitedEach(env, t, urls).value| == |urls|
    ensures forall k :: 0 <= k < |urls| ==>
      && env.norm(urls[k]).Some? && env.norm(urls[k]).value in t.byURL
      && CitedEach(env, t, urls).value[k] == t.byURL[env.norm(urls[k]).value]
  {
    MapAllInOrder(LookupOf(env, t), urls);
    forall k | 0 <= k < |urls| ensures Lookup(env, t, urls[k]) == Ok(CitedEach(env, t, urls).value[k]) {
    }
  }

  /** Contradictions are converted one for one, in order, each with its own words. */
  lemma ContradictionsOneForOne(env: Env, t: Table, cs: seq<RawContradiction>)
    requires ConvertedContradictions(env, t, cs).Ok?
    ensures |ConvertedContradictions(env, t, cs).value| == |cs|
    ensures forall i :: 0 <= i < |cs| ==> IsContradiction(env, t, cs[i], ConvertedContradictions(env, t, cs).value[i])
  {
    MapAllInOrder(ContradictionOf(env, t), cs);
    forall i | 0 <= i < |cs|
      ensures ConvertedContradiction(env, t, cs[i]) == Ok(ConvertedContradictions(env, t, cs).value[i])
    {
    }
  }

  ghost predicate IsContradiction(env: Env, t: Table, raw: RawContradiction, c: Contradiction) {
    && Text.TrimSpace(raw.statement) != "" && c.statement == Text.Clip(Text.TrimSpace(raw.statement), 2000)
    && CitedEach(env, t, raw.sourceUrls) == Ok(c.sourceIds)
  }

  lemma ContradictionsAreDeclared(env: Env, t: Table, cs: seq<RawContradiction>)
    requires TableOk(t) && ConvertedContradictions(env, t, cs).Ok?
    ensures forall c :: c in ConvertedContradictions(env, t, cs).value ==> IdsDeclared(t.sources, c.sourceIds)
  {
    var out := ConvertedContradictions(env, t, cs).value;
    ContradictionsOneForOne(env, t, cs);
    forall c | c in out ensures IdsDeclared(t.sources, c.sourceIds) {
      var i :| 0 <= i < |out| && out[i] == c;
      var urls := cs[i].sourceUrls;
      assert IsContradiction(env, t, cs[i], c);
      MapAllInOrder(LookupOf(env, t), urls);
      forall k | 0 <= k < |c.sourceIds| ensures Declares(t.sources, c.sourceIds[k]) {
        assert Lookup(env, t, urls[k]) == Ok(c.sourceIds[k]);
        LookupDeclares(env, t, urls[k]);
      }
    }
  }

  // ------------------------------------------------------------------ what conversion tells

  /** The listed page that a URL names, under its id. */
  ghost predicate Names(env: Env, sources: seq<Source>, url: string, id: string) {
    exists i :: 0 <= i < |sources| && sources[i].id == id && env.norm(url) == Some(sources[i].url)
  }

  ghost predicate EachNames(env: Env, sources: seq<Source>, urls: seq<string>, ids: seq<string>) {
    |ids| == |urls| && forall k :: 0 <= k < |urls| ==> Names(env, sources, urls[k], ids[k])
  }

  /** The ids of the pages cited, each once, in the order first cited. */
  ghost predicate NamesOnce(env: Env, sources: seq<Source>, urls: seq<string>, ids: seq<string>) {
    exists each :: EachNames(env, sources, urls, each) && ids == Uniq(each)
  }

  ghost predicate FindingTells(env: Env, sources: seq<Source>, raw: RawFinding, f: Finding) {
    && f.statement == Text.TrimSpace(raw.statement) && f.statement != "" && f.provenance == raw.provenance
    && f.basis == Text.Clip(Text.TrimSpace(raw.basis), 2000)
    && NamesOnce(env, sources, raw.sourceUrls, f.sourceIds)
  }

  ghost predicate BoxTells(env: Env, sources: seq<Source>, raw: seq<RawFinding>, fs: seq<Finding>) {
    |fs| == |raw| && forall i :: 0 <= i < |raw| ==> FindingTells(env, sources, raw[i], fs[i])
  }

  ghost predicate ContradictionTells(env: Env, sources: seq<Source>, raw: RawContradiction, c: Contradiction) {
    && Text.TrimSpace(raw.statement) != "" && c.statement == Text.Clip(Text.TrimSpace(raw.statement), 2000)
    && EachNames(env, sources, raw.sourceUrls, c.sourceIds)
  }

  ghost predicate ContradictionsTell(
    env: Env, sources: seq<Source>, raw: seq<RawContradiction>, cs: seq<Contradiction>)
  {
    |cs| == |raw| && forall i :: 0 <= i < |raw| ==> ContradictionTells(env, sources, raw[i], cs[i])
  }

  lemma {:induction false} CitedOnce(env: Env, t: Table, urls: seq<string>)
    ensures Cited(env, t, urls).Ok? <==> CitedEach(env, t, urls).Ok?
    ensures Cited(env, t, urls).Ok? ==> Cited(env, t, urls).value == Uniq(CitedEach(env, t, urls).value)
  {
    if urls != [] {
      var n := |urls| - 1;
      CitedOnce(env, t, urls[..n]);
      if CitedEach(env, t, urls).Ok? {
        UniqSnoc(CitedEach(env, t, urls[..n]).value, Lookup(env, t, urls[n]).value);
      }
    }
  }

  lemma EachIsNamed(env: Env, t: Table, urls: seq<string>)
    requires TableOk(t) && CitedEach(env, t, urls).Ok?
    ensures EachNames(env, t.sources, urls, CitedEach(env, t, urls).value)
  {
    var ids := CitedEach(env, t, urls).value;
    EachInOrder(env, t, urls);
    forall k | 0 <= k < |urls| ensures Names(env, t.sources, urls[k], ids[k]) {
      var page := env.norm(urls[k]).value;
      var i :| 0 <= i < |t.sources| && t.sources[i].url == page;
      assert EntryOk(t, i);
    }
  }

  lemma ConvertedTells(env: Env, t: Table, f: RawFinding)
    requires TableOk(t) && Converted(env, t, f).Ok?
    ensures FindingTells(env, t.sources, f, Converted(env, t, f).value)
  {
    ConvertedInFields(env, t, f);
    CitedOnce(env, t, f.sourceUrls);
    EachIsNamed(env, t, f.sourceUrls);
  }

  lemma ConvertedBoxTells(env: Env, t: Table, fs: seq<RawFinding>)
    requires TableOk(t) && ConvertedAll(env, t, fs).Ok?
    ensures BoxTells(env, t.sources, fs, ConvertedAll(env, t, fs).value)
  {
    ConvertedOneForOne(env, t, fs);
    forall i | 0 <= i < |fs| ensures FindingTells(env, t.sources, fs[i], ConvertedAll(env, t, fs).value[i]) {
      ConvertedTells(env, t, fs[i]);
    }
  }

  lemma ConvertedContradictionsTell(env: Env, t: Table, cs: seq<RawContradiction>)
    requires TableOk(t) && ConvertedContradictions(env, t, cs).Ok?
    ensures ContradictionsTell(env, t.sources, cs, ConvertedContradictions(env, t, cs).value)
  {
    var out := ConvertedContradictions(env, t, cs).value;
    ContradictionsOneForOne(env, t, cs);
    forall i | 0 <= i < |cs| ensures ContradictionTells(env, t.sources, cs[i], out[i]) {
      assert IsContradiction(env, t, cs[i], out[i]);
      EachIsNamed(env, t, cs[i].sourceUrls);
    }
  }

  ghost predicate Within(sources: seq<Source>, sources': seq<Source>) { forall s :: s in sources ==> s in sources' }

  lemma NamesStay(env: Env, sources: seq<Source>, sources': seq<Source>, urls: seq<string>, ids: seq<string>)
    requires Within(sources, sources') && EachNames(env, sources, urls, ids)
    ensures EachNames(env, sources', urls, ids)
  {
    forall k | 0 <= k < |urls| ensures Names(env, sources', urls[k], ids[k]) {
      NameStays(env, sources, sources', urls[k], ids[k]);
    }
  }

  lemma NameStays(env: Env, sources: seq<Source>, sources': seq<Source>, url: string, id: string)
    requires Within(sources, sources') && Names(env, sources, url, id)
    ensures Names(env, sources', url, id)
  {
    var i :| 0 <= i < |sources| && sources[i].id == id && env.norm(url) == Some(sources[i].url);
    assert sources[i] in sources';
  }

  lemma BoxStays(env: Env, sources: seq<Source>, sources': seq<Source>, raw: seq<RawFinding>, fs: seq<Finding>)
    requires Within(sources, sources') && BoxTells(env, sources, raw, fs)
    ensures BoxTells(env, sources', raw, fs)
  {
    forall i | 0 <= i < |raw| ensures FindingTells(env, sources', raw[i], fs[i]) {
      var urls := raw[i].sourceUrls;
      var each :| EachNames(env, sources, urls, each) && fs[i].sourceIds == Uniq(each);
      NamesStay(env, sources, sources', urls, each);
    }
  }

  lemma ContradictionsStay(
    env: Env, sources: seq<Source>, sources': seq<Source>, raw: seq<RawContradiction>, cs: seq<Contradiction>)
    requires Within(sources, sources') && ContradictionsTell(env, sources, raw, cs)
    ensures ContradictionsTell(env, sources', raw, cs)
  {
    forall i | 0 <= i < |raw| ensures ContradictionTells(env, sources', raw[i], cs[i]) {
      NamesStay(env, sources, sources', raw[i].sourceUrls, cs[i].sourceIds);
    }
  }

  /** What was declared stays declared. */
  lemma DeclaredStays(sources: seq<Source>, sources': seq<Source>, ids: seq<string>)
    requires sources <= sources' && IdsDeclared(sources, ids)
    ensures IdsDeclared(sources', ids)
  {
    forall k | 0 <= k < |ids| ensures Declares(sources', ids[k]) {
      var i :| 0 <= i < |sources| && sources[i].id == ids[k];
      assert sources'[i] == sources[i];
    }
  }

  lemma WellCitedStays(sources: seq<Source>, sources': seq<Source>, fs: seq<Finding>)
    requires sources <= sources' && AllWellCited(sources, fs)
    ensures AllWellCited(sources', fs)
  {
    forall k | 0 <= k < |fs| ensures WellCited(sources', fs[k]) {
      DeclaredStays(sources, sources', fs[k].sourceIds);
    }
  }

  // ------------------------------------------------------------------ the table object

  class SourceTable {
    var byURL: map<string, string>
    var sources: seq<Source>

    constructor ()
      ensures Contents() == Table(map[], []) && TableOk(Contents())
    {
      byURL, sources := map[], [];
    }

    ghost function Contents(): Table
      reads this
    {
      Table(byURL, sources)
    }

    /** Declares one source and returns its id; a known URL keeps its first entry. */
    method Add(env: Env, src: RawSource) returns (r: Result<string>)
      requires TableOk(Contents())
      modifies this
      ensures TableOk(Contents()) && Extends(old(Contents()), Contents())
      ensures match Registered(env, old(Contents()), src)
        case Err => r.Err? && Contents() == old(Contents())
        case Ok(t) => Contents() == t && r == Lookup(env, t, src.url)
    {
      RegisteredOrRefused(env, Contents(), src);
      var normalised := env.norm(src.url);
      if normalised.None? {
        return Err;
      }
      var key := normalised.value;
      if key in byURL {
        return Ok(byURL[key]);
      }
      if |sources| >= MAX_SOURCES {
        return Err;
      }
      var title := Text.TrimSpace(src.title);
      if title == "" {
        return Err;
      }
      var published := Text.TrimSpace(src.publishedAt);
      if !env.dateOk(published) {
        return Err;
      }
      var id := SourceId(|sources|);
      byURL := byURL[key := id];
      sources := sources + [Source(id, Text.Clip(title, MAX_STATEMENT), key, published,
                                   Text.Clip(Text.TrimSpace(src.publisher), MAX_PUBLISHER))];
      assert Registered(env, old(Contents()), src) == Ok(Contents());
      return Ok(id);
    }

    method RegisterSources(env: Env, srcs: seq<RawSource>) returns (ok: bool)
      requires TableOk(Contents())
      modifies this
      ensures TableOk(Contents()) && Extends(old(Contents()), Contents())
      ensures ok <==> RegisteredAll(env, old(Contents()), srcs).Ok?
      ensures ok ==> Contents() == RegisteredAll(env, old(Contents()), srcs).value
    {
      ghost var start := Contents();
      for i := 0 to |srcs|
        invariant TableOk(Contents()) && Extends(start, Contents())
        invariant RegisteredAll(env, start, srcs[..i]) == Ok(Contents())
      {
        RegisteredStep(env, start, srcs, i);
        var r := Add(env, srcs[i]);
        if r.Err? {
          ErrorPersists(env, start, srcs, i + 1);
          return false;
        }
      }
      assert srcs[..|srcs|] == srcs;
      return true;
    }

    /** Validates and converts a stage's findings against the table. */
    method ConvertFindings(env: Env, fs: seq<RawFinding>) returns (r: Result<seq<Finding>>)
      ensures r.Ok? <==> ConvertedBox(env, Contents(), fs).Ok?
      ensures r.Ok? ==> r == ConvertedBox(env, Contents(), fs)
    {
      if |fs| > MAX_FINDINGS {
        return Err;
      }
      ghost var f := ConverterOf(env, Contents());
      var out: seq<Finding> := [];
      for i := 0 to |fs|
        invariant MapAll(f, fs[..i]) == Ok(out)
      {
        MapAllStep(f, fs, i);
        var g := ConvertFinding(env, fs[i]);
        if g.Err? {
          return Err;
        }
        out := out + [g.value];
      }
      assert fs[..|fs|] == fs;
      return Ok(out);
    }

    /** Contradictions cite through the same table; repeats among their ids are kept. */
    method ConvertContradictions(env: Env, cs: seq<RawContradiction>) returns (r: Result<seq<Contradiction>>)
      ensures r.Ok? <==> ConvertedContradictions(env, Contents(), cs).Ok?
      ensures r.Ok? ==> r == ConvertedContradictions(env, Contents(), cs)
    {
      ghost var f := ContradictionOf(env, Contents());
      var out: seq<Contradiction> := [];
      for i := 0 to |cs|
        invariant MapAll(f, cs[..i]) == Ok(out)
      {
        MapAllStep(f, cs, i);
        var c := ConvertContradiction(env, cs[i]);
        if c.Err? {
          return Err;
        }
        out := out + [c.value];
      }
      assert cs[..|cs|] == cs;
      return Ok(out);
    }

    method ConvertContradiction(env: Env, c: RawContradiction) returns (r: Result<Contradiction>)
      ensures r.Ok? <==> ConvertedContradiction(env, Contents(), c).Ok?
      ensures r.Ok? ==> r == ConvertedContradiction(env, Contents(), c)
    {
      var statement := Text.TrimSpace(c.statement);
      if statement == "" {
        return Err;
      }
      var ids := CiteEach(env, c.sourceUrls);
      if ids.Err? {
        return Err;
      }
      return Ok(Contradiction(Text.Clip(statement, MAX_STATEMENT), ids.value));
    }

    method CiteEach(env: Env, urls: seq<string>) returns (r: Result<seq<string>>)
      ensures r.Ok? <==> CitedEach(env, Contents(), urls).Ok?
      ensures r.Ok? ==> r == CitedEach(env, Contents(), urls)
    {
      ghost var f := LookupOf(env, Contents());
      var ids: seq<string> := [];
      for i := 0 to |urls|
        invariant MapAll(f, urls[..i]) == Ok(ids)
      {
        MapAllStep(f, urls, i);
        var key := env.norm(urls[i]);
        if key.None? || key.value !in byURL {
          return Err;
        }
        ids := ids + [byURL[key.value]];
      }
      assert urls[..|urls|] == urls;
      return Ok(ids);
    }

    method ConvertFinding(env: Env, f: RawFinding) returns (r: Result<Finding>)
      ensures r.Ok? <==> Converted(env, Contents(), f).Ok?
      ensures r.Ok? ==> r == Converted(env, Contents(), f)
    {
      var statement := Text.TrimSpace(f.statement);
      if statement == "" { return Err; }
      if |statement| > MAX_STATEMENT { return Err; }
      var basis := Text.TrimSpace(f.basis);
      match f.provenance {
        case Sourced =>
          if |f.sourceUrls| == 0 { return Err; }
          if basis != "" { return Err; }
        case Calculated =>
          if basis == "" { return Err; }
          if |f.sourceUrls| == 0 { return Err; }
        case Inferred =>
          if basis != "" { return Err; }
        case Unknown =>
          if basis != "" { return Err; }
        case Other(_) =>
          return Err;
      }
      var ids := Cite(env, f.sourceUrls);
      if ids.Err? { return Err; }
      return Ok(Finding(statement, f.provenance, ids.value, Text.Clip(basis, MAX_STATEMENT)));
    }

    method Cite(env: Env, urls: seq<string>) returns (r: Result<seq<string>>)
      ensures r.Ok? <==> Cited(env, Contents(), urls).Ok?
      ensures r.Ok? ==> r == Cited(env, Contents(), urls)
    {
      var ids: seq<string> := [];
      for i := 0 to |urls|
        invariant Cited(env, Contents(), urls[..i]) == Ok(ids)
      {
        assert urls[..i + 1][..i] == urls[..i];
        var key := env.norm(urls[i]);
        if key.None? || key.value !in byURL {
          CitationErrorPersists(env, Contents(), urls, i + 1);
          return Err;
        }
        var id := byURL[key.value];
        if id !in ids {
          ids := ids + [id];
        }
      }
      assert urls[..|urls|] == urls;
      return Ok(ids);
    }
  }

  lemma RegisteredStep(env: Env, t: Table, srcs: seq<RawSource>, i: nat)
    requires i < |srcs| && RegisteredAll(env, t, srcs[..i]).Ok?
    ensures RegisteredAll(env, t, srcs[..i + 1]) == Registered(env, RegisteredAll(env, t, srcs[..i]).value, srcs[i])
  {
    assert srcs[..i + 1][..i] == srcs[..i];
  }

  lemma {:induction false} ErrorPersists(env: Env, t: Table, srcs: seq<RawSource>, k: nat)
    requires k <= |srcs| && RegisteredAll(env, t, srcs[..k]).Err?
    ensures RegisteredAll(env, t, srcs).Err?
    decreases |srcs|
  {
    if k < |srcs| {
      assert srcs[..|srcs| - 1][..k] == srcs[..k];
      ErrorPersists(env, t, srcs[..|srcs| - 1], k);
    } else {
      assert srcs[..k] == srcs;
    }
  }

  lemma {:induction false} CitationErrorPersists(env: Env, t: Table, urls: seq<string>, k: nat)
    requires k <= |urls| && Cited(env, t, urls[..k]).Err?
    ensures Cited(env, t, urls).Err?
    decreases |urls|
  {
    if k < |urls| {
      assert urls[..|urls| - 1][..k] == urls[..k];
      CitationErrorPersists(env, t, urls[..|urls| - 1], k);
    } else {
      assert urls[..k] == urls;
    }
  }

}
