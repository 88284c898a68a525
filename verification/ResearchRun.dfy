/** The four-stage research run: one source table shared by all stages, each stage's output converted
    against it, and the artifact assembled from the whole. */
module ResearchRun {
  import opened Common
  import opened Citations
  import opened Claims
  import opened Sorting
  import Text

  /** What the four profiles of the chain produce, decoded. */
  datatype Research = Research(sources: seq<RawSource>, findings: seq<RawFinding>)

  datatype RawPosition = RawPosition(statement: string, support: seq<RawFinding>)

  datatype Veto = Veto(raised: bool, reasons: seq<string>)

  datatype Stage =
    | Plain(base: Research)
    | Risk(base: Research, contradictions: seq<RawContradiction>, veto: Veto)
    | Chair(
        base: Research, thesis: RawPosition, antiThesis: RawPosition, conclusion: string, priority: Option<Priority>)

  datatype Position = Position(statement: string, support: seq<Finding>)

  const NO_POSITION := Position("", [])

  /** Everything workJob carries from stage to stage. */
  datatype Progress = Progress(
    table: Table, boxes: seq<seq<Finding>>, contradictions: seq<Contradiction>, veto: Veto,
    thesis: Position, antiThesis: Position, riskFindings: seq<Finding>, conclusion: string, priority: Option<Priority>)

  const START := Progress(EMPTY, [], [], Veto(false, []), NO_POSITION, NO_POSITION, [], "", None)

  datatype Artifact = Artifact(
    sources: seq<Source>, boxes: seq<seq<Finding>>, contradictions: seq<Contradiction>, thesis: Position,
    antiThesis: Position, riskFindings: seq<Finding>, priority: Priority, conclusion: string, vetoed: bool)

  // ------------------------------------------------------------------ one stage

  function ConvertedPosition(env: Env, t: Table, raw: RawPosition): Result<Position> {
    var statement := Text.TrimSpace(raw.statement);
    if statement == "" then Err
    else match ConvertedBox(env, t, raw.support)
      case Err => Err
      case Ok(fs) => Ok(Position(Text.Clip(statement, MAX_STATEMENT), fs))
  }

  /** The stage's own extras, once its sources are registered. */
  function Extras(env: Env, p: Progress, s: Stage): Result<Progress> {
    match s
    case Plain(_) => Ok(p)
    case Risk(_, cs, veto) =>
      (match ConvertedContradictions(env, p.table, cs)
       case Err => Err
       case Ok(out) => Ok(p.(contradictions := out, veto := veto)))
    case Chair(_, thesis, anti, conclusion, priority) =>
      (match ConvertedPosition(env, p.table, thesis)
       case Err => Err
       case Ok(th) =>
         match ConvertedPosition(env, p.table, anti)
         case Err => Err
         case Ok(an) => Ok(p.(thesis := th, antiThesis := an, conclusion := conclusion, priority := priority)))
  }

  function Findings(env: Env, p: Progress, s: Stage): Result<Progress> {
    match ConvertedBox(env, p.table, s.base.findings)
    case Err => Err
    case Ok(fs) => Ok(p.(boxes := p.boxes + [fs], riskFindings := if s.Risk? then fs else p.riskFindings))
  }

  function AfterStage(env: Env, p: Progress, s: Stage): Result<Progress> {
    match RegisteredAll(env, p.table, s.base.sources)
    case Err => Err
    case Ok(t) =>
      match Extras(env, p.(table := t), s)
      case Err => Err
      case Ok(q) => Findings(env, q, s)
  }

  function AfterStages(env: Env, stages: seq<Stage>): Result<Progress> {
    if stages == [] then Ok(START)
    else match AfterStages(env, stages[..|stages| - 1])
      case Err => Err
      case Ok(p) => AfterStage(env, p, stages[|stages| - 1])
  }

  // ------------------------------------------------------------------ closure

  /** Every citation made so far is to a source of the table so far. */
  ghost predicate Closed(p: Progress) {
    && TableOk(p.table)
    && (forall b :: 0 <= b < |p.boxes| ==> AllWellCited(p.table.sources, p.boxes[b]))
    && AllWellCited(p.table.sources, p.thesis.support) && AllWellCited(p.table.sources, p.antiThesis.support)
    && AllWellCited(p.table.sources, p.riskFindings)
    && (forall c :: c in p.contradictions ==> IdsDeclared(p.table.sources, c.sourceIds))
  }

  lemma LargerTableKeepsClosed(p: Progress, t: Table)
    requires Closed(p) && TableOk(t) && Extends(p.table, t)
    ensures Closed(p.(table := t))
  {
    var s, s' := p.table.sources, t.sources;
    forall b | 0 <= b < |p.boxes| ensures AllWellCited(s', p.boxes[b]) { WellCitedStays(s, s', p.boxes[b]); }
    WellCitedStays(s, s', p.thesis.support);
    WellCitedStays(s, s', p.antiThesis.support);
    WellCitedStays(s, s', p.riskFindings);
    forall c | c in p.contradictions ensures IdsDeclared(s', c.sourceIds) { DeclaredStays(s, s', c.sourceIds); }
  }

  lemma ExtrasKeepClosed(env: Env, p: Progress, s: Stage)
    requires Closed(p) && Extras(env, p, s).Ok?
    ensures Closed(Extras(env, p, s).value) && Extras(env, p, s).value.table == p.table
  {
    match s {
      case Plain(_) =>
      case Risk(_, cs, _) => ContradictionsAreDeclared(env, p.table, cs);
      case Chair(_, thesis, anti, _, _) =>
        ConvertedAreWellCited(env, p.table, thesis.support);
        ConvertedAreWellCited(env, p.table, anti.support);
    }
  }

  lemma FindingsKeepClosed(env: Env, p: Progress, s: Stage)
    requires Closed(p) && Findings(env, p, s).Ok?
    ensures Closed(Findings(env, p, s).value) && Findings(env, p, s).value.table == p.table
  {
    ConvertedAreWellCited(env, p.table, s.base.findings);
  }

  lemma StageKeepsClosed(env: Env, p: Progress, s: Stage)
    requires Closed(p) && AfterStage(env, p, s).Ok?
    ensures Closed(AfterStage(env, p, s).value) && Extends(p.table, AfterStage(env, p, s).value.table)
  {
    RegisteredAllKeepsTable(env, p.table, s.base.sources);
    var t := RegisteredAll(env, p.table, s.base.sources).value;
    LargerTableKeepsClosed(p, t);
    var q := Extras(env, p.(table := t), s).value;
    ExtrasKeepClosed(env, p.(table := t), s);
    FindingsKeepClosed(env, q, s);
  }

  /** After any stages, all citations resolve; and a later stage leaves every entry of the table, and
      every finding of an earlier stage, as it was. */
  lemma {:induction false} StagesAreClosed(env: Env, stages: seq<Stage>, k: nat)
    requires k <= |stages| && AfterStages(env, stages).Ok?
    ensures Closed(AfterStages(env, stages).value)
    ensures AfterStages(env, stages[..k]).Ok?
    ensures Extends(AfterStages(env, stages[..k]).value.table, AfterStages(env, stages).value.table)
    ensures AfterStages(env, stages[..k]).value.boxes <= AfterStages(env, stages).value.boxes
  {
    if k == |stages| {
      assert stages[..k] == stages;
    }
    if stages != [] {
      var init := stages[..|stages| - 1];
      StagesAreClosed(env, init, if k < |stages| then k else 0);
      StageKeepsClosed(env, AfterStages(env, init).value, stages[|stages| - 1]);
      if k < |stages| {
        assert init[..k] == stages[..k];
        ExtendsTransitive(AfterStages(env, stages[..k]).value.table, AfterStages(env, init).value.table,
                          AfterStages(env, stages).value.table);
        StageKeepsBoxes(env, AfterStages(env, init).value, stages[|stages| - 1]);
      }
    }
  }

  lemma ExtendsTransitive(a: Table, b: Table, c: Table)
    requires Extends(a, b) && Extends(b, c)
    ensures Extends(a, c)
  {
  }

  lemma StageKeepsBoxes(env: Env, p: Progress, s: Stage)
    requires AfterStage(env, p, s).Ok?
    ensures p.boxes <= AfterStage(env, p, s).value.boxes
  {
  }

  // ------------------------------------------------------------------ what the stages tell

  ghost predicate PositionTells(env: Env, sources: seq<Source>, raw: RawPosition, pos: Position) {
    && Text.TrimSpace(raw.statement) != "" && pos.statement == Text.Clip(Text.TrimSpace(raw.statement), 2000)
    && BoxTells(env, sources, raw.support, pos.support)
  }

  lemma ConvertedPositionTells(env: Env, t: Table, raw: RawPosition)
    requires TableOk(t) && ConvertedPosition(env, t, raw).Ok?
    ensures PositionTells(env, t.sources, raw, ConvertedPosition(env, t, raw).value)
  {
    ConvertedBoxTells(env, t, raw.support);
  }

  ghost predicate LastRisk(stages: seq<Stage>, k: nat) {
    k < |stages| && stages[k].Risk? && forall j :: k < j < |stages| ==> !stages[j].Risk?
  }

  ghost predicate LastChair(stages: seq<Stage>, k: nat) {
    k < |stages| && stages[k].Chair? && forall j :: k < j < |stages| ==> !stages[j].Chair?
  }

  ghost predicate NoRisk(stages: seq<Stage>) { forall j :: 0 <= j < |stages| ==> !stages[j].Risk? }

  ghost predicate NoChair(stages: seq<Stage>) { forall j :: 0 <= j < |stages| ==> !stages[j].Chair? }

  ghost predicate BoxesTell(env: Env, sources: seq<Source>, stages: seq<Stage>, boxes: seq<seq<Finding>>) {
    |boxes| == |stages| && forall k :: 0 <= k < |stages| ==> BoxTells(env, sources, stages[k].base.findings, boxes[k])
  }

  ghost predicate RiskTells(env: Env, sources: seq<Source>, s: Stage, box: seq<Finding>, p: Progress)
    requires s.Risk?
  {
    p.riskFindings == box && p.veto == s.veto && ContradictionsTell(env, sources, s.contradictions, p.contradictions)
  }

  ghost predicate ChairTells(env: Env, sources: seq<Source>, s: Stage, p: Progress)
    requires s.Chair?
  {
    && PositionTells(env, sources, s.thesis, p.thesis) && PositionTells(env, sources, s.antiThesis, p.antiThesis)
    && p.conclusion == s.conclusion && p.priority == s.priority
  }

  ghost predicate Quiet(p: Progress) { p.riskFindings == [] && p.contradictions == [] && !p.veto.raised }

  ghost predicate RisksTold(env: Env, stages: seq<Stage>, p: Progress)
    requires |p.boxes| == |stages|
  {
    && (NoRisk(stages) ==> Quiet(p))
    && forall k: nat :: LastRisk(stages, k) ==> RiskTells(env, p.table.sources, stages[k], p.boxes[k], p)
  }

  ghost predicate ChairsTold(env: Env, stages: seq<Stage>, p: Progress) {
    && (NoChair(stages) ==> p.priority == None)
    && forall k: nat :: LastChair(stages, k) ==> ChairTells(env, p.table.sources, stages[k], p)
  }

  /** Each stage's output has reached its own place: findings box by box, the rest from the last risk stage
      and the last chair. */
  ghost predicate Told(env: Env, stages: seq<Stage>, p: Progress) {
    && BoxesTell(env, p.table.sources, stages, p.boxes)
    && RisksTold(env, stages, p) && ChairsTold(env, stages, p)
  }

  lemma TableGrowthKeepsTold(env: Env, stages: seq<Stage>, p: Progress, t: Table)
    requires Told(env, stages, p) && Within(p.table.sources, t.sources)
    ensures Told(env, stages, p.(table := t))
  {
    var s, s' := p.table.sources, t.sources;
    forall k | 0 <= k < |stages| ensures BoxTells(env, s', stages[k].base.findings, p.boxes[k]) {
      BoxStays(env, s, s', stages[k].base.findings, p.boxes[k]);
    }
    forall k: nat | LastRisk(stages, k) ensures RiskTells(env, s', stages[k], p.boxes[k], p) {
      ContradictionsStay(env, s, s', stages[k].contradictions, p.contradictions);
    }
    forall k: nat | LastChair(stages, k) ensures ChairTells(env, s', stages[k], p) {
      BoxStays(env, s, s', stages[k].thesis.support, p.thesis.support);
      BoxStays(env, s, s', stages[k].antiThesis.support, p.antiThesis.support);
    }
  }

  lemma LastSnoc(stages: seq<Stage>, s: Stage)
    ensures LastRisk(stages + [s], |stages|) <==> s.Risk?
    ensures LastChair(stages + [s], |stages|) <==> s.Chair?
    ensures forall k: nat :: k < |stages| ==> (LastRisk(stages + [s], k) <==> LastRisk(stages, k) && !s.Risk?)
    ensures forall k: nat :: k < |stages| ==> (LastChair(stages + [s], k) <==> LastChair(stages, k) && !s.Chair?)
    ensures NoRisk(stages + [s]) <==> NoRisk(stages) && !s.Risk?
    ensures NoChair(stages + [s]) <==> NoChair(stages) && !s.Chair?
  {
    var all := stages + [s];
    assert all[|stages|] == s && forall k :: 0 <= k < |stages| ==> all[k] == stages[k];
  }

  /** What one stage adds and what it leaves. */
  lemma StageInFields(env: Env, p: Progress, s: Stage)
    requires AfterStage(env, p, s).Ok?
    ensures var t, q := RegisteredAll(env, p.table, s.base.sources).value, AfterStage(env, p, s).value;
      && q.table == t && q.boxes == p.boxes + [ConvertedAll(env, t, s.base.findings).value]
      && (s.Risk? ==> q.riskFindings == q.boxes[|p.boxes|] && q.veto == s.veto
                      && q.contradictions == ConvertedContradictions(env, t, s.contradictions).value)
      && (!s.Risk? ==> q.riskFindings == p.riskFindings && q.veto == p.veto && q.contradictions == p.contradictions)
      && (s.Chair? ==> q.thesis == ConvertedPosition(env, t, s.thesis).value && q.conclusion == s.conclusion
                       && q.antiThesis == ConvertedPosition(env, t, s.antiThesis).value && q.priority == s.priority)
      && (!s.Chair? ==> q.thesis == p.thesis && q.antiThesis == p.antiThesis && q.conclusion == p.conclusion
                        && q.priority == p.priority)
  {
  }

  lemma BoxesTellSnoc(
    env: Env, sources: seq<Source>, stages: seq<Stage>, boxes: seq<seq<Finding>>, s: Stage, fs: seq<Finding>)
    requires BoxesTell(env, sources, stages, boxes) && BoxTells(env, sources, s.base.findings, fs)
    ensures BoxesTell(env, sources, stages + [s], boxes + [fs])
  {
  }

  lemma RiskTellsStill(env: Env, sources: seq<Source>, s: Stage, box: seq<Finding>, p: Progress, q: Progress)
    requires s.Risk? && RiskTells(env, sources, s, box, p)
    requires q.riskFindings == p.riskFindings && q.veto == p.veto && q.contradictions == p.contradictions
    ensures RiskTells(env, sources, s, box, q)
  {
  }

  lemma RisksToldSnoc(env: Env, stages: seq<Stage>, p: Progress, s: Stage, q: Progress)
    requires |p.boxes| == |stages| && RisksTold(env, stages, p) && |q.boxes| == |stages| + 1
    requires q.boxes[..|stages|] == p.boxes && q.table == p.table
    requires s.Risk? ==> RiskTells(env, q.table.sources, s, q.boxes[|stages|], q)
    requires !s.Risk? ==> q.riskFindings == p.riskFindings && q.veto == p.veto && q.contradictions == p.contradictions
    ensures RisksTold(env, stages + [s], q)
  {
    var all, sources := stages + [s], q.table.sources;
    LastSnoc(stages, s);
    forall k: nat | LastRisk(all, k) ensures RiskTells(env, sources, all[k], q.boxes[k], q) {
      if k < |stages| {
        assert LastRisk(stages, k) && q.boxes[k] == q.boxes[..|stages|][k];
        RiskTellsStill(env, sources, stages[k], p.boxes[k], p, q);
      } else {
        assert all[k] == s;
      }
    }
  }

  lemma ChairsToldSnoc(env: Env, stages: seq<Stage>, p: Progress, s: Stage, q: Progress)
    requires ChairsTold(env, stages, p) && q.table == p.table
    requires s.Chair? ==> ChairTells(env, q.table.sources, s, q)
    requires !s.Chair? ==>
      && q.thesis == p.thesis && q.antiThesis == p.antiThesis && q.conclusion == p.conclusion
      && q.priority == p.priority
    ensures ChairsTold(env, stages + [s], q)
  {
    var all := stages + [s];
    LastSnoc(stages, s);
    forall k: nat | LastChair(all, k) ensures ChairTells(env, q.table.sources, all[k], q) {
      if k < |stages| {
        assert all[k] == stages[k];
        assert ChairTells(env, p.table.sources, stages[k], p);
      }
    }
  }

  lemma StageTells(env: Env, stages: seq<Stage>, p: Progress, s: Stage)
    requires TableOk(p.table) && Told(env, stages, p) && AfterStage(env, p, s).Ok?
    ensures Told(env, stages + [s], AfterStage(env, p, s).value)
  {
    RegisteredAllKeepsTable(env, p.table, s.base.sources);
    StageInFields(env, p, s);
    var t, q := RegisteredAll(env, p.table, s.base.sources).value, AfterStage(env, p, s).value;
    TableGrowthKeepsTold(env, stages, p, t);
    ConvertedBoxTells(env, t, s.base.findings);
    BoxesTellSnoc(env, t.sources, stages, p.boxes, s, ConvertedAll(env, t, s.base.findings).value);
    if s.Risk? {
      ConvertedContradictionsTell(env, t, s.contradictions);
    }
    if s.Chair? {
      ConvertedPositionTells(env, t, s.thesis);
      ConvertedPositionTells(env, t, s.antiThesis);
    }
    RisksToldSnoc(env, stages, p.(table := t), s, q);
    ChairsToldSnoc(env, stages, p.(table := t), s, q);
  }

  lemma AfterStagesSnoc(env: Env, stages: seq<Stage>, s: Stage)
    ensures AfterStages(env, stages).Err? ==> AfterStages(env, stages + [s]).Err?
    ensures AfterStages(env, stages).Ok? ==>
      AfterStages(env, stages + [s]) == AfterStage(env, AfterStages(env, stages).value, s)
  {
    assert (stages + [s])[..|stages|] == stages;
  }

  lemma StartTells(env: Env)
    ensures Told(env, [], START)
  {
  }

  ghost predicate AllTold(env: Env, stages: seq<Stage>) {
    AfterStages(env, stages).Ok? ==> Told(env, stages, AfterStages(env, stages).value)
  }

  lemma AllToldSnoc(env: Env, stages: seq<Stage>, s: Stage)
    requires AllTold(env, stages)
    ensures AllTold(env, stages + [s])
  {
    AfterStagesSnoc(env, stages, s);
    if AfterStages(env, stages).Ok? {
      var p := AfterStages(env, stages).value;
      AllStagesClosed(env, stages);
      if AfterStage(env, p, s).Ok? {
        StageTells(env, stages, p, s);
      }
    }
  }

  lemma {:induction false} StagesTell(env: Env, stages: seq<Stage>)
    ensures AllTold(env, stages)
  {
    if stages == [] {
      StartTells(env);
    } else {
      var init := stages[..|stages| - 1];
      StagesTell(env, init);
      AllToldSnoc(env, init, stages[|stages| - 1]);
      assert stages == init + [stages[|stages| - 1]];
    }
  }

  // ------------------------------------------------------------------ assembling

  const BY_ID: (Source, Source) -> bool := (a: Source, b: Source) => Text.Less(a.id, b.id)

  predicate ChairAssembles(p: Progress) {
    && p.priority.Some? && Text.TrimSpace(p.conclusion) != ""
    && Text.TrimSpace(p.thesis.statement) != "" && Text.TrimSpace(p.antiThesis.statement) != ""
  }

  predicate Assembles(p: Progress) {
    !(p.veto.raised && p.veto.reasons == []) && ChairAssembles(p)
  }

  function Assembled(p: Progress): Artifact
    requires p.priority.Some?
  {
    Artifact(Sort(BY_ID, p.table.sources), p.boxes, p.contradictions, p.thesis, p.antiThesis, p.riskFindings,
             p.priority.value, Text.Clip(Text.TrimSpace(p.conclusion), MAX_STATEMENT), p.veto.raised)
  }

  function AllFindings(a: Artifact): seq<seq<Finding>> {
    a.boxes + [a.thesis.support, a.antiThesis.support, a.riskFindings]
  }

  ghost predicate Resolved(a: Artifact) {
    && (forall b :: 0 <= b < |AllFindings(a)| ==> AllWellCited(a.sources, AllFindings(a)[b]))
    && (forall c :: c in a.contradictions ==> IdsDeclared(a.sources, c.sourceIds))
    && |a.sources| <= MAX_SOURCES
    && (forall i, j :: 0 <= i < j < |a.sources| ==>
          a.sources[i].id != a.sources[j].id && a.sources[i].url != a.sources[j].url)
    && (forall s :: s in a.sources ==> exists k: nat :: k < |a.sources| && s.id == SourceId(k))
  }

  lemma SameSourcesDeclare(s: seq<Source>, s': seq<Source>, ids: seq<string>)
    requires (forall x :: x in s <==> x in s') && IdsDeclared(s, ids)
    ensures IdsDeclared(s', ids)
  {
    forall k | 0 <= k < |ids| ensures Declares(s', ids[k]) {
      var i :| 0 <= i < |s| && s[i].id == ids[k];
      assert s[i] in s';
    }
  }

  lemma SameSourcesCite(s: seq<Source>, s': seq<Source>, fs: seq<Finding>)
    requires (forall x :: x in s <==> x in s') && AllWellCited(s, fs)
    ensures AllWellCited(s', fs)
  {
    forall k | 0 <= k < |fs| ensures WellCited(s', fs[k]) {
      SameSourcesDeclare(s, s', fs[k].sourceIds);
    }
  }

  /** Sorting the table for upload only rearranges it. */
  lemma SortedTable(t: Table)
    requires TableOk(t)
    ensures var s := Sort(BY_ID, t.sources);
      && multiset(s) == multiset(t.sources) && |s| == |t.sources| && (forall x :: x in s <==> x in t.sources)
      && (forall i, j :: 0 <= i < j < |s| ==> Text.Less(s[i].id, s[j].id) && s[i].id != s[j].id && s[i].url != s[j].url)
  {
    var s := t.sources;
    forall i: nat, j: nat | i < j < |s| ensures s[i] != s[j] { TableIsOneToOne(t, i, j); }
    forall x, y | x in Elements(s) && y in Elements(s) && x != y
      ensures x.id != y.id && x.url != y.url && (BY_ID(x, y) || BY_ID(y, x))
    {
      var i: nat :| i < |s| && s[i] == x;
      var j: nat :| j < |s| && s[j] == y;
      if i < j { TableIsOneToOne(t, i, j); } else { TableIsOneToOne(t, j, i); }
      Text.LessTrichotomy(x.id, y.id);
    }
    forall x | x in Elements(s) ensures !BY_ID(x, x) { Text.LessTrichotomy(x.id, x.id); }
    forall x, y, z | x in Elements(s) && y in Elements(s) && z in Elements(s) && BY_ID(x, y) && BY_ID(y, z)
      ensures BY_ID(x, z)
    {
      Text.LessTransitive(x.id, y.id, z.id);
    }
    SortOrders(BY_ID, s);
    SortKeepsAll(BY_ID, s);
    var r := Sort(BY_ID, s);
    forall i, j | 0 <= i < j < |r|
      ensures Text.Less(r[i].id, r[j].id) && r[i].id != r[j].id && r[i].url != r[j].url
    {
      assert BY_ID(r[i], r[j]);
      Text.LessTrichotomy(r[i].id, r[j].id);
      assert r[i] in Elements(s) && r[j] in Elements(s) && r[i] != r[j];
    }
  }

  lemma BoxesStayCited(s: seq<Source>, s': seq<Source>, boxes: seq<seq<Finding>>)
    requires (forall x :: x in s <==> x in s') && forall b :: 0 <= b < |boxes| ==> AllWellCited(s, boxes[b])
    ensures forall b :: 0 <= b < |boxes| ==> AllWellCited(s', boxes[b])
  {
    forall b | 0 <= b < |boxes| ensures AllWellCited(s', boxes[b]) {
      SameSourcesCite(s, s', boxes[b]);
    }
  }

  lemma IdsAreNumbered(t: Table, sources: seq<Source>)
    requires TableOk(t) && |sources| == |t.sources| && forall x :: x in sources <==> x in t.sources
    ensures forall x :: x in sources ==> exists k: nat :: k < |sources| && x.id == SourceId(k)
  {
    forall x | x in sources ensures exists k: nat :: k < |sources| && x.id == SourceId(k) {
      var k: nat :| k < |t.sources| && t.sources[k] == x;
      assert EntryOk(t, k);
    }
  }

  lemma AssembledIsResolved(p: Progress)
    requires Closed(p) && p.priority.Some?
    ensures Resolved(Assembled(p))
    ensures multiset(Assembled(p).sources) == multiset(p.table.sources)
  {
    var a, s := Assembled(p), p.table.sources;
    SortedTable(p.table);
    BoxesStayCited(s, a.sources, AllFindings(a));
    IdsAreNumbered(p.table, a.sources);
    forall c | c in a.contradictions ensures IdsDeclared(a.sources, c.sourceIds) {
      SameSourcesDeclare(s, a.sources, c.sourceIds);
    }
  }

  // ------------------------------------------------------------------ what is uploaded

  /** Every declaration of the run, in order. */
  function Declared(stages: seq<Stage>): seq<RawSource> {
    if stages == [] then [] else Declared(stages[..|stages| - 1]) + stages[|stages| - 1].base.sources
  }

  ghost predicate SourcesTell(env: Env, srcs: seq<RawSource>, sources: seq<Source>) {
    exists listed :: Lists(env, srcs, listed) && multiset(sources) == multiset(listed)
  }

  /** An artifact in the words of the stages it came from: the sources are the pages declared, box `k` holds
      the findings of stage `k`, the risk findings, contradictions and veto are those of the last risk stage,
      and thesis, anti-thesis, conclusion and priority those of the last chair. */
  ghost predicate Reports(env: Env, stages: seq<Stage>, a: Artifact) {
    && SourcesTell(env, Declared(stages), a.sources) && BoxesTell(env, a.sources, stages, a.boxes)
    && (NoRisk(stages) ==> a.riskFindings == [] && a.contradictions == [] && !a.vetoed)
    && (forall k: nat :: LastRisk(stages, k) ==>
          && a.riskFindings == a.boxes[k] && a.vetoed == stages[k].veto.raised
          && ContradictionsTell(env, a.sources, stages[k].contradictions, a.contradictions))
    && (forall k: nat :: LastChair(stages, k) ==>
          && PositionTells(env, a.sources, stages[k].thesis, a.thesis)
          && PositionTells(env, a.sources, stages[k].antiThesis, a.antiThesis)
          && a.conclusion == Text.Clip(Text.TrimSpace(stages[k].conclusion), 2000)
          && stages[k].priority == Some(a.priority))
  }

  ghost predicate ChairConcluded(stages: seq<Stage>) {
    && !NoChair(stages)
    && forall k: nat :: LastChair(stages, k) ==>
         stages[k].priority.Some? && Text.TrimSpace(stages[k].conclusion) != ""
  }

  ghost predicate VetoReasoned(stages: seq<Stage>) {
    forall k: nat :: LastRisk(stages, k) ==> !(stages[k].veto.raised && stages[k].veto.reasons == [])
  }

  /** The stages have a chair, with a priority and a conclusion, and no veto without a reason. */
  ghost predicate Concluded(stages: seq<Stage>) { ChairConcluded(stages) && VetoReasoned(stages) }

  lemma {:induction false} HasLastChair(stages: seq<Stage>) returns (k: nat)
    requires !NoChair(stages)
    ensures LastChair(stages, k)
  {
    var init, s := stages[..|stages| - 1], stages[|stages| - 1];
    assert stages == init + [s];
    LastSnoc(init, s);
    k := |init|;
    if !s.Chair? {
      k := HasLastChair(init);
    }
  }

  lemma {:induction false} HasLastRisk(stages: seq<Stage>) returns (k: nat)
    requires !NoRisk(stages)
    ensures LastRisk(stages, k)
  {
    var init, s := stages[..|stages| - 1], stages[|stages| - 1];
    assert stages == init + [s];
    LastSnoc(init, s);
    k := |init|;
    if !s.Risk? {
      k := HasLastRisk(init);
    }
  }

  lemma OnlyOneLast(stages: seq<Stage>, j: nat, k: nat)
    ensures LastRisk(stages, j) && LastRisk(stages, k) ==> j == k
    ensures LastChair(stages, j) && LastChair(stages, k) ==> j == k
  {
  }

  lemma ClippedStatementStands(statement: string)
    requires Text.TrimSpace(statement) != ""
    ensures Text.TrimSpace(Text.Clip(Text.TrimSpace(statement), MAX_STATEMENT)) != ""
  {
    var c := Text.Clip(Text.TrimSpace(statement), MAX_STATEMENT);
    assert c[0] == Text.TrimSpace(statement)[0];
    assert Text.TrimLeft(c) == c;
    Text.TrimRightDropsSpace(c);
  }

  lemma ChairConcludes(env: Env, stages: seq<Stage>, p: Progress, k: nat)
    requires ChairsTold(env, stages, p) && LastChair(stages, k)
    ensures p.priority == stages[k].priority && p.conclusion == stages[k].conclusion
    ensures Text.TrimSpace(p.thesis.statement) != "" && Text.TrimSpace(p.antiThesis.statement) != ""
  {
    assert ChairTells(env, p.table.sources, stages[k], p);
    ClippedStatementStands(stages[k].thesis.statement);
    ClippedStatementStands(stages[k].antiThesis.statement);
  }

  lemma LastChairDecides(stages: seq<Stage>, k: nat)
    requires LastChair(stages, k)
    ensures ChairConcluded(stages) <==> stages[k].priority.Some? && Text.TrimSpace(stages[k].conclusion) != ""
  {
    forall j: nat | LastChair(stages, j) ensures j == k { OnlyOneLast(stages, j, k); }
  }

  lemma ChairsConclude(env: Env, stages: seq<Stage>, p: Progress)
    requires ChairsTold(env, stages, p)
    ensures ChairConcluded(stages) <==> ChairAssembles(p)
  {
    if !NoChair(stages) {
      var k := HasLastChair(stages);
      ChairConcludes(env, stages, p, k);
      LastChairDecides(stages, k);
    }
  }

  lemma RisksAreReasoned(env: Env, stages: seq<Stage>, p: Progress)
    requires |p.boxes| == |stages| && RisksTold(env, stages, p)
    ensures VetoReasoned(stages) <==> !(p.veto.raised && p.veto.reasons == [])
  {
    if !NoRisk(stages) {
      var k := HasLastRisk(stages);
      forall j: nat | LastRisk(stages, j) ensures j == k { OnlyOneLast(stages, j, k); }
      assert RiskTells(env, p.table.sources, stages[k], p.boxes[k], p);
    }
  }

  /** Assembly succeeds exactly when the stages concluded. */
  lemma AssemblesIff(env: Env, stages: seq<Stage>, p: Progress)
    requires Told(env, stages, p)
    ensures Assembles(p) <==> Concluded(stages)
  {
    ChairsConclude(env, stages, p);
    RisksAreReasoned(env, stages, p);
  }

  lemma AssembledTells(env: Env, stages: seq<Stage>, p: Progress)
    requires TableOk(p.table) && Told(env, stages, p) && Lists(env, Declared(stages), p.table.sources)
    requires p.priority.Some?
    ensures Reports(env, stages, Assembled(p))
  {
    var a, s := Assembled(p), p.table.sources;
    SortedTable(p.table);
    TableGrowthKeepsTold(env, stages, p, p.table.(sources := a.sources));
    assert SourcesTell(env, Declared(stages), a.sources);
    forall k: nat | LastRisk(stages, k)
      ensures a.riskFindings == a.boxes[k] && a.vetoed == stages[k].veto.raised
      ensures ContradictionsTell(env, a.sources, stages[k].contradictions, a.contradictions)
    {
      assert RiskTells(env, a.sources, stages[k], p.boxes[k], p.(table := p.table.(sources := a.sources)));
    }
    forall k: nat | LastChair(stages, k)
      ensures ChairTells(env, a.sources, stages[k], p)
    {
      assert ChairTells(env, a.sources, stages[k], p.(table := p.table.(sources := a.sources)));
    }
  }

  /** The table after any stages is the table of all their declarations. */
  lemma {:induction false} TableOfStages(env: Env, stages: seq<Stage>)
    requires AfterStages(env, stages).Ok?
    ensures RegisteredAll(env, EMPTY, Declared(stages)) == Ok(AfterStages(env, stages).value.table)
  {
    if stages != [] {
      var init, s := stages[..|stages| - 1], stages[|stages| - 1];
      TableOfStages(env, init);
      StageInFields(env, AfterStages(env, init).value, s);
      RegisteredInParts(env, EMPTY, Declared(init), s.base.sources);
    }
  }

  /** What a run of stages that concluded uploads, in the stages' own words. */
  lemma ArtifactTells(env: Env, stages: seq<Stage>)
    requires AfterStages(env, stages).Ok?
    ensures var p := AfterStages(env, stages).value;
      && (Assembles(p) <==> Concluded(stages))
      && (p.priority.Some? ==> Reports(env, stages, Assembled(p)))
  {
    var p := AfterStages(env, stages).value;
    StagesTell(env, stages);
    AllStagesClosed(env, stages);
    AssemblesIff(env, stages, p);
    TableOfStages(env, stages);
    DeclarationsAreListed(env, Declared(stages));
    if p.priority.Some? {
      AssembledTells(env, stages, p);
    }
  }

  // ------------------------------------------------------------------ the run

  const ARRIVES: Result<Stage> -> Result<Stage> := (output: Result<Stage>) => output

  /** The stages' decoded outputs when none failed to arrive. */
  function Arrived(outputs: seq<Result<Stage>>): Result<seq<Stage>> { MapAll(ARRIVES, outputs) }

  ghost predicate Covered(keyOf: KeyFn, a: Artifact) {
    var all := Flat(AllFindings(a));
    CoverageOk(a.priority, |a.sources|, |GroundedKeys(keyOf, all)|, |Keys(keyOf, all)|)
  }

  /** The run succeeds with the artifact of these stages. */
  ghost predicate Uploads(env: Env, keyOf: KeyFn, outputs: seq<Result<Stage>>, gate: Artifact -> bool) {
    && Arrived(outputs).Ok?
    && AfterStages(env, Arrived(outputs).value).Ok?
    && Passes(keyOf, AfterStages(env, Arrived(outputs).value).value, gate)
  }

  ghost predicate Passes(keyOf: KeyFn, p: Progress, gate: Artifact -> bool) {
    Assembles(p) && Covered(keyOf, Assembled(p)) && gate(Assembled(p))
  }

  method ConvertPosition(env: Env, table: SourceTable, raw: RawPosition) returns (r: Result<Position>)
    ensures r.Ok? <==> ConvertedPosition(env, table.Contents(), raw).Ok?
    ensures r.Ok? ==> r == ConvertedPosition(env, table.Contents(), raw)
  {
    var statement := Text.TrimSpace(raw.statement);
    if statement == "" {
      return Err;
    }
    var fs := table.ConvertFindings(env, raw.support);
    if fs.Err? {
      return Err;
    }
    return Ok(Position(Text.Clip(statement, MAX_STATEMENT), fs.value));
  }

  /** One stage of the loop: register, convert the extras, convert the findings. `p` carries everything
      but the table, which is updated in place. */
  method RunStage(env: Env, table: SourceTable, p: Progress, s: Stage) returns (r: Result<Progress>)
    requires TableOk(table.Contents()) && p.table == table.Contents()
    modifies table
    ensures TableOk(table.Contents())
    ensures r.Ok? <==> AfterStage(env, p, s).Ok?
    ensures r.Ok? ==> r == AfterStage(env, p, s) && r.value.table == table.Contents()
  {
    var registered := table.RegisterSources(env, s.base.sources);
    if !registered {
      return Err;
    }
    var q := p.(table := Table(table.byURL, table.sources));
    match s {
      case Plain(_) =>
      case Risk(_, cs, veto) =>
        var out := table.ConvertContradictions(env, cs);
        if out.Err? { return Err; }
        q := q.(contradictions := out.value, veto := veto);
      case Chair(_, thesis, anti, conclusion, priority) =>
        var th := ConvertPosition(env, table, thesis);
        if th.Err? { return Err; }
        var an := ConvertPosition(env, table, anti);
        if an.Err? { return Err; }
        q := q.(thesis := th.value, antiThesis := an.value, conclusion := conclusion, priority := priority);
    }
    assert Extras(env, p.(table := table.Contents()), s) == Ok(q);
    var fs := table.ConvertFindings(env, s.base.findings);
    if fs.Err? {
      return Err;
    }
    return Ok(q.(boxes := q.boxes + [fs.value], riskFindings := if s.Risk? then fs.value else q.riskFindings));
  }

  /** A whole job. `outputs` are the decoded stage outputs, or the failure that stopped a stage; `gate`
      stands for the date, language, leak and size checks. An artifact that is uploaded resolves every
      citation it makes and meets the coverage floor. */
  method WorkJob(
    env: Env, keyOf: KeyFn, outputs: seq<Result<Stage>>, gate: Artifact -> bool) returns (r: Result<Artifact>)
    ensures r.Ok? <==> Uploads(env, keyOf, outputs, gate)
    ensures r.Ok? ==> r.value == Assembled(AfterStages(env, Arrived(outputs).value).value)
    ensures r.Ok? ==> Resolved(r.value) && Covered(keyOf, r.value)
    ensures r.Ok? ==> Concluded(Arrived(outputs).value) && Reports(env, Arrived(outputs).value, r.value)
  {
    var table := new SourceTable();
    var p := START;
    ghost var stages: seq<Stage> := [];
    for i := 0 to |outputs|
      invariant TableOk(table.Contents()) && fresh(table) && p.table == table.Contents()
      invariant Arrived(outputs[..i]) == Ok(stages) && AfterStages(env, stages) == Ok(p)
    {
      MapAllStep(ARRIVES, outputs, i);
      if outputs[i].Err? {
        return Err;
      }
      var s := outputs[i].value;
      AfterStagesSnoc(env, stages, s);
      stages := stages + [s];
      var q := RunStage(env, table, p, s);
      if q.Err? {
        StageErrorPersists(env, outputs, i + 1);
        return Err;
      }
      p := q.value;
    }
    assert outputs[..|outputs|] == outputs;
    ArtifactTells(env, stages);
    if !Assembles(p) {
      return Err;
    }
    var a := Assembled(p);
    AllStagesClosed(env, stages);
    AssembledIsResolved(p);
    var grounded, total := GroundedCoverage(keyOf, AllFindings(a));
    if !CoverageOk(a.priority, |a.sources|, grounded, total) {
      return Err;
    }
    if !gate(a) {
      return Err;
    }
    return Ok(a);
  }

  lemma AllStagesClosed(env: Env, stages: seq<Stage>)
    requires AfterStages(env, stages).Ok?
    ensures Closed(AfterStages(env, stages).value)
  {
    StagesAreClosed(env, stages, 0);
  }

  /** A failed stage fails the run whatever follows. */
  lemma {:induction false} StageErrorPersists(env: Env, outputs: seq<Result<Stage>>, k: nat)
    requires k <= |outputs| && Arrived(outputs[..k]).Ok? && AfterStages(env, Arrived(outputs[..k]).value).Err?
    ensures Arrived(outputs).Ok? ==> AfterStages(env, Arrived(outputs).value).Err?
    decreases |outputs|
  {
    if k == |outputs| {
      assert outputs[..k] == outputs;
    } else {
      var init, last := outputs[..|outputs| - 1], outputs[|outputs| - 1];
      assert init[..k] == outputs[..k];
      StageErrorPersists(env, init, k);
      if Arrived(outputs).Ok? {
        AfterStagesSnoc(env, Arrived(init).value, last.value);
      }
    }
  }
}
