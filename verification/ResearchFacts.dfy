/** Which research runs are taken, in terms of what their stages say. */
module ResearchFacts {
  import opened Common
  import opened Citations
  import opened Claims
  import opened ResearchRun
  import Text

  ghost predicate CitesOnly(env: Env, pages: seq<string>, urls: seq<string>) {
    forall i :: 0 <= i < |urls| ==> env.norm(urls[i]).Some? && env.norm(urls[i]).value in pages
  }

  /** A finding in order: a statement that fits, a known provenance, a basis exactly when it was calculated, a
      citation when it was sourced or calculated, and only pages already declared. */
  ghost predicate FindingFits(env: Env, pages: seq<string>, f: RawFinding) {
    && 0 < |Text.TrimSpace(f.statement)| <= 2000 && !f.provenance.Other?
    && (Text.TrimSpace(f.basis) != "" <==> f.provenance == Calculated)
    && (f.provenance == Sourced || f.provenance == Calculated ==> f.sourceUrls != [])
    && CitesOnly(env, pages, f.sourceUrls)
  }

  ghost predicate BoxFits(env: Env, pages: seq<string>, fs: seq<RawFinding>) {
    |fs| <= 40 && forall i :: 0 <= i < |fs| ==> FindingFits(env, pages, fs[i])
  }

  ghost predicate PositionFits(env: Env, pages: seq<string>, raw: RawPosition) {
    Text.TrimSpace(raw.statement) != "" && BoxFits(env, pages, raw.support)
  }

  ghost predicate ContradictionFits(env: Env, pages: seq<string>, c: RawContradiction) {
    Text.TrimSpace(c.statement) != "" && CitesOnly(env, pages, c.sourceUrls)
  }

  ghost predicate ContradictionsFit(env: Env, pages: seq<string>, cs: seq<RawContradiction>) {
    forall i :: 0 <= i < |cs| ==> ContradictionFits(env, pages, cs[i])
  }

  ghost predicate StageFits(env: Env, pages: seq<string>, s: Stage) {
    && BoxFits(env, pages, s.base.findings)
    && (s.Risk? ==> ContradictionsFit(env, pages, s.contradictions))
    && (s.Chair? ==> PositionFits(env, pages, s.thesis) && PositionFits(env, pages, s.antiThesis))
  }

  lemma EachFitsIff(env: Env, t: Table, pages: seq<string>, urls: seq<string>)
    requires SameKeys(t.byURL, pages)
    ensures Cited(env, t, urls).Ok? <==> CitesOnly(env, pages, urls)
    ensures CitedEach(env, t, urls).Ok? <==> CitesOnly(env, pages, urls)
  {
    CitedOnce(env, t, urls);
    CitedWhenDeclared(env, t, urls);
  }

  lemma FindingFitsIff(env: Env, t: Table, pages: seq<string>, f: RawFinding)
    requires SameKeys(t.byURL, pages)
    ensures Converted(env, t, f).Ok? <==> FindingFits(env, pages, f)
  {
    ProvenanceInFields(f);
    EachFitsIff(env, t, pages, f.sourceUrls);
  }

  lemma BoxFitsIff(env: Env, t: Table, pages: seq<string>, fs: seq<RawFinding>)
    requires SameKeys(t.byURL, pages)
    ensures ConvertedBox(env, t, fs).Ok? <==> BoxFits(env, pages, fs)
  {
    MapAllInOrder(ConverterOf(env, t), fs);
    forall i | 0 <= i < |fs| ensures ConverterOf(env, t)(fs[i]).Ok? <==> FindingFits(env, pages, fs[i]) {
      FindingFitsIff(env, t, pages, fs[i]);
    }
  }

  lemma ContradictionFitsIff(env: Env, t: Table, pages: seq<string>, c: RawContradiction)
    requires SameKeys(t.byURL, pages)
    ensures ConvertedContradiction(env, t, c).Ok? <==> ContradictionFits(env, pages, c)
  {
    EachFitsIff(env, t, pages, c.sourceUrls);
  }

  lemma ContradictionsFitIff(env: Env, t: Table, pages: seq<string>, cs: seq<RawContradiction>)
    requires SameKeys(t.byURL, pages)
    ensures ConvertedContradictions(env, t, cs).Ok? <==> ContradictionsFit(env, pages, cs)
  {
    MapAllInOrder(ContradictionOf(env, t), cs);
    forall i | 0 <= i < |cs| ensures ContradictionOf(env, t)(cs[i]).Ok? <==> ContradictionFits(env, pages, cs[i]) {
      ContradictionFitsIff(env, t, pages, cs[i]);
    }
  }

  lemma ExtrasFitIff(env: Env, p: Progress, s: Stage, pages: seq<string>)
    requires SameKeys(p.table.byURL, pages)
    ensures Extras(env, p, s).Ok? <==>
      && (s.Risk? ==> ContradictionsFit(env, pages, s.contradictions))
      && (s.Chair? ==> PositionFits(env, pages, s.thesis) && PositionFits(env, pages, s.antiThesis))
    ensures Extras(env, p, s).Ok? ==> Extras(env, p, s).value.table == p.table
  {
    if s.Risk? {
      ContradictionsFitIff(env, p.table, pages, s.contradictions);
    }
    if s.Chair? {
      BoxFitsIff(env, p.table, pages, s.thesis.support);
      BoxFitsIff(env, p.table, pages, s.antiThesis.support);
    }
  }

  lemma StageFitsIff(env: Env, p: Progress, s: Stage, pages: seq<string>)
    requires RegisteredAll(env, p.table, s.base.sources).Ok?
    requires SameKeys(RegisteredAll(env, p.table, s.base.sources).value.byURL, pages)
    ensures AfterStage(env, p, s).Ok? <==> StageFits(env, pages, s)
  {
    var t := RegisteredAll(env, p.table, s.base.sources).value;
    ExtrasFitIff(env, p.(table := t), s, pages);
    BoxFitsIff(env, t, pages, s.base.findings);
  }

  /** The last stage cites only what the stages declare, which is declarable. */
  ghost predicate LastFits(env: Env, stages: seq<Stage>)
    requires stages != []
  {
    var srcs := Declared(stages);
    Declarable(env, srcs) && StageFits(env, Pages(env, srcs), stages[|stages| - 1])
  }

  /** Each stage fits what it and those before it declare. */
  ghost predicate AllFit(env: Env, stages: seq<Stage>) {
    stages == [] || (AllFit(env, stages[..|stages| - 1]) && LastFits(env, stages))
  }

  lemma LastFitsIff(env: Env, stages: seq<Stage>, s: Stage)
    requires AfterStages(env, stages).Ok?
    ensures AfterStages(env, stages + [s]).Ok? <==> LastFits(env, stages + [s])
  {
    var p, all := AfterStages(env, stages).value, stages + [s];
    assert all[..|stages|] == stages;
    TableOfStages(env, stages);
    AfterStagesSnoc(env, stages, s);
    RegisteredInParts(env, EMPTY, Declared(stages), s.base.sources);
    DeclarationsAreListed(env, Declared(all));
    if RegisteredAll(env, p.table, s.base.sources).Ok? {
      StageFitsIff(env, p, s, Pages(env, Declared(all)));
    }
  }

  ghost predicate TakenIffFit(env: Env, stages: seq<Stage>) { AfterStages(env, stages).Ok? <==> AllFit(env, stages) }

  lemma TakenIffFitSnoc(env: Env, stages: seq<Stage>, s: Stage)
    requires TakenIffFit(env, stages)
    ensures TakenIffFit(env, stages + [s])
  {
    assert (stages + [s])[..|stages|] == stages;
    AfterStagesSnoc(env, stages, s);
    if AfterStages(env, stages).Ok? {
      LastFitsIff(env, stages, s);
    }
  }

  /** The stages of a run are taken exactly when each of them fits what it and those before it declare. */
  lemma {:induction false} StagesFitIff(env: Env, stages: seq<Stage>)
    ensures TakenIffFit(env, stages)
  {
    if stages != [] {
      var init := stages[..|stages| - 1];
      StagesFitIff(env, init);
      TakenIffFitSnoc(env, init, stages[|stages| - 1]);
      assert stages == init + [stages[|stages| - 1]];
    }
  }

  /** Nothing is uploaded when a stage did not arrive; otherwise the run uploads exactly when its stages fit and
      concluded, and the artifact, which reports them, meets the coverage floor and the gate. */
  lemma UploadsIff(env: Env, keyOf: KeyFn, outputs: seq<Result<Stage>>, gate: Artifact -> bool)
    ensures Uploads(env, keyOf, outputs, gate) ==> Arrived(outputs).Ok?
    ensures Arrived(outputs).Ok? <==> forall i :: 0 <= i < |outputs| ==> outputs[i].Ok?
    ensures Arrived(outputs).Ok? ==>
      var stages := Arrived(outputs).value;
      && |stages| == |outputs| && (forall i :: 0 <= i < |outputs| ==> outputs[i] == Ok(stages[i]))
      && (Uploads(env, keyOf, outputs, gate) ==> AllFit(env, stages) && Concluded(stages))
      && (AllFit(env, stages) && Concluded(stages) ==>
            Decides(env, keyOf, stages, gate, Uploads(env, keyOf, outputs, gate)))
  {
    MapAllInOrder(ARRIVES, outputs);
    assert forall i :: 0 <= i < |outputs| ==> ARRIVES(outputs[i]) == outputs[i];
    if Arrived(outputs).Ok? {
      var stages := Arrived(outputs).value;
      StagesFitIff(env, stages);
      if AfterStages(env, stages).Ok? {
        ArtifactTells(env, stages);
      }
    }
  }

  /** The artifact reports the stages, and `uploaded` says whether it meets the floor and the gate. */
  ghost predicate Decides(env: Env, keyOf: KeyFn, stages: seq<Stage>, gate: Artifact -> bool, uploaded: bool) {
    && AfterStages(env, stages).Ok? && AfterStages(env, stages).value.priority.Some?
    && var a := Assembled(AfterStages(env, stages).value);
       Reports(env, stages, a) && (uploaded <==> Covered(keyOf, a) && gate(a))
  }

  // ------------------------------------------------------------------ the coverage floor

  /** A positive outcome needs a source, two grounded claims and a quarter of all claims grounded; any other
      outcome needs nothing. */
  lemma CoverageInFields(priority: Priority, sources: nat, grounded: nat, total: nat)
    ensures CoverageOk(priority, sources, grounded, total) <==>
      (priority == Investigate || priority == Watch ==> sources >= 1 && grounded >= 2 && 4 * grounded >= total)
  {
  }

  ghost predicate Says(keyOf: KeyFn, boxes: seq<seq<Finding>>, key: string, grounded: bool) {
    exists b, i :: 0 <= b < |boxes| && 0 <= i < |boxes[b]| && keyOf(boxes[b][i].statement) == key
      && (grounded ==> boxes[b][i].provenance == Sourced || boxes[b][i].provenance == Calculated)
  }

  lemma SaysSnoc(keyOf: KeyFn, boxes: seq<seq<Finding>>, box: seq<Finding>, key: string, grounded: bool)
    ensures Says(keyOf, boxes + [box], key, grounded) <==>
      Says(keyOf, boxes, key, grounded) || Says(keyOf, [box], key, grounded)
  {
    var all := boxes + [box];
    assert all[|boxes|] == box && [box][0] == box && forall b :: 0 <= b < |boxes| ==> all[b] == boxes[b];
    if Says(keyOf, [box], key, grounded) {
      var b, i :| 0 <= b < |[box]| && 0 <= i < |[box][b]| && keyOf([box][b][i].statement) == key
        && (grounded ==> [box][b][i].provenance == Sourced || [box][b][i].provenance == Calculated);
      assert all[|boxes|][i] == box[i];
    }
    if Says(keyOf, all, key, grounded) {
      var b, i :| 0 <= b < |all| && 0 <= i < |all[b]| && keyOf(all[b][i].statement) == key
        && (grounded ==> all[b][i].provenance == Sourced || all[b][i].provenance == Calculated);
      if b < |boxes| {
        assert boxes[b][i] == all[b][i];
      } else {
        assert [box][0][i] == all[b][i];
      }
    }
  }

  /** The claims counted are the keys of all findings of all boxes, and the grounded ones those that are
      sourced or calculated somewhere. */
  lemma {:induction false} CountedClaims(keyOf: KeyFn, boxes: seq<seq<Finding>>, key: string)
    ensures key in Keys(keyOf, Flat(boxes)) <==> key != "" && Says(keyOf, boxes, key, false)
    ensures key in GroundedKeys(keyOf, Flat(boxes)) <==> key != "" && Says(keyOf, boxes, key, true)
  {
    if boxes != [] {
      var init, box := boxes[..|boxes| - 1], boxes[|boxes| - 1];
      assert boxes == init + [box];
      CountedClaims(keyOf, init, key);
      SaysSnoc(keyOf, init, box, key, false);
      SaysSnoc(keyOf, init, box, key, true);
      BoxClaims(keyOf, box, key);
      assert forall f :: f in Flat(boxes) <==> f in Flat(init) || f in box;
    }
  }

  lemma {:induction false} FlatHas(boxes: seq<seq<Finding>>, f: Finding)
    ensures f in Flat(boxes) <==> exists b :: 0 <= b < |boxes| && Among(boxes[b], f)
  {
    if boxes != [] {
      var init, box := boxes[..|boxes| - 1], boxes[|boxes| - 1];
      FlatHas(init, f);
      if b :| 0 <= b < |init| && Among(init[b], f) {
        assert Among(boxes[b], f);
      }
      if b :| 0 <= b < |boxes| && Among(boxes[b], f) {
        assert b < |init| ==> Among(init[b], f);
      }
      assert f in box ==> Among(boxes[|boxes| - 1], f);
    }
  }

  /** The findings counted towards the floor are those of the stages, of both positions and of the risk stage. */
  lemma FindingsCounted(a: Artifact, f: Finding)
    ensures f in Flat(AllFindings(a)) <==>
      || (exists b :: 0 <= b < |a.boxes| && Among(a.boxes[b], f))
      || f in a.thesis.support || f in a.antiThesis.support || f in a.riskFindings
  {
    var all, n := AllFindings(a), |a.boxes|;
    FlatHas(all, f);
    assert forall b :: 0 <= b < n ==> all[b] == a.boxes[b];
    assert all[n] == a.thesis.support && all[n + 1] == a.antiThesis.support && all[n + 2] == a.riskFindings;
    if b :| 0 <= b < n && Among(a.boxes[b], f) {
      assert Among(all[b], f);
    }
    assert f in a.thesis.support ==> Among(all[n], f);
    assert f in a.antiThesis.support ==> Among(all[n + 1], f);
    assert f in a.riskFindings ==> Among(all[n + 2], f);
  }

  lemma BoxClaims(keyOf: KeyFn, box: seq<Finding>, key: string)
    ensures key in Keys(keyOf, box) <==> key != "" && Says(keyOf, [box], key, false)
    ensures key in GroundedKeys(keyOf, box) <==> key != "" && Says(keyOf, [box], key, true)
  {
    if key in Keys(keyOf, box) {
      var i :| 0 <= i < |box| && keyOf(box[i].statement) == key;
      assert [box][0][i] == box[i];
    }
    if key in GroundedKeys(keyOf, box) {
      var i :| 0 <= i < |box| && keyOf(box[i].statement) == key && Grounded(box[i]);
      assert [box][0][i] == box[i];
    }
  }
}
