/** Counting distinct claims, and merging review claims with their evidence paths. The key function is
    ClaimKeys.KeyOf in use; nothing here depends on which function it is. */
module Claims {
  import opened Common
  import opened Text
  import opened Citations

  type KeyFn = string -> string

  // ------------------------------------------------------------------ counting distinct claims

  predicate Grounded(f: Finding) { f.provenance.Sourced? || f.provenance.Calculated? }

  function Keys(keyOf: KeyFn, fs: seq<Finding>): set<string> {
    set f | f in fs && keyOf(f.statement) != "" :: keyOf(f.statement)
  }

  function GroundedKeys(keyOf: KeyFn, fs: seq<Finding>): set<string> {
    set f | f in fs && keyOf(f.statement) != "" && Grounded(f) :: keyOf(f.statement)
  }

  function Flat(boxes: seq<seq<Finding>>): seq<Finding> {
    if boxes == [] then [] else Flat(boxes[..|boxes| - 1]) + boxes[|boxes| - 1]
  }

  lemma KeysSnoc(keyOf: KeyFn, fs: seq<Finding>, f: Finding)
    ensures var key := keyOf(f.statement);
      && Keys(keyOf, fs + [f]) == Keys(keyOf, fs) + (if key == "" then {} else {key})
      && GroundedKeys(keyOf, fs + [f]) == GroundedKeys(keyOf, fs) + (if key == "" || !Grounded(f) then {} else {key})
  {
    assert forall g :: g in fs + [f] <==> g in fs || g == f;
  }

  /** Walks one list of findings, remembering each key and whether it was ever grounded. */
  method CountBox(
    keyOf: KeyFn, fs: seq<Finding>, seen0: map<string, bool>, order0: seq<string>, ghost before: seq<Finding>)
    returns (seen: map<string, bool>, order: seq<string>)
    requires Remembers(keyOf, before, seen0, order0)
    ensures Remembers(keyOf, before + fs, seen, order)
  {
    seen, order := seen0, order0;
    assert before + fs[..0] == before;
    for i := 0 to |fs|
      invariant Remembers(keyOf, before + fs[..i], seen, order)
    {
      var f := fs[i];
      assert before + fs[..i + 1] == before + fs[..i] + [f];
      KeysSnoc(keyOf, before + fs[..i], f);
      var key := keyOf(f.statement);
      if key != "" {
        if key !in seen {
          order := order + [key];
          seen := seen[key := Grounded(f)];
        } else {
          seen := seen[key := seen[key] || Grounded(f)];
        }
      }
    }
    assert fs[..|fs|] == fs;
  }

  ghost predicate Remembers(keyOf: KeyFn, fs: seq<Finding>, seen: map<string, bool>, order: seq<string>) {
    && seen.Keys == Keys(keyOf, fs)
    && (forall k :: k in seen ==> (seen[k] <==> k in GroundedKeys(keyOf, fs)))
    && (forall i, j :: 0 <= i < j < |order| ==> order[i] != order[j])
    && (forall k :: k in order <==> k in seen)
  }

  /** Counts distinct claims, and those with a sourced or calculated appearance anywhere. */
  method GroundedCoverage(keyOf: KeyFn, boxes: seq<seq<Finding>>) returns (grounded: nat, total: nat)
    ensures total == |Keys(keyOf, Flat(boxes))|
    ensures grounded == |GroundedKeys(keyOf, Flat(boxes))|
  {
    var seen: map<string, bool>, order: seq<string> := map[], [];
    for b := 0 to |boxes|
      invariant Remembers(keyOf, Flat(boxes[..b]), seen, order)
    {
      assert boxes[..b + 1][..b] == boxes[..b];
      seen, order := CountBox(keyOf, boxes[b], seen, order, Flat(boxes[..b]));
    }
    assert boxes[..|boxes|] == boxes;
    grounded, total := 0, 0;
    for i := 0 to |order|
      invariant total == i
      invariant grounded == |TrueOf(seen, order[..i])|
    {
      total := total + 1;
      TrueOfSnoc(seen, order, i);
      if order[i] in seen && seen[order[i]] {
        grounded := grounded + 1;
      }
    }
    assert order[..|order|] == order;
    assert TrueOf(seen, order) == GroundedKeys(keyOf, Flat(boxes));
    SizeOfDistinct(order, seen.Keys);
  }

  function TrueOf(seen: map<string, bool>, order: seq<string>): set<string> {
    set k | k in order && k in seen && seen[k]
  }

  lemma TrueOfSnoc(seen: map<string, bool>, order: seq<string>, i: nat)
    requires i < |order| && forall a, b :: 0 <= a < b < |order| ==> order[a] != order[b]
    ensures |TrueOf(seen, order[..i + 1])| ==
      |TrueOf(seen, order[..i])| + if order[i] in seen && seen[order[i]] then 1 else 0
  {
    assert order[..i + 1] == order[..i] + [order[i]];
    assert order[i] !in order[..i];
    assert TrueOf(seen, order[..i + 1]) ==
      TrueOf(seen, order[..i]) + if order[i] in seen && seen[order[i]] then {order[i]} else {};
  }

  lemma {:induction false} SizeOfDistinct(order: seq<string>, s: set<string>)
    requires forall a, b :: 0 <= a < b < |order| ==> order[a] != order[b]
    requires forall k :: k in order <==> k in s
    ensures |order| == |s|
  {
    if order == [] {
      assert s == {};
    } else {
      var n := |order| - 1;
      assert order == order[..n] + [order[n]];
      assert order[n] !in order[..n];
      SizeOfDistinct(order[..n], s - {order[n]});
    }
  }

  /** Neither order nor repetition of findings changes the two counts. */
  lemma CoverageIsOfTheSet(keyOf: KeyFn, a: seq<Finding>, b: seq<Finding>)
    requires forall f :: f in a <==> f in b
    ensures Keys(keyOf, a) == Keys(keyOf, b) && GroundedKeys(keyOf, a) == GroundedKeys(keyOf, b)
  {
  }

  /** Restating an ungrounded or grounded claim adds nothing, and grounded claims are among all. */
  lemma RestatementAddsNothing(keyOf: KeyFn, fs: seq<Finding>, f: Finding, g: Finding)
    requires g in fs && keyOf(f.statement) == keyOf(g.statement) && (Grounded(f) ==> Grounded(g))
    ensures Keys(keyOf, fs + [f]) == Keys(keyOf, fs) && GroundedKeys(keyOf, fs + [f]) == GroundedKeys(keyOf, fs)
    ensures |GroundedKeys(keyOf, fs)| <= |Keys(keyOf, fs)|
  {
    KeysSnoc(keyOf, fs, f);
    SubsetSize(GroundedKeys(keyOf, fs), Keys(keyOf, fs));
  }

  lemma {:induction false} SubsetSize(a: set<string>, b: set<string>)
    requires a <= b
    ensures |a| <= |b|
  {
    if a != {} {
      var x :| x in a;
      SubsetSize(a - {x}, b - {x});
    }
  }

  const MIN_GROUNDED := 2

  datatype Priority = Investigate | Watch | Reject | Undecided

  /** The coverage gate: a positive outcome needs sources, two grounded claims, and a quarter grounded. */
  predicate CoverageOk(priority: Priority, sources: nat, grounded: nat, total: nat) {
    (priority.Investigate? || priority.Watch?) ==>
      sources > 0 && grounded >= MIN_GROUNDED && !(total > 0 && 4 * grounded < total)
  }

  // ------------------------------------------------------------------ evidence paths

  datatype Claim = Claim(code: string, statement: string, paths: seq<string>)

  const MAX_PATHS := 12
  const MAX_ITEMS := 40

  function Take(ps: seq<string>): seq<string> { if |ps| > MAX_PATHS then ps[..MAX_PATHS] else ps }

  /** What conversion leaves on a claim: no path twice, and no more than the cap. */
  ghost predicate Clean(ps: seq<string>) {
    |ps| <= MAX_PATHS && forall i, j :: 0 <= i < j < |ps| ==> ps[i] != ps[j]
  }

  const TRIMMED: string -> seq<string> := (p: string) => if TrimSpace(p) == "" then [] else [TrimSpace(p)]

  /** Each path trimmed, the blank ones left out. */
  function Trimmed(ps: seq<string>): seq<string> { FlatMap(TRIMMED, ps) }

  ghost predicate AllIn(ps: seq<string>, index: set<string>) { forall p :: p in ps ==> p in index }

  lemma TrimmedHolds(ps: seq<string>, i: nat)
    requires i < |ps| && TrimSpace(ps[i]) != ""
    ensures TrimSpace(ps[i]) in Trimmed(ps)
  {
    assert TRIMMED(ps[i]) == [TrimSpace(ps[i])];
    FlatMapHas(TRIMMED, ps, TrimSpace(ps[i]));
    assert Among(TRIMMED(ps[i]), TrimSpace(ps[i]));
  }

  /** Trims, drops blanks, refuses a path outside the snapshot, removes repeats, and caps. */
  method CleanEvidencePaths(ps: seq<string>, index: set<string>) returns (r: Result<seq<string>>)
    ensures r.Ok? <==> AllIn(Trimmed(ps), index)
    ensures r.Ok? ==> r.value == Take(Uniq(Trimmed(ps))) && Clean(r.value) && AllIn(r.value, index)
  {
    var out: seq<string> := [];
    ghost var trimmed: seq<string> := [];
    for i := 0 to |ps|
      invariant trimmed == Trimmed(ps[..i]) && out == Uniq(trimmed) && AllIn(trimmed, index)
    {
      FlatMapStep(TRIMMED, ps, i);
      var p := TrimSpace(ps[i]);
      assert p == "" ==> Trimmed(ps[..i]) + [] == Trimmed(ps[..i]);
      trimmed := Trimmed(ps[..i + 1]);
      if p != "" {
        if p !in index {
          TrimmedHolds(ps, i);
          return Err;
        }
        UniqSnoc(Trimmed(ps[..i]), p);
        if p !in out {
          out := out + [p];
        }
      }
    }
    assert ps[..|ps|] == ps;
    TakeUniqIsClean(trimmed);
    return Ok(Take(out));
  }

  lemma TakeUniqIsClean(ps: seq<string>)
    ensures Clean(Take(Uniq(ps))) && forall p :: p in Take(Uniq(ps)) ==> p in ps
  {
    UniqIsDistinct(ps);
    assert forall p :: p in Take(Uniq(ps)) ==> p in Uniq(ps);
  }

  /** What a converted claim guarantees to everything behind it. */
  ghost predicate Usable(c: Claim, index: set<string>) {
    && Clean(c.paths) && c.paths != [] && (forall p :: p in c.paths ==> p in index)
    && c.statement != "" && |c.statement| <= MAX_STATEMENT
  }

  /** A claim that cites something, as it is passed on. */
  function Cleaned(c: Claim): Option<Claim> {
    var paths := Take(Uniq(Trimmed(c.paths)));
    if paths == [] then None
    else Some(Claim(TrimSpace(c.code), Clip(TrimSpace(c.statement), MAX_STATEMENT), paths))
  }

  /** What a partial conversion keeps of a list, in order. */
  function Kept(f: Claim -> Option<Claim>, raw: seq<Claim>): seq<Claim> {
    if raw == [] then []
    else
      var out, c := Kept(f, raw[..|raw| - 1]), f(raw[|raw| - 1]);
      if c.Some? then out + [c.value] else out
  }

  lemma KeptSnoc(f: Claim -> Option<Claim>, raw: seq<Claim>, i: nat)
    requires i < |raw|
    ensures Kept(f, raw[..i + 1]) ==
      if f(raw[i]).Some? then Kept(f, raw[..i]) + [f(raw[i]).value] else Kept(f, raw[..i])
  {
    assert raw[..i + 1][..i] == raw[..i];
  }

  const CLEAN: Claim -> Option<Claim> := c => Cleaned(c)

  /** One claim: refused, dropped for citing nothing, or converted. */
  method ConvertReviewClaim(c: Claim, index: set<string>) returns (r: Result<Option<Claim>>)
    ensures r.Ok? <==> Acceptable(c, index)
    ensures r.Ok? ==> r.value == Cleaned(c) && (r.value.Some? ==> Usable(r.value.value, index))
  {
    var statement := TrimSpace(c.statement);
    if statement == "" {
      return Err;
    }
    var paths := CleanEvidencePaths(c.paths, index);
    if paths.Err? {
      return Err;
    }
    if |paths.value| == 0 {
      return Ok(None);
    }
    return Ok(Some(Claim(TrimSpace(c.code), Clip(statement, MAX_STATEMENT), paths.value)));
  }

  /** A claim is passed on when some path of it is not blank: trimmed, the statement clipped, with its first
      twelve different paths. */
  lemma CleanedInFields(c: Claim)
    ensures Cleaned(c) == None <==> forall i :: 0 <= i < |c.paths| ==> TrimSpace(c.paths[i]) == ""
    ensures Cleaned(c).Some? ==>
      var r, paths := Cleaned(c).value, Uniq(Trimmed(c.paths));
      && r.code == TrimSpace(c.code) && r.statement == Clip(TrimSpace(c.statement), 2000)
      && (|paths| <= 12 ==> r.paths == paths) && (|paths| > 12 ==> r.paths == paths[..12])
  {
    var t := Trimmed(c.paths);
    NothingKept(c.paths);
    assert t != [] ==> t[0] in Uniq(t);
    assert Uniq(t) != [] ==> Uniq(t)[0] in t;
  }

  lemma NothingKept(ps: seq<string>)
    ensures Trimmed(ps) == [] <==> forall i :: 0 <= i < |ps| ==> TrimSpace(ps[i]) == ""
  {
    if Trimmed(ps) != [] {
      FlatMapHas(TRIMMED, ps, Trimmed(ps)[0]);
    }
    forall i | 0 <= i < |ps| && TrimSpace(ps[i]) != "" ensures Trimmed(ps) != [] {
      TrimmedHolds(ps, i);
    }
  }

  /** A path is kept when it is some path of the list trimmed, and not blank. */
  lemma TrimmedMeans(ps: seq<string>, p: string)
    ensures p in Trimmed(ps) <==> p != "" && exists i :: 0 <= i < |ps| && TrimSpace(ps[i]) == p
  {
    FlatMapHas(TRIMMED, ps, p);
    if i :| 0 <= i < |ps| && TrimSpace(ps[i]) == p && p != "" {
      TrimmedHolds(ps, i);
    }
    if i :| 0 <= i < |ps| && Among(TRIMMED(ps[i]), p) {
      assert TrimSpace(ps[i]) == p;
    }
  }

  /** The kept ones stand in the order of the list, converted. */
  lemma {:induction false} KeptInOrder(f: Claim -> Option<Claim>, a: seq<Claim>, b: seq<Claim>, c: Claim)
    ensures Kept(f, a + b) == Kept(f, a) + Kept(f, b)
    ensures Kept(f, [c]) == if f(c).Some? then [f(c).value] else []
  {
    if b == [] {
      assert a + b == a;
    } else {
      var n := |b| - 1;
      KeptInOrder(f, a, b[..n], c);
      assert (a + b)[..|a + b| - 1] == a + b[..n];
    }
  }

  ghost predicate AllUsable(cs: seq<Claim>, index: set<string>) { forall k :: 0 <= k < |cs| ==> Usable(cs[k], index) }

  ghost predicate AllAcceptable(raw: seq<Claim>, index: set<string>) {
    forall k :: 0 <= k < |raw| ==> Acceptable(raw[k], index)
  }

  lemma AcceptableSnoc(raw: seq<Claim>, index: set<string>, i: nat)
    requires i < |raw| && AllAcceptable(raw[..i], index)
    ensures AllAcceptable(raw[..i + 1], index) <==> Acceptable(raw[i], index)
  {
    assert raw[..i + 1] == raw[..i] + [raw[i]];
  }

  lemma UsableSnoc(out: seq<Claim>, index: set<string>, c: Claim)
    requires AllUsable(out, index) && Usable(c, index)
    ensures AllUsable(out + [c], index)
  {
  }

  /** Converts the claims one by one until one fails. */
  method ConvertEach(raw: seq<Claim>, index: set<string>) returns (r: Result<seq<Claim>>)
    ensures r.Ok? ==> AllAcceptable(raw, index) && AllUsable(r.value, index) && r.value == Kept(CLEAN, raw)
    ensures r.Err? ==> !AllAcceptable(raw, index)
  {
    var out: seq<Claim> := [];
    for i := 0 to |raw|
      invariant AllAcceptable(raw[..i], index) && AllUsable(out, index) && out == Kept(CLEAN, raw[..i])
    {
      AcceptableSnoc(raw, index, i);
      var c := ConvertReviewClaim(raw[i], index);
      if c.Err? {
        return Err;
      }
      KeptSnoc(CLEAN, raw, i);
      if c.value.Some? {
        UsableSnoc(out, index, c.value.value);
        out := out + [c.value.value];
      }
    }
    assert raw[..|raw|] == raw;
    return Ok(out);
  }

  /** Converts a stage's claims: one without a statement or with a path outside the snapshot fails the
      run, one that cites nothing is dropped. */
  method ConvertReviewClaims(raw: seq<Claim>, index: set<string>) returns (r: Result<seq<Claim>>)
    ensures r.Ok? <==> |raw| <= 40 && AllAcceptable(raw, index)
    ensures r.Ok? ==> r.value == Kept(CLEAN, raw) && AllUsable(r.value, index)
  {
    if |raw| > MAX_ITEMS {
      return Err;
    }
    r := ConvertEach(raw, index);
  }

  ghost predicate Acceptable(c: Claim, index: set<string>) {
    TrimSpace(c.statement) != "" && forall p :: p in Trimmed(c.paths) ==> p in index
  }

  // ------------------------------------------------------------------ merging review claims

  function KeyAt(keyOf: KeyFn, cs: seq<Claim>, key: string): (k: nat)
    ensures k <= |cs|
    ensures k < |cs| ==> keyOf(cs[k].statement) == key
    ensures forall i :: 0 <= i < k ==> keyOf(cs[i].statement) != key
  {
    FirstWhere(cs, (c: Claim) => keyOf(c.statement) == key)
  }

  function AddPaths(ps: seq<string>, more: seq<string>): seq<string> {
    if more == [] then ps
    else
      var cur, p := AddPaths(ps, more[..|more| - 1]), more[|more| - 1];
      if p !in cur && |cur| < MAX_PATHS then cur + [p] else cur
  }

  function Merged(a: Claim, c: Claim): Claim {
    a.(paths := AddPaths(a.paths, c.paths), code := if a.code == "" then c.code else a.code)
  }

  function Absorb(keyOf: KeyFn, out: seq<Claim>, c: Claim): seq<Claim> {
    var key := keyOf(c.statement);
    if key == "" then out
    else
      var k := KeyAt(keyOf, out, key);
      if k < |out| then out[k := Merged(out[k], c)] else out + [c]
  }

  function Deduped(keyOf: KeyFn, cs: seq<Claim>): seq<Claim> {
    if cs == [] then [] else Absorb(keyOf, Deduped(keyOf, cs[..|cs| - 1]), cs[|cs| - 1])
  }

  /** Folds a restatement into the claim it restates, in place. */
  method MergeInto(out: seq<Claim>, idx: nat, c: Claim) returns (r: seq<Claim>)
    requires idx < |out|
    ensures r == out[idx := Merged(out[idx], c)]
  {
    r := out;
    for n := 0 to |c.paths|
      invariant r == out[idx := out[idx].(paths := AddPaths(out[idx].paths, c.paths[..n]))]
    {
      assert c.paths[..n + 1][..n] == c.paths[..n];
      if c.paths[n] !in r[idx].paths && |r[idx].paths| < MAX_PATHS {
        r := r[idx := r[idx].(paths := r[idx].paths + [c.paths[n]])];
      }
    }
    assert c.paths[..|c.paths|] == c.paths;
    if r[idx].code == "" {
      r := r[idx := r[idx].(code := c.code)];
    }
  }

  ghost predicate Indexes(keyOf: KeyFn, out: seq<Claim>, seen: map<string, nat>) {
    forall key :: (key in seen <==> key != "" && KeyAt(keyOf, out, key) < |out|)
      && (key in seen ==> seen[key] == KeyAt(keyOf, out, key))
  }

  /** Merges in one pass, finding earlier claims through an index map. */
  method DedupeClaims(keyOf: KeyFn, cs: seq<Claim>) returns (out: seq<Claim>)
    ensures out == Deduped(keyOf, cs)
  {
    var seen: map<string, nat> := map[];
    out := [];
    for i := 0 to |cs|
      invariant out == Deduped(keyOf, cs[..i]) && Indexes(keyOf, out, seen)
    {
      var key := keyOf(cs[i].statement);
      if key != "" {
        SeenIsIndex(keyOf, out, seen, key);
        if key in seen {
          var merged := MergeInto(out, seen[key], cs[i]);
          MergeKeepsIndexes(keyOf, out, merged, seen);
          out := merged;
        } else {
          AppendIndexes(keyOf, out, cs[i], seen);
          seen := seen[key := |out|];
          out := out + [cs[i]];
        }
      }
      DedupedSnoc(keyOf, cs, i);
    }
    assert cs[..|cs|] == cs;
  }

  lemma DedupedSnoc(keyOf: KeyFn, cs: seq<Claim>, i: nat)
    requires i < |cs|
    ensures Deduped(keyOf, cs[..i + 1]) == Absorb(keyOf, Deduped(keyOf, cs[..i]), cs[i])
  {
    assert cs[..i + 1][..i] == cs[..i];
  }

  lemma SeenIsIndex(keyOf: KeyFn, out: seq<Claim>, seen: map<string, nat>, key: string)
    requires Indexes(keyOf, out, seen) && key != ""
    ensures key in seen <==> KeyAt(keyOf, out, key) < |out|
    ensures key in seen ==> seen[key] == KeyAt(keyOf, out, key)
  {
  }

  lemma MergeKeepsIndexes(keyOf: KeyFn, a: seq<Claim>, b: seq<Claim>, seen: map<string, nat>)
    requires Indexes(keyOf, a, seen)
    requires |a| == |b| && forall i :: 0 <= i < |a| ==> a[i].statement == b[i].statement
    ensures Indexes(keyOf, b, seen)
  {
    SameKeysSameIndex(keyOf, a, b);
  }

  lemma AppendIndexes(keyOf: KeyFn, a: seq<Claim>, c: Claim, seen: map<string, nat>)
    requires Indexes(keyOf, a, seen) && keyOf(c.statement) != "" && keyOf(c.statement) !in seen
    ensures Indexes(keyOf, a + [c], seen[keyOf(c.statement) := |a|])
  {
    IndexAfterAppend(keyOf, a, c);
  }

  lemma SameKeysSameIndex(keyOf: KeyFn, a: seq<Claim>, b: seq<Claim>)
    requires |a| == |b| && forall i :: 0 <= i < |a| ==> a[i].statement == b[i].statement
    ensures forall key :: KeyAt(keyOf, a, key) == KeyAt(keyOf, b, key)
  {
    forall key ensures KeyAt(keyOf, a, key) == KeyAt(keyOf, b, key) {
      var k, l := KeyAt(keyOf, a, key), KeyAt(keyOf, b, key);
      assert k < |a| ==> keyOf(b[k].statement) == key;
      assert l < |b| ==> keyOf(a[l].statement) == key;
    }
  }

  function IndexWith(keyOf: KeyFn, a: seq<Claim>, c: Claim, key: string): nat {
    if KeyAt(keyOf, a, key) < |a| then KeyAt(keyOf, a, key)
    else if key == keyOf(c.statement) then |a| else |a| + 1
  }

  lemma IndexAfterAppend(keyOf: KeyFn, a: seq<Claim>, c: Claim)
    requires KeyAt(keyOf, a, keyOf(c.statement)) == |a|
    ensures forall key :: KeyAt(keyOf, a + [c], key) == IndexWith(keyOf, a, c, key)
  {
    forall key
      ensures KeyAt(keyOf, a + [c], key) == IndexWith(keyOf, a, c, key)
    {
      var k, l := KeyAt(keyOf, a, key), KeyAt(keyOf, a + [c], key);
      assert forall i :: 0 <= i < |a| ==> (a + [c])[i] == a[i];
      assert (a + [c])[|a|] == c;
      if k < |a| {
        assert keyOf((a + [c])[k].statement) == key;
      }
    }
  }

  // ------------------------------------------------------------------ what merging means

  /** The keys of the claims, each at its first occurrence. */
  function FirstKeys(keyOf: KeyFn, cs: seq<Claim>): seq<string> {
    if cs == [] then []
    else
      var ks, key := FirstKeys(keyOf, cs[..|cs| - 1]), keyOf(cs[|cs| - 1].statement);
      if key == "" || key in ks then ks else ks + [key]
  }

  /** Every path cited under a key, in order of citation. */
  function PathsUnder(keyOf: KeyFn, cs: seq<Claim>, key: string): seq<string> {
    if cs == [] then []
    else
      var c := cs[|cs| - 1];
      PathsUnder(keyOf, cs[..|cs| - 1], key) + if keyOf(c.statement) == key then c.paths else []
  }

  /** The first code given under a key. */
  function CodeUnder(keyOf: KeyFn, cs: seq<Claim>, key: string): string {
    if cs == [] then ""
    else
      var c, code := cs[|cs| - 1], CodeUnder(keyOf, cs[..|cs| - 1], key);
      if code == "" && keyOf(c.statement) == key then c.code else code
  }

  ghost predicate AllClean(cs: seq<Claim>) { forall i :: 0 <= i < |cs| ==> Clean(cs[i].paths) }

  /** Adding one path to the first twelve of a list gives the first twelve of the longer list. */
  lemma AddOnePath(a: seq<string>, p: string)
    ensures Take(Uniq(a + [p])) ==
      if p !in Take(Uniq(a)) && |Take(Uniq(a))| < MAX_PATHS then Take(Uniq(a)) + [p] else Take(Uniq(a))
  {
    UniqSnoc(a, p);
  }

  lemma {:induction false} UniqOfConcat(a: seq<string>, more: seq<string>)
    ensures AddPaths(Take(Uniq(a)), more) == Take(Uniq(a + more))
  {
    if more == [] {
      assert a + more == a;
    } else {
      var m, p := more[..|more| - 1], more[|more| - 1];
      UniqOfConcat(a, m);
      assert a + more == a + m + [p];
      AddOnePath(a + m, p);
    }
  }

  /** The first claim with the key says this. */
  ghost predicate StatesFirst(keyOf: KeyFn, cs: seq<Claim>, key: string, statement: string) {
    KeyAt(keyOf, cs, key) < |cs| && cs[KeyAt(keyOf, cs, key)].statement == statement
  }

  lemma KeyAtSnoc(keyOf: KeyFn, cs: seq<Claim>, c: Claim, key: string)
    ensures KeyAt(keyOf, cs, key) < |cs| ==> KeyAt(keyOf, cs + [c], key) == KeyAt(keyOf, cs, key)
    ensures KeyAt(keyOf, cs, key) == |cs| ==>
      KeyAt(keyOf, cs + [c], key) == if keyOf(c.statement) == key then |cs| else |cs| + 1
  {
    var all := cs + [c];
    assert all[|cs|] == c && forall i :: 0 <= i < |cs| ==> all[i] == cs[i];
    var k := KeyAt(keyOf, cs, key);
    assert k < |cs| ==> keyOf(all[k].statement) == key;
  }

  lemma FirstStays(keyOf: KeyFn, cs: seq<Claim>, c: Claim, key: string, statement: string)
    requires StatesFirst(keyOf, cs, key, statement)
    ensures StatesFirst(keyOf, cs + [c], key, statement)
  {
    KeyAtSnoc(keyOf, cs, c, key);
  }

  /** An output claim stands for a key: the statement that first had it, the first code and the first twelve
      paths given under it. */
  ghost predicate StandsFor(keyOf: KeyFn, cs: seq<Claim>, key: string, c: Claim) {
    && keyOf(c.statement) == key && StatesFirst(keyOf, cs, key, c.statement)
    && c.paths == Take(Uniq(PathsUnder(keyOf, cs, key)))
    && c.code == CodeUnder(keyOf, cs, key)
  }

  ghost predicate Absent(keyOf: KeyFn, cs: seq<Claim>, key: string) {
    KeyAt(keyOf, cs, key) == |cs| && PathsUnder(keyOf, cs, key) == [] && CodeUnder(keyOf, cs, key) == ""
  }

  ghost predicate MergedRight(keyOf: KeyFn, cs: seq<Claim>, out: seq<Claim>) {
    var ks := FirstKeys(keyOf, cs);
    && |out| == |ks|
    && (forall i, j :: 0 <= i < j < |ks| ==> ks[i] != ks[j])
    && (forall k :: 0 <= k < |ks| ==> ks[k] != "" && StandsFor(keyOf, cs, ks[k], out[k]))
    && (forall key :: key != "" && key !in ks ==> Absent(keyOf, cs, key))
  }

  lemma OtherKeysKeep(keyOf: KeyFn, cs: seq<Claim>, c: Claim, key: string)
    requires keyOf(c.statement) != key
    ensures PathsUnder(keyOf, cs + [c], key) == PathsUnder(keyOf, cs, key)
    ensures CodeUnder(keyOf, cs + [c], key) == CodeUnder(keyOf, cs, key)
  {
    assert (cs + [c])[..|cs|] == cs;
    assert PathsUnder(keyOf, cs, key) + [] == PathsUnder(keyOf, cs, key);
  }

  lemma SameKeyExtends(keyOf: KeyFn, cs: seq<Claim>, c: Claim)
    ensures var key := keyOf(c.statement);
      && PathsUnder(keyOf, cs + [c], key) == PathsUnder(keyOf, cs, key) + c.paths
      && CodeUnder(keyOf, cs + [c], key) ==
         (if CodeUnder(keyOf, cs, key) == "" then c.code else CodeUnder(keyOf, cs, key))
  {
    assert (cs + [c])[..|cs|] == cs;
  }

  lemma FirstKeysSnoc(keyOf: KeyFn, cs: seq<Claim>, c: Claim)
    ensures var ks, key := FirstKeys(keyOf, cs), keyOf(c.statement);
      FirstKeys(keyOf, cs + [c]) == if key == "" || key in ks then ks else ks + [key]
  {
    assert (cs + [c])[..|cs|] == cs;
  }

  lemma KeyOfOutput(keyOf: KeyFn, cs: seq<Claim>, out: seq<Claim>, key: string)
    requires MergedRight(keyOf, cs, out)
    ensures var k, ks := KeyAt(keyOf, out, key), FirstKeys(keyOf, cs);
      (k < |out| <==> key in ks) && (k < |out| ==> ks[k] == key)
  {
    var k, ks := KeyAt(keyOf, out, key), FirstKeys(keyOf, cs);
    assert forall i :: 0 <= i < |ks| ==> StandsFor(keyOf, cs, ks[i], out[i]);
    assert k < |out| ==> ks[k] == key;
  }

  /** Output claims of other keys are unaffected by one more input claim. */
  lemma OthersStand(keyOf: KeyFn, cs: seq<Claim>, c: Claim, key: string, o: Claim)
    requires StandsFor(keyOf, cs, key, o) && (keyOf(c.statement) != key)
    ensures StandsFor(keyOf, cs + [c], key, o)
  {
    OtherKeysKeep(keyOf, cs, c, key);
    FirstStays(keyOf, cs, c, key, o.statement);
  }

  lemma AbsentStaysAbsent(keyOf: KeyFn, cs: seq<Claim>, out: seq<Claim>, c: Claim, key: string)
    requires MergedRight(keyOf, cs, out) && key != "" && key !in FirstKeys(keyOf, cs + [c])
    ensures Absent(keyOf, cs + [c], key)
  {
    FirstKeysSnoc(keyOf, cs, c);
    OtherKeysKeep(keyOf, cs, c, key);
    KeyAtSnoc(keyOf, cs, c, key);
  }

  lemma RestatementStands(keyOf: KeyFn, cs: seq<Claim>, c: Claim, o: Claim)
    requires StandsFor(keyOf, cs, keyOf(c.statement), o)
    ensures StandsFor(keyOf, cs + [c], keyOf(c.statement), Merged(o, c))
  {
    SameKeyExtends(keyOf, cs, c);
    FirstStays(keyOf, cs, c, keyOf(c.statement), o.statement);
    UniqOfConcat(PathsUnder(keyOf, cs, keyOf(c.statement)), c.paths);
  }

  lemma NewcomerStatesFirst(keyOf: KeyFn, cs: seq<Claim>, c: Claim)
    requires KeyAt(keyOf, cs, keyOf(c.statement)) == |cs|
    ensures StatesFirst(keyOf, cs + [c], keyOf(c.statement), c.statement)
  {
    KeyAtSnoc(keyOf, cs, c, keyOf(c.statement));
    assert (cs + [c])[|cs|] == c;
  }

  lemma NewcomerStands(keyOf: KeyFn, cs: seq<Claim>, c: Claim)
    requires Clean(c.paths)
    requires PathsUnder(keyOf, cs, keyOf(c.statement)) == [] && CodeUnder(keyOf, cs, keyOf(c.statement)) == ""
    requires KeyAt(keyOf, cs, keyOf(c.statement)) == |cs|
    ensures StandsFor(keyOf, cs + [c], keyOf(c.statement), c)
  {
    NewcomerStatesFirst(keyOf, cs, c);
    SameKeyExtends(keyOf, cs, c);
    UniqOfDistinct(c.paths);
    assert [] + c.paths == c.paths;
  }

  /** The output claim at each key, after one more input claim. */
  lemma AbsorbedStands(keyOf: KeyFn, cs: seq<Claim>, out: seq<Claim>, c: Claim, i: nat)
    requires MergedRight(keyOf, cs, out) && Clean(c.paths) && i < |FirstKeys(keyOf, cs + [c])|
    ensures |Absorb(keyOf, out, c)| == |FirstKeys(keyOf, cs + [c])|
    ensures var key := FirstKeys(keyOf, cs + [c])[i];
      key != "" && StandsFor(keyOf, cs + [c], key, Absorb(keyOf, out, c)[i])
  {
    var ks, key := FirstKeys(keyOf, cs), keyOf(c.statement);
    FirstKeysSnoc(keyOf, cs, c);
    KeyOfOutput(keyOf, cs, out, key);
    assert i < |ks| ==> StandsFor(keyOf, cs, ks[i], out[i]);
    if i < |ks| && ks[i] != key {
      OthersStand(keyOf, cs, c, ks[i], out[i]);
    } else if i < |ks| {
      RestatementStands(keyOf, cs, c, out[i]);
    } else {
      NewcomerStands(keyOf, cs, c);
    }
  }

  lemma AbsorbIsRight(keyOf: KeyFn, cs: seq<Claim>, out: seq<Claim>, c: Claim)
    requires MergedRight(keyOf, cs, out) && Clean(c.paths)
    ensures MergedRight(keyOf, cs + [c], Absorb(keyOf, out, c))
  {
    var ks' := FirstKeys(keyOf, cs + [c]);
    FirstKeysSnoc(keyOf, cs, c);
    KeyOfOutput(keyOf, cs, out, keyOf(c.statement));
    forall i | 0 <= i < |ks'|
      ensures ks'[i] != "" && StandsFor(keyOf, cs + [c], ks'[i], Absorb(keyOf, out, c)[i])
    {
      AbsorbedStands(keyOf, cs, out, c, i);
    }
    forall other | other != "" && other !in ks' ensures Absent(keyOf, cs + [c], other) {
      AbsentStaysAbsent(keyOf, cs, out, c, other);
    }
  }

  /** Merging keeps each key once, where it first occurred, with the statement that first had it, the first
      code given and the first twelve of all paths cited under it. */
  lemma {:induction false} DedupedIsRight(keyOf: KeyFn, cs: seq<Claim>)
    requires AllClean(cs)
    ensures MergedRight(keyOf, cs, Deduped(keyOf, cs))
  {
    if cs != [] {
      var init, c := cs[..|cs| - 1], cs[|cs| - 1];
      DedupedIsRight(keyOf, init);
      AbsorbIsRight(keyOf, init, Deduped(keyOf, init), c);
      assert init + [c] == cs;
    }
  }

  // ------------------------------------------------------------------ the same, claim by claim

  /** The keys kept are the non-empty ones. */
  lemma {:induction false} KeysKept(keyOf: KeyFn, cs: seq<Claim>, key: string)
    ensures key in FirstKeys(keyOf, cs) <==> key != "" && KeyAt(keyOf, cs, key) < |cs|
  {
    if cs != [] {
      var init, c := cs[..|cs| - 1], cs[|cs| - 1];
      assert cs == init + [c];
      KeysKept(keyOf, init, key);
      FirstKeysSnoc(keyOf, init, c);
      KeyAtSnoc(keyOf, init, c, key);
    }
  }

  /** They stand in the order of the claims that first had them. */
  lemma {:induction false} KeysInOrder(keyOf: KeyFn, cs: seq<Claim>, i: nat, j: nat)
    requires i < j < |FirstKeys(keyOf, cs)|
    ensures var ks := FirstKeys(keyOf, cs); KeyAt(keyOf, cs, ks[i]) < KeyAt(keyOf, cs, ks[j])
  {
    var init, c := cs[..|cs| - 1], cs[|cs| - 1];
    var ks, before := FirstKeys(keyOf, cs), FirstKeys(keyOf, init);
    assert cs == init + [c];
    FirstKeysSnoc(keyOf, init, c);
    KeyAtSnoc(keyOf, init, c, ks[i]);
    KeyAtSnoc(keyOf, init, c, ks[j]);
    KeysKept(keyOf, init, ks[i]);
    KeysKept(keyOf, init, ks[j]);
    if j < |before| {
      KeysInOrder(keyOf, init, i, j);
    } else {
      assert ks[i] in before;
    }
  }

  ghost predicate GivesCode(keyOf: KeyFn, c: Claim, key: string) { keyOf(c.statement) == key && c.code != "" }

  /** A key has the code of the first claim under it that gives one, and none when none does. */
  lemma {:induction false} CodeIsTheFirst(keyOf: KeyFn, cs: seq<Claim>, key: string, k: nat)
    requires k <= |cs| && (k < |cs| ==> GivesCode(keyOf, cs[k], key))
    requires forall i :: 0 <= i < k ==> !GivesCode(keyOf, cs[i], key)
    ensures CodeUnder(keyOf, cs, key) == if k < |cs| then cs[k].code else ""
  {
    if cs != [] {
      CodeIsTheFirst(keyOf, cs[..|cs| - 1], key, if k < |cs| then k else k - 1);
    }
  }

  /** The paths under a key are those of its claims, claim after claim. */
  lemma {:induction false} PathsInOrder(keyOf: KeyFn, a: seq<Claim>, b: seq<Claim>, key: string)
    ensures PathsUnder(keyOf, a + b, key) == PathsUnder(keyOf, a, key) + PathsUnder(keyOf, b, key)
  {
    if b == [] {
      assert a + b == a;
    } else {
      var m, c := b[..|b| - 1], b[|b| - 1];
      PathsInOrder(keyOf, a, m, key);
      assert b == m + [c] && a + b == a + m + [c];
      PathsSnoc(keyOf, a + m, c, key);
      PathsSnoc(keyOf, m, c, key);
    }
  }

  lemma PathsSnoc(keyOf: KeyFn, cs: seq<Claim>, c: Claim, key: string)
    ensures PathsUnder(keyOf, cs + [c], key) ==
      PathsUnder(keyOf, cs, key) + if keyOf(c.statement) == key then c.paths else []
  {
    assert (cs + [c])[..|cs|] == cs;
  }

  /** One merge keeps the statement, gives a code only where there was none, and adds the new paths behind the
      old ones as far as twelve. */
  lemma MergedInFields(a: Claim, c: Claim)
    requires Clean(a.paths)
    ensures var m := Merged(a, c);
      && m.statement == a.statement && (a.code != "" ==> m.code == a.code) && (a.code == "" ==> m.code == c.code)
      && a.paths <= m.paths && m.paths <= Uniq(a.paths + c.paths)
      && (|m.paths| == 12 || m.paths == Uniq(a.paths + c.paths))
  {
    UniqOfDistinct(a.paths);
    UniqOfConcat(a.paths, c.paths);
    UniqGrows(a.paths, c.paths);
  }

  lemma {:induction false} UniqGrows(a: seq<string>, b: seq<string>)
    ensures Uniq(a) <= Uniq(a + b)
  {
    if b == [] {
      assert a + b == a;
    } else {
      var n := |b| - 1;
      UniqGrows(a, b[..n]);
      assert a + b == a + b[..n] + [b[n]];
      UniqSnoc(a + b[..n], b[n]);
    }
  }

  lemma {:induction false} DistinctKeysStay(keyOf: KeyFn, cs: seq<Claim>)
    requires forall i :: 0 <= i < |cs| ==> keyOf(cs[i].statement) != ""
    requires forall i, j :: 0 <= i < j < |cs| ==> keyOf(cs[i].statement) != keyOf(cs[j].statement)
    ensures Deduped(keyOf, cs) == cs
  {
    if cs != [] {
      var init, c := cs[..|cs| - 1], cs[|cs| - 1];
      DistinctKeysStay(keyOf, init);
      assert KeyAt(keyOf, init, keyOf(c.statement)) == |init|;
      assert init + [c] == cs;
    }
  }

  /** Merging twice is merging once. */
  lemma DedupedIdempotent(keyOf: KeyFn, cs: seq<Claim>)
    requires AllClean(cs)
    ensures Deduped(keyOf, Deduped(keyOf, cs)) == Deduped(keyOf, cs)
  {
    DedupedIsRight(keyOf, cs);
    var out, ks := Deduped(keyOf, cs), FirstKeys(keyOf, cs);
    assert forall k :: 0 <= k < |ks| ==> StandsFor(keyOf, cs, ks[k], out[k]);
    DistinctKeysStay(keyOf, out);
  }

  /** Merging cites nothing that was not cited. */
  lemma {:induction false} PathsUnderAreCited(keyOf: KeyFn, cs: seq<Claim>, key: string, p: string)
    requires p in PathsUnder(keyOf, cs, key)
    ensures exists i :: 0 <= i < |cs| && p in cs[i].paths
  {
    var init, c := cs[..|cs| - 1], cs[|cs| - 1];
    if p in PathsUnder(keyOf, init, key) {
      PathsUnderAreCited(keyOf, init, key, p);
      var i :| 0 <= i < |init| && p in init[i].paths;
      assert p in cs[i].paths;
    } else {
      assert p in cs[|cs| - 1].paths;
    }
  }

  /** If every cited path is in the snapshot, so is every path after merging. */
  lemma DedupedStaysInIndex(keyOf: KeyFn, cs: seq<Claim>, index: set<string>, k: nat, p: string)
    requires AllClean(cs) && forall i, q :: 0 <= i < |cs| && q in cs[i].paths ==> q in index
    requires k < |Deduped(keyOf, cs)| && p in Deduped(keyOf, cs)[k].paths
    ensures p in index
  {
    DedupedIsRight(keyOf, cs);
    var key := FirstKeys(keyOf, cs)[k];
    assert StandsFor(keyOf, cs, key, Deduped(keyOf, cs)[k]);
    assert p in Uniq(PathsUnder(keyOf, cs, key));
    PathsUnderAreCited(keyOf, cs, key, p);
  }

  // ------------------------------------------------------------------ the mandatory blockers

  function Restated(b: Claim): Claim {
    b.(statement := Clip(TrimSpace(b.statement), MAX_STATEMENT))
  }

  function RestatedAll(bs: seq<Claim>): (r: seq<Claim>)
    ensures |r| == |bs| && forall i :: 0 <= i < |bs| ==> r[i] == Restated(bs[i])
  {
    seq(|bs|, i requires 0 <= i < |bs| => Restated(bs[i]))
  }

  /** A server's blocker keeps its code and paths, and its statement is trimmed and clipped. */
  lemma RestatedInFields(b: Claim)
    ensures Restated(b).code == b.code && Restated(b).paths == b.paths
    ensures Restated(b).statement == Clip(TrimSpace(b.statement), 2000)
  {
  }

  lemma CutAt<T>(a: seq<T>, b: seq<T>, n: nat)
    ensures |a + b| > n ==> (a + b)[..n] <= a + b && (a <= (a + b)[..n] <==> |a| <= n)
    ensures a <= a + b
  {
    if |a + b| > n && |a| <= n {
      assert (a + b)[..n][..|a|] == a;
    }
  }

  method RestateAll(bs: seq<Claim>) returns (r: seq<Claim>)
    ensures r == RestatedAll(bs)
  {
    r := [];
    for i := 0 to |bs|
      invariant |r| == i && forall k :: 0 <= k < i ==> r[k] == Restated(bs[k])
    {
      r := r + [Restated(bs[i])];
    }
  }

  /** The server's blockers first, then the stages', cut at the item cap. */
  method MergeBlockers(mandatory: seq<Claim>, blockers: seq<Claim>) returns (merged: seq<Claim>)
    ensures merged <= RestatedAll(mandatory) + blockers
    ensures |merged| == if |mandatory| + |blockers| > 40 then 40 else |mandatory| + |blockers|
    ensures RestatedAll(mandatory) <= merged <==> |mandatory| <= 40
  {
    merged := RestateAll(mandatory);
    CutAt(merged, blockers, MAX_ITEMS);
    merged := merged + blockers;
    if |merged| > MAX_ITEMS {
      merged := merged[..MAX_ITEMS];
    }
  }
}
