/** Adding the gateway's own keys to an upstream JSON object by textual splice. */
module EnvelopeSplice {
  import opened Common
  import opened JsonText

  /** The gateway's fixed disclosure, and what the JSON decoder answers it: the top-level keys of a text
      with their raw values, and the importance of a raw event when it has one that is a number. */
  datatype Gateway = Gateway(
    disclaimer: string, probe: string -> Option<map<string, string>>, importanceOf: string -> Option<real>)

  datatype Band = High | Medium | Low

  const HIGH_MIN := 0.70
  const MEDIUM_MIN := 0.40

  function BandOf(importance: real): Band {
    if importance >= HIGH_MIN then High else if importance >= MEDIUM_MIN then Medium else Low
  }

  /** An event without an importance has no band. */
  function BandIn(g: Gateway, event: string): Option<Band> {
    match g.importanceOf(event) case None => None case Some(v) => Some(BandOf(v))
  }

  function Word(b: Band): string {
    match b case High => "high" case Medium => "medium" case Low => "low"
  }

  function TrimWs(s: string): string {
    if s != [] && IsWs(s[0]) then TrimWs(s[1..]) else s
  }

  /** The keys to add, with their words, in order. */
  function Owned(g: Gateway, keys: map<string, string>): seq<(string, string)> {
    (if "disclaimer" in keys then [] else [("disclaimer", g.disclaimer)]) +
    (if "event" in keys && BandIn(g, keys["event"]).Some? && "importanceBand" !in keys
     then [("importanceBand", Word(BandIn(g, keys["event"]).value))] else [])
  }

  /** The word the gateway adds for an importance. */
  lemma BandInFields(g: Gateway, keys: map<string, string>, v: real)
    requires "event" in keys && "importanceBand" !in keys && g.importanceOf(keys["event"]) == Some(v)
    ensures var owned := Owned(g, keys);
      && owned != [] && owned[|owned| - 1] ==
         ("importanceBand", if v >= 0.7 then "high" else if v >= 0.4 then "medium" else "low")
      && owned[..|owned| - 1] == if "disclaimer" in keys then [] else [("disclaimer", g.disclaimer)]
  {
  }

  /** And when it adds none. */
  lemma NoBandInFields(g: Gateway, keys: map<string, string>)
    requires "event" !in keys || "importanceBand" in keys || g.importanceOf(keys["event"]) == None
    ensures Owned(g, keys) == if "disclaimer" in keys then [] else [("disclaimer", g.disclaimer)]
  {
  }

  function Quoted(s: string): string { "\"" + s + "\"" }

  function OwnedMember(key: string, word: string): string { Quoted(key) + ":" + Quoted(word) }

  function OwnedText(owned: seq<(string, string)>): string {
    if owned == [] then ""
    else OwnedMember(owned[0].0, owned[0].1) + if |owned| == 1 then "" else "," + OwnedText(owned[1..])
  }

  function StartsMember(rest: string): bool {
    var t := TrimWs(rest);
    t != [] && t[0] != '}'
  }

  function Spliced(g: Gateway, body: string): string {
    var t := TrimWs(body);
    if t == [] || t[0] != '{' || g.probe(t).None? then body
    else
      var owned := Owned(g, g.probe(t).value);
      if owned == [] then body
      else "{" + OwnedText(owned) + (if StartsMember(t[1..]) then "," else "") + t[1..]
  }

  /** Adds one key to the buffer unless the upstream object has it already. */
  method AppendKey(added: string, keys: map<string, string>, key: string, word: string) returns (r: string)
    ensures r == if key in keys then added else added + (if added == "" then "" else ",") + OwnedMember(key, word)
  {
    r := added;
    if key in keys {
      return;
    }
    if |r| > 0 {
      r := r + ",";
    }
    ghost var before := r;
    r := r + "\"";
    r := r + key;
    r := r + "\":";
    r := r + Quoted(word);
    assert r == before + (Quoted(key) + ":" + Quoted(word));
  }

  /** The buffer holds the text of the keys to add. */
  method OwnKeys(g: Gateway, keys: map<string, string>) returns (added: string)
    ensures added == OwnedText(Owned(g, keys))
    ensures added == "" <==> Owned(g, keys) == []
  {
    added := AppendKey("", keys, "disclaimer", g.disclaimer);
    OwnedTextOf(Owned(g, keys));
    OwnedMemberIsText("disclaimer", g.disclaimer);
    if "event" in keys {
      var band := BandIn(g, keys["event"]);
      if band.Some? {
        var word := Word(band.value);
        OwnedMemberIsText("importanceBand", word);
        added := AppendKey(added, keys, "importanceBand", word);
      }
    }
  }

  lemma OwnedMemberIsText(key: string, word: string)
    ensures OwnedMember(key, word) != ""
    ensures "" + "" + OwnedMember(key, word) == OwnedMember(key, word)
  {
  }

  lemma OwnedTextOf(o: seq<(string, string)>)
    ensures OwnedText(o) == "" <==> o == []
    ensures |o| == 1 ==> OwnedText(o) == OwnedMember(o[0].0, o[0].1)
    ensures |o| == 2 ==> OwnedText(o) == OwnedMember(o[0].0, o[0].1) + "," + OwnedMember(o[1].0, o[1].1)
  {
    if |o| == 1 {
      assert OwnedText(o) == OwnedMember(o[0].0, o[0].1) + "";
    }
    if |o| == 2 {
      var b := OwnedMember(o[1].0, o[1].1);
      assert o[1..] == [o[1]];
      assert OwnedText([o[1]]) == b + "";
      assert b + "" == b;
      assert OwnedMember(o[0].0, o[0].1) + ("," + b) == OwnedMember(o[0].0, o[0].1) + "," + b;
    }
  }

  method WithOwnedKeys(g: Gateway, body: string) returns (out: string)
    ensures out == Spliced(g, body)
  {
    var trimmed := TrimWs(body);
    if |trimmed| == 0 || trimmed[0] != '{' {
      return body;
    }
    var probed := g.probe(trimmed);
    if probed.None? {
      return body;
    }
    var added := OwnKeys(g, probed.value);
    if |added| == 0 {
      return body;
    }
    var rest := trimmed[1..];
    var look := TrimWs(rest);
    var comma := if |look| > 0 && look[0] != '}' then "," else "";
    out := "{" + added + comma + rest;
  }

  // ------------------------------------------------------------------ meaning

  function Plainly(s: string): (r: seq<StrChar>)
    ensures |r| == |s| && forall i :: 0 <= i < |s| ==> r[i] == Plain(s[i])
  {
    seq(|s|, i requires 0 <= i < |s| => Plain(s[i]))
  }

  /** A word that prints as itself inside quotes. */
  predicate Simple(s: string) { StrOk(Plainly(s)) }

  lemma {:induction false} PrintPlainly(s: string)
    ensures PrintChars(Plainly(s)) == s
  {
    if s != [] {
      PrintPlainly(s[1..]);
      assert Plainly(s)[1..] == Plainly(s[1..]);
    }
  }

  /** The members of an object as a decoder sees them, in order. */
  function Pairs(ms: Members): seq<(seq<StrChar>, Value)> {
    match ms
    case NoMembers => []
    case Member(_, k, _, _, v, _, rest) => [(k, v)] + Pairs(rest)
  }

  function OwnedPairs(owned: seq<(string, string)>): seq<(seq<StrChar>, Value)> {
    seq(|owned|, i requires 0 <= i < |owned| => (Plainly(owned[i].0), Str(Plainly(owned[i].1))))
  }

  /** Raw values by decoded name, the last of equal names winning. */
  function KeysOf(nameOf: seq<StrChar> -> string, ms: Members): map<string, string> {
    match ms
    case NoMembers => map[]
    case Member(_, k, _, _, v, _, rest) => map[nameOf(k) := Print(v)] + KeysOf(nameOf, rest)
  }

  /** The decoder reads this object text as the grammar says. */
  ghost predicate Reads(g: Gateway, nameOf: seq<StrChar> -> string, blank: string, ms: Members, trail: string) {
    g.probe(Print(Obj(blank, ms)) + trail) == Some(KeysOf(nameOf, ms))
  }

  /** The upstream members with the owned ones put before them. */
  function Prepended(owned: seq<(string, string)>, blank: string, ms: Members): Members {
    if owned == [] then ms
    else
      Member("", Plainly(owned[0].0), "", "", Str(Plainly(owned[0].1)),
             if |owned| == 1 && ms.NoMembers? then blank else "", Prepended(owned[1..], blank, ms))
  }

  /** The text behind the owned members, up to the closing brace. */
  function Behind(blank: string, ms: Members): string {
    if ms.NoMembers? then blank else "," + PrintMembers(ms)
  }

  ghost predicate AllSimple(owned: seq<(string, string)>) {
    forall i :: 0 <= i < |owned| ==> Simple(owned[i].0) && Simple(owned[i].1)
  }

  lemma OwnedIsSimple(g: Gateway, keys: map<string, string>)
    requires Simple(g.disclaimer)
    ensures AllSimple(Owned(g, keys))
  {
    assert Simple("disclaimer") && Simple("importanceBand");
    assert Simple(Word(High)) && Simple(Word(Medium)) && Simple(Word(Low));
  }

  lemma {:induction false} PrependedMembers(owned: seq<(string, string)>, blank: string, ms: Members)
    requires AllSimple(owned) && Blank(blank) && MembersOk(ms)
    ensures MembersOk(Prepended(owned, blank, ms))
    ensures Pairs(Prepended(owned, blank, ms)) == OwnedPairs(owned) + Pairs(ms)
  {
    if owned != [] {
      PrependedMembers(owned[1..], blank, ms);
      assert OwnedPairs(owned) == [OwnedPairs(owned)[0]] + OwnedPairs(owned[1..]);
    }
  }

  lemma {:induction false} PrependedPrints(owned: seq<(string, string)>, blank: string, ms: Members)
    requires owned != []
    ensures PrintMembers(Prepended(owned, blank, ms)) == OwnedText(owned) + Behind(blank, ms)
  {
    PrintPlainly(owned[0].0);
    PrintPlainly(owned[0].1);
    if owned[1..] != [] {
      PrependedPrints(owned[1..], blank, ms);
    }
    PrependedText(owned, blank, ms);
  }

  lemma PrependedText(owned: seq<(string, string)>, blank: string, ms: Members)
    requires owned != []
    requires PrintChars(Plainly(owned[0].0)) == owned[0].0 && PrintChars(Plainly(owned[0].1)) == owned[0].1
    requires var rest := owned[1..];
      rest != [] ==> PrintMembers(Prepended(rest, blank, ms)) == OwnedText(rest) + Behind(blank, ms)
    ensures PrintMembers(Prepended(owned, blank, ms)) == OwnedText(owned) + Behind(blank, ms)
  {
    var k, v := Quoted(owned[0].0), Quoted(owned[0].1);
    var rest := owned[1..];
    var tail := Prepended(rest, blank, ms);
    var after := if rest == [] && ms.NoMembers? then blank else "";
    var end := if tail.NoMembers? then "" else "," + PrintMembers(tail);
    assert PrintStr(Plainly(owned[0].0)) == k && Print(Str(Plainly(owned[0].1))) == v;
    assert PrintMembers(Prepended(owned, blank, ms)) == "" + k + "" + ":" + "" + v + after + end;
    PieceGlue(k, v, after, end);
    var more := if rest == [] then "" else "," + OwnedText(rest);
    assert OwnedText(owned) == OwnedMember(owned[0].0, owned[0].1) + more;
    TailGlue(k + ":" + v, more, Behind(blank, ms));
    if rest != [] {
      TailGlue(",", OwnedText(rest), Behind(blank, ms));
    }
    assert after + end == more + Behind(blank, ms);
  }

  lemma PieceGlue(k: string, v: string, after: string, end: string)
    ensures "" + k + "" + ":" + "" + v + after + end == (k + ":" + v) + (after + end)
  {
  }

  lemma TailGlue(a: string, b: string, c: string)
    ensures (a + b) + c == a + (b + c)
  {
  }

  lemma {:induction false} TrimSkipsBlank(b: string, s: string)
    requires Blank(b) && s != [] && !IsWs(s[0])
    ensures TrimWs(b + s) == s
  {
    if b == [] {
      assert b + s == s;
    } else {
      assert IsWs(b[0]);
      assert forall i :: 0 <= i < |b[1..]| ==> b[1..][i] == b[i + 1];
      TrimSkipsBlank(b[1..], s);
      assert (b + s)[1..] == b[1..] + s;
    }
  }

  lemma {:induction false} BlankTrimsAway(b: string)
    requires Blank(b)
    ensures TrimWs(b) == ""
  {
    if b != [] {
      BlankTrimsAway(b[1..]);
    }
  }

  /** A body that is no object, cannot be read, or lacks nothing of the gateway's goes out as it came, leading
      white space and all. */
  lemma SpliceLeaves(g: Gateway, blank: string, t: string)
    requires Blank(blank) && (t == [] || !IsWs(t[0]))
    requires t != [] && t[0] == '{' && g.probe(t).Some? ==>
      var keys := g.probe(t).value;
      && "disclaimer" in keys
      && ("event" !in keys || "importanceBand" in keys || g.importanceOf(keys["event"]) == None)
    ensures Spliced(g, blank + t) == blank + t
  {
    if t == [] {
      BlankTrimsAway(blank);
      assert blank + t == blank;
    } else {
      TrimSkipsBlank(blank, t);
    }
  }

  lemma CommaWhenMembers(blank: string, ms: Members, trail: string)
    requires Blank(blank) && MembersOk(ms)
    ensures StartsMember(Body(blank, ms) + "}" + trail) <==> ms.Member?
  {
    if ms.NoMembers? {
      TrimSkipsBlank(blank, "}" + trail);
      TailGlue(blank, "}", trail);
    } else {
      var after := PrintMembers(ms)[|ms.before| + 1..];
      MemberStartsWithQuote(ms);
      assert ms.before + ("\"" + after) + "}" + trail == ms.before + ("\"" + (after + "}" + trail));
      TrimSkipsBlank(ms.before, "\"" + (after + "}" + trail));
    }
  }

  lemma MemberStartsWithQuote(ms: Members)
    requires ms.Member?
    ensures |PrintMembers(ms)| > |ms.before|
    ensures PrintMembers(ms) == ms.before + ("\"" + PrintMembers(ms)[|ms.before| + 1..])
  {
    var key := PrintChars(ms.key) + "\"";
    var more := if ms.rest.NoMembers? then "" else "," + PrintMembers(ms.rest);
    var tail := ms.gap + ":" + ms.lead + Print(ms.v) + ms.after + more;
    assert PrintStr(ms.key) == "\"" + key by { TailGlue("\"", PrintChars(ms.key), "\""); }
    MemberGlued(ms.before, "\"" + key, ms.gap, ms.lead, Print(ms.v), ms.after, more);
    LeadingQuote(ms.before, key, tail);
  }

  lemma MemberGlued(b: string, k: string, g: string, l: string, v: string, a: string, more: string)
    ensures b + k + g + ":" + l + v + a + more == b + k + (g + ":" + l + v + a + more)
  {
  }

  lemma LeadingQuote(b: string, key: string, tail: string)
    ensures var s := b + ("\"" + key) + tail; |s| > |b| && s == b + ("\"" + s[|b| + 1..])
  {
  }

  /** For every upstream text that is a JSON object, the result is the object with the owned members
      absent upstream put first and the upstream members after them, in order and unchanged. */
  lemma SplicePreservesObject(
    g: Gateway, nameOf: seq<StrChar> -> string, lead: string, blank: string, ms: Members, trail: string)
    requires Reads(g, nameOf, blank, ms, trail) && Blank(lead) && Blank(blank) && MembersOk(ms) && Blank(trail)
    requires Simple(g.disclaimer)
    ensures var body, owned := lead + Print(Obj(blank, ms)) + trail, Owned(g, KeysOf(nameOf, ms));
      var ms' := Prepended(owned, blank, ms);
      && (owned == [] ==> Spliced(g, body) == body)
      && (owned != [] ==> Spliced(g, body) == Print(Obj(blank, ms')) + trail)
      && MembersOk(ms') && Pairs(ms') == OwnedPairs(owned) + Pairs(ms)
      && (forall i :: 0 <= i < |owned| ==> owned[i].0 !in KeysOf(nameOf, ms))
  {
    var owned := Owned(g, KeysOf(nameOf, ms));
    SpliceComputed(g, nameOf, lead, blank, ms, trail);
    assert AllSimple(owned) by { OwnedIsSimple(g, KeysOf(nameOf, ms)); }
    PrependedMembers(owned, blank, ms);
    if owned != [] {
      PrependedPrints(owned, blank, ms);
      PrependedObject(owned, blank, ms, trail);
    }
    OwnedIsNew(g, KeysOf(nameOf, ms));
  }

  lemma OwnedIsNew(g: Gateway, keys: map<string, string>)
    ensures forall i :: 0 <= i < |Owned(g, keys)| ==> Owned(g, keys)[i].0 !in keys
  {
  }

  /** Everything behind the upstream opening brace is kept as a suffix, character for character. */
  lemma SpliceKeepsSuffix(
    g: Gateway, nameOf: seq<StrChar> -> string, lead: string, blank: string, ms: Members, trail: string)
    requires Reads(g, nameOf, blank, ms, trail) && Blank(lead) && Blank(blank) && MembersOk(ms) && Blank(trail)
    ensures var out, rest := Spliced(g, lead + Print(Obj(blank, ms)) + trail), Body(blank, ms) + "}" + trail;
      |rest| <= |out| && out[|out| - |rest|..] == rest
  {
    var owned, body, rest := Owned(g, KeysOf(nameOf, ms)), Body(blank, ms), Body(blank, ms) + "}" + trail;
    SpliceComputed(g, nameOf, lead, blank, ms, trail);
    if owned == [] {
      BodyGlue(lead, body, trail);
      SuffixOf(lead + "{", rest);
    } else {
      SuffixOf("{" + OwnedText(owned) + (if ms.Member? then "," else ""), rest);
    }
  }

  lemma BodyGlue(lead: string, body: string, trail: string)
    ensures lead + ("{" + body + "}") + trail == (lead + "{") + (body + "}" + trail)
  {
  }

  lemma SuffixOf(head: string, rest: string)
    ensures |rest| <= |head + rest| && (head + rest)[|head + rest| - |rest|..] == rest
  {
  }

  /** What the splice computes on an object text, before it is read as an object again. */
  lemma SpliceComputed(
    g: Gateway, nameOf: seq<StrChar> -> string, lead: string, blank: string, ms: Members, trail: string)
    requires Reads(g, nameOf, blank, ms, trail) && Blank(lead) && Blank(blank) && MembersOk(ms) && Blank(trail)
    ensures var body, owned := lead + Print(Obj(blank, ms)) + trail, Owned(g, KeysOf(nameOf, ms));
      Spliced(g, body) ==
        if owned == [] then body
        else "{" + OwnedText(owned) + (if ms.Member? then "," else "") + (Body(blank, ms) + "}" + trail)
  {
    var o, rest := Print(Obj(blank, ms)), Body(blank, ms) + "}" + trail;
    TailGlue(lead, o, trail);
    TrimSkipsBlank(lead, o + trail);
    assert o + trail == "{" + rest by {
      TailGlue("{", Body(blank, ms) + "}", trail);
      TailGlue("{", Body(blank, ms), "}");
    }
    assert (o + trail)[1..] == rest;
    assert g.probe(o + trail) == Some(KeysOf(nameOf, ms));
    CommaWhenMembers(blank, ms, trail);
  }

  lemma PrependedObject(owned: seq<(string, string)>, blank: string, ms: Members, trail: string)
    requires owned != [] && PrintMembers(Prepended(owned, blank, ms)) == OwnedText(owned) + Behind(blank, ms)
    ensures "{" + OwnedText(owned) + (if ms.Member? then "," else "") + (Body(blank, ms) + "}" + trail)
      == Print(Obj(blank, Prepended(owned, blank, ms))) + trail
  {
    var comma := if ms.Member? then "," else "";
    assert Behind(blank, ms) == comma + Body(blank, ms);
    BraceGlue(OwnedText(owned), comma, Body(blank, ms), trail);
  }

  lemma BraceGlue(a: string, comma: string, body: string, trail: string)
    ensures "{" + a + comma + (body + "}" + trail) == "{" + (a + (comma + body)) + "}" + trail
  {
  }
}
