/** Pulling the first balanced JSON object out of a stage's output. */
module StageScanner {
  import opened Common
  import opened JsonText
  import Text

  datatype Lex = Lex(depth: int, inString: bool, escaped: bool)

  const START := Lex(0, false, false)

  /** How one character moves the string-aware brace depth. */
  function Step(st: Lex, c: char): Lex {
    if st.escaped then st.(escaped := false)
    else if st.inString && c == '\\' then st.(escaped := true)
    else if c == '"' then st.(inString := !st.inString)
    else if st.inString then st
    else if c == '{' then st.(depth := st.depth + 1)
    else if c == '}' then st.(depth := st.depth - 1)
    else st
  }

  function LexFrom(st: Lex, s: string): Lex {
    if s == [] then st else Step(LexFrom(st, s[..|s| - 1]), s[|s| - 1])
  }

  function Depth(s: string): int { LexFrom(START, s).depth }

  /** The text from `start` to `end` is the shortest one from there whose depth is back at zero. */
  ghost predicate ShortestSpan(out: string, start: nat, end: nat) {
    && start < end <= |out| && Depth(out[start..end]) == 0
    && forall e :: start < e < end ==> Depth(out[start..e]) != 0
  }

  /** The result is the shortest balanced span from the first brace, or an error when there is none. */
  ghost predicate Extracts(out: string, r: Result<string>) {
    var start := Text.IndexByte(out, '{');
    && (r.Ok? ==> exists end: nat :: ShortestSpan(out, start, end) && r.value == out[start..end])
    && (r.Err? <==> start == |out| || forall end: nat :: !ShortestSpan(out, start, end))
  }

  lemma LexOneMore(out: string, start: nat, i: nat)
    requires start <= i < |out|
    ensures LexFrom(START, out[start..i + 1]) == Step(LexFrom(START, out[start..i]), out[i])
  {
    assert out[start..i + 1][..i - start] == out[start..i];
  }

  method ExtractJSONObject(out: string) returns (r: Result<string>)
    ensures Extracts(out, r)
  {
    var start := 0;
    while start < |out| && out[start] != '{'
      invariant 0 <= start <= |out|
      invariant forall k :: 0 <= k < start ==> out[k] != '{'
    {
      start := start + 1;
    }
    assert Text.IndexByte(out, '{') == start;
    if start == |out| {
      return Err;
    }
    var depth, inString, escaped := 0, false, false;
    var i := start;
    while i < |out|
      invariant start <= i <= |out|
      invariant LexFrom(START, out[start..i]) == Lex(depth, inString, escaped)
      invariant i == start ==> depth == 0 && !inString && !escaped
      invariant i > start ==> depth >= 1
      invariant forall e :: start < e <= i ==> Depth(out[start..e]) != 0
    {
      var c := out[i];
      LexOneMore(out, start, i);
      if escaped {
        escaped := false;
      } else if inString && c == '\\' {
        escaped := true;
      } else if c == '"' {
        inString := !inString;
      } else if inString {
      } else if c == '{' {
        depth := depth + 1;
      } else if c == '}' {
        depth := depth - 1;
        if depth == 0 {
          assert ShortestSpan(out, start, i + 1);
          return Ok(out[start..i + 1]);
        }
      }
      assert LexFrom(START, out[start..i + 1]) == Lex(depth, inString, escaped);
      i := i + 1;
    }
    return Err;
  }

  // ------------------------------------------------------------------ which characters count

  /** Outside strings only quotes and braces count. */
  lemma {:induction false} PlainTextIsSkipped(st: Lex, s: string)
    requires Outside(st) && '"' !in s && '{' !in s && '}' !in s
    ensures LexFrom(st, s) == st
  {
    if s != [] {
      PlainTextIsSkipped(st, s[..|s| - 1]);
      assert s[|s| - 1] in s;
    }
  }

  /** Inside a string everything is skipped up to the closing quote, braces and escaped quotes included. */
  lemma {:induction false} StringIsSkipped(st: Lex, s: string, c: char)
    requires st.inString && !st.escaped && '"' !in s && '\\' !in s
    ensures LexFrom(st, s) == st && LexFrom(st, s + ['\\', c]) == st && LexFrom(st, s + ['"']) == st.(inString := false)
  {
    if s != [] {
      StringIsSkipped(st, s[..|s| - 1], c);
      assert s[|s| - 1] in s;
    }
    assert (s + ['"'])[..|s|] == s;
    assert (s + ['\\', c])[..|s| + 1] == s + ['\\'] && (s + ['\\'])[..|s|] == s;
  }

  /** A brace outside strings opens or closes one level, and a quote opens a string. */
  lemma BracesCount(st: Lex)
    requires Outside(st)
    ensures LexFrom(st, "{") == st.(depth := st.depth + 1) && LexFrom(st, "}") == st.(depth := st.depth - 1)
    ensures LexFrom(st, "\"") == st.(inString := true)
  {
    assert "{"[..0] == "" && "}"[..0] == "" && "\""[..0] == "";
  }

  // ------------------------------------------------------------------ printed values are balanced

  lemma {:induction false} LexConcat(st: Lex, a: string, b: string)
    ensures LexFrom(st, a + b) == LexFrom(LexFrom(st, a), b)
  {
    if b == [] {
      assert a + b == a;
    } else {
      LexConcat(st, a, b[..|b| - 1]);
      assert (a + b)[..|a + b| - 1] == a + b[..|b| - 1];
    }
  }

  /** Scanning `t` comes back to where it started and never dips below. */
  ghost predicate Neutral(st: Lex, t: string) {
    LexFrom(st, t) == st && forall n :: 0 <= n <= |t| ==> LexFrom(st, t[..n]).depth >= st.depth
  }

  lemma NeutralConcat(st: Lex, a: string, b: string)
    requires Neutral(st, a) && Neutral(st, b)
    ensures Neutral(st, a + b)
  {
    LexConcat(st, a, b);
    forall n | 0 <= n <= |a + b| ensures LexFrom(st, (a + b)[..n]).depth >= st.depth {
      if n <= |a| {
        assert (a + b)[..n] == a[..n];
      } else {
        assert (a + b)[..n] == a + b[..n - |a|];
        LexConcat(st, a, b[..n - |a|]);
      }
    }
  }

  predicate Outside(st: Lex) { !st.inString && !st.escaped }

  /** Text without quotes and braces. */
  lemma {:induction false} QuietIsNeutral(st: Lex, t: string)
    requires Outside(st) && forall i :: 0 <= i < |t| ==> t[i] != '"' && t[i] != '{' && t[i] != '}'
    ensures Neutral(st, t)
  {
    if t != [] {
      var init := t[..|t| - 1];
      QuietIsNeutral(st, init);
      forall n | 0 <= n <= |t| ensures LexFrom(st, t[..n]).depth >= st.depth {
        if n < |t| { assert t[..n] == init[..n]; } else { assert t[..n] == t; }
      }
    }
  }

  lemma BlankIsNeutral(st: Lex, t: string)
    requires Outside(st) && Blank(t)
    ensures Neutral(st, t)
  {
    assert forall i :: 0 <= i < |t| ==> IsWs(t[i]);
    QuietIsNeutral(st, t);
  }

  /** The inside of a string literal leaves the scanner inside it, at the same depth throughout. */
  lemma {:induction false} InsideStays(st: Lex, s: seq<StrChar>)
    requires st.inString && !st.escaped && StrOk(s)
    ensures LexFrom(st, PrintChars(s)) == st
    ensures forall n :: 0 <= n <= |PrintChars(s)| ==> LexFrom(st, PrintChars(s)[..n]).depth == st.depth
  {
    if s != [] {
      var a, b := PrintChar(s[0]), PrintChars(s[1..]);
      OneCharStays(st, s[0]);
      InsideStays(st, s[1..]);
      LexConcat(st, a, b);
      forall n | 0 <= n <= |a + b| ensures LexFrom(st, (a + b)[..n]).depth == st.depth {
        if n <= |a| {
          assert (a + b)[..n] == a[..n];
        } else {
          assert (a + b)[..n] == a + b[..n - |a|];
          LexConcat(st, a, b[..n - |a|]);
        }
      }
    }
  }

  lemma {:induction false} LettersStay(st: Lex, t: string)
    requires st.inString && !st.escaped && forall i :: 0 <= i < |t| ==> t[i] != '"' && t[i] != '\\'
    ensures LexFrom(st, t) == st
  {
    if t != [] {
      LettersStay(st, t[..|t| - 1]);
    }
  }

  lemma OneCharStays(st: Lex, x: StrChar)
    requires st.inString && !st.escaped && StrCharOk(x)
    ensures LexFrom(st, PrintChar(x)) == st
    ensures forall n :: 0 <= n <= |PrintChar(x)| ==> LexFrom(st, PrintChar(x)[..n]).depth == st.depth
  {
    var t := PrintChar(x);
    match x {
      case Plain(c) =>
        LettersStay(st, t);
        forall n | 0 <= n <= |t| ensures LexFrom(st, t[..n]).depth == st.depth { LettersStay(st, t[..n]); }
      case Escaped(c) =>
        EscapePair(st, c, "");
        assert ['\\', c] + "" == t;
      case Unicode(h) =>
        EscapePair(st, 'u', h);
        assert ['\\', 'u'] + h == t;
    }
  }

  /** A backslash, the character it escapes, and plain letters after it. */
  lemma EscapePair(st: Lex, c: char, h: string)
    requires st.inString && !st.escaped && forall i :: 0 <= i < |h| ==> IsHex(h[i])
    ensures var t := ['\\', c] + h;
      LexFrom(st, t) == st && forall n :: 0 <= n <= |t| ==> LexFrom(st, t[..n]).depth == st.depth
  {
    var t := ['\\', c] + h;
    assert ['\\', c][..1] == ['\\'] && ['\\'][..0] == [];
    assert LexFrom(st, ['\\']) == st.(escaped := true);
    assert LexFrom(st, ['\\', c]) == st;
    LettersStay(st, h);
    LexConcat(st, ['\\', c], h);
    forall n | 0 <= n <= |t| ensures LexFrom(st, t[..n]).depth == st.depth {
      if n >= 2 {
        assert t[..n] == ['\\', c] + h[..n - 2];
        LettersStay(st, h[..n - 2]);
        LexConcat(st, ['\\', c], h[..n - 2]);
      } else if n == 1 {
        assert t[..1] == ['\\'];
      }
    }
  }

  lemma StringIsNeutral(st: Lex, s: seq<StrChar>)
    requires Outside(st) && StrOk(s)
    ensures Neutral(st, PrintStr(s))
  {
    var inside := st.(inString := true);
    var body := PrintChars(s);
    InsideStays(inside, s);
    Wrapped(st, inside, "\"", body, "\"");
  }

  /** `open + body + close` where `open` enters another scanner state, `body` keeps it, and `close`
      leaves it. */
  lemma Wrapped(st: Lex, inner: Lex, open: string, body: string, close: string)
    requires |open| == 1 && |close| == 1
    requires Step(st, open[0]) == inner && Step(inner, close[0]) == st && inner.depth >= st.depth
    requires LexFrom(inner, body) == inner
    requires forall n :: 0 <= n <= |body| ==> LexFrom(inner, body[..n]).depth >= inner.depth
    ensures Neutral(st, open + body + close)
    ensures forall n :: 1 <= n < |open + body + close| ==> LexFrom(st, (open + body + close)[..n]).depth >= inner.depth
  {
    var t := open + body + close;
    assert open[..0] == [] && LexFrom(st, open) == inner;
    LexConcat(st, open, body);
    assert t[..|t| - 1] == open + body;
    forall n | 1 <= n < |t| ensures LexFrom(st, t[..n]).depth >= inner.depth {
      assert t[..n] == open + body[..n - 1];
      LexConcat(st, open, body[..n - 1]);
    }
    assert t[..|t|] == t;
    assert t[..0] == [];
    forall n | 0 <= n <= |t| ensures LexFrom(st, t[..n]).depth >= st.depth {
      if n == 0 {
      } else if n < |t| {
        assert LexFrom(st, t[..n]).depth >= inner.depth;
      }
    }
  }

  lemma {:induction false} ValueIsNeutral(st: Lex, v: Value)
    requires Outside(st) && ValueOk(v)
    ensures Neutral(st, Print(v))
    decreases v, 0
  {
    match v {
      case Str(s) => StringIsNeutral(st, s);
      case Atom(t) =>
        assert forall i :: 0 <= i < |t| ==> IsAtomChar(t[i]);
        QuietIsNeutral(st, t);
      case Arr(blank, es) =>
        var body := if es.NoElems? then blank else PrintElems(es);
        if es.NoElems? { BlankIsNeutral(st, blank); } else { ElemsAreNeutral(st, es); }
        Wrapped(st, st, "[", body, "]");
      case Obj(blank, ms) => ObjectIsNeutral(st, blank, ms);
    }
  }

  lemma {:induction false} ObjectIsNeutral(st: Lex, blank: string, ms: Members)
    requires Outside(st) && Blank(blank) && MembersOk(ms)
    ensures var t := "{" + Body(blank, ms) + "}";
      Neutral(st, t) && forall n :: 1 <= n < |t| ==> LexFrom(st, t[..n]).depth >= st.depth + 1
    decreases ms, 1
  {
    var inner := st.(depth := st.depth + 1);
    if ms.NoMembers? { BlankIsNeutral(inner, blank); } else { MembersAreNeutral(inner, ms); }
    Wrapped(st, inner, "{", Body(blank, ms), "}");
  }

  lemma {:induction false} ElemsAreNeutral(st: Lex, es: Elems)
    requires Outside(st) && ElemsOk(es) && es.Elem?
    ensures Neutral(st, PrintElems(es))
    decreases es, 0
  {
    var Elem(b, v, a, rest) := es;
    var tail := if rest.NoElems? then "" else "," + PrintElems(rest);
    BlankIsNeutral(st, b);
    ValueIsNeutral(st, v);
    BlankIsNeutral(st, a);
    QuietIsNeutral(st, "");
    if rest.Elem? {
      ElemsAreNeutral(st, rest);
      QuietIsNeutral(st, ",");
      NeutralConcat(st, ",", PrintElems(rest));
    }
    NeutralConcat(st, b, Print(v));
    NeutralConcat(st, b + Print(v), a);
    NeutralConcat(st, b + Print(v) + a, tail);
  }

  lemma {:induction false} MembersAreNeutral(st: Lex, ms: Members)
    requires Outside(st) && MembersOk(ms) && ms.Member?
    ensures Neutral(st, PrintMembers(ms))
    decreases ms, 0
  {
    var Member(b, k, g, l, v, a, rest) := ms;
    var tail := if rest.NoMembers? then "" else "," + PrintMembers(rest);
    BlankIsNeutral(st, b);
    StringIsNeutral(st, k);
    BlankIsNeutral(st, g);
    QuietIsNeutral(st, ":");
    BlankIsNeutral(st, l);
    ValueIsNeutral(st, v);
    BlankIsNeutral(st, a);
    QuietIsNeutral(st, "");
    if rest.Member? {
      MembersAreNeutral(st, rest);
      QuietIsNeutral(st, ",");
      NeutralConcat(st, ",", PrintMembers(rest));
    }
    var t1 := b + PrintStr(k);
    NeutralConcat(st, b, PrintStr(k));
    NeutralConcat(st, t1, g);
    NeutralConcat(st, t1 + g, ":");
    NeutralConcat(st, t1 + g + ":", l);
    NeutralConcat(st, t1 + g + ":" + l, Print(v));
    NeutralConcat(st, t1 + g + ":" + l + Print(v), a);
    NeutralConcat(st, t1 + g + ":" + l + Print(v) + a, tail);
  }

  lemma BalancedTextIsTheSpan(prefix: string, o: string, suffix: string)
    requires '{' !in prefix && o != "" && o[0] == '{' && Depth(o) == 0
    requires forall n :: 1 <= n < |o| ==> Depth(o[..n]) != 0
    ensures var out := prefix + o + suffix;
      && Text.IndexByte(out, '{') == |prefix|
      && ShortestSpan(out, |prefix|, |prefix| + |o|)
      && out[|prefix|..|prefix| + |o|] == o
      && forall end: nat :: ShortestSpan(out, |prefix|, end) ==> end == |prefix| + |o|
  {
    var out := prefix + o + suffix;
    assert out == prefix + ['{'] + (o[1..] + suffix);
    Text.IndexByteOfJoin(prefix, '{', o[1..] + suffix);
    assert out[|prefix|..|prefix| + |o|] == o;
    forall e | |prefix| < e < |prefix| + |o| ensures Depth(out[|prefix|..e]) != 0 {
      assert out[|prefix|..e] == o[..e - |prefix|];
    }
  }

  /** Scanner and printer agree: whatever stands before the object, as long as it has no brace of its
      own, and whatever follows, the shortest balanced span is exactly the printed object. */
  lemma PrintedObjectIsTheSpan(prefix: string, blank: string, ms: Members, suffix: string)
    requires '{' !in prefix && Blank(blank) && MembersOk(ms)
    ensures var o := Print(Obj(blank, ms));
      var out := prefix + o + suffix;
      && Text.IndexByte(out, '{') == |prefix|
      && ShortestSpan(out, |prefix|, |prefix| + |o|)
      && out[|prefix|..|prefix| + |o|] == o
      && forall end: nat :: ShortestSpan(out, |prefix|, end) ==> end == |prefix| + |o|
  {
    ObjectIsNeutral(START, blank, ms);
    BalancedTextIsTheSpan(prefix, "{" + Body(blank, ms) + "}", suffix);
  }

  /** So extraction can only return the printed object. */
  lemma ExtractionReturnsWhatWasPrinted(prefix: string, blank: string, ms: Members, suffix: string, r: Result<string>)
    requires '{' !in prefix && Blank(blank) && MembersOk(ms)
    requires Extracts(prefix + Print(Obj(blank, ms)) + suffix, r)
    ensures r == Ok(Print(Obj(blank, ms)))
  {
    PrintedObjectIsTheSpan(prefix, blank, ms, suffix);
  }
}
