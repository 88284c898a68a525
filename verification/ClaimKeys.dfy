/** The key under which restatements of one claim are merged: white space collapsed, case folded,
    trailing punctuation dropped. */
module ClaimKeys {
  import opened Text

  /** Case folding, character by character. */
  type Fold = char -> char

  ghost predicate GoodFold(lower: Fold) {
    && lower(' ') == ' '
    && forall c :: lower(lower(c)) == lower(c) && (IsSpace(lower(c)) <==> IsSpace(c))
  }

  /** The length of the leading word. */
  function WordEnd(s: string): (k: nat)
    ensures k <= |s| && (forall i :: 0 <= i < k ==> !IsSpace(s[i])) && (k < |s| ==> IsSpace(s[k]))
  {
    if s == [] || IsSpace(s[0]) then 0
    else
      var k := WordEnd(s[1..]);
      assert forall i :: 1 <= i < 1 + k ==> s[i] == s[1..][i - 1];
      1 + k
  }

  /** strings.Fields. */
  function Fields(s: string): (words: seq<string>)
    decreases |s|
  {
    if s == [] then []
    else if IsSpace(s[0]) then Fields(s[1..])
    else [s[..WordEnd(s)]] + Fields(s[WordEnd(s)..])
  }

  function Join(words: seq<string>): string {
    if words == [] then "" else if |words| == 1 then words[0] else words[0] + " " + Join(words[1..])
  }

  function Lowered(lower: Fold, s: string): (r: string)
    ensures |r| == |s| && forall i :: 0 <= i < |s| ==> r[i] == lower(s[i])
  {
    seq(|s|, i requires 0 <= i < |s| => lower(s[i]))
  }

  predicate IsStop(c: char) { c == '.' || c == '!' || c == '?' || c == ' ' }

  function TrimStops(s: string): (r: string)
    ensures |r| <= |s| && r == s[..|r|] && (r != [] ==> !IsStop(r[|r| - 1]))
  {
    if s != [] && IsStop(s[|s| - 1]) then TrimStops(s[..|s| - 1]) else s
  }

  function ClaimKey(lower: Fold, statement: string): string {
    TrimStops(Lowered(lower, Join(Fields(statement))))
  }

  /** Words separated by single blanks, with nothing around them. */
  ghost predicate Tidy(s: string) {
    && (s != [] ==> !IsSpace(s[0]) && !IsSpace(s[|s| - 1]))
    && (forall i :: 0 <= i < |s| && IsSpace(s[i]) ==> s[i] == ' ')
    && (forall i :: 0 <= i < |s| - 1 ==> !(IsSpace(s[i]) && IsSpace(s[i + 1])))
  }

  ghost predicate AreWords(words: seq<string>) {
    forall k :: 0 <= k < |words| ==> words[k] != [] && forall i :: 0 <= i < |words[k]| ==> !IsSpace(words[k][i])
  }

  lemma {:induction false} FieldsAreWords(s: string)
    ensures AreWords(Fields(s))
    decreases |s|
  {
    if s != [] {
      if IsSpace(s[0]) {
        FieldsAreWords(s[1..]);
      } else {
        FieldsAreWords(s[WordEnd(s)..]);
      }
    }
  }

  lemma {:induction false} JoinIsTidy(words: seq<string>)
    requires AreWords(words)
    ensures Tidy(Join(words)) && (words != [] ==> Join(words) != [])
  {
    if |words| >= 1 {
      assert words[0] != [];
      if |words| >= 2 {
        var rest := words[1..];
        assert forall k :: 0 <= k < |rest| ==> rest[k] == words[k + 1];
        JoinIsTidy(rest);
        WordThenTidy(words[0], Join(rest));
      }
    }
  }

  lemma WordThenTidy(w: string, t: string)
    requires w != [] && (forall i :: 0 <= i < |w| ==> !IsSpace(w[i])) && Tidy(t) && t != []
    ensures Tidy(w + " " + t)
  {
    var s := w + " " + t;
    assert forall i :: 0 <= i < |w| ==> s[i] == w[i];
    assert s[|w|] == ' ';
    assert forall i :: |w| < i < |s| ==> s[i] == t[i - |w| - 1];
  }

  lemma TidyTail(s: string, k: nat)
    requires Tidy(s) && k < |s| && IsSpace(s[k]) && k > 0
    ensures k + 1 < |s| && s[k] == ' ' && Tidy(s[k + 1..]) && s[k + 1..] != [] && !IsSpace(s[k + 1])
  {
    var rest := s[k + 1..];
    assert forall i :: 0 <= i < |rest| ==> rest[i] == s[k + 1 + i];
  }

  lemma {:induction false} JoinFieldsOfTidy(s: string)
    requires Tidy(s)
    ensures Join(Fields(s)) == s && (s != [] ==> Fields(s) != [])
    decreases |s|
  {
    if s != [] {
      var k := WordEnd(s);
      if k < |s| {
        TidyTail(s, k);
        JoinFieldsOfTidy(s[k + 1..]);
        assert s[k..][1..] == s[k + 1..];
        assert Fields(s[k..]) == Fields(s[k + 1..]);
        JoinStep(s[..k], Fields(s[k + 1..]));
        assert s == s[..k] + " " + s[k + 1..];
      } else {
        assert s[..k] == s && s[k..] == [];
      }
    }
  }

  lemma JoinStep(w: string, rest: seq<string>)
    requires rest != []
    ensures Join([w] + rest) == w + " " + Join(rest)
  {
    assert ([w] + rest)[1..] == rest;
  }

  lemma TidyKey(lower: Fold, statement: string)
    requires GoodFold(lower)
    ensures Tidy(ClaimKey(lower, statement))
    ensures Lowered(lower, ClaimKey(lower, statement)) == ClaimKey(lower, statement)
  {
    var joined := Join(Fields(statement));
    FieldsAreWords(statement);
    JoinIsTidy(Fields(statement));
    var low := Lowered(lower, joined);
    assert forall i :: 0 <= i < |low| ==> low[i] == lower(joined[i]) && (IsSpace(low[i]) <==> IsSpace(joined[i]));
    var key := TrimStops(low);
    assert forall i :: 0 <= i < |key| ==> key[i] == low[i];
    assert key != [] ==> key[0] == low[0];
    forall i | 0 <= i < |key| && IsSpace(key[i]) ensures key[i] == ' ' {
      assert joined[i] == ' ';
    }
  }

  /** A claim key is its own claim key. */
  lemma ClaimKeyIdempotent(lower: Fold, statement: string)
    requires GoodFold(lower)
    ensures ClaimKey(lower, ClaimKey(lower, statement)) == ClaimKey(lower, statement)
  {
    var key := ClaimKey(lower, statement);
    TidyKey(lower, statement);
    JoinFieldsOfTidy(key);
  }

  // ------------------------------------------------------------------ word by word

  ghost predicate IsWord(w: string) { w != [] && forall i :: 0 <= i < |w| ==> !IsSpace(w[i]) }

  lemma BlankHasNoFields(s: string)
    requires AllSpace(s)
    ensures Fields(s) == []
    decreases |s|
  {
    if s != [] {
      BlankHasNoFields(s[1..]);
    }
  }

  lemma {:induction false} LeadingBlanks(before: string, s: string)
    requires AllSpace(before)
    ensures Fields(before + s) == Fields(s)
  {
    if before == [] {
      assert before + s == s;
    } else {
      assert (before + s)[1..] == before[1..] + s;
      LeadingBlanks(before[1..], s);
    }
  }

  /** The fields are the words between white space: whatever blanks come before a word, it is the next field
      when white space or the end follows it. */
  lemma FieldsSplit(before: string, w: string, after: string)
    requires AllSpace(before) && IsWord(w) && (after == [] || IsSpace(after[0]))
    ensures Fields(before + w + after) == [w] + Fields(after)
  {
    var s := w + after;
    assert before + w + after == before + s;
    LeadingBlanks(before, s);
    assert s[0] == w[0] && forall i :: 0 <= i < |w| ==> s[i] == w[i];
    assert after != [] ==> s[|w|] == after[0];
    assert WordEnd(s) == |w|;
    assert s[..|w|] == w && s[|w|..] == after;
  }

  /** Joining words and splitting again gives the words back. */
  lemma {:induction false} FieldsOfJoin(words: seq<string>)
    requires AreWords(words)
    ensures Fields(Join(words)) == words
  {
    if words != [] {
      var w, rest := words[0], words[1..];
      assert words == [w] + rest;
      assert AreWords(rest) by {
        assert forall k :: 0 <= k < |rest| ==> rest[k] == words[k + 1];
      }
      FieldsOfJoin(rest);
      if rest == [] {
        FieldsSplit("", w, "");
        assert "" + w + "" == w;
      } else {
        FieldsSplit("", w, " " + Join(rest));
        LeadingBlanks(" ", Join(rest));
        assert "" + w + (" " + Join(rest)) == w + " " + Join(rest);
      }
    }
  }

  /** The key is the words of the statement, one blank between them and in lower case, up to the stops that
      end it. */
  lemma KeyInFields(lower: Fold, statement: string)
    ensures var key, text := ClaimKey(lower, statement), Join(Fields(statement));
      && |key| <= |text| && (forall i :: 0 <= i < |key| ==> key[i] == lower(text[i]))
      && (forall i :: |key| <= i < |text| ==> lower(text[i]) in ".!? ")
      && (key != [] ==> key[|key| - 1] !in ".!? ")
  {
    StopsOnly(Lowered(lower, Join(Fields(statement))));
  }

  lemma {:induction false} StopsOnly(s: string)
    ensures forall i :: |TrimStops(s)| <= i < |s| ==> s[i] in ".!? "
    ensures TrimStops(s) != [] ==> TrimStops(s)[|TrimStops(s)| - 1] !in ".!? "
  {
    if s != [] && IsStop(s[|s| - 1]) {
      var init := s[..|s| - 1];
      StopsOnly(init);
      assert forall i :: 0 <= i < |init| ==> s[i] == init[i];
      assert ".!? "[0] == '.' && ".!? "[1] == '!' && ".!? "[2] == '?' && ".!? "[3] == ' ';
    }
  }

  /** The key as a function of the statement, the form the counting and merging code takes it in. */
  function KeyOf(lower: Fold): string -> string {
    s => ClaimKey(lower, s)
  }
}
