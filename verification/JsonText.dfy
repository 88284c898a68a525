/** JSON texts as concrete syntax: every text of the grammar of RFC 8259, white space included, is the
    printing of one of these trees. */
module JsonText {

  /** A character of a string literal (section 7 of RFC 8259). */
  datatype StrChar = Plain(c: char) | Escaped(c: char) | Unicode(hex: string)

  datatype Value =
    | Str(chars: seq<StrChar>)
    | Atom(text: string)
    | Arr(blank: string, elems: Elems)
    | Obj(blank: string, members: Members)

  /** Elements with the white space around each; `blank` above is used when there are none. */
  datatype Elems = NoElems | Elem(before: string, v: Value, after: string, rest: Elems)

  datatype Members =
    | NoMembers
    | Member(before: string, key: seq<StrChar>, gap: string, lead: string, v: Value, after: string, rest: Members)

  predicate IsWs(c: char) { c == ' ' || c == '\t' || c == '\n' || c == '\r' }

  predicate Blank(s: string) { forall i :: 0 <= i < |s| ==> IsWs(s[i]) }

  predicate IsHex(c: char) { '0' <= c <= '9' || 'a' <= c <= 'f' || 'A' <= c <= 'F' }

  predicate StrCharOk(x: StrChar) {
    match x
    case Plain(c) => c != '"' && c != '\\' && c as int >= 0x20
    case Escaped(c) => c in "\"\\/bfnrt"
    case Unicode(h) => |h| == 4 && forall i :: 0 <= i < 4 ==> IsHex(h[i])
  }

  predicate StrOk(s: seq<StrChar>) { forall i :: 0 <= i < |s| ==> StrCharOk(s[i]) }

  /** Characters of numbers and of the literal names. */
  predicate IsAtomChar(c: char) { '0' <= c <= '9' || 'a' <= c <= 'z' || c == 'E' || c == '+' || c == '-' || c == '.' }

  predicate ValueOk(v: Value)
    decreases v
  {
    match v
    case Str(s) => StrOk(s)
    case Atom(t) => t != "" && forall i :: 0 <= i < |t| ==> IsAtomChar(t[i])
    case Arr(blank, es) => Blank(blank) && ElemsOk(es)
    case Obj(blank, ms) => Blank(blank) && MembersOk(ms)
  }

  predicate ElemsOk(es: Elems)
    decreases es
  {
    match es
    case NoElems => true
    case Elem(b, v, a, rest) => Blank(b) && Blank(a) && ValueOk(v) && ElemsOk(rest)
  }

  predicate MembersOk(ms: Members)
    decreases ms
  {
    match ms
    case NoMembers => true
    case Member(b, k, g, l, v, a, rest) =>
      Blank(b) && Blank(g) && Blank(l) && Blank(a) && StrOk(k) && ValueOk(v) && MembersOk(rest)
  }

  // ------------------------------------------------------------------ printing

  function PrintChar(x: StrChar): string {
    match x
    case Plain(c) => [c]
    case Escaped(c) => ['\\', c]
    case Unicode(h) => "\\u" + h
  }

  function PrintChars(s: seq<StrChar>): string {
    if s == [] then "" else PrintChar(s[0]) + PrintChars(s[1..])
  }

  function PrintStr(s: seq<StrChar>): string {
    "\"" + PrintChars(s) + "\""
  }

  function Print(v: Value): string
    decreases v
  {
    match v
    case Str(s) => PrintStr(s)
    case Atom(t) => t
    case Arr(blank, es) => "[" + (if es.NoElems? then blank else PrintElems(es)) + "]"
    case Obj(blank, ms) => "{" + Body(blank, ms) + "}"
  }

  /** What stands between the braces of an object. */
  function Body(blank: string, ms: Members): string
    decreases ms, 1
  {
    if ms.NoMembers? then blank else PrintMembers(ms)
  }

  function PrintElems(es: Elems): string
    decreases es
  {
    match es
    case NoElems => ""
    case Elem(b, v, a, rest) => b + Print(v) + a + (if rest.NoElems? then "" else "," + PrintElems(rest))
  }

  function PrintMembers(ms: Members): string
    decreases ms, 0
  {
    match ms
    case NoMembers => ""
    case Member(b, k, g, l, v, a, rest) =>
      b + PrintStr(k) + g + ":" + l + Print(v) + a + (if rest.NoMembers? then "" else "," + PrintMembers(rest))
  }
}
