/** The query-string grammar as functions of the input and a position. */
module Grammar {
  import opened Bytes
  import opened Query

  // ----- Characters; the parser looks at single bytes -----

  /** unicode.IsSpace below U+0100. */
  predicate IsSpace(c: char) {
    '\t' <= c <= '\r' || c == ' ' || c as int == 0x85 || c as int == 0xA0
  }

  /** Letters below U+0100, digits and the underscore. */
  predicate IsIdent(c: char) {
    || 'a' <= c <= 'z' || 'A' <= c <= 'Z' || '0' <= c <= '9' || c == '_'
    || c as int == 0xAA || c as int == 0xB5 || c as int == 0xBA
    || (0xC0 <= c as int <= 0xFF && c as int != 0xD7 && c as int != 0xF7)
  }

  function Upper(c: char): char {
    if 'a' <= c <= 'z' then (c as int - 32) as char else c
  }

  /** s spells two or three upper-case letters, in any case, from i on. */
  predicate Two(s: string, i: nat, a: char, b: char) {
    i + 2 <= |s| && Upper(s[i]) == a && Upper(s[i + 1]) == b
  }

  predicate Three(s: string, i: nat, a: char, b: char, c: char) {
    i + 3 <= |s| && Upper(s[i]) == a && Upper(s[i + 1]) == b && Upper(s[i + 2]) == c
  }

  function SkipWS(s: string, i: nat): (j: nat)
    requires i <= |s|
    ensures i <= j <= |s| && (j < |s| ==> !IsSpace(s[j]))
    decreases |s| - i
  {
    if i < |s| && IsSpace(s[i]) then SkipWS(s, i + 1) else i
  }

  // ----- Tokens -----

  datatype Op = AND | OR | NOT | NoOp

  /** An operator ends where no identifier character follows. */
  predicate Over(s: string, i: nat)
    requires i <= |s|
  {
    i == |s| || !IsIdent(s[i])
  }

  /** The operator at a position that is not white space. */
  function OpAt(s: string, i: nat): Op {
    if Three(s, i, 'A', 'N', 'D') && Over(s, i + 3) then AND
    else if Two(s, i, 'O', 'R') && Over(s, i + 2) then OR
    else if Three(s, i, 'N', 'O', 'T') && Over(s, i + 3) then NOT
    else NoOp
  }

  predicate IsOperator(tok: string) {
    || (|tok| == 3 && (Three(tok, 0, 'A', 'N', 'D') || Three(tok, 0, 'N', 'O', 'T')))
    || (|tok| == 2 && Two(tok, 0, 'O', 'R'))
  }

  predicate EndsToken(c: char) {
    c == ' ' || c == '\t' || c == '(' || c == ')'
  }

  function TokenEnd(s: string, i: nat): (j: nat)
    requires i <= |s|
    ensures i <= j <= |s|
    decreases |s| - i
  {
    if i < |s| && !EndsToken(s[i]) then TokenEnd(s, i + 1) else i
  }

  function QuoteEnd(s: string, i: nat): (j: nat)
    requires i <= |s|
    ensures i <= j <= |s|
    decreases |s| - i
  {
    if i < |s| && s[i] != '"' then QuoteEnd(s, i + 1) else i
  }

  /** readToken: a quoted string, or everything up to a blank or parenthesis unless that is an operator. */
  datatype Lexed = Lexed(token: string, next: nat)

  function ReadToken(s: string, i: nat): (r: Lexed)
    requires i <= |s|
    ensures i <= r.next <= |s|
    ensures r.token != "" ==> i < r.next
  {
    var k := SkipWS(s, i);
    if k >= |s| then Lexed("", k)
    else if s[k] == '"' then
      var e := QuoteEnd(s, k + 1);
      Lexed(s[k + 1..e], if e < |s| then e + 1 else e)
    else
      var e := TokenEnd(s, k);
      if IsOperator(s[k..e]) then Lexed("", k) else Lexed(s[k..e], e)
  }

  // ----- Terms -----

  function IndexOf(s: string, c: char, i: nat): (j: nat)
    requires i <= |s|
    ensures i <= j <= |s| && (j < |s| ==> s[j] == c) && forall k | i <= k < j :: s[k] != c
    decreases |s| - i
  {
    if i < |s| && s[i] != c then IndexOf(s, c, i + 1) else i
  }

  /** strings.Fields. */
  function Fields(s: string, i: nat): seq<string>
    requires i <= |s|
    decreases |s| - i
  {
    var k := SkipWS(s, i);
    if k == |s| then []
    else
      var e := WordEnd(s, k);
      [s[k..e]] + Fields(s, e)
  }

  function WordEnd(s: string, i: nat): (j: nat)
    requires i <= |s|
    ensures i <= j <= |s|
    ensures i < |s| && !IsSpace(s[i]) ==> i < j
    decreases |s| - i
  {
    if i < |s| && !IsSpace(s[i]) then WordEnd(s, i + 1) else i
  }

  function TermNode(field: string, value: string): Node {
    if ' ' in value then Phrase(field, Fields(value, 0))
    else if value != "" && value[|value| - 1] == '*' then Prefix(field, value[..|value| - 1])
    else Match(field, value)
  }

  // ----- Expressions -----

  datatype Parsed = Failed | Parsed(node: Node, next: nat)

  function ParseTerm(s: string, i: nat): (r: Parsed)
    requires i <= |s|
    ensures r.Parsed? ==> i < r.next <= |s|
  {
    var t := ReadToken(s, i);
    if t.token == "" then Failed
    else
      var colon := IndexOf(t.token, ':', 0);
      if 0 < colon < |t.token| then
        if colon + 1 == |t.token| then Failed
        else Parsed(TermNode(t.token[..colon], t.token[colon + 1..]), t.next)
      else Parsed(TermNode(ALL, t.token), t.next)
  }

  function ParsePrimary(s: string, i: nat): (r: Parsed)
    requires i <= |s|
    ensures r.Parsed? ==> i < r.next <= |s|
    decreases |s| - i, 0
  {
    var k := SkipWS(s, i);
    if k >= |s| then Failed
    else if s[k] == '(' then
      match ParseOr(s, k + 1)
      case Failed => Failed
      case Parsed(node, j) =>
        var e := SkipWS(s, j);
        if e < |s| && s[e] == ')' then Parsed(node, e + 1) else Failed
    else ParseTerm(s, i)
  }

  function ParseNot(s: string, i: nat): (r: Parsed)
    requires i <= |s|
    ensures r.Parsed? ==> i < r.next <= |s|
    decreases |s| - i, 1
  {
    var k := SkipWS(s, i);
    if OpAt(s, k) == NOT then
      match ParsePrimary(s, k + 3)
      case Failed => Failed
      case Parsed(child, j) => Parsed(Bool([], [], [child], []), j)
    else ParsePrimary(s, k)
  }

  /** AND extends a bool that has only must clauses, and otherwise makes a new one. */
  function AndNode(left: Node, right: Node): Node {
    if left.Bool? && left.should == [] && left.mustNot == [] then left.(must := left.must + [right])
    else Bool([left, right], [], [], [])
  }

  /** Operands behind the first, joined by AND or standing side by side. */
  function AndRest(s: string, i: nat, left: Node): (r: Parsed)
    requires i <= |s|
    ensures r.Parsed? ==> i <= r.next <= |s|
    decreases |s| - i, 2
  {
    var k := SkipWS(s, i);
    var op := OpAt(s, k);
    if op == AND || (op == NoOp && k < |s| && s[k] != ')') then
      match ParseNot(s, if op == AND then k + 3 else k)
      case Failed => Failed
      case Parsed(right, j) => AndRest(s, j, AndNode(left, right))
    else Parsed(left, k)
  }

  function ParseAnd(s: string, i: nat): (r: Parsed)
    requires i <= |s|
    ensures r.Parsed? ==> i < r.next <= |s|
    decreases |s| - i, 3
  {
    match ParseNot(s, i)
    case Failed => Failed
    case Parsed(left, j) => AndRest(s, j, left)
  }

  function OrRest(s: string, i: nat, left: Node): (r: Parsed)
    requires i <= |s|
    ensures r.Parsed? ==> i <= r.next <= |s|
    decreases |s| - i, 4
  {
    var k := SkipWS(s, i);
    if OpAt(s, k) == OR then
      match ParseAnd(s, k + 2)
      case Failed => Failed
      case Parsed(right, j) => OrRest(s, j, Bool([], [left, right], [], []))
    else Parsed(left, k)
  }

  function ParseOr(s: string, i: nat): (r: Parsed)
    requires i <= |s|
    ensures r.Parsed? ==> i < r.next <= |s|
    decreases |s| - i, 5
  {
    match ParseAnd(s, i)
    case Failed => Failed
    case Parsed(left, j) => OrRest(s, j, left)
  }

  /** strings.TrimSpace. */
  function TrimEnd(s: string): (r: string)
  {
    if s != "" && IsSpace(s[|s| - 1]) then TrimEnd(s[..|s| - 1]) else s
  }

  function Trim(s: string): string {
    TrimEnd(s[SkipWS(s, 0)..])
  }

  /** What is left behind the first expression is not looked at. */
  function ParseQuery(input: string): Option<Node> {
    match ParseOr(Trim(input), 0)
    case Failed => None
    case Parsed(node, _) => Some(node)
  }

  // ----- Where parsing stops -----

  lemma {:induction false} SkipTwice(s: string, i: nat)
    requires i <= |s|
    ensures SkipWS(s, SkipWS(s, i)) == SkipWS(s, i)
  {
  }

  /** A position no operand and no AND or OR continues from. */
  ghost predicate Stuck(s: string, k: nat) {
    k == |s| || (k < |s| && (s[k] == ')' || OpAt(s, k) == NOT))
  }

  lemma {:induction false} AndRestStops(s: string, i: nat, left: Node)
    requires i <= |s| && AndRest(s, i, left).Parsed?
    ensures var k := AndRest(s, i, left).next;
            SkipWS(s, k) == k && (Stuck(s, k) || OpAt(s, k) == OR)
    decreases |s| - i
  {
    var k := SkipWS(s, i);
    SkipTwice(s, i);
    var op := OpAt(s, k);
    if op == AND || (op == NoOp && k < |s| && s[k] != ')') {
      var r := ParseNot(s, if op == AND then k + 3 else k);
      AndRestStops(s, r.next, AndNode(left, r.node));
    }
  }

  lemma {:induction false} OrRestStops(s: string, i: nat, left: Node)
    requires i <= |s| && OrRest(s, i, left).Parsed? && SkipWS(s, i) == i && (Stuck(s, i) || OpAt(s, i) == OR)
    ensures Stuck(s, OrRest(s, i, left).next) && SkipWS(s, OrRest(s, i, left).next) == OrRest(s, i, left).next
    decreases |s| - i
  {
    if OpAt(s, i) == OR {
      var r := ParseAnd(s, i + 2);
      var first := ParseNot(s, i + 2);
      AndRestStops(s, first.next, first.node);
      OrRestStops(s, r.next, Bool([], [left, r.node], [], []));
    }
  }

  /** An expression ends at the end of the input, at a closing parenthesis or at a NOT. */
  lemma OrStops(s: string, i: nat)
    requires i <= |s| && ParseOr(s, i).Parsed?
    ensures Stuck(s, ParseOr(s, i).next) && SkipWS(s, ParseOr(s, i).next) == ParseOr(s, i).next
  {
    var first := ParseNot(s, i);
    AndRestStops(s, first.next, first.node);
    OrRestStops(s, ParseAnd(s, i).next, ParseAnd(s, i).node);
  }

  lemma TermAfterBlank(s: string, i: nat)
    requires i <= |s|
    ensures ParseTerm(s, i) == ParseTerm(s, SkipWS(s, i))
  {
    SkipTwice(s, i);
    assert ReadToken(s, i) == ReadToken(s, SkipWS(s, i));
  }
}
