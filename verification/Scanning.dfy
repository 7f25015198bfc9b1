/** What a query string is good for, decided by one flat scan over its tokens. */
module Scanning {
  import opened Bytes
  import opened Query
  import opened Grammar

  /** What the scan waits for: an operand, the operand of a NOT, or whatever may stand behind an operand. */
  datatype Mode = Operand | AfterNot | Behind

  /** An error, an expression up to the end, or an expression with input left over from a position on. */
  datatype Verdict = Bad | Whole | LeftOver(at: nat)

  /** Where a term ends; an operator, an empty string and a field without a value are no terms. */
  function TermEnd(s: string, i: nat): (e: Option<nat>)
    requires i <= |s|
    ensures e.Some? ==> i < e.value <= |s|
  {
    var t := ReadToken(s, i);
    if t.token == "" then None
    else
      var colon := IndexOf(t.token, ':', 0);
      if 0 < colon && colon + 1 == |t.token| then None else Some(t.next)
  }

  /** The scan from a position on, inside depth open parentheses. */
  function Scan(s: string, i: nat, depth: nat, mode: Mode): Verdict
    requires i <= |s|
    decreases |s| - i, if mode.Behind? then 1 else 0, 1
  {
    ScanAt(s, SkipWS(s, i), depth, mode)
  }

  /** The scan behind blanks. */
  function ScanAt(s: string, k: nat, depth: nat, mode: Mode): Verdict
    requires k <= |s|
    decreases |s| - k, if mode.Behind? then 1 else 0, 0
  {
    if mode.Behind? then
      if k == |s| then if depth == 0 then Whole else Bad
      else if s[k] == ')' then if depth == 0 then LeftOver(k) else Scan(s, k + 1, depth - 1, Behind)
      else
        match OpAt(s, k)
        case AND => Scan(s, k + 3, depth, Operand)
        case OR => Scan(s, k + 2, depth, Operand)
        case NOT => if depth == 0 then LeftOver(k) else Bad
        case NoOp => Scan(s, k, depth, Operand)
    else if k == |s| then Bad
    else if mode.Operand? && OpAt(s, k) == NOT then Scan(s, k + 3, depth, AfterNot)
    else if s[k] == '(' then Scan(s, k + 1, depth + 1, Operand)
    else
      match TermEnd(s, k)
      case None => Bad
      case Some(e) => Scan(s, e, depth, Behind)
  }

  lemma ScanSkips(s: string, i: nat, depth: nat, mode: Mode)
    requires i <= |s|
    ensures Scan(s, i, depth, mode) == Scan(s, SkipWS(s, i), depth, mode)
  {
    SkipTwice(s, i);
  }

  /** A sub-parse takes the scan from one state to the other, or fails with it. */
  ghost predicate Agrees(s: string, i: nat, depth: nat, mode: Mode, r: Parsed)
    requires i <= |s|
  {
    match r
    case Failed => Scan(s, i, depth, mode) == Bad
    case Parsed(_, j) => j <= |s| && Scan(s, i, depth, mode) == Scan(s, j, depth, Behind)
  }

  lemma TermAgrees(s: string, k: nat)
    requires k <= |s|
    ensures TermEnd(s, k).None? <==> ParseTerm(s, k).Failed?
    ensures TermEnd(s, k).Some? ==> ParseTerm(s, k).next == TermEnd(s, k).value
  {
  }

  /** Behind the expression in a parenthesis: its end, or an error. */
  lemma CloseAgrees(s: string, j: nat, depth: nat)
    requires j <= |s| && SkipWS(s, j) == j && Stuck(s, j)
    ensures Scan(s, j, depth + 1, Behind)
         == if j < |s| && s[j] == ')' then Scan(s, j + 1, depth, Behind) else Bad
  {
  }

  lemma {:induction false} OrAgrees(s: string, i: nat, depth: nat)
    requires i <= |s|
    ensures Agrees(s, i, depth, Operand, ParseOr(s, i))
    decreases |s| - i, 5
  {
    AndAgrees(s, i, depth);
    var r := ParseAnd(s, i);
    if r.Parsed? {
      OrRestAgrees(s, r.next, r.node, depth);
    }
  }

  lemma {:induction false} OrRestAgrees(s: string, i: nat, left: Node, depth: nat)
    requires i <= |s|
    ensures Agrees(s, i, depth, Behind, OrRest(s, i, left))
    decreases |s| - i, 4
  {
    var k := SkipWS(s, i);
    if OpAt(s, k) == OR {
      AndAgrees(s, k + 2, depth);
      var r := ParseAnd(s, k + 2);
      if r.Parsed? {
        OrRestAgrees(s, r.next, Bool([], [left, r.node], [], []), depth);
      }
      OrStepAgrees(s, i, left, depth);
    } else {
      ScanSkips(s, i, depth, Behind);
    }
  }

  /** An operand behind OR, and what follows it. */
  lemma OrStepAgrees(s: string, i: nat, left: Node, depth: nat)
    requires i <= |s| && OpAt(s, SkipWS(s, i)) == OR
    requires Agrees(s, SkipWS(s, i) + 2, depth, Operand, ParseAnd(s, SkipWS(s, i) + 2))
    requires var r := ParseAnd(s, SkipWS(s, i) + 2);
             r.Parsed? ==>
               Agrees(s, r.next, depth, Behind, OrRest(s, r.next, Bool([], [left, r.node], [], [])))
    ensures Agrees(s, i, depth, Behind, OrRest(s, i, left))
  {
    ScanOr(s, i, depth);
    OrRestGoesOn(s, i, left);
  }

  lemma ScanOr(s: string, i: nat, depth: nat)
    requires i <= |s| && OpAt(s, SkipWS(s, i)) == OR
    ensures Scan(s, i, depth, Behind) == Scan(s, SkipWS(s, i) + 2, depth, Operand)
  {
    assert s[SkipWS(s, i)] != ')';
  }

  lemma OrRestGoesOn(s: string, i: nat, left: Node)
    requires i <= |s| && OpAt(s, SkipWS(s, i)) == OR
    ensures var r := ParseAnd(s, SkipWS(s, i) + 2);
            OrRest(s, i, left)
            == if r.Failed? then Failed else OrRest(s, r.next, Bool([], [left, r.node], [], []))
  {
  }

  lemma {:induction false} AndAgrees(s: string, i: nat, depth: nat)
    requires i <= |s|
    ensures Agrees(s, i, depth, Operand, ParseAnd(s, i))
    decreases |s| - i, 3
  {
    NotAgrees(s, i, depth);
    var r := ParseNot(s, i);
    if r.Parsed? {
      AndRestAgrees(s, r.next, r.node, depth);
    }
  }

  lemma {:induction false} AndRestAgrees(s: string, i: nat, left: Node, depth: nat)
    requires i <= |s|
    ensures Agrees(s, i, depth, Behind, AndRest(s, i, left))
    decreases |s| - i, 2
  {
    var k := SkipWS(s, i);
    var op := OpAt(s, k);
    ScanSkips(s, i, depth, Behind);
    if op == AND || (op == NoOp && k < |s| && s[k] != ')') {
      var next := if op == AND then k + 3 else k;
      assert Scan(s, i, depth, Behind) == Scan(s, next, depth, Operand);
      NotAgrees(s, next, depth);
      var r := ParseNot(s, next);
      if r.Parsed? {
        AndRestAgrees(s, r.next, AndNode(left, r.node), depth);
      }
    }
  }

  lemma {:induction false} NotAgrees(s: string, i: nat, depth: nat)
    requires i <= |s|
    ensures Agrees(s, i, depth, Operand, ParseNot(s, i))
    decreases |s| - i, 1
  {
    var k := SkipWS(s, i);
    ScanSkips(s, i, depth, Operand);
    if OpAt(s, k) == NOT {
      PrimaryAgrees(s, k + 3, depth);
    } else {
      PrimaryAgrees(s, k, depth);
      assert Scan(s, k, depth, Operand) == Scan(s, k, depth, AfterNot);
    }
  }

  lemma {:induction false} PrimaryAgrees(s: string, i: nat, depth: nat)
    requires i <= |s|
    ensures Agrees(s, i, depth, AfterNot, ParsePrimary(s, i))
    decreases |s| - i, 0
  {
    var k := SkipWS(s, i);
    if k < |s| && s[k] == '(' {
      OrAgrees(s, k + 1, depth + 1);
      GroupAgrees(s, i, depth);
    } else {
      TermAfterBlank(s, i);
      TermAgrees(s, k);
    }
  }

  lemma GroupAgrees(s: string, i: nat, depth: nat)
    requires i <= |s| && SkipWS(s, i) < |s| && s[SkipWS(s, i)] == '('
    requires Agrees(s, SkipWS(s, i) + 1, depth + 1, Operand, ParseOr(s, SkipWS(s, i) + 1))
    ensures Agrees(s, i, depth, AfterNot, ParsePrimary(s, i))
  {
    var r := ParseOr(s, SkipWS(s, i) + 1);
    ScanOpens(s, i, depth);
    if r.Failed? {
      GroupParses(s, i);
    } else {
      GroupCloses(s, i);
      GroupEnds(s, SkipWS(s, i) + 1, depth);
    }
  }

  lemma GroupEnds(s: string, i: nat, depth: nat)
    requires i <= |s| && ParseOr(s, i).Parsed?
    ensures var j := ParseOr(s, i).next;
            Scan(s, j, depth + 1, Behind) == if j < |s| && s[j] == ')' then Scan(s, j + 1, depth, Behind) else Bad
  {
    OrStops(s, i);
    CloseAgrees(s, ParseOr(s, i).next, depth);
  }

  /** The sub-parse has skipped the blanks before the closing parenthesis. */
  lemma GroupCloses(s: string, i: nat)
    requires i <= |s| && SkipWS(s, i) < |s| && s[SkipWS(s, i)] == '(' && ParseOr(s, SkipWS(s, i) + 1).Parsed?
    ensures var r := ParseOr(s, SkipWS(s, i) + 1);
            ParsePrimary(s, i) == if r.next < |s| && s[r.next] == ')' then Parsed(r.node, r.next + 1) else Failed
  {
    OrStops(s, SkipWS(s, i) + 1);
    GroupParses(s, i);
  }

  lemma ScanOpens(s: string, i: nat, depth: nat)
    requires i <= |s| && SkipWS(s, i) < |s| && s[SkipWS(s, i)] == '('
    ensures Scan(s, i, depth, AfterNot) == Scan(s, SkipWS(s, i) + 1, depth + 1, Operand)
  {
  }

  lemma GroupParses(s: string, i: nat)
    requires i <= |s| && SkipWS(s, i) < |s| && s[SkipWS(s, i)] == '('
    ensures var r := ParseOr(s, SkipWS(s, i) + 1);
            ParsePrimary(s, i)
            == if r.Failed? then Failed
               else
                 var e := SkipWS(s, r.next);
                 if e < |s| && s[e] == ')' then Parsed(r.node, e + 1) else Failed
  {
  }

  /** The verdict on a query string. */
  function Judge(s: string): Verdict {
    Scan(s, 0, 0, Operand)
  }

  /**
   * The scan decides, before anything is parsed, whether parsing fails, takes the whole input, or ignores
   * what lies behind a position: the first place at depth 0 behind an operand with a closing parenthesis or NOT.
   */
  lemma ScanDecides(s: string)
    ensures Judge(s).Bad? <==> ParseOr(s, 0).Failed?
    ensures Judge(s).Whole? <==> ParseOr(s, 0).Parsed? && ParseOr(s, 0).next == |s|
    ensures Judge(s).LeftOver? <==> ParseOr(s, 0).Parsed? && ParseOr(s, 0).next < |s|
    ensures Judge(s).LeftOver? ==> ParseOr(s, 0).next == Judge(s).at
  {
    OrAgrees(s, 0, 0);
    var r := ParseOr(s, 0);
    if r.Parsed? {
      OrStops(s, 0);
      ScanStops(s, r.next);
    }
  }

  /** Outside parentheses the scan ends where an expression does. */
  lemma ScanStops(s: string, k: nat)
    requires k <= |s| && SkipWS(s, k) == k && Stuck(s, k)
    ensures Scan(s, k, 0, Behind) == if k == |s| then Whole else LeftOver(k)
  {
    assert ScanAt(s, k, 0, Behind) == if k == |s| then Whole else LeftOver(k);
  }

  /** A query string is refused exactly when its scan is bad. */
  lemma QueryRefusedIff(input: string)
    ensures ParseQuery(input).None? <==> Judge(Trim(input)).Bad?
  {
    ScanDecides(Trim(input));
  }
}
