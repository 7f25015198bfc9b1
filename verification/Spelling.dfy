/**
 * Strings that spell expressions parse to what these mean, however they are spaced. NOT binds closer than AND and
 * terms side by side, these bind closer than OR, and both group to the left.
 */
module Spelling {
  import opened Bytes
  import opened Sequences
  import opened Query
  import opened Grammar
  import opened Atoms

  /** An expression and where it is spelled in a string; infix operators have a place of their own. */
  datatype Spot = Spot(from: nat, to: nat, expr: Expr)

  datatype Expr =
    | Leaf(atom: Atom)
    | Group(inner: Spot)
    | Not(child: Spot)
    | And(left: Spot, at: nat, right: Spot)
    | Beside(left: Spot, right: Spot)
    | Or(left: Spot, at: nat, right: Spot)

  /** How close an expression binds. */
  function Level(e: Expr): nat {
    match e
    case Leaf(_) => 3
    case Group(_) => 3
    case Not(_) => 2
    case And(_, _, _) => 1
    case Beside(_, _) => 1
    case Or(_, _, _) => 0
  }

  // ----- Characters -----

  predicate Blank(c: char) {
    c == ' ' || '\t' <= c <= '\r'
  }

  /** White space from a to b; a term ends only at a blank or a tab. */
  ghost predicate Gap(s: string, a: nat, b: nat) {
    a < b < |s| && (s[a] == ' ' || s[a] == '\t') && forall m | a <= m < b :: Blank(s[m])
  }

  ghost predicate Blanks(s: string, a: nat, b: nat) {
    a <= b < |s| && forall m | a <= m < b :: Blank(s[m])
  }

  predicate Either(c: char, upper: char, lower: char) {
    c == upper || c == lower
  }

  /** Operators are spelled in any mixture of cases. */
  predicate SpellsAnd(s: string, k: nat) {
    k + 3 <= |s| && Either(s[k], 'A', 'a') && Either(s[k + 1], 'N', 'n') && Either(s[k + 2], 'D', 'd')
  }

  predicate SpellsOr(s: string, k: nat) {
    k + 2 <= |s| && Either(s[k], 'O', 'o') && Either(s[k + 1], 'R', 'r')
  }

  predicate SpellsNot(s: string, k: nat) {
    k + 3 <= |s| && Either(s[k], 'N', 'n') && Either(s[k + 1], 'O', 'o') && Either(s[k + 2], 'T', 't')
  }

  /** The string spells the expression at its place. */
  ghost predicate Spells(s: string, x: Spot)
    decreases x
  {
    x.from < x.to <= |s| &&
    match x.expr
    case Leaf(a) => ValidAtom(a) && At(s, x.from, Written(a)) && x.to == x.from + |Written(a)|
    case Group(y) =>
      && Spells(s, y) && s[x.from] == '(' && Blanks(s, x.from + 1, y.from)
      && (y.to == x.to - 1 || Gap(s, y.to, x.to - 1)) && s[x.to - 1] == ')'
    case Not(y) =>
      && Spells(s, y) && Level(y.expr) >= 3 && y.to == x.to
      && SpellsNot(s, x.from) && Gap(s, x.from + 3, y.from)
    case And(l, k, r) =>
      && Spells(s, l) && Spells(s, r) && Level(l.expr) >= 1 && Level(r.expr) >= 2 && l.from == x.from && r.to == x.to
      && Gap(s, l.to, k) && SpellsAnd(s, k) && Gap(s, k + 3, r.from)
    case Beside(l, r) =>
      && Spells(s, l) && Spells(s, r) && Level(l.expr) >= 1 && Level(r.expr) >= 3 && l.from == x.from && r.to == x.to
      && Gap(s, l.to, r.from)
    case Or(l, k, r) =>
      && Spells(s, l) && Spells(s, r) && Level(r.expr) >= 1 && l.from == x.from && r.to == x.to
      && Gap(s, l.to, k) && SpellsOr(s, k) && Gap(s, k + 2, r.from)
  }

  // ----- Meaning -----

  /** What the parser makes of an expression. */
  function Tree(x: Spot): Node
    decreases x
  {
    match x.expr
    case Leaf(a) => NodeOf(a)
    case Group(y) => Tree(y)
    case Not(y) => Bool([], [], [Tree(y)], [])
    case And(l, _, r) => AndNode(Tree(l), Tree(r))
    case Beside(l, r) => AndNode(Tree(l), Tree(r))
    case Or(l, _, r) => Bool([], [Tree(l), Tree(r)], [], [])
  }

  /** What an expression says about a document. */
  ghost predicate Holds(words: Words, x: Spot, row: Row)
    decreases x
  {
    match x.expr
    case Leaf(a) => Says(words, a, row)
    case Group(y) => Holds(words, y, row)
    case Not(y) => !Holds(words, y, row)
    case And(l, _, r) => Holds(words, l, row) && Holds(words, r, row)
    case Beside(l, r) => Holds(words, l, row) && Holds(words, r, row)
    case Or(l, _, r) => Holds(words, l, row) || Holds(words, r, row)
  }

  /** Extending the must clauses in place does not change what they mean. */
  lemma AndNodeMeans(words: Words, left: Node, right: Node, row: Row)
    ensures Matches(words, AndNode(left, right), row) <==> Matches(words, left, row) && Matches(words, right, row)
  {
  }

  lemma NotNodeMeans(words: Words, child: Node, row: Row)
    ensures Matches(words, Bool([], [], [child], []), row) <==> !Matches(words, child, row)
  {
    assert child in [child];
  }

  lemma OrNodeMeans(words: Words, left: Node, right: Node, row: Row)
    ensures Matches(words, Bool([], [left, right], [], []), row)
            <==> Matches(words, left, row) || Matches(words, right, row)
  {
    assert left in [left, right] && right in [left, right];
  }

  lemma {:induction false} TreeMeans(words: Words, x: Spot, row: Row)
    ensures Matches(words, Tree(x), row) <==> Holds(words, x, row)
    decreases x
  {
    match x.expr
    case Leaf(a) => NodeMeans(words, a, row);
    case Group(y) => TreeMeans(words, y, row);
    case Not(y) =>
      TreeMeans(words, y, row);
      NotNodeMeans(words, Tree(y), row);
    case And(l, _, r) =>
      TreeMeans(words, l, row);
      TreeMeans(words, r, row);
      AndNodeMeans(words, Tree(l), Tree(r), row);
    case Beside(l, r) =>
      TreeMeans(words, l, row);
      TreeMeans(words, r, row);
      AndNodeMeans(words, Tree(l), Tree(r), row);
    case Or(l, _, r) =>
      TreeMeans(words, l, row);
      TreeMeans(words, r, row);
      OrNodeMeans(words, Tree(l), Tree(r), row);
  }

  // ----- White space and operators -----

  lemma {:induction false} BlanksSkipped(s: string, a: nat, b: nat)
    requires Blanks(s, a, b) && !IsSpace(s[b])
    ensures SkipWS(s, a) == b && SkipWS(s, b) == b
    decreases b - a
  {
    if a < b {
      assert Blank(s[a]);
      BlanksSkipped(s, a + 1, b);
    }
  }

  lemma GapSkipped(s: string, a: nat, b: nat)
    requires Gap(s, a, b) && !IsSpace(s[b])
    ensures SkipWS(s, a) == b && SkipWS(s, b) == b && Ended(s, a) && !IsIdent(s[a])
  {
    BlanksSkipped(s, a, b);
  }

  lemma AndIsOp(s: string, k: nat)
    requires SpellsAnd(s, k) && k + 3 < |s| && !IsIdent(s[k + 3])
    ensures OpAt(s, k) == AND && !IsSpace(s[k])
  {
  }

  lemma OrIsOp(s: string, k: nat)
    requires SpellsOr(s, k) && k + 2 < |s| && !IsIdent(s[k + 2])
    ensures OpAt(s, k) == OR && !IsSpace(s[k])
  {
  }

  lemma NotIsOp(s: string, k: nat)
    requires SpellsNot(s, k) && k + 3 < |s| && !IsIdent(s[k + 3])
    ensures OpAt(s, k) == NOT && !IsSpace(s[k])
  {
  }

  /** At a parenthesis there is no operator. */
  lemma ParenStart(s: string, i: nat)
    requires i < |s| && (s[i] == '(' || s[i] == ')')
    ensures SkipWS(s, i) == i && OpAt(s, i) == NoOp
  {
  }

  lemma AtomSolid(s: string, i: nat, a: Atom)
    requires ValidAtom(a) && At(s, i, Written(a))
    ensures Written(a) != "" && !IsSpace(s[i]) && !IsSpace(s[i + |Written(a)| - 1])
  {
    NotEmpty(a);
    var t := Written(a);
    assert s[i + 0] == t[0] && s[i + (|t| - 1)] == t[|t| - 1];
  }

  /** An expression begins with a character that is no white space. */
  lemma {:induction false} Begins(s: string, x: Spot)
    requires Spells(s, x)
    ensures !IsSpace(s[x.from]) && SkipWS(s, x.from) == x.from
    decreases x
  {
    if x.expr.Leaf? {
      AtomSolid(s, x.from, x.expr.atom);
    } else if x.expr.And? || x.expr.Beside? || x.expr.Or? {
      Begins(s, x.expr.left);
    }
  }

  /** And it ends with one. */
  lemma {:induction false} Ends(s: string, x: Spot)
    requires Spells(s, x)
    ensures !IsSpace(s[x.to - 1])
    decreases x
  {
    if x.expr.Leaf? {
      AtomSolid(s, x.from, x.expr.atom);
    } else if x.expr.Not? {
      Ends(s, x.expr.child);
    } else if !x.expr.Group? {
      Ends(s, x.expr.right);
    }
  }

  // ----- Steps of the parser -----

  /** White space before an operand does not matter. */
  lemma PrimarySkips(s: string, i: nat)
    requires i <= |s|
    ensures ParsePrimary(s, i) == ParsePrimary(s, SkipWS(s, i))
  {
    SkipTwice(s, i);
    assert ReadToken(s, i) == ReadToken(s, SkipWS(s, i));
  }

  lemma NotSkips(s: string, i: nat)
    requires i <= |s|
    ensures ParseNot(s, i) == ParseNot(s, SkipWS(s, i))
  {
    SkipTwice(s, i);
  }

  lemma AndSkips(s: string, i: nat)
    requires i <= |s|
    ensures ParseAnd(s, i) == ParseAnd(s, SkipWS(s, i))
  {
    NotSkips(s, i);
  }

  lemma OrSkips(s: string, i: nat)
    requires i <= |s|
    ensures ParseOr(s, i) == ParseOr(s, SkipWS(s, i))
  {
    AndSkips(s, i);
  }

  /** Nothing at a position goes on with an AND or an operand side by side. */
  ghost predicate AndStops(s: string, i: nat)
    requires i <= |s|
  {
    var k := SkipWS(s, i);
    k == |s| || s[k] == ')' || OpAt(s, k) == OR || OpAt(s, k) == NOT
  }

  lemma StopsAnd(s: string, i: nat, left: Node)
    requires i <= |s| && AndStops(s, i)
    ensures AndRest(s, i, left) == Parsed(left, SkipWS(s, i))
  {
    var k := SkipWS(s, i);
    if k < |s| && s[k] == ')' {
      ParenStart(s, k);
    }
  }

  lemma StopsOr(s: string, k: nat, left: Node)
    requires k <= |s| && SkipWS(s, k) == k && OpAt(s, k) != OR
    ensures OrRest(s, k, left) == Parsed(left, k)
  {
  }

  lemma AndStep(s: string, j: nat, k: nat, left: Node, right: Node, m: nat)
    requires j <= |s| && SkipWS(s, j) == k && k + 3 <= |s| && OpAt(s, k) == AND
    requires ParseNot(s, k + 3) == Parsed(right, m)
    ensures m <= |s| && AndRest(s, j, left) == AndRest(s, m, AndNode(left, right))
  {
  }

  lemma BesideStep(s: string, j: nat, k: nat, left: Node, right: Node, m: nat)
    requires j <= |s| && SkipWS(s, j) == k < |s| && OpAt(s, k) == NoOp && s[k] != ')'
    requires ParseNot(s, k) == Parsed(right, m)
    ensures m <= |s| && AndRest(s, j, left) == AndRest(s, m, AndNode(left, right))
  {
  }

  lemma OrStep(s: string, k: nat, left: Node, right: Node, m: nat)
    requires k + 2 <= |s| && SkipWS(s, k) == k && OpAt(s, k) == OR && ParseAnd(s, k + 2) == Parsed(right, m)
    ensures m <= |s| && OrRest(s, k, left) == OrRest(s, m, Bool([], [left, right], [], []))
  {
  }

  lemma NotIsPrimary(s: string, i: nat)
    requires i <= |s| && SkipWS(s, i) == i && OpAt(s, i) != NOT
    ensures ParseNot(s, i) == ParsePrimary(s, i)
  {
  }

  lemma NegationStep(s: string, k: nat, child: Node, m: nat)
    requires k + 3 <= |s| && SkipWS(s, k) == k && OpAt(s, k) == NOT && ParsePrimary(s, k + 3) == Parsed(child, m)
    ensures ParseNot(s, k) == Parsed(Bool([], [], [child], []), m)
  {
  }

  lemma GroupStep(s: string, i: nat, j: nat, m: nat, node: Node)
    requires i < j <= m < |s| && s[i] == '(' && s[m] == ')' && SkipWS(s, j) == m && ParseOr(s, i + 1) == Parsed(node, j)
    ensures ParsePrimary(s, i) == Parsed(node, m + 1)
  {
    ParenStart(s, i);
  }

  lemma AndIs(s: string, i: nat, left: Node, j: nat)
    requires i <= |s| && ParseNot(s, i) == Parsed(left, j)
    ensures j <= |s| && ParseAnd(s, i) == AndRest(s, j, left)
  {
  }

  lemma OrIs(s: string, i: nat, left: Node, j: nat)
    requires i <= |s| && ParseAnd(s, i) == Parsed(left, j)
    ensures j <= |s| && ParseOr(s, i) == OrRest(s, j, left)
  {
  }

  // ----- What the parser finds where an expression stands -----

  ghost predicate PrimaryFound(s: string, x: Spot)
    requires x.from <= |s|
  {
    ParsePrimary(s, x.from) == Parsed(Tree(x), x.to)
  }

  ghost predicate NotFound(s: string, x: Spot)
    requires x.from <= |s|
  {
    ParseNot(s, x.from) == Parsed(Tree(x), x.to)
  }

  /** As the operands so far of an AND: the loop goes on behind it. */
  ghost predicate AndFound(s: string, x: Spot)
    requires x.from <= |s| && x.to <= |s|
  {
    ParseAnd(s, x.from) == AndRest(s, x.to, Tree(x))
  }

  /** As the operands so far of an OR, once no AND goes on behind it. */
  ghost predicate OrFound(s: string, x: Spot)
    requires x.from <= |s| && x.to <= |s|
  {
    AndStops(s, x.to) ==> ParseOr(s, x.from) == OrRest(s, SkipWS(s, x.to), Tree(x))
  }

  // The way from one operand over an operator to the next.

  lemma AndLeads(s: string, a: nat, k: nat, b: nat)
    requires Gap(s, a, k) && SpellsAnd(s, k) && Gap(s, k + 3, b) && !IsSpace(s[b])
    ensures SkipWS(s, a) == k && Ended(s, a) && OpAt(s, k) == AND && SkipWS(s, k + 3) == b
  {
    GapSkipped(s, k + 3, b);
    AndIsOp(s, k);
    GapSkipped(s, a, k);
  }

  lemma OrLeads(s: string, a: nat, k: nat, b: nat)
    requires Gap(s, a, k) && SpellsOr(s, k) && Gap(s, k + 2, b) && !IsSpace(s[b])
    ensures SkipWS(s, a) == k == SkipWS(s, k) && Ended(s, a) && OpAt(s, k) == OR && SkipWS(s, k + 2) == b
  {
    GapSkipped(s, k + 2, b);
    OrIsOp(s, k);
    GapSkipped(s, a, k);
  }

  lemma NotLeads(s: string, k: nat, b: nat)
    requires SpellsNot(s, k) && Gap(s, k + 3, b) && !IsSpace(s[b])
    ensures SkipWS(s, k) == k && OpAt(s, k) == NOT && SkipWS(s, k + 3) == b
  {
    GapSkipped(s, k + 3, b);
    NotIsOp(s, k);
  }

  // What follows for the whole from its operands.

  lemma AndJoins(s: string, i: nat, a: nat, k: nat, b: nat, end: nat, left: Node, right: Node)
    requires i <= |s| && a <= |s| && k + 3 <= |s| && b <= |s| && ParseAnd(s, i) == AndRest(s, a, left)
    requires SkipWS(s, a) == k && OpAt(s, k) == AND && SkipWS(s, k + 3) == b && ParseNot(s, b) == Parsed(right, end)
    ensures end <= |s| && ParseAnd(s, i) == AndRest(s, end, AndNode(left, right))
  {
    NotSkips(s, k + 3);
    AndStep(s, a, k, left, right, end);
  }

  lemma BesideJoins(s: string, i: nat, a: nat, k: nat, end: nat, left: Node, right: Node)
    requires i <= |s| && a <= |s| && ParseAnd(s, i) == AndRest(s, a, left)
    requires SkipWS(s, a) == k < |s| && SkipWS(s, k) == k && OpAt(s, k) == NoOp && s[k] != ')'
    requires ParsePrimary(s, k) == Parsed(right, end)
    ensures end <= |s| && ParseAnd(s, i) == AndRest(s, end, AndNode(left, right))
  {
    NotIsPrimary(s, k);
    BesideStep(s, a, k, left, right, end);
  }

  lemma OrJoins(s: string, a: nat, k: nat, b: nat, end: nat, left: Node, right: Node)
    requires a <= |s| && k + 2 <= |s| && b <= |s| && end <= |s|
    requires SkipWS(s, a) == k == SkipWS(s, k) && OpAt(s, k) == OR && SkipWS(s, k + 2) == b
    requires ParseAnd(s, b) == AndRest(s, end, right)
    ensures AndStops(s, a)
    ensures AndStops(s, end) ==> OrRest(s, k, left) == OrRest(s, SkipWS(s, end), Bool([], [left, right], [], []))
  {
    AndSkips(s, k + 2);
    if AndStops(s, end) {
      StopsAnd(s, end, right);
      OrStep(s, k, left, right, SkipWS(s, end));
    }
  }

  lemma NotJoins(s: string, k: nat, b: nat, end: nat, child: Node)
    requires k + 3 <= |s| && b <= |s| && SkipWS(s, k) == k && OpAt(s, k) == NOT && SkipWS(s, k + 3) == b
    requires ParsePrimary(s, b) == Parsed(child, end)
    ensures ParseNot(s, k) == Parsed(Bool([], [], [child], []), end)
  {
    PrimarySkips(s, k + 3);
    NegationStep(s, k, child, end);
  }

  lemma GroupJoins(s: string, i: nat, b: nat, a: nat, m: nat, node: Node)
    requires i < b <= |s| && a <= m < |s| && i < m && s[i] == '(' && s[m] == ')'
    requires SkipWS(s, i + 1) == b && SkipWS(s, a) == m
    requires AndStops(s, a) ==> ParseOr(s, b) == OrRest(s, SkipWS(s, a), node)
    ensures ParsePrimary(s, i) == Parsed(node, m + 1) && OpAt(s, i) == NoOp
  {
    ParenStart(s, i);
    ParenStart(s, m);
    StopsOr(s, m, node);
    OrSkips(s, i + 1);
    GroupStep(s, i, m, m, node);
  }

  // All expressions.

  lemma {:induction false} PrimarySpelled(s: string, x: Spot)
    requires Spells(s, x) && Ended(s, x.to) && Level(x.expr) >= 3
    ensures PrimaryFound(s, x) && OpAt(s, x.from) == NoOp && s[x.from] != ')'
    decreases x, 0
  {
    match x.expr
    case Leaf(a) =>
      AtomStarts(s, x.from, a);
      AtomParses(s, x.from, a);
    case Group(y) =>
      var m := x.to - 1;
      Begins(s, y);
      BlanksSkipped(s, x.from + 1, y.from);
      PadSkipped(s, y.to, m);
      OrSpelled(s, y);
      GroupJoins(s, x.from, y.from, y.to, m, Tree(y));
  }

  /** Nothing or a gap before a closing parenthesis. */
  lemma PadSkipped(s: string, a: nat, m: nat)
    requires m < |s| && s[m] == ')' && (a == m || Gap(s, a, m))
    ensures SkipWS(s, a) == m && Ended(s, a)
  {
    if a < m {
      GapSkipped(s, a, m);
    }
  }

  lemma {:induction false} NotSpelled(s: string, x: Spot)
    requires Spells(s, x) && Ended(s, x.to) && Level(x.expr) >= 2
    ensures NotFound(s, x)
    decreases x, 1
  {
    if x.expr.Not? {
      var y := x.expr.child;
      Begins(s, y);
      NotLeads(s, x.from, y.from);
      PrimarySpelled(s, y);
      NotJoins(s, x.from, y.from, x.to, Tree(y));
    } else {
      Begins(s, x);
      PrimarySpelled(s, x);
      NotIsPrimary(s, x.from);
    }
  }

  lemma {:induction false} AndSpelled(s: string, x: Spot)
    requires Spells(s, x) && Ended(s, x.to) && Level(x.expr) >= 1
    ensures AndFound(s, x)
    decreases x, 2
  {
    if x.expr.And? {
      var l, k, r := x.expr.left, x.expr.at, x.expr.right;
      Begins(s, r);
      AndLeads(s, l.to, k, r.from);
      AndSpelled(s, l);
      NotSpelled(s, r);
      AndJoins(s, x.from, l.to, k, r.from, x.to, Tree(l), Tree(r));
    } else if x.expr.Beside? {
      var l, r := x.expr.left, x.expr.right;
      Begins(s, r);
      GapSkipped(s, l.to, r.from);
      AndSpelled(s, l);
      PrimarySpelled(s, r);
      BesideJoins(s, x.from, l.to, r.from, x.to, Tree(l), Tree(r));
    } else {
      NotSpelled(s, x);
      AndIs(s, x.from, Tree(x), x.to);
    }
  }

  lemma {:induction false} OrSpelled(s: string, x: Spot)
    requires Spells(s, x) && Ended(s, x.to)
    ensures OrFound(s, x)
    decreases x, 3
  {
    if x.expr.Or? {
      var l, k, r := x.expr.left, x.expr.at, x.expr.right;
      Begins(s, r);
      OrLeads(s, l.to, k, r.from);
      OrSpelled(s, l);
      AndSpelled(s, r);
      OrJoins(s, l.to, k, r.from, x.to, Tree(l), Tree(r));
    } else {
      AndSpelled(s, x);
      OrOfAnd(s, x.from, x.to, Tree(x));
    }
  }

  lemma OrOfAnd(s: string, i: nat, end: nat, node: Node)
    requires i <= |s| && end <= |s| && ParseAnd(s, i) == AndRest(s, end, node)
    ensures AndStops(s, end) ==> ParseOr(s, i) == OrRest(s, SkipWS(s, end), node)
  {
    if AndStops(s, end) {
      StopsAnd(s, end, node);
      OrIs(s, i, node, SkipWS(s, end));
    }
  }

  // ----- Whole queries -----

  /** A query string with white space around it. */
  ghost predicate Padded(input: string, s: string) {
    exists before, after :: input == before + (s + after) && AllBlank(before) && AllBlank(after)
  }

  ghost predicate AllBlank(s: string) {
    forall i | 0 <= i < |s| :: Blank(s[i])
  }

  lemma {:induction false} TrimsEnd(t: string, after: string)
    requires AllBlank(after) && t != "" && !IsSpace(t[|t| - 1])
    ensures TrimEnd(t + after) == t
  {
    if after == "" {
      PlusNothing(t);
    } else {
      var n := |after| - 1;
      assert Blank(after[n]) && (t + after)[|t| + n] == after[n];
      assert (t + after)[..|t| + n] == t + after[..n];
      TrimsEnd(t, after[..n]);
    }
  }

  lemma Trims(input: string, s: string)
    requires Padded(input, s) && s != "" && !IsSpace(s[0]) && !IsSpace(s[|s| - 1])
    ensures Trim(input) == s
  {
    var before, after :| input == before + (s + after) && AllBlank(before) && AllBlank(after);
    forall m | 0 <= m < |before|
      ensures Blank(input[m])
    {
      assert input[m] == before[m];
    }
    assert input[|before|] == s[0];
    BlanksSkipped(input, 0, |before|);
    assert input[|before|..] == s + after;
    TrimsEnd(s, after);
  }

  /** A string that spells an expression from end to end parses to its end, to a tree that means the same. */
  lemma SpelledParses(words: Words, input: string, s: string, x: Spot, row: Row)
    requires Padded(input, s) && Spells(s, x) && x.from == 0 && x.to == |s|
    ensures ParseOr(Trim(input), 0) == Parsed(Tree(x), |s|) && ParseQuery(input) == Some(Tree(x))
    ensures Matches(words, Tree(x), row) <==> Holds(words, x, row)
  {
    Begins(s, x);
    Ends(s, x);
    Trims(input, s);
    OrSpelled(s, x);
    assert SkipWS(s, |s|) == |s|;
    StopsOr(s, |s|, Tree(x));
    TreeMeans(words, x, row);
  }

  /** In e NOT x, such as foo NOT bar, the NOT and everything behind it is ignored. */
  lemma TrailingNotIgnored(input: string, s: string, x: Spot, k: nat)
    requires Padded(input, s) && s != "" && !IsSpace(s[|s| - 1]) && Spells(s, x) && x.from == 0
    requires Gap(s, x.to, k) && SpellsNot(s, k) && (k + 3 == |s| || !IsIdent(s[k + 3]))
    ensures ParseQuery(input) == Some(Tree(x))
  {
    Begins(s, x);
    Trims(input, s);
    assert OpAt(s, k) == NOT && !IsSpace(s[k]);
    GapSkipped(s, x.to, k);
    OrSpelled(s, x);
    StopsOr(s, k, Tree(x));
  }

  lemma Unpadded(s: string)
    ensures Padded(s, s)
  {
    assert s == "" + (s + "") && AllBlank("");
  }

  /** A single term. */
  lemma AtomAlone(a: Atom)
    requires ValidAtom(a)
    ensures ParseQuery(Written(a)) == Some(NodeOf(a))
  {
    var s := Written(a);
    NotEmpty(a);
    Unpadded(s);
    SpelledParses(_ => [], s, s, Spot(0, |s|, Leaf(a)), []);
  }
}
