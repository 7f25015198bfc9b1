/** The parser itself: a cursor over the input, moved by mutually recursive methods. */
module Parser {
  import opened Bytes
  import opened Query
  import G = Grammar

  /** The result and the cursor are those of the grammar; a failure leaves the cursor somewhere in the input. */
  ghost predicate Follows(r: Option<Node>, pos: nat, length: nat, g: G.Parsed) {
    && pos <= length
    && match g
       case Failed => r.None?
       case Parsed(node, next) => r == Some(node) && pos == next
  }

  class QsParser {
    const input: string
    var pos: nat

    ghost predicate Valid()
      reads this
    {
      pos <= |input|
    }

    constructor (input: string)
      ensures this.input == input && pos == 0 && Valid()
    {
      this.input, pos := input, 0;
    }

    method SkipWhite()
      requires Valid()
      modifies this
      ensures Valid() && pos == G.SkipWS(input, old(pos))
    {
      while pos < |input| && G.IsSpace(input[pos])
        invariant Valid() && G.SkipWS(input, pos) == G.SkipWS(input, old(pos))
        decreases |input| - pos
      {
        pos := pos + 1;
      }
    }

    method Peek() returns (op: G.Op)
      requires Valid()
      modifies this
      ensures Valid() && pos == G.SkipWS(input, old(pos)) && op == G.OpAt(input, pos)
    {
      SkipWhite();
      op := G.OpAt(input, pos);
    }

    method ReadToken() returns (token: string)
      requires Valid()
      modifies this
      ensures Valid() && G.Lexed(token, pos) == G.ReadToken(input, old(pos))
    {
      SkipWhite();
      if pos >= |input| {
        return "";
      }
      var start: nat;
      if input[pos] == '"' {
        pos := pos + 1;
        start := pos;
        while pos < |input| && input[pos] != '"'
          invariant start <= pos <= |input| && G.QuoteEnd(input, pos) == G.QuoteEnd(input, start)
          decreases |input| - pos
        {
          pos := pos + 1;
        }
        token := input[start..pos];
        if pos < |input| {
          pos := pos + 1;
        }
        return;
      }
      start := pos;
      while pos < |input| && !G.EndsToken(input[pos])
        invariant start <= pos <= |input| && G.TokenEnd(input, pos) == G.TokenEnd(input, start)
        decreases |input| - pos
      {
        pos := pos + 1;
      }
      token := input[start..pos];
      if G.IsOperator(token) {
        pos := start;
        return "";
      }
    }

    method ParseTerm() returns (r: Option<Node>)
      requires Valid()
      modifies this
      ensures Follows(r, pos, |input|, G.ParseTerm(input, old(pos)))
    {
      var token := ReadToken();
      if token == "" {
        return None;
      }
      var colon := G.IndexOf(token, ':', 0);
      if 0 < colon < |token| {
        if colon + 1 == |token| {
          return None;
        }
        return Some(G.TermNode(token[..colon], token[colon + 1..]));
      }
      return Some(G.TermNode(ALL, token));
    }

    method ParsePrimary() returns (r: Option<Node>)
      requires Valid()
      modifies this
      ensures Follows(r, pos, |input|, G.ParsePrimary(input, old(pos)))
      decreases |input| - pos, 0
    {
      ghost var start := pos;
      SkipWhite();
      if pos >= |input| {
        return None;
      }
      if input[pos] == '(' {
        pos := pos + 1;
        var node := ParseOr();
        if node.None? {
          return None;
        }
        SkipWhite();
        if pos >= |input| || input[pos] != ')' {
          return None;
        }
        pos := pos + 1;
        return node;
      }
      G.TermAfterBlank(input, start);
      r := ParseTerm();
    }

    method ParseNot() returns (r: Option<Node>)
      requires Valid()
      modifies this
      ensures Follows(r, pos, |input|, G.ParseNot(input, old(pos)))
      decreases |input| - pos, 1
    {
      var op := Peek();
      if op == G.NOT {
        pos := pos + 3;
        var child := ParsePrimary();
        if child.None? {
          return None;
        }
        return Some(Bool([], [], [child.value], []));
      }
      r := ParsePrimary();
    }

    method ParseAnd() returns (r: Option<Node>)
      requires Valid()
      modifies this
      ensures Follows(r, pos, |input|, G.ParseAnd(input, old(pos)))
      decreases |input| - pos, 2
    {
      ghost var goal := G.ParseAnd(input, pos);
      var first := ParseNot();
      if first.None? {
        return None;
      }
      var left := first.value;
      while true
        invariant Valid() && pos > old(pos) && goal == G.AndRest(input, pos, left)
        decreases |input| - pos
      {
        var op := Peek();
        if op == G.AND {
          pos := pos + 3;
        } else if op == G.NoOp && pos < |input| {
          if input[pos] == ')' {
            break;
          }
        } else {
          break;
        }
        var right := ParseNot();
        if right.None? {
          return None;
        }
        if left.Bool? && left.should == [] && left.mustNot == [] {
          left := left.(must := left.must + [right.value]);
        } else {
          left := Bool([left, right.value], [], [], []);
        }
      }
      return Some(left);
    }

    method ParseOr() returns (r: Option<Node>)
      requires Valid()
      modifies this
      ensures Follows(r, pos, |input|, G.ParseOr(input, old(pos)))
      decreases |input| - pos, 3
    {
      ghost var goal := G.ParseOr(input, pos);
      var first := ParseAnd();
      if first.None? {
        return None;
      }
      var left := first.value;
      while true
        invariant Valid() && pos > old(pos) && goal == G.OrRest(input, pos, left)
        decreases |input| - pos
      {
        var op := Peek();
        if op != G.OR {
          break;
        }
        pos := pos + 2;
        var right := ParseAnd();
        if right.None? {
          return None;
        }
        left := Bool([], [left, right.value], [], []);
      }
      return Some(left);
    }
  }

  /** The cursor always ends: every input gives a tree or an error. */
  method ParseQueryString(input: string) returns (r: Option<Node>)
    ensures r == G.ParseQuery(input)
  {
    var p := new QsParser(G.Trim(input));
    r := p.ParseOr();
  }
}
