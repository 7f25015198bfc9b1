/** The terms of a query string as they are written: with or without a field, a star and quotes. */
module Atoms {
  import opened Bytes
  import opened Sequences
  import opened Query
  import opened Grammar

  /** A word, the beginning of a word, or several words in a row. */
  datatype Body = Exactly(word: string) | Starting(prefix: string) | Several(words: seq<string>)

  /** A term; an empty field name stands for none. */
  datatype Atom = Atom(field: string, body: Body, quoted: bool)

  /** A character with no meaning of its own. */
  predicate Plain(c: char) {
    !IsSpace(c) && c != '(' && c != ')' && c != '"'
  }

  ghost predicate AllPlain(s: string) {
    forall i | 0 <= i < |s| :: Plain(s[i])
  }

  function Joined(ws: seq<string>): string {
    if ws == [] then "" else if |ws| == 1 then ws[0] else ws[0] + (" " + Joined(ws[1..]))
  }

  function TextOf(b: Body): string {
    match b
    case Exactly(w) => w
    case Starting(p) => p + "*"
    case Several(ws) => Joined(ws)
  }

  function Inner(a: Atom): string {
    if a.field == "" then TextOf(a.body) else a.field + (":" + TextOf(a.body))
  }

  function InQuotes(t: string, quoted: bool): string {
    if quoted then "\"" + (t + "\"") else t
  }

  function Written(a: Atom): string {
    InQuotes(Inner(a), a.quoted)
  }

  ghost predicate ValidBody(b: Body) {
    match b
    case Exactly(w) => w != "" && AllPlain(w) && w[|w| - 1] != '*'
    case Starting(p) => AllPlain(p)
    case Several(ws) => |ws| >= 2 && forall w <- ws :: w != "" && AllPlain(w)
  }

  /** Several words need quotes; without quotes the term must not begin like an operator. */
  ghost predicate ValidAtom(a: Atom) {
    && ValidBody(a.body) && AllPlain(a.field) && ':' !in a.field
    && (a.field == "" ==> ':' !in TextOf(a.body))
    && (if a.quoted then true else !a.body.Several? && OpAt(Inner(a), 0) == NoOp)
  }

  function FieldOf(a: Atom): string {
    if a.field == "" then ALL else a.field
  }

  /** What the parser makes of a term. */
  function NodeOf(a: Atom): Node {
    match a.body
    case Exactly(w) => Match(FieldOf(a), w)
    case Starting(p) => Prefix(FieldOf(a), p)
    case Several(ws) => Phrase(FieldOf(a), ws)
  }

  /** What a term says about a document. */
  ghost predicate Says(words: Words, a: Atom, row: Row) {
    match a.body
    case Exactly(w) =>
      && words(w) != []
      && forall t <- words(w) :: exists c <- row :: (FieldOf(a) == ALL || c.name == a.field) && t in c.terms
    case Starting(p) => exists c <- row :: c.name == FieldOf(a) && exists t <- c.terms :: p <= t
    case Several(ws) =>
      ws != [] && exists c <- row :: c.name == FieldOf(a) && exists k: nat :: FollowAt(c.terms, ws, k)
  }

  /** The words follow each other from a place on. */
  ghost predicate FollowAt(ts: seq<string>, ws: seq<string>, k: nat) {
    k + |ws| <= |ts| && forall j | 0 <= j < |ws| :: ts[k + j] == ws[j]
  }

  lemma NodeMeans(words: Words, a: Atom, row: Row)
    ensures Matches(words, NodeOf(a), row) <==> Says(words, a, row)
  {
    match a.body
    case Exactly(w) =>
      forall t: string
        ensures HasTerm(row, FieldOf(a), t)
                <==> exists c <- row :: (FieldOf(a) == ALL || c.name == a.field) && t in c.terms
      {
        TermSaid(row, a, t);
      }
    case Starting(p) =>
      PrefixSaid(row, FieldOf(a), p);
    case Several(ws) =>
      if ws != [] {
        PhraseSaid(row, FieldOf(a), ws);
      }
  }

  lemma TermSaid(row: Row, a: Atom, t: string)
    ensures HasTerm(row, FieldOf(a), t)
            <==> exists c <- row :: (FieldOf(a) == ALL || c.name == a.field) && t in c.terms
  {
    if i :| 0 <= i < |row| && (FieldOf(a) == ALL || row[i].name == FieldOf(a)) && t in row[i].terms {
      assert row[i] in row;
    }
    if c :| c in row && (FieldOf(a) == ALL || c.name == a.field) && t in c.terms {
      var i :| 0 <= i < |row| && row[i] == c;
    }
  }

  lemma PrefixSaid(row: Row, f: string, p: string)
    ensures HasPrefix(row, f, p) <==> exists c <- row :: c.name == f && exists t <- c.terms :: p <= t
  {
    if i, j :| 0 <= i < |row| && 0 <= j < |row[i].terms| && row[i].name == f && p <= row[i].terms[j] {
      assert row[i] in row && row[i].terms[j] in row[i].terms;
    }
    if c :| c in row && c.name == f && exists t <- c.terms :: p <= t {
      var i :| 0 <= i < |row| && row[i] == c;
      var t :| t in c.terms && p <= t;
      var j :| 0 <= j < |c.terms| && c.terms[j] == t;
      assert row[i].name == f && p <= row[i].terms[j];
    }
  }

  lemma PhraseSaid(row: Row, f: string, ws: seq<string>)
    requires ws != []
    ensures HasPhrase(row, f, ws) <==> exists c <- row :: c.name == f && exists k: nat :: FollowAt(c.terms, ws, k)
  {
    if i :| 0 <= i < |row| && row[i].name == f && Contains(row[i].terms, ws) {
      var k: nat :| StandAt(row[i].terms, ws, k);
      StandIsFollow(row[i].terms, ws, k);
      assert row[i] in row;
    }
    if c :| c in row && c.name == f && exists k: nat :: FollowAt(c.terms, ws, k) {
      var i :| 0 <= i < |row| && row[i] == c;
      var k: nat :| FollowAt(c.terms, ws, k);
      StandIsFollow(c.terms, ws, k);
    }
  }

  lemma StandIsFollow(ts: seq<string>, ws: seq<string>, k: nat)
    ensures StandAt(ts, ws, k) <==> FollowAt(ts, ws, k)
  {
    if StandAt(ts, ws, k) {
      forall j | 0 <= j < |ws|
        ensures ts[k + j] == ws[j]
      {
        assert ts[k..k + |ws|][j] == ws[j];
      }
    }
  }

  // ----- Words of a quoted text -----

  lemma {:induction false} WordEnds(s: string, i: nat, w: string, k: nat)
    requires At(s, i, w) && AllPlain(w) && k <= |w| && (i + |w| == |s| || IsSpace(s[i + |w|]))
    ensures WordEnd(s, i + k) == i + |w|
    decreases |w| - k
  {
    if k < |w| {
      assert s[i + k] == w[k] && Plain(w[k]);
      WordEnds(s, i, w, k + 1);
    }
  }

  lemma FieldsSkip(s: string, i: nat)
    requires i <= |s|
    ensures Fields(s, i) == Fields(s, SkipWS(s, i))
  {
    SkipTwice(s, i);
  }

  /** One word at the front of a text. */
  lemma FirstField(s: string, i: nat, w: string)
    requires At(s, i, w) && w != "" && AllPlain(w) && (i + |w| == |s| || IsSpace(s[i + |w|]))
    ensures SkipWS(s, i) == i && Fields(s, i) == [w] + Fields(s, i + |w|)
  {
    assert s[i + 0] == w[0] && Plain(w[0]);
    WordEnds(s, i, w, 0);
    assert s[i..i + |w|] == w;
  }

  lemma TwoParts(s: string, i: nat, w: string, later: string)
    requires At(s, i, w + (" " + later))
    ensures At(s, i, w) && At(s, i + |w| + 1, later) && s[i + |w|] == ' '
  {
    AtSplits(s, i, w, " " + later);
    AtSplits(s, i + |w|, " ", later);
    assert s[i + |w| + 0] == " "[0];
  }

  /** Joined words are split again. */
  lemma {:induction false} FieldsJoined(s: string, i: nat, ws: seq<string>)
    requires At(s, i, Joined(ws)) && i + |Joined(ws)| == |s| && ws != [] && forall w <- ws :: w != "" && AllPlain(w)
    ensures Fields(s, i) == ws && SkipWS(s, i) == i
    decreases |ws|
  {
    var w, later := ws[0], ws[1..];
    HeadAndTail(ws);
    assert w in ws;
    if |ws| == 1 {
      FirstField(s, i, w);
      assert Fields(s, |s|) == [];
    } else {
      var next := i + |w| + 1;
      TwoParts(s, i, w, Joined(later));
      assert forall x <- later :: x in ws;
      FieldsJoined(s, next, later);
      FieldThen(s, i, w, later);
    }
  }

  /** A word, a blank and the words behind it. */
  lemma FieldThen(s: string, i: nat, w: string, later: seq<string>)
    requires At(s, i, w) && w != "" && AllPlain(w) && i + |w| < |s| && s[i + |w|] == ' '
    requires SkipWS(s, i + |w| + 1) == i + |w| + 1 && Fields(s, i + |w| + 1) == later
    ensures SkipWS(s, i) == i && Fields(s, i) == [w] + later
  {
    FirstField(s, i, w);
    OneSpace(s, i + |w|);
    FieldsSkip(s, i + |w|);
  }

  lemma OneSpace(s: string, i: nat)
    requires i < |s| && IsSpace(s[i]) && SkipWS(s, i + 1) == i + 1
    ensures SkipWS(s, i) == i + 1
  {
  }

  lemma JoinedHasBlank(ws: seq<string>)
    requires |ws| >= 2
    ensures ' ' in Joined(ws)
  {
    var t := Joined(ws);
    assert t == ws[0] + (" " + Joined(ws[1..]));
    assert t[|ws[0]|] == ' ';
  }

  /** A term without its field. */
  lemma TermNodeIs(f: string, b: Body)
    requires ValidBody(b)
    ensures TermNode(f, TextOf(b))
         == match b
            case Exactly(w) => Match(f, w)
            case Starting(p) => Prefix(f, p)
            case Several(ws) => Phrase(f, ws)
  {
    var t := TextOf(b);
    match b
    case Exactly(w) =>
      assert ' ' !in w by {
        NoBlank(w);
      }
    case Starting(p) =>
      NoBlank(p);
      assert ' ' !in t && t[|t| - 1] == '*' && t[..|t| - 1] == p;
    case Several(ws) =>
      JoinedHasBlank(ws);
      FieldsJoined(t, 0, ws);
  }

  lemma NoBlank(w: string)
    requires AllPlain(w)
    ensures ' ' !in w
  {
    forall i | 0 <= i < |w|
      ensures w[i] != ' '
    {
      assert Plain(w[i]);
    }
  }

  // ----- Reading a term -----

  /** What may stand behind a term. */
  ghost predicate Ended(s: string, i: nat) {
    i == |s| || (i < |s| && (s[i] == ' ' || s[i] == '\t' || s[i] == ')'))
  }

  lemma NotEmpty(a: Atom)
    requires ValidAtom(a)
    ensures Inner(a) != "" && TextOf(a.body) != "" && !IsSpace(Inner(a)[0]) && Inner(a)[0] != '('
    ensures Inner(a)[0] != ')' && Inner(a)[0] != '"' && !IsSpace(Inner(a)[|Inner(a)| - 1])
  {
    BodyEnds(a.body);
    var t := TextOf(a.body);
    if a.field != "" {
      assert Plain(a.field[0]) && Inner(a)[0] == a.field[0];
      assert Inner(a)[|Inner(a)| - 1] == t[|t| - 1];
    }
  }

  lemma BodyEnds(b: Body)
    requires ValidBody(b)
    ensures var t := TextOf(b);
            t != "" && Plain(t[0]) && Plain(t[|t| - 1])
  {
    match b
    case Exactly(w) =>
    case Starting(p) =>
      var t := p + "*";
      if p != "" {
        assert t[0] == p[0];
      }
    case Several(ws) => JoinedEnds(ws);
  }

  lemma {:induction false} JoinedEnds(ws: seq<string>)
    requires ws != [] && forall w <- ws :: w != "" && AllPlain(w)
    ensures var t := Joined(ws);
            t != "" && Plain(t[0]) && Plain(t[|t| - 1])
  {
    var w, t := ws[0], Joined(ws);
    assert w in ws && Plain(w[0]) && Plain(w[|w| - 1]);
    if |ws| > 1 {
      assert forall x <- ws[1..] :: x in ws;
      JoinedEnds(ws[1..]);
      var later := Joined(ws[1..]);
      assert t[0] == w[0] && t[|t| - 1] == later[|later| - 1];
    }
  }

  /** The colon behind the field is the first one. */
  lemma FirstColon(a: Atom)
    requires ValidAtom(a)
    ensures IndexOf(Inner(a), ':', 0) == if a.field == "" then |Inner(a)| else |a.field|
  {
    var t := Inner(a);
    var j := IndexOf(t, ':', 0);
    if a.field != "" {
      assert t[|a.field|] == ':';
      forall k | 0 <= k < |a.field|
        ensures t[k] != ':'
      {
        assert t[k] == a.field[k] && a.field[k] in a.field;
      }
    }
  }

  /** What is read as a token is understood as the term. */
  lemma TokenUnderstood(a: Atom)
    requires ValidAtom(a)
    ensures var t := Inner(a);
            var colon := IndexOf(t, ':', 0);
            && t != "" && !(0 < colon < |t| && colon + 1 == |t|)
            && NodeOf(a) == if 0 < colon < |t| then TermNode(t[..colon], t[colon + 1..]) else TermNode(ALL, t)
  {
    var t := Inner(a);
    NotEmpty(a);
    FirstColon(a);
    TermNodeIs(FieldOf(a), a.body);
    if a.field != "" {
      assert t[..|a.field|] == a.field && t[|a.field| + 1..] == TextOf(a.body);
    }
  }

  lemma {:induction false} TokenEnds(s: string, i: nat, t: string, k: nat)
    requires At(s, i, t) && k <= |t| && Ended(s, i + |t|) && forall j | 0 <= j < |t| :: !EndsToken(t[j])
    ensures TokenEnd(s, i + k) == i + |t|
    decreases |t| - k
  {
    if k < |t| {
      assert s[i + k] == t[k];
      TokenEnds(s, i, t, k + 1);
    }
  }

  lemma {:induction false} QuoteEnds(s: string, i: nat, t: string, k: nat)
    requires At(s, i, t) && k <= |t| && i + |t| < |s| && s[i + |t|] == '"' && '"' !in t
    ensures QuoteEnd(s, i + k) == i + |t|
    decreases |t| - k
  {
    if k < |t| {
      assert s[i + k] == t[k] && t[k] in t;
      QuoteEnds(s, i, t, k + 1);
    }
  }

  lemma BareInner(a: Atom)
    requires ValidAtom(a) && !a.quoted
    ensures forall j | 0 <= j < |Inner(a)| :: !EndsToken(Inner(a)[j])
  {
    var t, b := Inner(a), TextOf(a.body);
    forall j | 0 <= j < |b|
      ensures Plain(b[j])
    {
    }
    forall j | 0 <= j < |t|
      ensures !EndsToken(t[j])
    {
      if a.field != "" {
        if j < |a.field| {
          assert t[j] == a.field[j];
        } else if j > |a.field| {
          assert t[j] == b[j - |a.field| - 1];
        }
      }
    }
  }

  lemma {:induction false} JoinedPlain(ws: seq<string>)
    requires forall w <- ws :: AllPlain(w)
    ensures '"' !in Joined(ws)
  {
    if ws != [] {
      assert ws[0] in ws && forall x <- ws[1..] :: x in ws;
      JoinedPlain(ws[1..]);
      NoQuote(ws[0]);
    }
  }

  lemma NoQuote(w: string)
    requires AllPlain(w)
    ensures '"' !in w
  {
    forall i | 0 <= i < |w|
      ensures w[i] != '"'
    {
      assert Plain(w[i]);
    }
  }

  lemma InnerHasNoQuote(a: Atom)
    requires ValidAtom(a)
    ensures '"' !in Inner(a)
  {
    NoQuote(a.field);
    match a.body
    case Exactly(w) => NoQuote(w);
    case Starting(p) => NoQuote(p);
    case Several(ws) => JoinedPlain(ws);
  }

  /** The operator at the beginning of a text is that of the text alone. */
  lemma OpOfText(s: string, i: nat, t: string)
    requires At(s, i, t) && t != "" && Ended(s, i + |t|)
    ensures OpAt(s, i) == OpAt(t, 0)
  {
    assert s[i + 0] == t[0];
    if |t| > 1 {
      assert s[i + 1] == t[1];
    }
    if |t| > 2 {
      assert s[i + 2] == t[2];
    }
    if |t| > 3 {
      assert s[i + 3] == t[3];
    }
  }

  lemma OperatorToken(t: string)
    requires OpAt(t, 0) == NoOp
    ensures !IsOperator(t)
  {
  }

  lemma QuotedIsRead(s: string, i: nat, t: string)
    requires At(s, i, "\"" + (t + "\"")) && '"' !in t
    ensures SkipWS(s, i) == i && ReadToken(s, i) == Lexed(t, i + |t| + 2)
  {
    assert At(s, i + 1, t) && s[i] == '"' && s[i + 1 + |t|] == '"' by {
      AtSplits(s, i, "\"", t + "\"");
      AtSplits(s, i + 1, t, "\"");
      assert s[i + 0] == "\""[0] && s[i + 1 + |t| + 0] == "\""[0];
    }
    QuoteEnds(s, i + 1, t, 0);
    assert s[i + 1..i + 1 + |t|] == t;
  }

  /** A text that needs no quotes. */
  ghost predicate Bare(t: string) {
    && t != "" && !IsSpace(t[0]) && t[0] != '"' && OpAt(t, 0) == NoOp
    && forall j | 0 <= j < |t| :: !EndsToken(t[j])
  }

  ghost predicate Readable(t: string, quoted: bool) {
    if quoted then '"' !in t else Bare(t)
  }

  lemma InnerReadable(a: Atom)
    requires ValidAtom(a)
    ensures Readable(Inner(a), a.quoted)
  {
    if a.quoted {
      InnerHasNoQuote(a);
    } else {
      NotEmpty(a);
      BareInner(a);
    }
  }

  lemma BareIsRead(s: string, i: nat, t: string)
    requires At(s, i, t) && Ended(s, i + |t|) && Bare(t)
    ensures SkipWS(s, i) == i && ReadToken(s, i) == Lexed(t, i + |t|)
  {
    assert s[i + 0] == t[0];
    OperatorToken(t);
    TokenEnds(s, i, t, 0);
    assert s[i..i + |t|] == t;
  }

  /** The token is the text between the quotes, or all of it. */
  lemma TextIsRead(s: string, i: nat, t: string, quoted: bool)
    requires At(s, i, InQuotes(t, quoted)) && Ended(s, i + |InQuotes(t, quoted)|) && Readable(t, quoted)
    ensures SkipWS(s, i) == i && ReadToken(s, i) == Lexed(t, i + |InQuotes(t, quoted)|)
  {
    if quoted {
      QuotedIsRead(s, i, t);
    } else {
      BareIsRead(s, i, t);
    }
  }

  /** Where a term begins there is no operator and no parenthesis. */
  ghost predicate Starts(s: string, i: nat) {
    i < |s| && SkipWS(s, i) == i && OpAt(s, i) == NoOp && s[i] != ')' && s[i] != '('
  }

  lemma TextStarts(s: string, i: nat, t: string, quoted: bool)
    requires At(s, i, InQuotes(t, quoted)) && Ended(s, i + |InQuotes(t, quoted)|) && Readable(t, quoted)
    ensures Starts(s, i)
  {
    var w := InQuotes(t, quoted);
    assert s[i + 0] == w[0];
    if !quoted {
      OpOfText(s, i, t);
    }
  }

  lemma AtomStarts(s: string, i: nat, a: Atom)
    requires At(s, i, Written(a)) && ValidAtom(a) && Ended(s, i + |Written(a)|)
    ensures Starts(s, i)
  {
    InnerReadable(a);
    TextStarts(s, i, Inner(a), a.quoted);
  }

  /** A written term is parsed as it is meant. */
  lemma AtomParses(s: string, i: nat, a: Atom)
    requires At(s, i, Written(a)) && ValidAtom(a) && Ended(s, i + |Written(a)|)
    ensures ParsePrimary(s, i) == Parsed(NodeOf(a), i + |Written(a)|)
  {
    AtomStarts(s, i, a);
    InnerReadable(a);
    TextIsRead(s, i, Inner(a), a.quoted);
    TokenUnderstood(a);
    TermIsParsed(s, i, a);
  }

  lemma TermIsParsed(s: string, i: nat, a: Atom)
    requires i <= |s| && ReadToken(s, i) == Lexed(Inner(a), i + |Written(a)|) && Inner(a) != ""
    requires var t := Inner(a);
             var colon := IndexOf(t, ':', 0);
             && !(0 < colon < |t| && colon + 1 == |t|)
             && NodeOf(a) == if 0 < colon < |t| then TermNode(t[..colon], t[colon + 1..]) else TermNode(ALL, t)
    ensures ParseTerm(s, i) == Parsed(NodeOf(a), i + |Written(a)|)
  {
  }
}
