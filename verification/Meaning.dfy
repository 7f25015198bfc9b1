/** What queries say about JSON documents, in terms of the field values and the words in them. */
module Meaning {
  import opened Bytes
  import opened Sequences
  import opened Analyze
  import opened Query
  import opened Answers
  import M = Memtable

  // ----- Words of a text -----

  /** A maximal run of word characters that folds to v. */
  ghost predicate IsWordOf(an: Analyzer, text: string, v: string) {
    exists r: Run :: Maximal(an.isWord, text, r) && an.fold(text[r.start..r.end]) == v
  }

  lemma WordIsTerm(an: Analyzer, text: string, v: string)
    ensures v in TermsOf(Tokens(an, text)) <==> v != "" && IsWordOf(an, text, v)
  {
    var ts := Tokens(an, text);
    if v in TermsOf(ts) {
      var k :| 0 <= k < |ts| && TermsOf(ts)[k] == v;
      TokensAreWords(an, text, k);
      assert Maximal(an.isWord, text, Run(ts[k].start, ts[k].end));
    }
    if v != "" && IsWordOf(an, text, v) {
      var r: Run :| Maximal(an.isWord, text, r) && an.fold(text[r.start..r.end]) == v;
      WordsAreTokens(an, text, r);
      var k :| 0 <= k < |ts| && Run(ts[k].start, ts[k].end) == r;
      TokensAreWords(an, text, k);
      assert TermsOf(ts)[k] == v;
    }
  }

  // ----- Fields of a document -----

  /** The string a document has in a field. */
  ghost function Value(cfg: M.Config, raw: bytes, field: string): Option<string> {
    var doc := cfg.parse(raw);
    if doc.None? || field !in doc.value then None else Some(doc.value[field])
  }

  /** A term is found in a field: a word of a text, the whole of a keyword in lower case, nothing in a number. */
  ghost predicate InField(cfg: M.Config, f: M.FieldDef, raw: bytes, v: string) {
    var value := Value(cfg, raw, f.name);
    value.Some? &&
    match f.kind
    case Text => v != "" && IsWordOf(cfg.an, value.value, v)
    case Keyword => cfg.an.lower(value.value) == v
    case I64 => false
  }

  lemma CellIs(cfg: M.Config, f: M.FieldDef, raw: bytes, v: string)
    ensures v in M.Cell(cfg, f, raw) <==> InField(cfg, f, raw, v)
  {
    var value := Value(cfg, raw, f.name);
    if value.Some? && f.kind.Text? {
      WordIsTerm(cfg.an, value.value, v);
    }
  }

  /** The cells of a document's row are those of the indexed fields. */
  lemma {:induction false} RowHas(cfg: M.Config, schema: seq<M.FieldDef>, raw: bytes, c: Cell)
    ensures c in DocRow(cfg, schema, raw) <==>
            exists i | 0 <= i < |schema| ::
              !schema[i].kind.I64? && c == Cell(schema[i].name, M.Cell(cfg, schema[i], raw))
  {
    if schema != [] {
      var n := |schema| - 1;
      RowHas(cfg, schema[..n], raw, c);
      if i :| 0 <= i < n && !schema[i].kind.I64? && c == Cell(schema[i].name, M.Cell(cfg, schema[i], raw)) {
        assert schema[..n][i] == schema[i];
      }
    }
  }

  /** A term lookup, in one field or in all. */
  lemma TermMeans(cfg: M.Config, schema: seq<M.FieldDef>, raw: bytes, field: string, v: string)
    ensures HasTerm(DocRow(cfg, schema, raw), field, v) <==>
            exists i | 0 <= i < |schema| :: (field == ALL || schema[i].name == field) && InField(cfg, schema[i], raw, v)
  {
    var row := DocRow(cfg, schema, raw);
    if k :| 0 <= k < |row| && (field == ALL || row[k].name == field) && v in row[k].terms {
      RowHas(cfg, schema, raw, row[k]);
      var i :| 0 <= i < |schema| && row[k] == Cell(schema[i].name, M.Cell(cfg, schema[i], raw));
      CellIs(cfg, schema[i], raw, v);
    }
    if i :| 0 <= i < |schema| && (field == ALL || schema[i].name == field) && InField(cfg, schema[i], raw, v) {
      var c := Cell(schema[i].name, M.Cell(cfg, schema[i], raw));
      CellIs(cfg, schema[i], raw, v);
      RowHas(cfg, schema, raw, c);
      var k :| 0 <= k < |row| && row[k] == c;
    }
  }

  // ----- Queries -----

  /** A document is among the answers to a query. */
  ghost predicate Answered(cfg: M.Config, schema: seq<M.FieldDef>, docs: seq<bytes>, q: Node, d: u32) {
    d in Satisfying(cfg, schema, docs, q)
  }

  /** The field of a valid schema with a name; other fields do not matter. */
  lemma OnlyField(schema: seq<M.FieldDef>, i: nat, j: nat)
    requires M.ValidSchema(schema) && i < |schema| && j < |schema| && schema[i].name == schema[j].name
    ensures i == j
  {
  }

  /** Term and keyword queries on a field of the schema. */
  lemma TermAnswers(cfg: M.Config, schema: seq<M.FieldDef>, docs: seq<bytes>, i: nat, v: string, d: u32)
    requires M.ValidSchema(schema) && i < |schema| && schema[i].name != ALL && d < |docs|
    ensures Answered(cfg, schema, docs, Term(schema[i].name, v), d) <==> InField(cfg, schema[i], docs[d], v)
    ensures Answered(cfg, schema, docs, Keyword(schema[i].name, v), d) <==> InField(cfg, schema[i], docs[d], v)
  {
    TermMeans(cfg, schema, docs[d], schema[i].name, v);
  }

  /** The same on all fields. */
  lemma AllAnswers(cfg: M.Config, schema: seq<M.FieldDef>, docs: seq<bytes>, v: string, d: u32)
    requires d < |docs|
    ensures Answered(cfg, schema, docs, Term(ALL, v), d) <==>
            exists i | 0 <= i < |schema| :: InField(cfg, schema[i], docs[d], v)
  {
    TermMeans(cfg, schema, docs[d], ALL, v);
  }

  /** A match query: the text has a word, and the field has every word of it. */
  lemma MatchAnswers(cfg: M.Config, schema: seq<M.FieldDef>, docs: seq<bytes>, i: nat, text: string, d: u32)
    requires M.ValidSchema(schema) && i < |schema| && schema[i].name != ALL && d < |docs|
    ensures Answered(cfg, schema, docs, Match(schema[i].name, text), d) <==>
            && (exists v :: v != "" && IsWordOf(cfg.an, text, v))
            && forall v | v != "" && IsWordOf(cfg.an, text, v) :: InField(cfg, schema[i], docs[d], v)
  {
    var ts := TermsOf(Tokens(cfg.an, text));
    assert WordsOf(cfg.an)(text) == ts;
    forall v: string
      ensures v in ts <==> v != "" && IsWordOf(cfg.an, text, v)
      ensures HasTerm(DocRow(cfg, schema, docs[d]), schema[i].name, v) <==> InField(cfg, schema[i], docs[d], v)
    {
      WordIsTerm(cfg.an, text, v);
      TermMeans(cfg, schema, docs[d], schema[i].name, v);
    }
    if ts != [] {
      assert ts[0] in ts;
    }
  }

  /** A prefix query: the field has a term that starts with it. */
  lemma PrefixAnswers(cfg: M.Config, schema: seq<M.FieldDef>, docs: seq<bytes>, i: nat, p: string, d: u32)
    requires M.ValidSchema(schema) && i < |schema| && d < |docs|
    ensures Answered(cfg, schema, docs, Prefix(schema[i].name, p), d) <==>
            exists v :: InField(cfg, schema[i], docs[d], v) && p <= v
  {
    var row, f := DocRow(cfg, schema, docs[d]), schema[i];
    if k, l :| 0 <= k < |row| && 0 <= l < |row[k].terms| && row[k].name == f.name && p <= row[k].terms[l] {
      FieldOf(cfg, schema, docs[d], i, row[k]);
      CellIs(cfg, f, docs[d], row[k].terms[l]);
    }
    if v :| InField(cfg, f, docs[d], v) && p <= v {
      PrefixFound(cfg, schema, docs[d], i, p, v);
    }
  }

  lemma PrefixFound(cfg: M.Config, schema: seq<M.FieldDef>, raw: bytes, i: nat, p: string, v: string)
    requires i < |schema| && InField(cfg, schema[i], raw, v) && p <= v
    ensures HasPrefix(DocRow(cfg, schema, raw), schema[i].name, p)
  {
    var row, c := DocRow(cfg, schema, raw), Cell(schema[i].name, M.Cell(cfg, schema[i], raw));
    CellIs(cfg, schema[i], raw, v);
    RowHas(cfg, schema, raw, c);
    var k :| 0 <= k < |row| && row[k] == c;
    var l :| 0 <= l < |c.terms| && c.terms[l] == v;
    assert row[k].name == schema[i].name && p <= row[k].terms[l];
  }

  lemma FieldOf(cfg: M.Config, schema: seq<M.FieldDef>, raw: bytes, i: nat, c: Cell)
    requires M.ValidSchema(schema) && i < |schema| && c in DocRow(cfg, schema, raw) && c.name == schema[i].name
    ensures !schema[i].kind.I64? && c == Cell(schema[i].name, M.Cell(cfg, schema[i], raw))
  {
    RowHas(cfg, schema, raw, c);
    var j :| 0 <= j < |schema| && !schema[j].kind.I64? && c == Cell(schema[j].name, M.Cell(cfg, schema[j], raw));
    OnlyField(schema, i, j);
  }

  /** A field the schema does not name has no answers of any kind. */
  lemma UnknownField(cfg: M.Config, schema: seq<M.FieldDef>, docs: seq<bytes>, f: string, v: string, d: u32)
    requires f != ALL && forall i | 0 <= i < |schema| :: schema[i].name != f
    ensures !Answered(cfg, schema, docs, Term(f, v), d) && !Answered(cfg, schema, docs, Keyword(f, v), d)
    ensures !Answered(cfg, schema, docs, Prefix(f, v), d) && !Answered(cfg, schema, docs, Match(f, v), d)
  {
    if d < |docs| {
      var row := DocRow(cfg, schema, docs[d]);
      forall k | 0 <= k < |row|
        ensures row[k].name != f
      {
        RowHas(cfg, schema, docs[d], row[k]);
      }
      var ts := WordsOf(cfg.an)(v);
      if ts != [] {
        assert ts[0] in ts;
      }
    }
  }

  /** A bool query: Must and Filter all hold, one Should only where neither is given, no MustNot. */
  lemma BoolAnswers(cfg: M.Config, schema: seq<M.FieldDef>, docs: seq<bytes>, must: seq<Node>, should: seq<Node>,
                    mustNot: seq<Node>, filter: seq<Node>, d: u32)
    requires d < |docs|
    ensures Answered(cfg, schema, docs, Bool(must, should, mustNot, filter), d) <==>
            && (forall c <- must + filter :: Answered(cfg, schema, docs, c, d))
            && (forall c <- mustNot :: !Answered(cfg, schema, docs, c, d))
            && (must + filter == [] && should != [] ==> exists c <- should :: Answered(cfg, schema, docs, c, d))
  {
    BothEmpty(must, filter);
    forall c: Node
      ensures c in must + filter <==> c in must || c in filter
      ensures Answered(cfg, schema, docs, c, d) <==> Matches(WordsOf(cfg.an), c, DocRow(cfg, schema, docs[d]))
    {
    }
  }

  // ----- Phrases -----

  ghost function Folded(an: Analyzer, text: string, r: Run): string {
    if r.start <= r.end <= |text| then an.fold(text[r.start..r.end]) else ""
  }

  /** A word of a text with a folding that is not empty. */
  ghost predicate Counts(an: Analyzer, text: string, r: Run) {
    Maximal(an.isWord, text, r) && Folded(an, text, r) != ""
  }

  /** Words next to each other: in the order of the text, with no other word between them. */
  ghost predicate NextTo(an: Analyzer, text: string, a: Run, b: Run) {
    a.end <= b.start && forall r: Run | Counts(an, text, r) :: !(a.end <= r.start && r.end <= b.start)
  }

  /** The words of a text at these places are the terms, one next to the other. */
  ghost predicate InARow(an: Analyzer, text: string, runs: seq<Run>, terms: seq<string>) {
    && |runs| == |terms|
    && (forall j | 0 <= j < |runs| :: Counts(an, text, runs[j]) && Folded(an, text, runs[j]) == terms[j])
    && (forall j | 0 < j < |runs| :: NextTo(an, text, runs[j - 1], runs[j]))
  }

  ghost function RunOf(t: Token): Run {
    Run(t.start, t.end)
  }

  /** The number of the token that a word is. */
  lemma TokenOf(an: Analyzer, text: string, r: Run) returns (k: nat)
    requires Counts(an, text, r)
    ensures k < |Tokens(an, text)| && RunOf(Tokens(an, text)[k]) == r
  {
    WordsAreTokens(an, text, r);
    k :| 0 <= k < |Tokens(an, text)| && Run(Tokens(an, text)[k].start, Tokens(an, text)[k].end) == r;
  }

  lemma TokenCounts(an: Analyzer, text: string, k: nat)
    requires k < |Tokens(an, text)|
    ensures var t := Tokens(an, text)[k];
            Counts(an, text, RunOf(t)) && Folded(an, text, RunOf(t)) == t.term
  {
    TokensAreWords(an, text, k);
  }

  /** Tokens stand next to each other if and only if their numbers follow each other. */
  lemma NextTokens(an: Analyzer, text: string, k: nat, l: nat)
    requires k < |Tokens(an, text)| && l < |Tokens(an, text)|
    ensures NextTo(an, text, RunOf(Tokens(an, text)[k]), RunOf(Tokens(an, text)[l])) <==> l == k + 1
  {
    var ts := Tokens(an, text);
    var a, b := RunOf(ts[k]), RunOf(ts[l]);
    TokenCounts(an, text, k);
    TokenCounts(an, text, l);
    if l == k + 1 {
      TokensInOrder(an, text, k, l);
      forall r: Run | Counts(an, text, r)
        ensures !(a.end <= r.start && r.end <= b.start)
      {
        var m := TokenOf(an, text, r);
        if m < k {
          TokensInOrder(an, text, m, k);
        } else if l < m {
          TokensInOrder(an, text, l, m);
        }
      }
    } else if NextTo(an, text, a, b) {
      if l <= k {
        if l < k {
          TokensInOrder(an, text, l, k);
        }
      } else {
        TokenCounts(an, text, k + 1);
        TokensInOrder(an, text, k, k + 1);
        TokensInOrder(an, text, k + 1, l);
      }
    }
  }

  /** Tokens in a row are words in a row. */
  lemma RowOfTokens(an: Analyzer, text: string, terms: seq<string>, s: nat)
    requires StandAt(TermsOf(Tokens(an, text)), terms, s)
    ensures exists runs: seq<Run> :: InARow(an, text, runs, terms)
  {
    var ts := Tokens(an, text);
    var runs := RunsFrom(ts, s, |terms|);
    forall j | 0 <= j < |runs|
      ensures Counts(an, text, runs[j]) && Folded(an, text, runs[j]) == terms[j]
    {
      TokenCounts(an, text, s + j);
      assert TermsOf(ts)[s..s + |terms|][j] == terms[j];
    }
    forall j | 0 < j < |runs|
      ensures NextTo(an, text, runs[j - 1], runs[j])
    {
      NextTokens(an, text, s + j - 1, s + j);
    }
    assert InARow(an, text, runs, terms);
  }

  ghost function RunsFrom(ts: seq<Token>, s: nat, n: nat): (runs: seq<Run>)
    requires s + n <= |ts|
    ensures |runs| == n && forall j | 0 <= j < n :: runs[j] == RunOf(ts[s + j])
  {
    seq(n, j requires 0 <= j < n => RunOf(ts[s + j]))
  }

  /** Words in a row are tokens with consecutive numbers. */
  lemma {:induction false} Consecutive(an: Analyzer, text: string, runs: seq<Run>, terms: seq<string>, s: nat, j: nat)
    requires InARow(an, text, runs, terms) && j < |runs| && s < |Tokens(an, text)|
    requires RunOf(Tokens(an, text)[s]) == runs[0]
    ensures s + j < |Tokens(an, text)| && RunOf(Tokens(an, text)[s + j]) == runs[j]
  {
    if j > 0 {
      Consecutive(an, text, runs, terms, s, j - 1);
      var m := TokenOf(an, text, runs[j]);
      NextTokens(an, text, s + j - 1, m);
    }
  }

  lemma TokensOfRow(an: Analyzer, text: string, runs: seq<Run>, terms: seq<string>)
    requires InARow(an, text, runs, terms) && terms != []
    ensures Contains(TermsOf(Tokens(an, text)), terms)
  {
    var ts := TermsOf(Tokens(an, text));
    var s := TokenOf(an, text, runs[0]);
    forall j | 0 <= j < |terms|
      ensures s + j < |ts| && ts[s + j] == terms[j]
    {
      Consecutive(an, text, runs, terms, s, j);
      TokenCounts(an, text, s + j);
    }
    Consecutive(an, text, runs, terms, s, |terms| - 1);
    SameSlice(ts, terms, s);
  }

  lemma SameSlice(ts: seq<string>, terms: seq<string>, s: nat)
    requires s + |terms| <= |ts| && forall j | 0 <= j < |terms| :: ts[s + j] == terms[j]
    ensures StandAt(ts, terms, s)
  {
  }

  /** A phrase in a field: words in a row of a text, or the whole of a keyword in lower case. */
  ghost predicate PhraseInField(cfg: M.Config, f: M.FieldDef, raw: bytes, terms: seq<string>) {
    var value := Value(cfg, raw, f.name);
    terms != [] && value.Some? &&
    match f.kind
    case Text => exists runs: seq<Run> :: InARow(cfg.an, value.value, runs, terms)
    case Keyword => terms == [cfg.an.lower(value.value)]
    case I64 => false
  }

  lemma CellContains(cfg: M.Config, f: M.FieldDef, raw: bytes, terms: seq<string>)
    requires terms != []
    ensures Contains(M.Cell(cfg, f, raw), terms) <==> PhraseInField(cfg, f, raw, terms)
  {
    var value, cell := Value(cfg, raw, f.name), M.Cell(cfg, f, raw);
    if value.Some? && f.kind.Text? {
      var an, text := cfg.an, value.value;
      if s: nat :| StandAt(cell, terms, s) {
        RowOfTokens(an, text, terms, s);
      }
      if runs: seq<Run> :| InARow(an, text, runs, terms) {
        TokensOfRow(an, text, runs, terms);
      }
    } else if value.Some? && f.kind.Keyword? {
      OneTerm(cfg.an.lower(value.value), terms);
    } else {
      assert cell == [];
    }
  }

  lemma OneTerm(t: string, terms: seq<string>)
    requires terms != []
    ensures Contains([t], terms) <==> terms == [t]
  {
    if s: nat :| StandAt([t], terms, s) {
      assert s == 0 && |terms| == 1;
    }
    if terms == [t] {
      assert StandAt([t], terms, 0);
    }
  }

  /** A phrase query on a field of the schema. */
  lemma PhraseAnswers(cfg: M.Config, schema: seq<M.FieldDef>, docs: seq<bytes>, i: nat, terms: seq<string>, d: u32)
    requires M.ValidSchema(schema) && i < |schema| && d < |docs|
    ensures Answered(cfg, schema, docs, Phrase(schema[i].name, terms), d) <==>
            PhraseInField(cfg, schema[i], docs[d], terms)
  {
    if terms != [] {
      var row := DocRow(cfg, schema, docs[d]);
      var c := Cell(schema[i].name, M.Cell(cfg, schema[i], docs[d]));
      CellContains(cfg, schema[i], docs[d], terms);
      if k :| 0 <= k < |row| && row[k].name == schema[i].name && Contains(row[k].terms, terms) {
        FieldOf(cfg, schema, docs[d], i, row[k]);
      }
      if PhraseInField(cfg, schema[i], docs[d], terms) {
        RowHas(cfg, schema, docs[d], c);
        var k :| 0 <= k < |row| && row[k] == c;
      }
    }
  }
}
