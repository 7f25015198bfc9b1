/** Query trees and what they mean for one document alone. */
module Query {
  import opened Bytes
  import opened Analyze

  datatype Node =
    | Match(field: string, value: string)
    | Term(field: string, value: string)
    | Keyword(field: string, value: string)
    | Prefix(field: string, value: string)
    | Phrase(field: string, terms: seq<string>)
    | Range(field: string)
    | Bool(must: seq<Node>, should: seq<Node>, mustNot: seq<Node>, filter: seq<Node>)
    | Unknown(kind: string)

  /** One document: its indexed fields with their tokens. */
  datatype Cell = Cell(name: string, terms: seq<string>)
  type Row = seq<Cell>

  /** The terms a text is analyzed into. */
  type Words = string -> seq<string>

  ghost function WordsOf(an: Analyzer): Words {
    (s: string) => TermsOf(Tokens(an, s))
  }

  const ALL: string := "_all"

  /** The field _all stands for every field, in term lookups only. */
  ghost predicate HasTerm(row: Row, field: string, t: string) {
    exists i | 0 <= i < |row| :: (field == ALL || row[i].name == field) && t in row[i].terms
  }

  ghost predicate HasPrefix(row: Row, field: string, p: string) {
    exists i, j | 0 <= i < |row| && 0 <= j < |row[i].terms| :: row[i].name == field && p <= row[i].terms[j]
  }

  /** The terms stand next to each other somewhere in the sequence. */
  ghost predicate Contains(ts: seq<string>, terms: seq<string>) {
    exists s: nat :: StandAt(ts, terms, s)
  }

  ghost predicate StandAt(ts: seq<string>, terms: seq<string>, s: nat) {
    s + |terms| <= |ts| && ts[s..s + |terms|] == terms
  }

  ghost predicate HasPhrase(row: Row, field: string, terms: seq<string>) {
    terms != [] && exists i | 0 <= i < |row| :: row[i].name == field && Contains(row[i].terms, terms)
  }

  ghost predicate Matches(words: Words, q: Node, row: Row)
    decreases q
  {
    match q
    case Match(field, value) => words(value) != [] && forall t <- words(value) :: HasTerm(row, field, t)
    case Term(field, value) => HasTerm(row, field, value)
    case Keyword(field, value) => HasTerm(row, field, value)
    case Prefix(field, value) => HasPrefix(row, field, value)
    case Phrase(field, terms) => HasPhrase(row, field, terms)
    case Range(_) => false
    case Bool(must, should, mustNot, filter) =>
      && (forall c <- must :: Matches(words, c, row))
      && (forall c <- filter :: Matches(words, c, row))
      && (must == [] && filter == [] && should != [] ==> exists c <- should :: Matches(words, c, row))
      && (forall c <- mustNot :: !Matches(words, c, row))
    case Unknown(_) => false
  }

  /** Some node has a type the evaluator does not know. */
  ghost predicate HasUnknown(q: Node)
    decreases q
  {
    match q
    case Bool(must, should, mustNot, filter) =>
      || AnyUnknown(must, |must|) || AnyUnknown(should, |should|)
      || AnyUnknown(mustNot, |mustNot|) || AnyUnknown(filter, |filter|)
    case Unknown(_) => true
    case _ => false
  }

  /** One of the first n is unknown. */
  ghost predicate AnyUnknown(qs: seq<Node>, n: nat)
    requires n <= |qs|
    decreases qs, n
  {
    n > 0 && (AnyUnknown(qs, n - 1) || HasUnknown(qs[n - 1]))
  }

  lemma {:induction false} UnknownStays(qs: seq<Node>, k: nat, n: nat)
    requires k <= n <= |qs| && AnyUnknown(qs, k)
    ensures AnyUnknown(qs, n)
    decreases n
  {
    if k < n {
      UnknownStays(qs, k, n - 1);
    }
  }

  lemma NextKnown(qs: seq<Node>, i: nat)
    requires i < |qs|
    ensures !AnyUnknown(qs, 0)
    ensures !AnyUnknown(qs, i) && !HasUnknown(qs[i]) ==> !AnyUnknown(qs, i + 1)
  {
  }

  lemma OneUnknown(qs: seq<Node>, i: nat)
    requires i < |qs| && HasUnknown(qs[i])
    ensures AnyUnknown(qs, |qs|)
  {
    assert AnyUnknown(qs, i + 1);
    UnknownStays(qs, i + 1, |qs|);
  }

  // ----- Sets of documents -----

  /** The documents that match. */
  ghost function Sat(words: Words, q: Node, rows: seq<Row>): set<u32> {
    FirstSat(words, q, rows, |rows|)
  }

  ghost function FirstSat(words: Words, q: Node, rows: seq<Row>, n: nat): set<u32>
    requires n <= |rows|
    decreases n
  {
    if n == 0 then {}
    else
      FirstSat(words, q, rows, n - 1)
      + if n <= 0x1_0000_0000 && Matches(words, q, rows[n - 1]) then {n - 1} else {}
  }

  lemma {:induction false} InFirstSat(words: Words, q: Node, rows: seq<Row>, n: nat, d: u32)
    requires n <= |rows|
    ensures d in FirstSat(words, q, rows, n) <==> d < n && Matches(words, q, rows[d])
    decreases n
  {
    if n > 0 {
      InFirstSat(words, q, rows, n - 1, d);
    }
  }

  lemma InSat(words: Words, q: Node, rows: seq<Row>, d: u32)
    ensures d in Sat(words, q, rows) <==> d < |rows| && Matches(words, q, rows[d])
  {
    InFirstSat(words, q, rows, |rows|, d);
  }

  /** A set is the answer if its members are the matching documents. */
  lemma IsSat(words: Words, q: Node, rows: seq<Row>, s: set<u32>)
    requires forall d: u32 :: d in s <==> d < |rows| && Matches(words, q, rows[d])
    ensures s == Sat(words, q, rows)
  {
    forall d: u32
      ensures d in s <==> d in Sat(words, q, rows)
    {
      InSat(words, q, rows, d);
    }
  }

  ghost predicate Below(d: u32, n: nat) {
    d < n
  }

  ghost function Everything(n: nat): set<u32> {
    set d: u32 | Below(d, n)
  }

  /** The documents that satisfy all of the first n queries, and those that satisfy one of them. */
  ghost function Meet(words: Words, qs: seq<Node>, n: nat, rows: seq<Row>): set<u32>
    requires n <= |qs|
  {
    if n == 0 then Everything(|rows|) else Meet(words, qs, n - 1, rows) * Sat(words, qs[n - 1], rows)
  }

  ghost function Join(words: Words, qs: seq<Node>, n: nat, rows: seq<Row>): set<u32>
    requires n <= |qs|
  {
    if n == 0 then {} else Join(words, qs, n - 1, rows) + Sat(words, qs[n - 1], rows)
  }

  lemma {:induction false} InMeet(words: Words, qs: seq<Node>, n: nat, rows: seq<Row>, d: u32)
    requires n <= |qs|
    ensures d in Meet(words, qs, n, rows) <==> d < |rows| && forall i | 0 <= i < n :: Matches(words, qs[i], rows[d])
  {
    if n > 0 {
      InMeet(words, qs, n - 1, rows, d);
      InSat(words, qs[n - 1], rows, d);
    }
  }

  lemma {:induction false} InJoin(words: Words, qs: seq<Node>, n: nat, rows: seq<Row>, d: u32)
    requires n <= |qs|
    ensures d in Join(words, qs, n, rows) <==> d < |rows| && exists i | 0 <= i < n :: Matches(words, qs[i], rows[d])
  {
    if n > 0 {
      InJoin(words, qs, n - 1, rows, d);
      InSat(words, qs[n - 1], rows, d);
    }
  }

  lemma FirstMet(words: Words, qs: seq<Node>, rows: seq<Row>)
    requires qs != []
    ensures Join(words, qs, 1, rows) == Sat(words, qs[0], rows) == Everything(|rows|) * Meet(words, qs, 1, rows)
  {
    assert Meet(words, qs, 1, rows) == Meet(words, qs, 0, rows) * Sat(words, qs[0], rows);
    assert Join(words, qs, 1, rows) == Join(words, qs, 0, rows) + Sat(words, qs[0], rows);
    forall d: u32
      ensures d in Sat(words, qs[0], rows) ==> d in Everything(|rows|)
    {
      InSat(words, qs[0], rows, d);
    }
  }

  lemma MeetWithin(words: Words, qs: seq<Node>, rows: seq<Row>)
    ensures AllSat(words, qs, rows) <= Everything(|rows|)
    ensures Everything(|rows|) * AllSat(words, qs, rows) == AllSat(words, qs, rows)
  {
    forall d: u32
      ensures d in AllSat(words, qs, rows) ==> d < |rows|
    {
      InMeet(words, qs, |qs|, rows, d);
    }
  }

  ghost function AllSat(words: Words, qs: seq<Node>, rows: seq<Row>): set<u32> {
    Meet(words, qs, |qs|, rows)
  }

  ghost function AnySat(words: Words, qs: seq<Node>, rows: seq<Row>): set<u32> {
    Join(words, qs, |qs|, rows)
  }

  /** The documents a bool query has before its MustNot clauses. */
  ghost function Selected(words: Words, q: Node, rows: seq<Row>): set<u32>
    requires q.Bool?
  {
    if q.must == [] && q.filter == [] then
      if q.should == [] then Everything(|rows|) else AnySat(words, q.should, rows)
    else AllSat(words, q.must, rows) * AllSat(words, q.filter, rows)
  }

  lemma BoolSat(words: Words, q: Node, rows: seq<Row>)
    requires q.Bool?
    ensures Sat(words, q, rows) == Selected(words, q, rows) - AnySat(words, q.mustNot, rows)
  {
    forall d: u32
      ensures d in Sat(words, q, rows) <==> d in Selected(words, q, rows) - AnySat(words, q.mustNot, rows)
    {
      InMeet(words, q.must, |q.must|, rows, d);
      InMeet(words, q.filter, |q.filter|, rows, d);
      InJoin(words, q.should, |q.should|, rows, d);
      InJoin(words, q.mustNot, |q.mustNot|, rows, d);
      InSat(words, q, rows, d);
    }
  }

  /** Everything stays within the documents of the segment. */
  lemma Within(words: Words, q: Node, rows: seq<Row>)
    requires q.Bool?
    ensures AllSat(words, q.must, rows) <= Everything(|rows|) && AllSat(words, q.filter, rows) <= Everything(|rows|)
    ensures q.must == [] ==>
              AllSat(words, q.must, rows) * AllSat(words, q.filter, rows) == AllSat(words, q.filter, rows)
  {
    MeetWithin(words, q.must, rows);
    MeetWithin(words, q.filter, rows);
  }
}
