/** The evaluator: bitmaps combined in place, against the meaning of the query for each document. */
module Eval {
  import opened Bytes
  import opened Sequences
  import opened Analyze
  import opened Hotcache
  import opened Terms
  import opened Segment
  import opened Query
  import opened Bitmap
  import opened Lookup
  import opened Phrase

  /** An opened segment. */
  datatype Source = Source(an: Analyzer, b: Bitmaps, seg: bytes, hc: Hotcache)

  /** What a segment stands for: its columns, the same as rows, and the terms a text is analyzed into. */
  datatype View = View(cols: seq<Column>, words: Words, rows: seq<Row>)

  ghost predicate Shows(s: Source, v: View) {
    && Represents(s.b, s.seg, s.hc, v.cols) && Rectangular(v.cols, s.hc.docCount)
    && v.words == WordsOf(s.an) && v.rows == Rows(v.cols, s.hc.docCount)
  }

  /**
   * The segment shows the view. It says no more than Shows, but only on request: the methods that walk the query
   * tree hand the fact on without looking into it, and the methods that read the segment ask for it by Unfold.
   */
  ghost predicate Opened(s: Source, v: View) {
    |v.rows| == s.hc.docCount && forall u: Request {:trigger Asked(u)} :: Asked(u) ==> Shows(s, v)
  }

  /** What a proof mentions in order to look into Opened; there is only one request, and it is always granted. */
  datatype Request = Request

  ghost predicate Asked(u: Request) {
    u == Request
  }

  /** Makes the request. */
  lemma Unfold(s: Source, v: View)
    requires Opened(s, v)
    ensures Shows(s, v)
  {
    assert Asked(Request);
  }

  ghost function Answer(v: View, q: Node): set<u32> {
    Sat(v.words, q, v.rows)
  }

  // ----- Match queries -----

  ghost function TermsSat(rows: seq<Row>, field: string, ts: seq<string>): set<u32> {
    set d: u32 | d < |rows| && forall t <- ts :: HasTerm(rows[d], field, t)
  }

  lemma OneMoreTerm(rows: seq<Row>, field: string, ts: seq<string>, i: nat)
    requires i < |ts|
    ensures TermsSat(rows, field, ts[..i + 1]) == TermsSat(rows, field, ts[..i]) * TermSat(rows, field, ts[i])
  {
    NextPrefix(ts, i);
  }

  lemma FirstTerm(rows: seq<Row>, field: string, ts: seq<string>)
    requires ts != []
    ensures TermsSat(rows, field, ts[..1]) == TermSat(rows, field, ts[0])
  {
    assert ts[..1] == [ts[0]];
  }

  method MatchBitmap(s: Source, field: string, tokens: seq<Token>, ghost v: View) returns (combined: Bitmap)
    requires Opened(s, v) && tokens != []
    ensures fresh(combined)
    ensures combined.elems == TermsSat(v.rows, field, TermsOf(tokens))
  {
    Unfold(s, v);
    ghost var rows, ts := v.rows, TermsOf(tokens);
    var acc: Bitmap? := null;
    for i := 0 to |tokens|
      invariant acc != null ==> fresh(acc)
      invariant if acc == null then i == 0 else i > 0 && acc.elems == TermsSat(rows, field, ts[..i])
    {
      var bm := TermBitmap(s.b, s.seg, s.hc, field, tokens[i].term, v.cols);
      OneMoreTerm(rows, field, ts, i);
      FirstTerm(rows, field, ts);
      if acc == null {
        acc := bm;
      } else {
        acc.And(bm);
      }
    }
    Whole(ts);
    return acc;
  }

  // ----- In-place steps -----

  lemma WithAll(x: set<u32>, n: nat)
    requires x <= Everything(n)
    ensures x * Everything(n) == x
  {
  }

  lemma WithoutNone(x: set<u32>)
    ensures x - {} == x
  {
  }

  lemma AndStep(start: set<u32>, x: set<u32>, y: set<u32>)
    ensures (start * x) * y == start * (x * y)
  {
  }

  lemma AndNotStep(start: set<u32>, x: set<u32>, y: set<u32>)
    ensures (start - x) - y == start - (x + y)
  {
  }

  method AllDocs(n: u32) returns (r: Bitmap)
    ensures fresh(r) && r.elems == Everything(n)
  {
    r := new Bitmap({});
    r.AddRange(n);
  }

  // ----- The tree -----

  /** Null is an error; otherwise the result is a new bitmap of exactly the documents that match. */
  method EvalBitmap(s: Source, q: Node, ghost v: View) returns (r: Bitmap?)
    requires Opened(s, v)
    ensures r == null <==> HasUnknown(q)
    ensures r != null ==> fresh(r) && r.elems == Answer(v, q)
    decreases q, 1
  {
    ghost var words, rows := v.words, v.rows;
    Unfold(s, v);
    match q {
      case Match(field, value) =>
        var tokens := Tokenize(s.an, value);
        assert words(value) == TermsOf(tokens);
        if |tokens| == 0 {
          r := new Bitmap({});
        } else {
          r := MatchBitmap(s, field, tokens, v);
        }
        IsSat(words, q, rows, r.elems);
      case Term(field, value) =>
        r := TermBitmap(s.b, s.seg, s.hc, field, value, v.cols);
        IsSat(words, q, rows, r.elems);
      case Keyword(field, value) =>
        r := TermBitmap(s.b, s.seg, s.hc, field, value, v.cols);
        IsSat(words, q, rows, r.elems);
      case Prefix(field, value) =>
        r := PrefixBitmap(s.b, s.seg, s.hc, field, value, v.cols);
        IsSat(words, q, rows, r.elems);
      case Phrase(field, terms) =>
        r := PhraseBitmap(s.b, s.seg, s.hc, field, terms, v.cols);
        IsSat(words, q, rows, r.elems);
      case Range(_) =>
        r := new Bitmap({});
        IsSat(words, q, rows, r.elems);
      case Bool(_, _, _, _) =>
        r := EvalBool(s, q, v);
      case Unknown(_) =>
        r := null;
    }
  }

  /** Intersects the answers of the children, from number k on, into a bitmap. */
  method IntersectFrom(s: Source, into: Bitmap, qs: seq<Node>, k: nat, ghost start: set<u32>, ghost parent: Node,
                       ghost v: View)
    returns (ok: bool)
    requires Opened(s, v) && parent.Bool? && (qs == parent.must || qs == parent.filter)
    requires k <= |qs| && !AnyUnknown(qs, k) && into.elems == start * Meet(v.words, qs, k, v.rows)
    modifies into
    ensures ok <==> !AnyUnknown(qs, |qs|)
    ensures ok ==> into.elems == start * AllSat(v.words, qs, v.rows)
    decreases parent, 0, 0
  {
    ghost var words, rows := v.words, v.rows;
    ok := true;
    for i := k to |qs|
      invariant into.elems == start * Meet(words, qs, i, rows)
      invariant !AnyUnknown(qs, i)
    {
      var bm := EvalBitmap(s, qs[i], v);
      if bm == null {
        OneUnknown(qs, i);
        return false;
      }
      NextKnown(qs, i);
      AndStep(start, Meet(words, qs, i, rows), bm.elems);
      into.And(bm);
    }
  }

  /** Unites the answers of the children, from number k on, into a bitmap. */
  method UnionFrom(s: Source, into: Bitmap, qs: seq<Node>, k: nat, ghost parent: Node, ghost v: View)
    returns (ok: bool)
    requires Opened(s, v) && parent.Bool? && qs == parent.should
    requires k <= |qs| && !AnyUnknown(qs, k) && into.elems == Join(v.words, qs, k, v.rows)
    modifies into
    ensures ok <==> !AnyUnknown(qs, |qs|)
    ensures ok ==> into.elems == AnySat(v.words, qs, v.rows)
    decreases parent, 0, 0
  {
    ghost var words, rows := v.words, v.rows;
    ok := true;
    for i := k to |qs|
      invariant into.elems == Join(words, qs, i, rows)
      invariant !AnyUnknown(qs, i)
    {
      var bm := EvalBitmap(s, qs[i], v);
      if bm == null {
        OneUnknown(qs, i);
        return false;
      }
      NextKnown(qs, i);
      into.Or(bm);
    }
  }

  /** Removes the answers of the children from a bitmap. */
  method SubtractFrom(s: Source, into: Bitmap, qs: seq<Node>, ghost parent: Node, ghost v: View)
    returns (ok: bool)
    requires Opened(s, v) && parent.Bool? && qs == parent.mustNot
    modifies into
    ensures ok <==> !AnyUnknown(qs, |qs|)
    ensures ok ==> into.elems == old(into.elems) - AnySat(v.words, qs, v.rows)
    decreases parent, 0, 0
  {
    ghost var words, rows := v.words, v.rows;
    ghost var start := into.elems;
    WithoutNone(start);
    ok := true;
    for i := 0 to |qs|
      invariant into.elems == start - Join(words, qs, i, rows)
      invariant !AnyUnknown(qs, i)
    {
      var bm := EvalBitmap(s, qs[i], v);
      if bm == null {
        OneUnknown(qs, i);
        return false;
      }
      NextKnown(qs, i);
      AndNotStep(start, Join(words, qs, i, rows), bm.elems);
      into.AndNot(bm);
    }
  }

  /** The intersection of the answers of the children, null when there are none. */
  method IntersectionOf(s: Source, qs: seq<Node>, ghost parent: Node, ghost v: View)
    returns (ok: bool, r: Bitmap?)
    requires Opened(s, v) && parent.Bool? && (qs == parent.must || qs == parent.filter)
    ensures ok <==> !AnyUnknown(qs, |qs|)
    ensures ok ==> (r == null <==> qs == [])
    ensures ok && r != null ==> fresh(r) && r.elems == AllSat(v.words, qs, v.rows)
    decreases parent, 0, 1
  {
    if |qs| == 0 {
      return true, null;
    }
    r := EvalBitmap(s, qs[0], v);
    if r == null {
      OneUnknown(qs, 0);
      return false, null;
    }
    NextKnown(qs, 0);
    ghost var words, rows := v.words, v.rows;
    FirstMet(words, qs, rows);
    ok := IntersectFrom(s, r, qs, 1, Everything(|rows|), parent, v);
    MeetWithin(words, qs, rows);
  }

  /** The union of the answers of the children, null when there are none. */
  method UnionOf(s: Source, qs: seq<Node>, ghost parent: Node, ghost v: View) returns (ok: bool, r: Bitmap?)
    requires Opened(s, v) && parent.Bool? && qs == parent.should
    ensures ok <==> !AnyUnknown(qs, |qs|)
    ensures ok ==> (r == null <==> qs == [])
    ensures ok && r != null ==> fresh(r) && r.elems == AnySat(v.words, qs, v.rows)
    decreases parent, 0, 1
  {
    if |qs| == 0 {
      return true, null;
    }
    r := EvalBitmap(s, qs[0], v);
    if r == null {
      OneUnknown(qs, 0);
      return false, null;
    }
    NextKnown(qs, 0);
    FirstMet(v.words, qs, v.rows);
    ok := UnionFrom(s, r, qs, 1, parent, v);
  }

  /** Must and Filter intersect, Should filters only without them, MustNot subtracts, nothing is everything. */
  method EvalBool(s: Source, q: Node, ghost v: View) returns (r: Bitmap?)
    requires Opened(s, v) && q.Bool?
    ensures r == null <==> HasUnknown(q)
    ensures r != null ==> fresh(r) && r.elems == Answer(v, q)
    decreases q, 0, 2
  {
    ghost var words, rows := v.words, v.rows;
    Within(words, q, rows);
    var ok, mustBM := IntersectionOf(s, q.must, q, v);
    if !ok {
      return null;
    }
    if mustBM == null {
      ok, mustBM := IntersectionOf(s, q.filter, q, v);
    } else {
      WithAll(mustBM.elems, |rows|);
      assert !AnyUnknown(q.filter, 0);
      ok := IntersectFrom(s, mustBM, q.filter, 0, mustBM.elems, q, v);
    }
    if !ok {
      return null;
    }
    if |q.should| > 0 {
      var shouldBM;
      ok, shouldBM := UnionOf(s, q.should, q, v);
      if !ok {
        return null;
      }
      if mustBM == null {
        mustBM := shouldBM;
      }
    }
    if mustBM == null {
      mustBM := AllDocs(s.hc.docCount);
    }
    assert mustBM.elems == Selected(words, q, rows);
    ok := SubtractFrom(s, mustBM, q.mustNot, q, v);
    if !ok {
      return null;
    }
    BoolSat(words, q, rows);
    return mustBM;
  }

  /** The matching documents that are not deleted. */
  method SearchDocIDs(s: Source, q: Node, del: set<u32>, ghost v: View) returns (r: Bitmap?)
    requires Opened(s, v)
    ensures r == null <==> HasUnknown(q)
    ensures r != null ==> fresh(r) && r.elems == Answer(v, q) - del
  {
    r := EvalBitmap(s, q, v);
    if r == null {
      return null;
    }
    var delBitmap := new Bitmap(del);
    r.AndNot(delBitmap);
  }
}
