/** The postings of single terms, prefixes and phrases, against the rows of a segment. */
module Lookup {
  import opened Bytes
  import opened Accumulator
  import opened Hotcache
  import opened Terms
  import opened Segment
  import opened Query
  import opened Bitmap
  import Lex

  /** The documents of the columns as rows. */
  ghost predicate Rectangular(cols: seq<Column>, n: nat) {
    DistinctNames(cols) && n < 0x1_0000_0000 && forall i | 0 <= i < |cols| :: Small(cols[i].docs) && |cols[i].docs| == n
  }

  ghost function RowOf(cols: seq<Column>, n: nat, d: nat): (r: Row)
    requires Rectangular(cols, n) && d < n
    ensures |r| == |cols| && forall i | 0 <= i < |cols| :: r[i] == Cell(cols[i].name, cols[i].docs[d])
  {
    seq(|cols|, i requires 0 <= i < |cols| => Cell(cols[i].name, cols[i].docs[d]))
  }

  ghost function Rows(cols: seq<Column>, n: nat): (r: seq<Row>)
    requires Rectangular(cols, n)
    ensures |r| == n
  {
    FirstRows(cols, n, n)
  }

  ghost function FirstRows(cols: seq<Column>, n: nat, k: nat): (r: seq<Row>)
    requires Rectangular(cols, n) && k <= n
    ensures |r| == k
    decreases k
  {
    if k == 0 then [] else FirstRows(cols, n, k - 1) + [RowOf(cols, n, k - 1)]
  }

  lemma {:induction false} FirstRowsAt(cols: seq<Column>, n: nat, k: nat, d: nat)
    requires Rectangular(cols, n) && d < k <= n
    ensures FirstRows(cols, n, k)[d] == RowOf(cols, n, d)
    decreases k
  {
    if d < k - 1 {
      FirstRowsAt(cols, n, k - 1, d);
    }
  }

  lemma RowAt(cols: seq<Column>, n: nat, d: nat)
    requires Rectangular(cols, n) && d < n
    ensures Rows(cols, n)[d] == RowOf(cols, n, d)
  {
    FirstRowsAt(cols, n, n, d);
  }

  /** No row has a field that no column has. */
  lemma NoSuchField(cols: seq<Column>, n: nat, field: string)
    requires Rectangular(cols, n) && forall i | 0 <= i < |cols| :: cols[i].name != field
    ensures forall d, i | 0 <= d < n && 0 <= i < |Rows(cols, n)[d]| :: Rows(cols, n)[d][i].name != field
  {
    forall d, i | 0 <= d < n && 0 <= i < |Rows(cols, n)[d]|
      ensures Rows(cols, n)[d][i].name != field
    {
      RowAt(cols, n, d);
    }
  }

  lemma Represented(b: Bitmaps, seg: bytes, hc: Hotcache, cols: seq<Column>)
    requires Represents(b, seg, hc, cols)
    ensures Rectangular(cols, hc.docCount)
  {
    forall i | 0 <= i < |cols|
      ensures Small(cols[i].docs)
    {
      assert Indexed(b, seg, hc.fields[i], cols[i]);
    }
  }

  /** The field index finds the column of a name, if there is one. */
  lemma {:induction false} FieldFinds(fields: seq<FieldHotcache>, cols: seq<Column>, name: string)
    requires |fields| == |cols| && forall i | 0 <= i < |cols| :: fields[i].name == cols[i].name
    ensures Field(fields, name).None? ==> forall i | 0 <= i < |cols| :: cols[i].name != name
    ensures Field(fields, name).Some? ==>
              exists i | 0 <= i < |cols| :: fields[i] == Field(fields, name).value && cols[i].name == name
  {
    if fields != [] && fields[|fields| - 1].name != name {
      var n := |fields| - 1;
      FieldFinds(fields[..n], cols[..n], name);
    }
  }

  // ----- One term -----

  ghost function Holding(docs: seq<seq<string>>, t: string): set<u32>
  {
    set d: u32 | d < |docs| && t in docs[d]
  }

  method TermBitmapField(b: Bitmaps, seg: bytes, f: FieldHotcache, term: string, ghost col: Column) returns (r: Bitmap)
    requires Indexed(b, seg, f, col)
    ensures fresh(r) && r.elems == Holding(col.docs, term)
  {
    LookupFinds(b, seg, f, col, term);
    HeldSomewhere(col.docs, term);
    var to := LookupTerm(f, term);
    if to.None? {
      r := new Bitmap({});
      return;
    }
    var pl := GetPostings(b, seg, to.value);
    r := new Bitmap(pl.value);
  }

  ghost function TermSat(rows: seq<Row>, field: string, t: string): set<u32> {
    set d: u32 | d < |rows| && HasTerm(rows[d], field, t)
  }

  ghost function HoldingAny(cols: seq<Column>, n: nat, t: string): set<u32>
    requires n <= |cols|
  {
    if n == 0 then {} else HoldingAny(cols, n - 1, t) + Holding(cols[n - 1].docs, t)
  }

  lemma {:induction false} InSomeColumn(cols: seq<Column>, k: nat, t: string, d: u32)
    requires k <= |cols|
    ensures d in HoldingAny(cols, k, t) <==> exists i | 0 <= i < k :: d < |cols[i].docs| && t in cols[i].docs[d]
  {
    if k > 0 {
      InSomeColumn(cols, k - 1, t, d);
    }
  }

  lemma AllIsAny(cols: seq<Column>, n: nat, t: string)
    requires Rectangular(cols, n)
    ensures HoldingAny(cols, |cols|, t) == TermSat(Rows(cols, n), ALL, t)
  {
    var rows := Rows(cols, n);
    forall d: u32
      ensures d in HoldingAny(cols, |cols|, t) <==> d in TermSat(rows, ALL, t)
    {
      InSomeColumn(cols, |cols|, t, d);
      if d < n {
        RowAt(cols, n, d);
      }
      if d in HoldingAny(cols, |cols|, t) {
        var i :| 0 <= i < |cols| && d < |cols[i].docs| && t in cols[i].docs[d];
        assert t in rows[d][i].terms;
      }
      if d in TermSat(rows, ALL, t) {
        var i :| 0 <= i < |rows[d]| && t in rows[d][i].terms;
        assert d < |cols[i].docs| && t in cols[i].docs[d];
      }
    }
  }

  lemma NamedIsHolding(cols: seq<Column>, n: nat, i: nat, t: string)
    requires Rectangular(cols, n) && i < |cols| && cols[i].name != ALL
    ensures Holding(cols[i].docs, t) == TermSat(Rows(cols, n), cols[i].name, t)
  {
    var rows := Rows(cols, n);
    forall d: u32
      ensures d in Holding(cols[i].docs, t) <==> d in TermSat(rows, cols[i].name, t)
    {
      if d < n {
        RowAt(cols, n, d);
        assert rows[d][i] == Cell(cols[i].name, cols[i].docs[d]);
      }
    }
  }

  method TermBitmap(b: Bitmaps, seg: bytes, hc: Hotcache, field: string, term: string, ghost cols: seq<Column>)
    returns (r: Bitmap)
    requires Represents(b, seg, hc, cols) && Rectangular(cols, hc.docCount)
    ensures fresh(r) && r.elems == TermSat(Rows(cols, hc.docCount), field, term)
  {
    if field == ALL {
      var union: Bitmap? := null;
      for i := 0 to |hc.fields|
        invariant union != null ==> fresh(union)
        invariant if union == null then i == 0 else union.elems == HoldingAny(cols, i, term)
      {
        var bm := TermBitmapField(b, seg, hc.fields[i], term, cols[i]);
        if union == null {
          union := bm;
        } else {
          union.Or(bm);
        }
      }
      AllIsAny(cols, hc.docCount, term);
      if union == null {
        union := new Bitmap({});
      }
      return union;
    }
    var f := Field(hc.fields, field);
    FieldFinds(hc.fields, cols, field);
    if f.None? {
      NoSuchField(cols, hc.docCount, field);
      r := new Bitmap({});
      return;
    }
    ghost var i :| 0 <= i < |cols| && hc.fields[i] == f.value && cols[i].name == field;
    NamedIsHolding(cols, hc.docCount, i, term);
    r := TermBitmapField(b, seg, f.value, term, cols[i]);
  }

  // ----- Prefixes -----

  ghost function PrefixSat(rows: seq<Row>, field: string, p: string): set<u32> {
    set d: u32 | d < |rows| && HasPrefix(rows[d], field, p)
  }

  /** The documents that hold one of the terms from number a up to number b. */
  ghost function HoldingRange(docs: seq<seq<string>>, terms: seq<string>, a: nat, b: nat): set<u32>
    requires a <= b <= |terms|
  {
    if a == b then {} else HoldingRange(docs, terms, a, b - 1) + Holding(docs, terms[b - 1])
  }

  lemma {:induction false} InRange(docs: seq<seq<string>>, terms: seq<string>, a: nat, b: nat, d: u32)
    requires a <= b <= |terms|
    ensures d in HoldingRange(docs, terms, a, b) <==>
            d < |docs| && exists j | a <= j < b :: terms[j] in docs[d]
  {
    if a < b {
      InRange(docs, terms, a, b - 1, d);
    }
  }

  /** A key that starts with p is not below p. */
  lemma {:induction false} NotBelowPrefix(p: string, k: string)
    requires p <= k
    ensures !Lex.Less(k, p)
  {
    if p != [] {
      NotBelowPrefix(p[1..], k[1..]);
    }
  }

  /** Keys between p and a key that starts with p start with p. */
  lemma {:induction false} PrefixBetween(p: string, a: string, b: string)
    requires !Lex.Less(a, p) && Lex.Less(a, b) && p <= b
    ensures p <= a
  {
    if p != [] {
      assert a != [];
      assert b[0] == p[0];
      if a[0] == p[0] {
        PrefixBetween(p[1..], a[1..], b[1..]);
      }
    }
  }

  /** The first key from number j on that does not start with p. */
  ghost function PrefixEnd(terms: seq<string>, p: string, j: nat): (e: nat)
    requires j <= |terms|
    ensures j <= e <= |terms|
    decreases |terms| - j
  {
    if j < |terms| && p <= terms[j] then PrefixEnd(terms, p, j + 1) else j
  }

  lemma {:induction false} UpToPrefixEnd(terms: seq<string>, p: string, j: nat)
    requires j <= |terms|
    ensures var e := PrefixEnd(terms, p, j);
            (forall i | j <= i < e :: p <= terms[i]) && (e < |terms| ==> !(p <= terms[e]))
    decreases |terms| - j
  {
    if j < |terms| && p <= terms[j] {
      UpToPrefixEnd(terms, p, j + 1);
    }
  }

  /** The dictionary iterator starts at the first key that is not below p. */
  ghost predicate Sought(terms: seq<string>, p: string, j: nat) {
    j <= |terms| && (forall i | 0 <= i < j :: Lex.Less(terms[i], p)) && (j < |terms| ==> !Lex.Less(terms[j], p))
  }

  method Seek(terms: seq<string>, p: string) returns (j: nat)
    requires Lex.StrictlySorted(terms)
    ensures Sought(terms, p, j)
  {
    j := 0;
    while j < |terms| && Lex.Less(terms[j], p)
      invariant j <= |terms| && forall i | 0 <= i < j :: Lex.Less(terms[i], p)
    {
      j := j + 1;
    }
  }

  /** The keys that start with p are those from the seek position up to the first that does not. */
  lemma PrefixesContiguous(terms: seq<string>, p: string, a: nat, b: nat, j: nat)
    requires Lex.StrictlySorted(terms) && a <= b <= |terms| && j < |terms|
    requires Sought(terms, p, a) && b == PrefixEnd(terms, p, a)
    ensures p <= terms[j] <==> a <= j < b
  {
    UpToPrefixEnd(terms, p, a);
    if p <= terms[j] {
      NotBelowPrefix(p, terms[j]);
      assert a <= j;
      if b < j {
        if a < b {
          assert !Lex.Less(terms[b], p) by {
            NotBelow(p, terms[a], terms[b]);
          }
        }
        PrefixBetween(p, terms[b], terms[j]);
      }
    }
  }

  lemma NotBelow(p: string, a: string, b: string)
    requires !Lex.Less(a, p) && Lex.Less(a, b)
    ensures !Lex.Less(b, p)
  {
    if Lex.Less(b, p) {
      Lex.Transitive(a, b, p);
    }
  }

  lemma RangeIsPrefix(cols: seq<Column>, n: nat, c: nat, terms: seq<string>, p: string, a: nat, b: nat)
    requires Rectangular(cols, n) && c < |cols| && a <= b <= |terms|
    requires forall t: string :: t in terms <==> Placed(cols[c].docs, t) != map[]
    requires Lex.StrictlySorted(terms) && Sought(terms, p, a) && b == PrefixEnd(terms, p, a)
    ensures HoldingRange(cols[c].docs, terms, a, b) == PrefixSat(Rows(cols, n), cols[c].name, p)
  {
    var rows, docs := Rows(cols, n), cols[c].docs;
    forall d: u32
      ensures d in HoldingRange(docs, terms, a, b) <==> d in PrefixSat(rows, cols[c].name, p)
    {
      InRange(docs, terms, a, b, d);
      if d < n {
        TermGivesPrefix(cols, n, c, terms, p, a, b, d);
        PrefixGivesTerm(cols, n, c, terms, p, a, b, d);
      }
    }
  }

  lemma TermGivesPrefix(cols: seq<Column>, n: nat, c: nat, terms: seq<string>, p: string, a: nat, b: nat, d: nat)
    requires Rectangular(cols, n) && c < |cols| && a <= b <= |terms| && d < n
    requires Lex.StrictlySorted(terms) && Sought(terms, p, a) && b == PrefixEnd(terms, p, a)
    ensures (exists j | a <= j < b :: terms[j] in cols[c].docs[d]) ==> HasPrefix(Rows(cols, n)[d], cols[c].name, p)
  {
    var row, doc := Rows(cols, n)[d], cols[c].docs[d];
    RowAt(cols, n, d);
    if j :| a <= j < b && terms[j] in doc {
      PrefixesContiguous(terms, p, a, b, j);
      var k :| 0 <= k < |doc| && doc[k] == terms[j];
      assert row[c].name == cols[c].name && p <= row[c].terms[k];
    }
  }

  lemma PrefixGivesTerm(cols: seq<Column>, n: nat, c: nat, terms: seq<string>, p: string, a: nat, b: nat, d: nat)
    requires Rectangular(cols, n) && c < |cols| && a <= b <= |terms| && d < n
    requires forall t: string :: t in terms <==> Placed(cols[c].docs, t) != map[]
    requires Lex.StrictlySorted(terms) && Sought(terms, p, a) && b == PrefixEnd(terms, p, a)
    ensures HasPrefix(Rows(cols, n)[d], cols[c].name, p) ==> exists j | a <= j < b :: terms[j] in cols[c].docs[d]
  {
    var row, docs := Rows(cols, n)[d], cols[c].docs;
    RowAt(cols, n, d);
    if HasPrefix(row, cols[c].name, p) {
      var i, k :| 0 <= i < |row| && 0 <= k < |row[i].terms| && row[i].name == cols[c].name && p <= row[i].terms[k];
      assert i == c;
      var t := docs[d][k];
      HeldSomewhere(docs, t);
      assert t in docs[d] && t in terms;
      var j :| 0 <= j < |terms| && terms[j] == t;
      PrefixesContiguous(terms, p, a, b, j);
    }
  }

  method PrefixBitmap(b: Bitmaps, seg: bytes, hc: Hotcache, field: string, prefix: string, ghost cols: seq<Column>)
    returns (union: Bitmap)
    requires Represents(b, seg, hc, cols) && Rectangular(cols, hc.docCount)
    ensures fresh(union) && union.elems == PrefixSat(Rows(cols, hc.docCount), field, prefix)
  {
    var f := Field(hc.fields, field);
    FieldFinds(hc.fields, cols, field);
    if f.None? {
      NoSuchField(cols, hc.docCount, field);
      union := new Bitmap({});
      return;
    }
    ghost var c :| 0 <= c < |cols| && hc.fields[c] == f.value && cols[c].name == field;
    assert Indexed(b, seg, f.value, cols[c]);
    AllListed(b, seg, f.value, cols[c]);
    var start := Seek(f.value.terms, prefix);
    union := UnionFrom(b, seg, f.value.terms, f.value.table, start, prefix, cols[c].docs);
    RangeIsPrefix(cols, hc.docCount, c, f.value.terms, prefix, start, PrefixEnd(f.value.terms, prefix, start));
  }

  /** The posting lists of a dictionary, by number. */
  ghost predicate Listed(b: Bitmaps, seg: bytes, terms: seq<string>, table: seq<TermOffsets>, docs: seq<seq<string>>) {
    |table| == |terms| && forall j | 0 <= j < |terms| :: GetPostings(b, seg, table[j]) == Some(Holding(docs, terms[j]))
  }

  lemma AllListed(b: Bitmaps, seg: bytes, f: FieldHotcache, col: Column)
    requires Indexed(b, seg, f, col)
    ensures Listed(b, seg, f.terms, f.table, col.docs)
  {
    forall j | 0 <= j < |f.terms|
      ensures GetPostings(b, seg, f.table[j]) == Some(Holding(col.docs, f.terms[j]))
    {
      assert Serves(b, seg, f.table[j], Placed(col.docs, f.terms[j]));
      HeldSomewhere(col.docs, f.terms[j]);
      assert Placed(col.docs, f.terms[j]).Keys == Holding(col.docs, f.terms[j]);
    }
  }

  /** The iteration over the dictionary, which stops at the first key without the prefix. */
  method UnionFrom(b: Bitmaps, seg: bytes, terms: seq<string>, table: seq<TermOffsets>, start: nat, prefix: string,
                   ghost docs: seq<seq<string>>)
    returns (union: Bitmap)
    requires Listed(b, seg, terms, table, docs) && start <= |terms|
    ensures fresh(union) && union.elems == HoldingRange(docs, terms, start, PrefixEnd(terms, prefix, start))
  {
    union := new Bitmap({});
    var j := start;
    while j < |terms| && prefix <= terms[j]
      invariant start <= j <= |terms| && fresh(union)
      invariant PrefixEnd(terms, prefix, j) == PrefixEnd(terms, prefix, start)
      invariant union.elems == HoldingRange(docs, terms, start, j)
    {
      var pl := GetPostings(b, seg, table[j]);
      var bm := new Bitmap(pl.value);
      union.Or(bm);
      j := j + 1;
    }
  }
}
