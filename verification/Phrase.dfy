/** Phrase queries: contiguous terms, found through the positions read back from a segment. */
module Phrase {
  import opened Bytes
  import opened Sequences
  import opened Accumulator
  import opened Positions
  import opened Hotcache
  import opened Terms
  import opened Segment
  import opened Query
  import opened Bitmap
  import opened Lookup
  import opened Numbers

  // ----- One document -----

  /** The innermost loop gives up at the first greater position, which is right for ascending ones. */
  method Found(ps: seq<u32>, needed: u32) returns (found: bool)
    requires Ascending(ps)
    ensures found <==> needed in ps
  {
    found := false;
    for k := 0 to |ps|
      invariant !found && forall j | 0 <= j < k :: ps[j] < needed
    {
      if ps[k] == needed {
        found := true;
        break;
      }
      if ps[k] > needed {
        break;
      }
    }
  }

  /** From start on, every further term stands where the phrase needs it; the sum is a uint32. */
  ghost predicate Follows(docID: u32, ms: seq<PositionMap>, start: u32) {
    forall i | 1 <= i < |ms| :: Low32(start + i) in Listing(ms[i], docID)
  }

  ghost predicate InOrder(docID: u32, ms: seq<PositionMap>) {
    forall i | 0 <= i < |ms| :: Ascending(Listing(ms[i], docID))
  }

  method StartsHere(docID: u32, ms: seq<PositionMap>, start: u32) returns (match_: bool)
    requires InOrder(docID, ms)
    ensures match_ <==> Follows(docID, ms, start)
  {
    match_ := true;
    var i := 1;
    while i < |ms|
      invariant 1 <= i && match_ && forall j | 1 <= j < i && j < |ms| :: Low32(start + j) in Listing(ms[j], docID)
    {
      var needed := Low32(start + i);
      var found := Found(Listing(ms[i], docID), needed);
      if !found {
        match_ := false;
        break;
      }
      i := i + 1;
    }
  }

  method PhraseMatch(docID: u32, ms: seq<PositionMap>) returns (r: bool)
    requires InOrder(docID, ms)
    ensures r <==> ms != [] && exists start <- Listing(ms[0], docID) :: Follows(docID, ms, start)
  {
    if |ms| == 0 {
      return false;
    }
    var starts := Listing(ms[0], docID);
    for k := 0 to |starts|
      invariant forall j | 0 <= j < k :: !Follows(docID, ms, starts[j])
    {
      var match_ := StartsHere(docID, ms, starts[k]);
      if match_ {
        assert starts[k] in starts;
        return true;
      }
    }
    return false;
  }

  /** The maps of the terms, as the documents have them. */
  ghost predicate MapsOf(ms: seq<PositionMap>, docs: seq<seq<string>>, terms: seq<string>)
    requires Small(docs)
  {
    |ms| == |terms| && forall i | 0 <= i < |terms| :: ms[i] == Placed(docs, terms[i])
  }

  lemma ListingPlaced(docs: seq<seq<string>>, t: string, d: u32)
    requires Small(docs) && d < |docs|
    ensures Listing(Placed(docs, t), d) == Occurrences(docs[d], t)
    ensures Ascending(Listing(Placed(docs, t), d))
    ensures forall p: u32 :: p in Listing(Placed(docs, t), d) <==> p < |docs[d]| && docs[d][p] == t
  {
    OccurrencesExact(docs[d], t);
  }

  /** The scan decides whether the document contains the phrase: it fails at the end of the tokens before it wraps. */
  lemma FollowsIsContains(docs: seq<seq<string>>, terms: seq<string>, ms: seq<PositionMap>, d: u32)
    requires Small(docs) && d < |docs| && terms != [] && MapsOf(ms, docs, terms)
    ensures InOrder(d, ms)
    ensures Contains(docs[d], terms) <==> exists start <- Listing(ms[0], d) :: Follows(d, ms, start)
  {
    var ts := docs[d];
    forall i | 0 <= i < |terms|
      ensures Ascending(Listing(ms[i], d))
      ensures forall p: u32 :: p in Listing(ms[i], d) <==> p < |ts| && ts[p] == terms[i]
    {
      ListingPlaced(docs, terms[i], d);
    }
    if s: nat :| StandAt(ts, terms, s) {
      ContainedFollows(ts, terms, ms, d, s);
    }
    if start :| start in Listing(ms[0], d) && Follows(d, ms, start) {
      FollowingStands(ts, terms, ms, d, start);
    }
  }

  ghost predicate Exact(ts: seq<string>, terms: seq<string>, ms: seq<PositionMap>, d: u32) {
    && |ms| == |terms|
    && forall i | 0 <= i < |terms| :: forall p: u32 :: p in Listing(ms[i], d) <==> p < |ts| && ts[p] == terms[i]
  }

  lemma ContainedFollows(ts: seq<string>, terms: seq<string>, ms: seq<PositionMap>, d: u32, s: nat)
    requires Exact(ts, terms, ms, d) && terms != [] && |ts| < 0x1_0000_0000 && StandAt(ts, terms, s)
    ensures s in Listing(ms[0], d) && Follows(d, ms, s)
  {
    assert ts[s] == ts[s..s + |terms|][0];
    forall i | 1 <= i < |ms|
      ensures Low32(s + i) in Listing(ms[i], d)
    {
      assert ts[s + i] == ts[s..s + |terms|][i];
    }
  }

  /** The position behind the last token holds nothing, so a match ends before the sums wrap. */
  lemma PastEnd(ts: seq<string>, terms: seq<string>, ms: seq<PositionMap>, d: u32, start: u32)
    requires Exact(ts, terms, ms, d) && |ts| < 0x1_0000_0000 && start < |ts| < start + |terms|
    ensures !Follows(d, ms, start)
  {
    var end := |ts| - start;
    assert Low32(start + end) == |ts|;
    assert Low32(start + end) !in Listing(ms[end], d);
  }

  lemma FollowingStands(ts: seq<string>, terms: seq<string>, ms: seq<PositionMap>, d: u32, start: u32)
    requires Exact(ts, terms, ms, d) && terms != [] && |ts| < 0x1_0000_0000
    requires start in Listing(ms[0], d) && Follows(d, ms, start)
    ensures StandAt(ts, terms, start)
  {
    var n := |terms|;
    if |ts| < start + n {
      PastEnd(ts, terms, ms, d, start);
    }
    forall i | 0 <= i < n
      ensures start + i < |ts| && ts[start + i] == terms[i]
    {
      if i > 0 {
        assert Low32(start + i) in Listing(ms[i], d);
      }
    }
    var last := terms[n - 1];
    assert ts[start + (n - 1)] == last;
  }

  // ----- The segment -----

  ghost function PhraseSat(rows: seq<Row>, field: string, terms: seq<string>): set<u32> {
    set d: u32 | d < |rows| && HasPhrase(rows[d], field, terms)
  }

  method PositionMapOf(entries: seq<Entry>) returns (m: PositionMap)
    ensures m == AsMap(entries)
  {
    m := map[];
    for i := 0 to |entries|
      invariant m == AsMap(entries[..i])
    {
      assert entries[..i + 1][..i] == entries[..i];
      m := m[entries[i].docID := entries[i].positions];
    }
    Whole(entries);
  }

  /** What a lookup and the two range reads give for each term, or nothing if some term is absent. */
  method FetchTerms(b: Bitmaps, seg: bytes, f: FieldHotcache, terms: seq<string>, ghost col: Column)
    returns (found: bool, tds: seq<set<u32>>, ms: seq<PositionMap>)
    requires Indexed(b, seg, f, col)
    ensures !found ==> exists t <- terms :: Placed(col.docs, t) == map[]
    ensures found ==> MapsOf(ms, col.docs, terms) && |tds| == |ms|
    ensures found ==> forall i | 0 <= i < |ms| :: tds[i] == ms[i].Keys
  {
    tds, ms := [], [];
    for i := 0 to |terms|
      invariant |tds| == |ms| == i
      invariant forall j | 0 <= j < i :: ms[j] == Placed(col.docs, terms[j]) && tds[j] == ms[j].Keys
    {
      LookupFinds(b, seg, f, col, terms[i]);
      var to := LookupTerm(f, terms[i]);
      if to.None? {
        assert terms[i] in terms;
        return false, [], [];
      }
      var pl := GetPostings(b, seg, to.value);
      var posEntries := GetPositions(seg, to.value);
      var posMap := PositionMapOf(posEntries.value);
      tds, ms := tds + [pl.value], ms + [posMap];
    }
    found := true;
  }

  /** The documents in all of the first n sets. */
  ghost function Shared(tds: seq<set<u32>>, n: nat): set<u32>
    requires 0 < n <= |tds|
  {
    if n == 1 then tds[0] else Shared(tds, n - 1) * tds[n - 1]
  }

  lemma {:induction false} SharedHold(tds: seq<set<u32>>, n: nat, d: u32)
    requires 0 < n <= |tds|
    ensures d in Shared(tds, n) <==> forall i | 0 <= i < n :: d in tds[i]
  {
    if n > 1 {
      SharedHold(tds, n - 1, d);
    }
  }

  method IntersectAll(tds: seq<set<u32>>) returns (combined: Bitmap)
    requires tds != []
    ensures fresh(combined) && combined.elems == Shared(tds, |tds|)
  {
    var first := new Bitmap(tds[0]);
    combined := first.Clone();
    for i := 1 to |tds|
      invariant fresh(combined) && combined.elems == Shared(tds, i)
    {
      var pl := new Bitmap(tds[i]);
      combined.And(pl);
    }
  }

  lemma ContainsAll(docs: seq<seq<string>>, terms: seq<string>, d: u32)
    requires Small(docs) && d < |docs| && Contains(docs[d], terms)
    ensures forall i | 0 <= i < |terms| :: d in Placed(docs, terms[i])
  {
    var s: nat :| StandAt(docs[d], terms, s);
    forall i | 0 <= i < |terms|
      ensures d in Placed(docs, terms[i])
    {
      assert docs[d][s + i] == docs[d][s..s + |terms|][i];
      HeldSomewhere(docs, terms[i]);
    }
  }

  /** The documents whose tokens contain the phrase. */
  ghost function Containing(docs: seq<seq<string>>, terms: seq<string>): set<u32> {
    set d: u32 | d < |docs| && Contains(docs[d], terms)
  }

  /** The loop over the candidates. */
  method FilterByPosition(candidates: set<u32>, ms: seq<PositionMap>, ghost docs: seq<seq<string>>,
                          ghost terms: seq<string>)
    returns (result: Bitmap)
    requires Small(docs) && terms != [] && MapsOf(ms, docs, terms)
    requires forall d <- candidates :: d < |docs|
    ensures fresh(result) && result.elems == candidates * Containing(docs, terms)
  {
    result := new Bitmap({});
    var rest := candidates;
    while rest != {}
      invariant rest <= candidates && fresh(result)
      invariant result.elems == (candidates - rest) * Containing(docs, terms)
      decreases |rest|
    {
      var docID :| docID in rest;
      FollowsIsContains(docs, terms, ms, docID);
      var m := PhraseMatch(docID, ms);
      OneChecked(candidates, rest, docID, Containing(docs, terms));
      if m {
        result.Add(docID);
      }
      rest := rest - {docID};
    }
  }

  lemma OneChecked(candidates: set<u32>, rest: set<u32>, d: u32, good: set<u32>)
    requires d in rest && rest <= candidates
    ensures (candidates - (rest - {d})) * good == (candidates - rest) * good + if d in good then {d} else {}
  {
  }

  method PhraseOfField(b: Bitmaps, seg: bytes, f: FieldHotcache, terms: seq<string>, ghost col: Column)
    returns (result: Bitmap)
    requires Indexed(b, seg, f, col) && terms != []
    ensures fresh(result) && result.elems == Containing(col.docs, terms)
  {
    var found, tds, ms := FetchTerms(b, seg, f, terms, col);
    if !found {
      ghost var t :| t in terms && Placed(col.docs, t) == map[];
      AbsentTerm(col.docs, terms, t);
      result := new Bitmap({});
      return;
    }
    var combined := IntersectAll(tds);
    SharedContain(col.docs, terms, tds, ms);
    result := FilterByPosition(combined.elems, ms, col.docs, terms);
  }

  lemma AbsentTerm(docs: seq<seq<string>>, terms: seq<string>, t: string)
    requires Small(docs) && t in terms && Placed(docs, t) == map[]
    ensures Containing(docs, terms) == {}
  {
    var i :| 0 <= i < |terms| && terms[i] == t;
    forall d: u32
      ensures d in Containing(docs, terms) ==> d in Placed(docs, terms[i])
    {
      if d in Containing(docs, terms) {
        ContainsAll(docs, terms, d);
      }
    }
  }

  lemma SharedContain(docs: seq<seq<string>>, terms: seq<string>, tds: seq<set<u32>>, ms: seq<PositionMap>)
    requires Small(docs) && terms != [] && MapsOf(ms, docs, terms)
    requires |tds| == |ms| && forall i | 0 <= i < |ms| :: tds[i] == ms[i].Keys
    ensures forall d <- Shared(tds, |tds|) :: d < |docs|
    ensures Shared(tds, |tds|) * Containing(docs, terms) == Containing(docs, terms)
  {
    forall d: u32
      ensures d in Shared(tds, |tds|) ==> d < |docs|
      ensures d in Containing(docs, terms) ==> d in Shared(tds, |tds|)
    {
      SharedHold(tds, |tds|, d);
      if d in Containing(docs, terms) {
        ContainsAll(docs, terms, d);
      }
      if d in Shared(tds, |tds|) {
        assert d in tds[0] && d in Placed(docs, terms[0]);
      }
    }
  }

  lemma NamedIsContaining(cols: seq<Column>, n: nat, c: nat, terms: seq<string>)
    requires Rectangular(cols, n) && c < |cols| && terms != []
    ensures Containing(cols[c].docs, terms) == PhraseSat(Rows(cols, n), cols[c].name, terms)
  {
    var rows := Rows(cols, n);
    forall d: u32
      ensures d in Containing(cols[c].docs, terms) <==> d in PhraseSat(rows, cols[c].name, terms)
    {
      if d < n {
        RowAt(cols, n, d);
        assert rows[d][c] == Cell(cols[c].name, cols[c].docs[d]);
      }
    }
  }

  /** Exactly the documents whose field contains the terms next to each other. */
  method PhraseBitmap(b: Bitmaps, seg: bytes, hc: Hotcache, field: string, terms: seq<string>, ghost cols: seq<Column>)
    returns (r: Bitmap)
    requires Represents(b, seg, hc, cols) && Rectangular(cols, hc.docCount)
    ensures fresh(r) && r.elems == PhraseSat(Rows(cols, hc.docCount), field, terms)
  {
    if |terms| == 0 {
      r := new Bitmap({});
      return;
    }
    var f := Field(hc.fields, field);
    FieldFinds(hc.fields, cols, field);
    if f.None? {
      NoSuchField(cols, hc.docCount, field);
      r := new Bitmap({});
      return;
    }
    ghost var c :| 0 <= c < |cols| && hc.fields[c] == f.value && cols[c].name == field;
    NamedIsContaining(cols, hc.docCount, c, terms);
    r := PhraseOfField(b, seg, f.value, terms, cols[c]);
  }
}
