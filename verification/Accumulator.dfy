/** Inverted lists of one field, against the token sequences of its documents. */
module Accumulator {
  import opened Bytes
  import opened Numbers

  /** Where t stands in a token sequence, in ascending order. */
  function Occurrences(ts: seq<string>, t: string): (ps: seq<u32>)
    requires |ts| < 0x1_0000_0000
  {
    if ts == [] then []
    else
      var n := |ts| - 1;
      Occurrences(ts[..n], t) + if ts[n] == t then [n] else []
  }

  lemma {:induction false} OccurrencesExact(ts: seq<string>, t: string)
    requires |ts| < 0x1_0000_0000
    ensures Ascending(Occurrences(ts, t))
    ensures forall p: u32 :: p in Occurrences(ts, t) <==> p < |ts| && ts[p] == t
  {
    if ts != [] {
      var n := |ts| - 1;
      OccurrencesExact(ts[..n], t);
      NextOccurrence(ts, Occurrences(ts[..n], t), t);
    }
  }

  lemma NextOccurrence(ts: seq<string>, before: seq<u32>, t: string)
    requires 0 < |ts| < 0x1_0000_0000 && Ascending(before)
    requires forall p: u32 :: p in before <==> p < |ts| - 1 && ts[p] == t
    ensures var n := |ts| - 1;
            var ps := before + if ts[n] == t then [n] else [];
            Ascending(ps) && forall p: u32 :: p in ps <==> p < |ts| && ts[p] == t
  {
    forall i | 0 <= i < |before|
      ensures before[i] < |ts| - 1
    {
      assert before[i] in before;
    }
  }

  lemma OccursIffListed(ts: seq<string>, t: string)
    requires |ts| < 0x1_0000_0000
    ensures t in ts <==> Occurrences(ts, t) != []
  {
    OccurrencesExact(ts, t);
    if t in ts {
      var p :| 0 <= p < |ts| && ts[p] == t;
      assert p in Occurrences(ts, t);
    }
    var ps := Occurrences(ts, t);
    assert ps != [] ==> ps[0] in ps;
  }

  lemma OccurrencesLater(ts: seq<string>, x: string, t: string)
    requires |ts| < 0xffff_ffff
    ensures Occurrences(ts + [x], t) == Occurrences(ts, t) + if x == t then [|ts|] else []
  {
    assert (ts + [x])[..|ts|] == ts;
  }

  /** Document and token numbers are uint32. */
  ghost predicate Small(docs: seq<seq<string>>) {
    |docs| < 0x1_0000_0000 && forall d | 0 <= d < |docs| :: |docs[d]| < 0x1_0000_0000
  }

  /** Where t stands in document d. */
  function Where(docs: seq<seq<string>>, t: string, d: u32): seq<u32>
    requires Small(docs)
  {
    if d < |docs| then Occurrences(docs[d], t) else []
  }

  type PositionMap = map<u32, seq<u32>>

  function Stored(positions: map<string, PositionMap>, t: string): PositionMap {
    if t in positions then positions[t] else map[]
  }

  function Listing(m: PositionMap, d: u32): seq<u32> {
    if d in m then m[d] else []
  }

  /** The inverted lists are exactly those of the documents, and none of them is empty. */
  ghost predicate Inverts(postings: map<string, set<u32>>, positions: map<string, PositionMap>,
                          docs: seq<seq<string>>)
  {
    && Small(docs) && postings.Keys == positions.Keys
    && (forall t: string, d: u32 :: Listing(Stored(positions, t), d) == Where(docs, t, d))
    && (forall t <- positions :: Filled(positions[t]) && postings[t] == positions[t].Keys)
  }

  ghost predicate Filled(m: PositionMap) {
    m != map[] && forall d <- m :: m[d] != []
  }

  /** The documents that hold t, each with the places it stands at. */
  ghost function Placed(docs: seq<seq<string>>, t: string): PositionMap
    requires Small(docs)
  {
    map d: u32 | d < |docs| && Where(docs, t, d) != [] :: Where(docs, t, d)
  }

  lemma StoredIsPlaced(postings: map<string, set<u32>>, positions: map<string, PositionMap>,
                       docs: seq<seq<string>>, t: string)
    requires Inverts(postings, positions, docs)
    ensures Stored(positions, t) == Placed(docs, t)
    ensures t in positions <==> Placed(docs, t) != map[]
  {
    forall d: u32
      ensures d in Stored(positions, t) <==> Where(docs, t, d) != []
      ensures d in Stored(positions, t) ==> Stored(positions, t)[d] == Where(docs, t, d)
    {
      assert Listing(Stored(positions, t), d) == Where(docs, t, d);
    }
  }

  /** One more token at the end of a document. */
  ghost function Appended(docs: seq<seq<string>>, d: nat, x: string): seq<seq<string>>
    requires d < |docs|
  {
    docs[d := docs[d] + [x]]
  }

  lemma WhereAppended(docs: seq<seq<string>>, d: u32, x: string, t: string, e: u32)
    requires Small(docs) && d < |docs| && |docs[d]| < 0xffff_ffff
    ensures Small(Appended(docs, d, x))
    ensures Where(Appended(docs, d, x), t, e) == Where(docs, t, e) + if t == x && e == d then [|docs[d]|] else []
  {
    OccurrencesLater(docs[d], x, t);
  }

  /** The lengths are the numbers of tokens; documents behind the last length have none. */
  ghost predicate Measures(doclens: seq<u32>, docs: seq<seq<string>>) {
    |doclens| <= |docs| && forall d | 0 <= d < |docs| :: |docs[d]| == if d < |doclens| then doclens[d] else 0
  }

  class FieldAccumulator {
    const name: string
    var postings: map<string, set<u32>>
    var positions: map<string, map<u32, seq<u32>>>
    var doclens: seq<u32>
    /** The tokens added so far, document by document. */
    ghost var docs: seq<seq<string>>

    ghost predicate Valid()
      reads this
    {
      Inverts(postings, positions, docs) && |doclens| <= |docs|
    }

    ghost predicate Empty()
      reads this
    {
      Valid() && docs == [] && doclens == []
    }

    constructor (name: string)
      ensures Empty() && this.name == name
    {
      this.name := name;
      postings, positions, doclens, docs := map[], map[], [], [];
    }

    /** The next document begins, so far without tokens in this field. */
    ghost method NextDocument()
      requires Valid() && |docs| < 0xffff_ffff
      modifies this`docs
      ensures Valid() && docs == old(docs) + [[]]
    {
      forall t: string, d: u32
        ensures Small(docs + [[]]) && Where(docs + [[]], t, d) == Where(docs, t, d)
      {
      }
      docs := docs + [[]];
    }

    method AddToken(docID: u32, term: string, pos: u32)
      requires Valid() && docID < |docs| && pos == |docs[docID]| < 0xffff_ffff
      modifies this`postings, this`positions, this`docs
      ensures Valid() && docs == Appended(old(docs), docID, term)
    {
      AddsToken(postings, positions, docs, docID, term);
      var pl := if term in postings then postings[term] else {};
      postings := postings[term := pl + {docID}];
      var docPos := Stored(positions, term);
      positions := positions[term := WithPosition(docPos, docID, pos)];
      docs := Appended(docs, docID, term);
    }

    /** The length of a document; documents without the field before it have length 0. */
    method SetDoclen(docID: u32, length: u32)
      requires Valid() && docID < |docs|
      modifies this`doclens
      ensures Valid() && |doclens| == if |old(doclens)| > docID then |old(doclens)| else docID + 1
      ensures forall d | 0 <= d < |doclens| ::
                doclens[d] == if d == docID then length else if d < |old(doclens)| then old(doclens)[d] else 0
    {
      while |doclens| <= docID
        invariant |old(doclens)| <= |doclens|
        invariant |doclens| == |old(doclens)| || |doclens| <= docID + 1
        invariant forall d | 0 <= d < |doclens| :: doclens[d] == if d < |old(doclens)| then old(doclens)[d] else 0
        decreases docID - |doclens|
      {
        doclens := doclens + [0];
      }
      doclens := doclens[docID := length];
    }
  }

  function WithPosition(m: PositionMap, d: u32, p: u32): (r: PositionMap)
    ensures r.Keys == m.Keys + {d}
  {
    m[d := Listing(m, d) + [p]]
  }

  lemma ListingAdded(positions: map<string, PositionMap>, docs: seq<seq<string>>, d: u32, x: string,
                     t: string, e: u32)
    requires Small(docs) && d < |docs| && |docs[d]| < 0xffff_ffff
    requires Listing(Stored(positions, t), e) == Where(docs, t, e)
    ensures Small(Appended(docs, d, x))
    ensures var now := positions[x := WithPosition(Stored(positions, x), d, |docs[d]|)];
            Listing(Stored(now, t), e) == Where(Appended(docs, d, x), t, e)
  {
    WhereAppended(docs, d, x, t, e);
  }

  /** The maps after AddToken. */
  lemma AddsToken(postings: map<string, set<u32>>, positions: map<string, PositionMap>,
                  docs: seq<seq<string>>, d: u32, x: string)
    requires Inverts(postings, positions, docs) && d < |docs| && |docs[d]| < 0xffff_ffff
    ensures var docPos := WithPosition(Stored(positions, x), d, |docs[d]|);
            var pl := if x in postings then postings[x] else {};
            Inverts(postings[x := pl + {d}], positions[x := docPos], Appended(docs, d, x))
  {
    var docPos := WithPosition(Stored(positions, x), d, |docs[d]|);
    WhereAppended(docs, d, x, x, d);
    assert Filled(docPos) by {
      assert d in docPos;
    }
    forall t: string, e: u32
      ensures Listing(Stored(positions[x := docPos], t), e) == Where(Appended(docs, d, x), t, e)
    {
      ListingAdded(positions, docs, d, x, t, e);
    }
  }
}
