/** The postings and positions sections of a segment, and the byte ranges of each term in them. */
module Terms {
  import opened Bytes
  import opened Sequences
  import opened Numbers
  import opened Accumulator
  import opened Positions
  import Lex

  /** Serialised posting lists. */
  datatype Bitmaps = Bitmaps(ser: set<u32> -> bytes, de: bytes -> Option<set<u32>>)

  ghost predicate LosslessBitmaps(b: Bitmaps) {
    forall s: set<u32> {:trigger b.ser(s)} :: b.de(b.ser(s)) == Some(s) && (b.ser(s) == [] ==> s == {})
  }

  // ----- Positions of one term -----

  /** The entries of a position map in ascending order, for documents below n. */
  ghost function Entries(m: PositionMap, n: nat): (es: seq<Entry>)
    requires n < 0x1_0000_0000
  {
    if n == 0 then [] else Entries(m, n - 1) + if n - 1 in m then [Entry(n - 1, m[n - 1])] else []
  }

  /** Ascending ids that are exactly the keys list exactly the entries. */
  lemma {:induction false} EntriesListed(m: PositionMap, n: nat, ids: seq<u32>, es: seq<Entry>)
    requires n < 0x1_0000_0000 && Ascending(ids) && |es| == |ids|
    requires forall d: u32 :: d in ids <==> d in m && d < n
    requires forall i | 0 <= i < |ids| :: ids[i] in m && es[i] == Entry(ids[i], m[ids[i]])
    ensures es == Entries(m, n)
    decreases n
  {
    if n == 0 {
      FirstIn(ids);
    } else if n - 1 in m {
      var last := |ids| - 1;
      LastIs(m, n, ids);
      BelowLast(ids);
      EntriesListed(m, n - 1, ids[..last], es[..last]);
      assert es == es[..last] + [es[last]];
    } else {
      EntriesListed(m, n - 1, ids, es);
    }
  }

  lemma FirstIn(ids: seq<u32>)
    ensures ids != [] ==> ids[0] in ids
  {
  }

  lemma LastIs(m: PositionMap, n: nat, ids: seq<u32>)
    requires 0 < n < 0x1_0000_0000 && Ascending(ids) && n - 1 in m
    requires forall d: u32 :: d in ids <==> d in m && d < n
    ensures ids != [] && ids[|ids| - 1] == n - 1
  {
    var d: u32 := n - 1;
    assert d in ids;
    var k :| 0 <= k < |ids| && ids[k] == d;
    assert ids[|ids| - 1] in ids;
  }

  lemma BelowLast(ids: seq<u32>)
    requires Ascending(ids) && ids != []
    ensures Ascending(ids[..|ids| - 1])
    ensures forall d: u32 :: d in ids[..|ids| - 1] <==> d in ids && d < ids[|ids| - 1]
  {
    var last := |ids| - 1;
    assert ids == ids[..last] + [ids[last]];
    forall d: u32 | d in ids[..last]
      ensures d < ids[last]
    {
      var k :| 0 <= k < last && ids[k] == d;
    }
  }

  /** What the entries say, as a map. */
  function AsMap(es: seq<Entry>): PositionMap {
    if es == [] then map[] else AsMap(es[..|es| - 1])[es[|es| - 1].docID := es[|es| - 1].positions]
  }

  lemma {:induction false} EntriesAsMap(m: PositionMap, n: nat)
    requires n < 0x1_0000_0000
    ensures AsMap(Entries(m, n)) == map d: u32 | d in m && d < n :: m[d]
    decreases n
  {
    if n > 0 {
      EntriesAsMap(m, n - 1);
      var before := Entries(m, n - 1);
      if n - 1 in m {
        AsMapNext(before, Entry(n - 1, m[n - 1]));
      } else {
        PlusNothing(before);
      }
    }
  }

  lemma AsMapNext(es: seq<Entry>, e: Entry)
    ensures AsMap(es + [e]) == AsMap(es)[e.docID := e.positions]
  {
    assert (es + [e])[..|es|] == es;
  }

  lemma {:induction false} EntriesHold(m: PositionMap, n: nat, i: nat)
    requires n < 0x1_0000_0000 && i < |Entries(m, n)|
    ensures Entries(m, n)[i].docID in m && Entries(m, n)[i].positions == m[Entries(m, n)[i].docID]
    decreases n
  {
    if i < |Entries(m, n - 1)| {
      EntriesHold(m, n - 1, i);
    }
  }

  // ----- One term -----

  /** Byte ranges relative to the two sections. */
  datatype TermRecord =
    TermRecord(field: string, term: string, postOff: nat, postLen: nat, posOff: nat, posLen: nat)

  /** The two ranges hold the term's posting list and positions. */
  ghost predicate Written(b: Bitmaps, m: PositionMap, n: nat, r: TermRecord, postBuf: bytes, posBuf: bytes)
    requires n < 0x1_0000_0000
  {
    && At(postBuf, r.postOff, b.ser(m.Keys)) && r.postLen == |b.ser(m.Keys)|
    && At(posBuf, r.posOff, AllBytes(Entries(m, n))) && r.posLen == |AllBytes(Entries(m, n))|
  }

  lemma WrittenStays(b: Bitmaps, m: PositionMap, n: nat, r: TermRecord,
                     postBuf: bytes, posBuf: bytes, postBuf': bytes, posBuf': bytes)
    requires n < 0x1_0000_0000 && Written(b, m, n, r, postBuf, posBuf) && postBuf <= postBuf' && posBuf <= posBuf'
    ensures Written(b, m, n, r, postBuf', posBuf')
  {
  }

  function EachInOrder(m: PositionMap): PositionMap {
    map d <- m :: InOrder(m[d])
  }

  lemma AlreadyInOrder(m: PositionMap)
    requires forall d <- m :: Ascending(m[d])
    ensures EachInOrder(m) == m
  {
    forall d <- m
      ensures InOrder(m[d]) == m[d]
    {
      AscendingStays(m[d]);
    }
  }

  /** Sorts the documents of a term, and the positions within each, and encodes them. */
  method EncodeTerm(docPos: PositionMap, ghost n: nat) returns (posBytes: bytes)
    requires n < 0x1_0000_0000 && forall d <- docPos :: d < n
    ensures posBytes == AllBytes(Entries(EachInOrder(docPos), n))
  {
    var listed := Listed(docPos.Keys);
    var docIDs := SortNumbers(listed);
    DistinctInOrder(listed);
    var entries: seq<Entry> := [];
    for i := 0 to |docIDs|
      invariant |entries| == i
      invariant forall j | 0 <= j < i ::
                  docIDs[j] in docPos && entries[j] == Entry(docIDs[j], InOrder(docPos[docIDs[j]]))
    {
      assert docIDs[i] in docIDs;
      var sortedPos := SortNumbers(docPos[docIDs[i]]);
      entries := entries + [Entry(docIDs[i], sortedPos)];
    }
    EntriesListed(EachInOrder(docPos), n, docIDs, entries);
    posBytes := EncodePositions(entries);
  }

  // ----- All terms of one field -----

  /** The records of a field: its terms in ascending order, each once, each written. */
  ghost predicate FieldWritten(b: Bitmaps, name: string, docs: seq<seq<string>>, terms: seq<string>,
                               rs: seq<TermRecord>, postBuf: bytes, posBuf: bytes)
    requires Small(docs)
  {
    && Lex.StrictlySorted(terms) && (forall t: string :: t in terms <==> Placed(docs, t) != map[])
    && RecordsWritten(b, name, docs, terms, rs, postBuf, posBuf)
  }

  ghost predicate RecordsWritten(b: Bitmaps, name: string, docs: seq<seq<string>>, terms: seq<string>,
                                 rs: seq<TermRecord>, postBuf: bytes, posBuf: bytes)
    requires Small(docs)
  {
    |rs| == |terms| && forall i | 0 <= i < |rs| ::
      && rs[i].field == name && rs[i].term == terms[i]
      && Written(b, Placed(docs, terms[i]), |docs|, rs[i], postBuf, posBuf)
  }

  lemma RecordsStay(b: Bitmaps, name: string, docs: seq<seq<string>>, terms: seq<string>, rs: seq<TermRecord>,
                    postBuf: bytes, posBuf: bytes, postBuf': bytes, posBuf': bytes)
    requires Small(docs) && RecordsWritten(b, name, docs, terms, rs, postBuf, posBuf)
    requires postBuf <= postBuf' && posBuf <= posBuf'
    ensures RecordsWritten(b, name, docs, terms, rs, postBuf', posBuf')
  {
    forall i | 0 <= i < |rs|
      ensures Written(b, Placed(docs, terms[i]), |docs|, rs[i], postBuf', posBuf')
    {
      WrittenStays(b, Placed(docs, terms[i]), |docs|, rs[i], postBuf, posBuf, postBuf', posBuf');
    }
  }

  lemma PlacedBounds(docs: seq<seq<string>>, t: string)
    requires Small(docs)
    ensures forall d <- Placed(docs, t) :: d < |docs| && Ascending(Placed(docs, t)[d])
  {
    forall d <- Placed(docs, t)
      ensures Ascending(Placed(docs, t)[d])
    {
      OccurrencesExact(docs[d], t);
    }
  }

  method SortedTerms(keys: set<string>) returns (terms: seq<string>)
    ensures Lex.StrictlySorted(terms) && forall t :: t in terms <==> t in keys
  {
    var listed := Listed(keys);
    terms := Lex.SortStrings(listed);
    forall t
      ensures t in terms <==> t in listed
    {
      assert t in terms <==> t in multiset(terms);
      assert t in listed <==> t in multiset(listed);
    }
    Lex.DistinctSorted(listed, terms);
  }

  method WriteField(b: Bitmaps, name: string, postings: map<string, set<u32>>, positions: map<string, PositionMap>,
                    ghost docs: seq<seq<string>>, postBuf: bytes, posBuf: bytes)
    returns (terms: seq<string>, rs: seq<TermRecord>, post: bytes, pos: bytes)
    requires Inverts(postings, positions, docs)
    ensures FieldWritten(b, name, docs, terms, rs, post, pos) && postBuf <= post && posBuf <= pos
  {
    terms := SortedTerms(postings.Keys);
    rs, post, pos := [], postBuf, posBuf;
    for i := 0 to |terms|
      invariant postBuf <= post && posBuf <= pos
      invariant RecordsWritten(b, name, docs, terms[..i], rs, post, pos)
    {
      var term := terms[i];
      assert term in terms;
      var plBytes := b.ser(postings[term]);
      TermOf(postings, positions, docs, term);
      AlreadyInOrder(positions[term]);
      var posBytes := EncodeTerm(positions[term], |docs|);
      var r := TermRecord(name, term, |post|, |plBytes|, |pos|, |posBytes|);
      RecordAdded(b, name, docs, terms[..i], term, rs, r, post, pos, plBytes, posBytes);
      NextPrefix(terms, i);
      rs, post, pos := rs + [r], post + plBytes, pos + posBytes;
    }
    Whole(terms);
    forall t: string
      ensures t in terms <==> Placed(docs, t) != map[]
    {
      StoredIsPlaced(postings, positions, docs, t);
    }
  }

  lemma TermOf(postings: map<string, set<u32>>, positions: map<string, PositionMap>, docs: seq<seq<string>>,
               term: string)
    requires Inverts(postings, positions, docs) && term in postings
    ensures positions[term] == Placed(docs, term) && postings[term] == Placed(docs, term).Keys
    ensures forall d <- positions[term] :: d < |docs| && Ascending(positions[term][d])
  {
    StoredIsPlaced(postings, positions, docs, term);
    PlacedBounds(docs, term);
  }

  lemma RecordAdded(b: Bitmaps, name: string, docs: seq<seq<string>>, terms: seq<string>, term: string,
                    rs: seq<TermRecord>, r: TermRecord, postBuf: bytes, posBuf: bytes, plBytes: bytes, posBytes: bytes)
    requires Small(docs) && RecordsWritten(b, name, docs, terms, rs, postBuf, posBuf)
    requires plBytes == b.ser(Placed(docs, term).Keys) && posBytes == AllBytes(Entries(Placed(docs, term), |docs|))
    requires r == TermRecord(name, term, |postBuf|, |plBytes|, |posBuf|, |posBytes|)
    ensures RecordsWritten(b, name, docs, terms + [term], rs + [r], postBuf + plBytes, posBuf + posBytes)
  {
    RecordsStay(b, name, docs, terms, rs, postBuf, posBuf, postBuf + plBytes, posBuf + posBytes);
    assert Written(b, Placed(docs, term), |docs|, r, postBuf + plBytes, posBuf + posBytes) by {
      AtLast(postBuf, plBytes);
      AtLast(posBuf, posBytes);
    }
  }

  lemma AtLast(buf: bytes, s: bytes)
    ensures At(buf + s, |buf|, s)
  {
  }
}
