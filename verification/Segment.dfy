/** Segments: what Build writes and what the range reads of a segment return. */
module Segment {
  import opened Bytes
  import opened Sequences
  import opened Accumulator
  import opened Positions
  import opened Hotcache
  import opened Terms
  import Docstore
  import Lex

  /** A field with the tokens of each document, the empty sequence where the field is absent. */
  datatype Column = Column(name: string, docs: seq<seq<string>>)

  /** The libraries a segment is built with: mean gives the bits of a float32, footer the fixed tail. */
  datatype Codecs = Codecs(texts: Texts, zstd: Docstore.Zstd, bitmaps: Bitmaps,
                           mean: seq<u32> -> u32, footer: seq<nat> -> bytes)

  ghost predicate Lossless(c: Codecs) {
    LosslessTexts(c.texts) && Docstore.Lossless(c.zstd) && LosslessBitmaps(c.bitmaps)
  }

  const SEGMENT_MAGIC: bytes := [0x53, 0x33, 0x53, 0x31]

  // ----- Range reads -----

  function GetPostings(b: Bitmaps, seg: bytes, to: TermOffsets): Option<set<u32>> {
    if to.postLen == 0 then Some({})
    else if to.postOff > |seg| then None
    else b.de(GetRange(seg, to.postOff, to.postLen))
  }

  function GetPositions(seg: bytes, to: TermOffsets): Option<seq<Entry>> {
    if to.posLen == 0 then Some([])
    else if to.posOff > |seg| then None
    else ReadAll(GetRange(seg, to.posOff, to.posLen), 0)
  }

  /** The two reads at a term's offsets give its documents and its positions. */
  ghost predicate Serves(b: Bitmaps, seg: bytes, to: TermOffsets, m: PositionMap) {
    && GetPostings(b, seg, to) == Some(m.Keys)
    && GetPositions(seg, to).Some? && AsMap(GetPositions(seg, to).value) == m
  }

  lemma RangesServe(b: Bitmaps, seg: bytes, to: TermOffsets, m: PositionMap, n: nat)
    requires LosslessBitmaps(b) && n < 0x1_0000_0000
    requires forall d <- m :: d < n && |m[d]| < 0x1_0000_0000
    requires At(seg, to.postOff, b.ser(m.Keys)) && to.postLen == |b.ser(m.Keys)|
    requires At(seg, to.posOff, AllBytes(Entries(m, n))) && to.posLen == |AllBytes(Entries(m, n))|
    ensures Serves(b, seg, to, m)
  {
    RangeAt(seg, to.postOff, b.ser(m.Keys));
    var es := Entries(m, n);
    assert GetPositions(seg, to) == Some(es) by {
      RangeAt(seg, to.posOff, AllBytes(es));
      forall i | 0 <= i < |es|
        ensures |es[i].positions| < U32_SPAN
      {
        EntriesHold(m, n, i);
      }
      PositionsRoundTrip(es);
    }
    assert AsMap(es) == m by {
      EntriesAsMap(m, n);
    }
  }

  /** A loaded field answers for a column: exactly its terms, and for each what the documents say. */
  ghost predicate Indexed(b: Bitmaps, seg: bytes, f: FieldHotcache, col: Column) {
    && Small(col.docs) && f.name == col.name && |f.table| == |f.terms| && Lex.StrictlySorted(f.terms)
    && (forall t: string :: t in f.terms <==> Placed(col.docs, t) != map[])
    && (forall j | 0 <= j < |f.terms| :: Serves(b, seg, f.table[j], Placed(col.docs, f.terms[j])))
  }

  ghost predicate DistinctNames(cols: seq<Column>) {
    forall i, j | 0 <= i < j < |cols| :: cols[i].name != cols[j].name
  }

  /** A segment and its hotcache stand for the columns of n documents. */
  ghost predicate Represents(b: Bitmaps, seg: bytes, hc: Hotcache, cols: seq<Column>) {
    && |hc.fields| == |cols| && DistinctNames(cols)
    && (forall i | 0 <= i < |cols| :: Indexed(b, seg, hc.fields[i], cols[i]) && |cols[i].docs| == hc.docCount)
  }

  /** A lookup finds a term exactly when it was added, and its ranges hold its postings and positions. */
  lemma LookupFinds(b: Bitmaps, seg: bytes, f: FieldHotcache, col: Column, t: string)
    requires Indexed(b, seg, f, col)
    ensures LookupTerm(f, t).Some? <==> exists d | 0 <= d < |col.docs| :: t in col.docs[d]
    ensures LookupTerm(f, t).Some? ==> Serves(b, seg, LookupTerm(f, t).value, Placed(col.docs, t))
    ensures LookupTerm(f, t).None? ==> Placed(col.docs, t) == map[]
  {
    HeldSomewhere(col.docs, t);
  }

  lemma HeldSomewhere(docs: seq<seq<string>>, t: string)
    requires Small(docs)
    ensures Placed(docs, t) != map[] <==> exists d | 0 <= d < |docs| :: t in docs[d]
    ensures forall d: u32 :: d in Placed(docs, t) <==> d < |docs| && t in docs[d]
  {
    forall d: u32
      ensures d in Placed(docs, t) <==> d < |docs| && t in docs[d]
    {
      if d < |docs| {
        OccursIffListed(docs[d], t);
      }
    }
    if d :| 0 <= d < |docs| && t in docs[d] {
      assert d in Placed(docs, t);
    }
    if Placed(docs, t) != map[] {
      var d :| d in Placed(docs, t);
      assert t in docs[d];
    }
  }

  // ----- Grouping the records by field -----

  function Absolute(r: TermRecord, postBase: nat, posBase: nat): TermOffsets {
    TermOffsets(Low64(postBase + r.postOff), Low64(r.postLen), Low64(posBase + r.posOff), Low64(r.posLen))
  }

  datatype Group = Group(terms: seq<string>, offsets: seq<TermOffsets>)

  function GroupOf(fg: map<string, Group>, name: string): Group {
    if name in fg then fg[name] else Group([], [])
  }

  function Of(rs: seq<TermRecord>, name: string): seq<TermRecord> {
    if rs == [] then []
    else Of(rs[..|rs| - 1], name) + if rs[|rs| - 1].field == name then [rs[|rs| - 1]] else []
  }

  /** A group holds, in order, the terms and absolute offsets of some records. */
  ghost predicate Gathers(g: Group, rs: seq<TermRecord>, postBase: nat, posBase: nat) {
    && |g.terms| == |g.offsets| == |rs|
    && forall i | 0 <= i < |rs| :: g.terms[i] == rs[i].term && g.offsets[i] == Absolute(rs[i], postBase, posBase)
  }

  method GroupByField(rs: seq<TermRecord>, postBase: nat, posBase: nat) returns (fg: map<string, Group>)
    ensures forall name :: Gathers(GroupOf(fg, name), Of(rs, name), postBase, posBase)
  {
    fg := map[];
    for i := 0 to |rs|
      invariant forall name :: Gathers(GroupOf(fg, name), Of(rs[..i], name), postBase, posBase)
    {
      var tr := rs[i];
      var g := GroupOf(fg, tr.field);
      assert rs[..i + 1][..i] == rs[..i];
      fg := fg[tr.field := Group(g.terms + [tr.term], g.offsets + [Absolute(tr, postBase, posBase)])];
    }
    Whole(rs);
  }

  lemma {:induction false} OfRun(rs: seq<TermRecord>, run: seq<TermRecord>, field: string, name: string)
    requires forall i | 0 <= i < |run| :: run[i].field == field
    ensures Of(rs + run, name) == Of(rs, name) + if name == field then run else []
    decreases |run|
  {
    if run == [] {
      PlusNothing(rs);
    } else {
      var n := |run| - 1;
      OfRun(rs, run[..n], field, name);
      assert (rs + run)[..|rs + run| - 1] == rs + run[..n];
      assert run == run[..n] + [run[n]];
    }
  }

  // ----- Documents -----

  /** The first n of a segment's document blocks, fetched one by one. */
  function FetchBlocks(seg: bytes, tableOff: nat, n: nat, numBlocks: nat): Option<seq<bytes>>
    requires tableOff <= |seg|
  {
    if n == 0 then Some([])
    else
      match FetchBlocks(seg, tableOff, n - 1, numBlocks)
      case None => None
      case Some(bs) =>
        match Docstore.GetDocBlock(seg, tableOff, n - 1, numBlocks)
        case None => None
        case Some(b) => Some(bs + [b])
  }

  /** Through the index of the hotcache and the fetched blocks, every document is read back. */
  ghost predicate StoresDocs(z: Docstore.Zstd, seg: bytes, tableOff: nat, hc: Hotcache, docs: seq<bytes>) {
    && tableOff <= |seg| && hc.docCount == |docs|
    && var blocks := FetchBlocks(seg, tableOff, hc.numBlocks, hc.numBlocks);
       var idx := Docstore.IndexRead(hc.docstoreIdx);
       blocks.Some? && idx.Some? && Docstore.Readable(z, blocks.value, idx.value, docs)
  }

  lemma {:induction false} BlocksFetched(seg: bytes, tableOff: nat, blocks: seq<bytes>, n: nat)
    requires Docstore.FitsU64(blocks) && At(seg, tableOff, Docstore.Section(blocks)) && n <= |blocks|
    ensures FetchBlocks(seg, tableOff, n, |blocks|) == Some(blocks[..n])
  {
    if n > 0 {
      BlocksFetched(seg, tableOff, blocks, n - 1);
      Docstore.DocBlockRoundTrip(seg, tableOff, blocks, n - 1);
      NextPrefix(blocks, n - 1);
    }
  }

  lemma DocsStored(z: Docstore.Zstd, seg: bytes, tableOff: nat, hc: Hotcache, blocks: seq<bytes>,
                   idx: seq<Docstore.BlockEntry>, docs: seq<bytes>)
    requires At(seg, tableOff, Docstore.Section(blocks)) && |seg| < 0x1_0000_0000_0000_0000
    requires Docstore.Readable(z, blocks, idx, docs) && hc.numBlocks == |blocks| && hc.docCount == |docs|
    requires hc.docstoreIdx == Laid(Docstore.PutEntry, idx)
    ensures StoresDocs(z, seg, tableOff, hc, docs)
  {
    BlocksFetched(seg, tableOff, blocks, |blocks|);
    Whole(blocks);
    Docstore.IndexRoundTrip(idx);
  }

  datatype Delivered = Delivered(docID: u32, raw: bytes)

  /** The documents from number d on that are not deleted, in order. */
  ghost function Live(docs: seq<bytes>, del: set<u32>, d: nat): seq<Delivered>
    requires |docs| < 0x1_0000_0000
    decreases |docs| - d
  {
    if d >= |docs| then []
    else (if d in del then [] else [Delivered(d, docs[d])]) + Live(docs, del, d + 1)
  }

  /** IterateDocs with a callback that keeps what it is given; a read that fails stops it. */
  method IterateDocs(z: Docstore.Zstd, seg: bytes, tableOff: nat, hc: Hotcache, del: set<u32>, ghost docs: seq<bytes>)
    returns (r: Option<seq<Delivered>>)
    requires tableOff <= |seg|
    ensures StoresDocs(z, seg, tableOff, hc, docs) ==> r == Some(Live(docs, del, 0))
  {
    var dsIdx := Docstore.DecodeIndex(hc.docstoreIdx);
    if dsIdx.None? {
      return None;
    }
    var blocks: seq<bytes> := [];
    for i := 0 to hc.numBlocks
      invariant FetchBlocks(seg, tableOff, i, hc.numBlocks) == Some(blocks)
    {
      var b := Docstore.GetDocBlock(seg, tableOff, i, hc.numBlocks);
      if b.None? {
        FetchFails(seg, tableOff, i + 1, hc.numBlocks, hc.numBlocks);
        return None;
      }
      blocks := blocks + [b.value];
    }
    r := ReadEachDoc(z, blocks, dsIdx.value, hc.docCount, del, docs);
  }

  lemma {:induction false} FetchFails(seg: bytes, tableOff: nat, i: nat, n: nat, numBlocks: nat)
    requires tableOff <= |seg| && i <= n && FetchBlocks(seg, tableOff, i, numBlocks).None?
    ensures FetchBlocks(seg, tableOff, n, numBlocks).None?
    decreases n
  {
    if i < n {
      FetchFails(seg, tableOff, i, n - 1, numBlocks);
    }
  }

  method ReadEachDoc(z: Docstore.Zstd, blocks: seq<bytes>, dsIdx: seq<Docstore.BlockEntry>, docCount: u32,
                     del: set<u32>, ghost docs: seq<bytes>)
    returns (r: Option<seq<Delivered>>)
    ensures Docstore.Readable(z, blocks, dsIdx, docs) && docCount == |docs| ==> r == Some(Live(docs, del, 0))
  {
    var out: seq<Delivered> := [];
    ghost var good := Docstore.Readable(z, blocks, dsIdx, docs) && docCount == |docs|;
    var docID: nat := 0;
    while docID < docCount
      invariant docID <= docCount
      invariant good ==> out + Live(docs, del, docID) == Live(docs, del, 0)
    {
      if docID !in del && docID < |dsIdx| {
        var raw := Docstore.Get(z, blocks, dsIdx[docID]);
        if raw.None? {
          return None;
        }
        if good {
          Assoc(out, [Delivered(docID, raw.value)], Live(docs, del, docID + 1));
        }
        out := out + [Delivered(docID, raw.value)];
      } else if good {
        NothingPlus(Live(docs, del, docID + 1));
      }
      docID := docID + 1;
    }
    PlusNothing(out);
    return Some(out);
  }
}
