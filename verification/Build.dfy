/** segment.Build: from accumulators and a document store to the bytes of a segment and its hotcache. */
module Build {
  import opened Bytes
  import opened Sequences
  import opened Accumulator
  import opened Positions
  import opened Hotcache
  import opened Terms
  import opened Segment
  import Docstore
  import Lex

  datatype Result = Result(seg: bytes, hotcache: bytes, docstoreOffset: nat)

  /** The accumulators of the columns, in order. */
  ghost predicate Accumulates(fields: seq<FieldAccumulator>, cols: seq<Column>)
    reads fields
  {
    && |fields| == |cols| && DistinctNames(cols)
    && forall i | 0 <= i < |fields| ::
         && fields[i].Valid() && cols[i] == Column(fields[i].name, fields[i].docs)
         && Measures(fields[i].doclens, fields[i].docs)
  }

  // ----- Postings and positions of every field -----

  /** Column j has its run of records, and the records of its name are that run. */
  ghost predicate ColumnWritten(b: Bitmaps, col: Column, dict: seq<string>, run: seq<TermRecord>,
                                rs: seq<TermRecord>, post: bytes, pos: bytes)
  {
    Small(col.docs) && FieldWritten(b, col.name, col.docs, dict, run, post, pos) && Of(rs, col.name) == run
  }

  ghost predicate ColumnsWritten(b: Bitmaps, cols: seq<Column>, dicts: seq<seq<string>>, runs: seq<seq<TermRecord>>,
                                 rs: seq<TermRecord>, post: bytes, pos: bytes)
  {
    && |dicts| == |runs| <= |cols|
    && (forall j | 0 <= j < |dicts| :: ColumnWritten(b, cols[j], dicts[j], runs[j], rs, post, pos))
    && (forall j | |dicts| <= j < |cols| :: Of(rs, cols[j].name) == [])
  }

  lemma NextColumn(b: Bitmaps, cols: seq<Column>, dicts: seq<seq<string>>, runs: seq<seq<TermRecord>>,
                   rs: seq<TermRecord>, post: bytes, pos: bytes,
                   dict: seq<string>, run: seq<TermRecord>, post': bytes, pos': bytes)
    requires ColumnsWritten(b, cols, dicts, runs, rs, post, pos) && DistinctNames(cols) && |dicts| < |cols|
    requires post <= post' && pos <= pos' && Small(cols[|dicts|].docs)
    requires FieldWritten(b, cols[|dicts|].name, cols[|dicts|].docs, dict, run, post', pos')
    ensures ColumnsWritten(b, cols, dicts + [dict], runs + [run], rs + run, post', pos')
  {
    var n := |dicts|;
    forall j | 0 <= j < |cols|
      ensures j < n ==> ColumnWritten(b, cols[j], dicts[j], runs[j], rs + run, post', pos')
      ensures j == n ==> ColumnWritten(b, cols[j], dict, run, rs + run, post', pos')
      ensures j > n ==> Of(rs + run, cols[j].name) == []
    {
      OfRun(rs, run, cols[n].name, cols[j].name);
      if j < n {
        PlusNothing(runs[j]);
        RecordsStay(b, cols[j].name, cols[j].docs, dicts[j], runs[j], post, pos, post', pos');
      } else if j == n {
        NothingPlus(run);
      }
    }
  }

  method WriteColumns(b: Bitmaps, fields: seq<FieldAccumulator>, ghost cols: seq<Column>)
    returns (rs: seq<TermRecord>, post: bytes, pos: bytes,
             ghost dicts: seq<seq<string>>, ghost runs: seq<seq<TermRecord>>)
    requires Accumulates(fields, cols)
    ensures |dicts| == |cols| && ColumnsWritten(b, cols, dicts, runs, rs, post, pos)
  {
    rs, post, pos, dicts, runs := [], [], [], [], [];
    for i := 0 to |fields|
      invariant |dicts| == i && ColumnsWritten(b, cols, dicts, runs, rs, post, pos)
    {
      var fa := fields[i];
      var terms, run, post', pos' := WriteField(b, fa.name, fa.postings, fa.positions, fa.docs, post, pos);
      NextColumn(b, cols, dicts, runs, rs, post, pos, terms, run, post', pos');
      rs, post, pos, dicts, runs := rs + run, post', pos', dicts + [terms], runs + [run];
    }
  }

  // ----- Dictionaries -----

  /** Every key is greater than the one before it. */
  ghost predicate Ascends(terms: seq<string>) {
    forall j | 0 < j < |terms| :: Lex.Less(terms[j - 1], terms[j])
  }

  /** The dictionary builder refuses keys that do not ascend. */
  method BuildDictionary(c: Texts, terms: seq<string>) returns (r: Option<bytes>)
    ensures r == if Ascends(terms) then Some(c.fst(terms)) else None
    ensures Lex.StrictlySorted(terms) ==> r.Some?
  {
    for j := 0 to |terms|
      invariant forall i | 0 < i < j :: Lex.Less(terms[i - 1], terms[i])
    {
      if j > 0 && !Lex.Less(terms[j - 1], terms[j]) {
        return None;
      }
    }
    return Some(c.fst(terms));
  }

  method BuildInputs(c: Codecs, fields: seq<FieldAccumulator>, fg: map<string, Group>)
    returns (r: Option<seq<FieldInput>>)
    requires forall i | 0 <= i < |fields| :: Lex.StrictlySorted(GroupOf(fg, fields[i].name).terms)
    ensures r.Some? && |r.value| == |fields|
    ensures forall i | 0 <= i < |fields| ::
              var g := GroupOf(fg, fields[i].name);
              r.value[i] == FieldInput(fields[i].name, c.texts.fst(g.terms), g.offsets, fields[i].doclens,
                                       c.mean(fields[i].doclens))
  {
    var inputs: seq<FieldInput> := [];
    for i := 0 to |fields|
      invariant |inputs| == i
      invariant forall j | 0 <= j < i ::
                  var g := GroupOf(fg, fields[j].name);
                  inputs[j] == FieldInput(fields[j].name, c.texts.fst(g.terms), g.offsets, fields[j].doclens,
                                          c.mean(fields[j].doclens))
    {
      var fa := fields[i];
      var g := GroupOf(fg, fa.name);
      var fst := BuildDictionary(c.texts, g.terms);
      if fst.None? {
        return None;
      }
      inputs := inputs + [FieldInput(fa.name, fst.value, g.offsets, fa.doclens, c.mean(fa.doclens))];
    }
    return Some(inputs);
  }

  // ----- The segment -----

  /** The lengths of the first n fields, each list behind its own length. */
  ghost function DoclenBytes(fields: seq<FieldAccumulator>, n: nat): bytes
    requires n <= |fields|
    reads fields
  {
    if n == 0 then []
    else DoclenBytes(fields, n - 1) + PutU32(Low32(|fields[n - 1].doclens|)) + Laid(PutU32, fields[n - 1].doclens)
  }

  method WriteDoclens(fields: seq<FieldAccumulator>) returns (buf: bytes)
    ensures buf == DoclenBytes(fields, |fields|)
  {
    buf := [];
    for i := 0 to |fields|
      invariant buf == DoclenBytes(fields, i)
    {
      var dl := Lay(PutU32, fields[i].doclens);
      buf := buf + PutU32(Low32(|fields[i].doclens|)) + dl;
    }
  }

  /** The sections in their order, from offset 8 on. */
  function Layout(post: bytes, pos: bytes, ds: bytes, rest: bytes): bytes {
    (SEGMENT_MAGIC + PutU32(1)) + (post + (pos + (ds + rest)))
  }

  lemma InLayout(post: bytes, pos: bytes, ds: bytes, rest: bytes)
    ensures At(Layout(post, pos, ds, rest), 8, post)
    ensures At(Layout(post, pos, ds, rest), 8 + |post|, pos)
    ensures At(Layout(post, pos, ds, rest), 8 + |post| + |pos|, ds)
  {
    var head := SEGMENT_MAGIC + PutU32(1);
    assert |head| == 8;
    BehindHead(head, post, pos, ds, rest);
  }

  lemma BehindHead(head: bytes, a: bytes, b: bytes, c: bytes, rest: bytes)
    ensures var s := head + (a + (b + (c + rest)));
            At(s, |head|, a) && At(s, |head| + |a|, b) && At(s, |head| + |a| + |b|, c)
  {
    var third := c + rest;
    var s := head + (a + (b + third));
    assert At(s, |head|, a) by {
      OneBehind(head, a, b + third);
    }
    assert At(s, |head| + |a|, b) by {
      TwoBehind(head, a, b, third);
    }
    assert At(s, |head| + |a| + |b|, c) by {
      TwoBehind(head, a, b, third);
      AtSplits(s, |head| + |a| + |b|, c, rest);
    }
  }

  lemma OneBehind(head: bytes, a: bytes, rest: bytes)
    ensures At(head + (a + rest), |head|, a) && At(head + (a + rest), |head| + |a|, rest)
  {
    AtLast(head, a + rest);
    AtSplits(head + (a + rest), |head|, a, rest);
  }

  lemma TwoBehind(head: bytes, a: bytes, b: bytes, rest: bytes)
    ensures var s := head + (a + (b + rest));
            At(s, |head| + |a|, b) && At(s, |head| + |a| + |b|, rest)
  {
    OneBehind(head, a, b + rest);
    AtSplits(head + (a + (b + rest)), |head| + |a|, b, rest);
  }

  lemma InOrder(head: bytes, post: bytes, pos: bytes, ds: bytes, dl: bytes, footer: bytes)
    ensures head + post + pos + ds + dl + footer == head + (post + (pos + (ds + (dl + footer))))
  {
  }

  /** A term written in the sections is served by the segment. */
  lemma TermServed(b: Bitmaps, docs: seq<seq<string>>, t: string, r: TermRecord, post: bytes, pos: bytes,
                   seg: bytes, posBase: nat)
    requires LosslessBitmaps(b) && Small(docs) && Written(b, Placed(docs, t), |docs|, r, post, pos)
    requires At(seg, 8, post) && At(seg, posBase, pos) && |seg| < 0x1_0000_0000_0000_0000
    ensures Serves(b, seg, Absolute(r, 8, posBase), Placed(docs, t))
  {
    var m := Placed(docs, t);
    AtWithin(seg, 8, post, r.postOff, b.ser(m.Keys));
    AtWithin(seg, posBase, pos, r.posOff, AllBytes(Entries(m, |docs|)));
    forall d <- m
      ensures |m[d]| < 0x1_0000_0000
    {
      OccurrencesFew(docs[d], t);
    }
    RangesServe(b, seg, Absolute(r, 8, posBase), m, |docs|);
  }

  lemma {:induction false} OccurrencesFew(ts: seq<string>, t: string)
    requires |ts| < 0x1_0000_0000
    ensures |Occurrences(ts, t)| <= |ts|
  {
    if ts != [] {
      OccurrencesFew(ts[..|ts| - 1], t);
    }
  }

  lemma ColumnIndexed(b: Bitmaps, col: Column, dict: seq<string>, run: seq<TermRecord>, rs: seq<TermRecord>,
                      post: bytes, pos: bytes, seg: bytes, posBase: nat, g: Group, f: FieldHotcache)
    requires LosslessBitmaps(b) && ColumnWritten(b, col, dict, run, rs, post, pos)
    requires At(seg, 8, post) && At(seg, posBase, pos) && |seg| < 0x1_0000_0000_0000_0000
    requires Gathers(g, run, 8, posBase)
    requires f.name == col.name && f.terms == g.terms && f.table == g.offsets
    ensures g.terms == dict && Indexed(b, seg, f, col)
  {
    assert g.terms == dict;
    forall j | 0 <= j < |dict|
      ensures Serves(b, seg, g.offsets[j], Placed(col.docs, dict[j]))
    {
      TermServed(b, col.docs, dict[j], run[j], post, pos, seg, posBase);
    }
  }

  /** Every loaded field answers for its column. */
  lemma AllIndexed(c: Codecs, cols: seq<Column>, dicts: seq<seq<string>>, runs: seq<seq<TermRecord>>,
                   rs: seq<TermRecord>, post: bytes, pos: bytes, seg: bytes, posBase: nat,
                   fg: map<string, Group>, inputs: seq<FieldInput>, hc: Hotcache)
    requires Lossless(c) && DistinctNames(cols) && |dicts| == |cols| == |inputs|
    requires ColumnsWritten(c.bitmaps, cols, dicts, runs, rs, post, pos)
    requires At(seg, 8, post) && At(seg, posBase, pos) && |seg| < 0x1_0000_0000_0000_0000
    requires forall name :: Gathers(GroupOf(fg, name), Of(rs, name), 8, posBase)
    requires forall i | 0 <= i < |cols| ::
               inputs[i].name == cols[i].name && inputs[i].offsets == GroupOf(fg, cols[i].name).offsets
    requires hc.fields == AllLoaded(inputs, dicts) && forall i | 0 <= i < |cols| :: |cols[i].docs| == hc.docCount
    ensures Represents(c.bitmaps, seg, hc, cols)
  {
    forall i | 0 <= i < |cols|
      ensures Indexed(c.bitmaps, seg, hc.fields[i], cols[i])
    {
      var g := GroupOf(fg, cols[i].name);
      assert ColumnWritten(c.bitmaps, cols[i], dicts[i], runs[i], rs, post, pos);
      LoadedAt(inputs, dicts, i);
      SameTerms(c.bitmaps, cols[i], dicts[i], runs[i], rs, post, pos, posBase, g);
      ColumnIndexed(c.bitmaps, cols[i], dicts[i], runs[i], rs, post, pos, seg, posBase, g, hc.fields[i]);
    }
  }

  /** The loaded lengths are the token counts of the columns, next to their mean. */
  ghost predicate AllMeasured(mean: seq<u32> -> u32, hc: Hotcache, cols: seq<Column>) {
    && |hc.fields| == |cols|
    && forall i | 0 <= i < |cols| ::
         && Measures(hc.fields[i].doclens, cols[i].docs)
         && hc.fields[i].avg == mean(hc.fields[i].doclens)
  }

  lemma LengthsLoaded(mean: seq<u32> -> u32, cols: seq<Column>, dicts: seq<seq<string>>, inputs: seq<FieldInput>,
                      hc: Hotcache)
    requires |dicts| == |cols| == |inputs| && hc.fields == AllLoaded(inputs, dicts)
    requires forall i | 0 <= i < |cols| ::
               Measures(inputs[i].doclens, cols[i].docs) && inputs[i].avg == mean(inputs[i].doclens)
    ensures AllMeasured(mean, hc, cols)
  {
    forall i | 0 <= i < |cols|
      ensures hc.fields[i] == Loaded(inputs[i], dicts[i])
    {
      LoadedAt(inputs, dicts, i);
    }
  }

  lemma SameTerms(b: Bitmaps, col: Column, dict: seq<string>, run: seq<TermRecord>, rs: seq<TermRecord>,
                  post: bytes, pos: bytes, posBase: nat, g: Group)
    requires ColumnWritten(b, col, dict, run, rs, post, pos) && Gathers(g, run, 8, posBase)
    ensures g.terms == dict
  {
  }

  /** The bytes of the segment, with the offsets of its second and third sections. */
  method Assemble(c: Codecs, postBuf: bytes, posBuf: bytes, dsBuf: bytes, doclenBuf: bytes, docCount: u32)
    returns (seg: bytes, posBase: nat, dsBase: nat)
    ensures At(seg, 8, postBuf) && At(seg, posBase, posBuf) && At(seg, dsBase, dsBuf)
  {
    seg := SEGMENT_MAGIC + PutU32(1);
    var postBase := |seg|;
    seg := seg + postBuf;
    posBase := |seg|;
    seg := seg + posBuf;
    dsBase := |seg|;
    seg := seg + dsBuf;
    var dlBase := |seg|;
    seg := seg + doclenBuf;
    var footer := c.footer([postBase, |postBuf|, posBase, |posBuf|, dsBase, |dsBuf|, dlBase, |doclenBuf|, docCount]);
    seg := seg + footer;
    InOrder(SEGMENT_MAGIC + PutU32(1), postBuf, posBuf, dsBuf, doclenBuf, footer);
    InLayout(postBuf, posBuf, dsBuf, doclenBuf + footer);
  }

  /** Groups the records and builds the dictionaries; no insertion is out of order. */
  method WriteHotcache(c: Codecs, fields: seq<FieldAccumulator>, rs: seq<TermRecord>, posBase: nat,
                       dsIdxBytes: bytes, docCount: u32, numBlocks: u32,
                       ghost cols: seq<Column>, ghost dicts: seq<seq<string>>, ghost runs: seq<seq<TermRecord>>,
                       ghost post: bytes, ghost pos: bytes)
    returns (r: Option<bytes>, ghost fg: map<string, Group>, ghost inputs: seq<FieldInput>)
    requires Lossless(c) && Accumulates(fields, cols) && |dicts| == |cols|
    requires ColumnsWritten(c.bitmaps, cols, dicts, runs, rs, post, pos)
    ensures r.Some? && |inputs| == |cols|
    ensures forall name :: Gathers(GroupOf(fg, name), Of(rs, name), 8, posBase)
    ensures forall i | 0 <= i < |cols| ::
              && inputs[i].name == cols[i].name && inputs[i].offsets == GroupOf(fg, cols[i].name).offsets
              && Measures(inputs[i].doclens, cols[i].docs) && inputs[i].avg == c.mean(inputs[i].doclens)
    ensures |r.value| < 0x1_0000_0000 ==>
              ReadHotcache(c.texts, r.value)
              == Some(Hotcache(AllLoaded(inputs, dicts), dsIdxBytes, docCount, numBlocks))
  {
    var groups := GroupByField(rs, 8, posBase);
    forall i | 0 <= i < |cols|
      ensures GroupOf(groups, cols[i].name).terms == dicts[i] && Lex.StrictlySorted(dicts[i])
    {
      assert ColumnWritten(c.bitmaps, cols[i], dicts[i], runs[i], rs, post, pos);
      SameTerms(c.bitmaps, cols[i], dicts[i], runs[i], rs, post, pos, posBase, GroupOf(groups, cols[i].name));
    }
    var ins := BuildInputs(c, fields, groups);
    fg, inputs := groups, ins.value;
    var hcBytes := EncodeHotcache(c.texts, ins.value, dsIdxBytes, docCount, numBlocks);
    if |hcBytes| < 0x1_0000_0000 {
      HotcacheRoundTrip(c.texts, inputs, dicts, dsIdxBytes, docCount, numBlocks);
    }
    return Some(hcBytes), fg, inputs;
  }

  /** Every term and every document can be read back, if the sizes fit their integers. */
  method Build(c: Codecs, fields: seq<FieldAccumulator>, ghost cols: seq<Column>, ds: Docstore.Writer, docCount: u32)
    returns (r: Option<Result>)
    requires Lossless(c) && Accumulates(fields, cols) && forall i | 0 <= i < |cols| :: |cols[i].docs| == docCount
    requires ds.Valid() && ds.z == c.zstd && |ds.docs| == docCount && |ds.blocks| < 0xffff_ffff
    modifies ds
    ensures r.Some? && Faithful(c, r.value, cols, old(ds.docs))
  {
    var dsBlocks, dsIdx := ds.Finalize();
    var rs, postBuf, posBuf, dicts, runs := WriteColumns(c.bitmaps, fields, cols);
    var dsBuf := Docstore.WriteSection(dsBlocks);
    var doclenBuf := WriteDoclens(fields);
    var seg, posBase, dsBase := Assemble(c, postBuf, posBuf, dsBuf, doclenBuf, docCount);
    var dsIdxBytes := Docstore.EncodeIndex(dsIdx);
    var hcBytes, fg, inputs := WriteHotcache(c, fields, rs, posBase, dsIdxBytes, docCount, |dsBlocks|,
                                             cols, dicts, runs, postBuf, posBuf);
    if |seg| < 0x1_0000_0000_0000_0000 && |hcBytes.value| < 0x1_0000_0000 {
      ghost var hc := ReadHotcache(c.texts, hcBytes.value).value;
      AllIndexed(c, cols, dicts, runs, rs, postBuf, posBuf, seg, posBase, fg, inputs, hc);
      LengthsLoaded(c.mean, cols, dicts, inputs, hc);
      DocsStored(c.zstd, seg, dsBase, hc, dsBlocks, dsIdx, ds.docs);
    }
    return Some(Result(seg, hcBytes.value, dsBase));
  }

  /** A built segment, loaded again, answers for the columns, knows their lengths and gives back the documents. */
  ghost predicate Faithful(c: Codecs, r: Result, cols: seq<Column>, docs: seq<bytes>) {
    |r.seg| < 0x1_0000_0000_0000_0000 && |r.hotcache| < 0x1_0000_0000 ==>
      var hc := ReadHotcache(c.texts, r.hotcache);
      && hc.Some? && Represents(c.bitmaps, r.seg, hc.value, cols) && AllMeasured(c.mean, hc.value, cols)
      && StoresDocs(c.zstd, r.seg, r.docstoreOffset, hc.value, docs)
  }
}
