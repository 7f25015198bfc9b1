/** Segments as the bytes they are stored as, read by merges and by deletes. */
module Files {
  import opened Bytes
  import opened Sequences
  import opened Manifest
  import opened Visibility
  import opened Catalog
  import opened Query
  import opened CatalogAnswers
  import Hotcache
  import Segment
  import Lookup
  import Eval
  import Answers
  import B = Build
  import M = Memtable

  /** The file of a segment was built from these documents and is small enough to be read back. */
  ghost predicate BuiltFrom(c: Segment.Codecs, cfg: M.Config, schema: seq<M.FieldDef>, file: B.Result, docs: seq<Doc>) {
    && |docs| < 0x1_0000_0000 && |file.seg| < 0x1_0000_0000_0000_0000 && |file.hotcache| < 0x1_0000_0000
    && B.Faithful(c, file, M.Columns(cfg, schema, docs), docs)
  }

  /** Every segment of a list has the file of its documents. */
  ghost predicate AllBuilt(c: Segment.Codecs, cfg: M.Config, schema: seq<M.FieldDef>, files: map<string, B.Result>,
                           st: Store, ms: seq<SegmentMeta>)
  {
    forall i | 0 <= i < |ms| ::
      ms[i].id in files && BuiltFrom(c, cfg, schema, files[ms[i].id], Content(st, ms[i].id))
  }

  /** Opens a segment and evaluates a query on it: the live documents that satisfy it, or an error. */
  method MatchingDocs(c: Segment.Codecs, cfg: M.Config, file: B.Result, q: Node, del: set<u32>,
                      ghost schema: seq<M.FieldDef>, ghost docs: seq<Doc>)
    returns (hits: Option<set<u32>>)
    requires BuiltFrom(c, cfg, schema, file, docs)
    ensures hits.None? <==> HasUnknown(q)
    ensures hits.Some? ==> hits.value == HitsFrom(docs, del, TestOf(cfg, schema, q), 0)
  {
    var hc := Hotcache.DecodeHotcache(c.texts, file.hotcache);
    Answers.BuiltSegmentAnswers(c, cfg, schema, docs, file, q);
    ghost var cols := M.Columns(cfg, schema, docs);
    var found := Eval.SearchDocIDs(Eval.Source(cfg.an, c.bitmaps, file.seg, hc.value), q, del,
                                   Eval.View(cols, WordsOf(cfg.an), Lookup.Rows(cols, |docs|)));
    if found == null {
      return None;
    }
    HitsAreAnswers(cfg, schema, q, docs, del);
    return Some(found.elems);
  }

  method RawsOf(ds: seq<Segment.Delivered>) returns (raws: seq<Doc>)
    ensures raws == Raws(ds)
  {
    raws := [];
    NothingPlus(Raws(ds));
    for i := 0 to |ds|
      invariant raws + Raws(ds[i..]) == Raws(ds)
    {
      assert ds[i..][1..] == ds[i + 1..];
      Assoc(raws, [ds[i].raw], Raws(ds[i + 1..]));
      raws := raws + [ds[i].raw];
    }
    PlusNothing(raws);
  }

  /** Opens a segment and iterates over its documents: exactly the live ones, in order. */
  method LiveOf(c: Segment.Codecs, file: B.Result, del: set<u32>,
                ghost cfg: M.Config, ghost schema: seq<M.FieldDef>, ghost docs: seq<Doc>)
    returns (live: seq<Doc>)
    requires BuiltFrom(c, cfg, schema, file, docs)
    ensures live == LiveDocs(docs, del)
  {
    var hc := Hotcache.DecodeHotcache(c.texts, file.hotcache);
    var delivered := Segment.IterateDocs(c.zstd, file.seg, file.docstoreOffset, hc.value, del, docs);
    IteratedIsLive(docs, del, 0);
    live := RawsOf(delivered.value);
  }
}
