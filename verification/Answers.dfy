/** From JSON documents to query answers, through a built and reloaded segment. */
module Answers {
  import opened Bytes
  import opened Hotcache
  import opened Segment
  import opened Query
  import opened Lookup
  import opened Eval
  import M = Memtable
  import B = Build

  /** One document's indexed fields, from its JSON alone. */
  ghost function DocRow(cfg: M.Config, schema: seq<M.FieldDef>, raw: bytes): Row {
    if schema == [] then []
    else
      var last := schema[|schema| - 1];
      DocRow(cfg, schema[..|schema| - 1], raw)
      + if last.kind.I64? then [] else [Cell(last.name, M.Cell(cfg, last, raw))]
  }

  lemma {:induction false} ColumnsAreRows(cfg: M.Config, schema: seq<M.FieldDef>, docs: seq<bytes>, d: nat)
    requires d < |docs|
    ensures var cols, row := M.Columns(cfg, schema, docs), DocRow(cfg, schema, docs[d]);
            |cols| == |row| && forall i | 0 <= i < |cols| ::
              |cols[i].docs| == |docs| && row[i] == Cell(cols[i].name, cols[i].docs[d])
  {
    if schema != [] {
      ColumnsAreRows(cfg, schema[..|schema| - 1], docs, d);
    }
  }

  /** The rows a segment answers for are those of the documents. */
  lemma RowsOfDocs(cfg: M.Config, schema: seq<M.FieldDef>, docs: seq<bytes>, d: nat)
    requires Rectangular(M.Columns(cfg, schema, docs), |docs|) && d < |docs|
    ensures Rows(M.Columns(cfg, schema, docs), |docs|)[d] == DocRow(cfg, schema, docs[d])
  {
    ColumnsAreRows(cfg, schema, docs, d);
    RowAt(M.Columns(cfg, schema, docs), |docs|, d);
  }

  /** The documents whose JSON satisfies a query. */
  ghost function Satisfying(cfg: M.Config, schema: seq<M.FieldDef>, docs: seq<bytes>, q: Node): set<u32> {
    set d: u32 | d < |docs| && Matches(WordsOf(cfg.an), q, DocRow(cfg, schema, docs[d]))
  }

  /** A segment built from a memtable and loaded again gives, for every query, exactly the documents it is true of. */
  lemma BuiltSegmentAnswers(c: Codecs, cfg: M.Config, schema: seq<M.FieldDef>, docs: seq<bytes>, r: B.Result, q: Node)
    requires B.Faithful(c, r, M.Columns(cfg, schema, docs), docs)
    requires |r.seg| < 0x1_0000_0000_0000_0000 && |r.hotcache| < 0x1_0000_0000
    ensures ReadHotcache(c.texts, r.hotcache).Some?
    ensures var s := Source(cfg.an, c.bitmaps, r.seg, ReadHotcache(c.texts, r.hotcache).value);
            var cols := M.Columns(cfg, schema, docs);
            && Rectangular(cols, |docs|) && Opened(s, View(cols, WordsOf(cfg.an), Rows(cols, |docs|)))
            && Answer(View(cols, WordsOf(cfg.an), Rows(cols, |docs|)), q) == Satisfying(cfg, schema, docs, q)
  {
    var hc := ReadHotcache(c.texts, r.hotcache).value;
    var cols := M.Columns(cfg, schema, docs);
    Represented(c.bitmaps, r.seg, hc, cols);
    var words, rows := WordsOf(cfg.an), Rows(cols, |docs|);
    forall d: u32
      ensures d in Sat(words, q, rows) <==> d in Satisfying(cfg, schema, docs, q)
    {
      InSat(words, q, rows, d);
      if d < |docs| {
        RowsOfDocs(cfg, schema, docs, d);
      }
    }
  }
}
