/** The memtable: from JSON documents to the columns a segment is built from. */
module Memtable {
  import opened Bytes
  import opened Sequences
  import opened Analyze
  import opened Accumulator
  import Segment
  import B = Build
  import Docstore

  datatype FieldType = Text | Keyword | I64
  datatype FieldDef = FieldDef(name: string, kind: FieldType)

  /** The analyzer and the JSON parser, which gives the string members of a document. */
  datatype Config = Config(an: Analyzer, parse: bytes -> Option<map<string, string>>)

  /** What one document has in one field. */
  ghost function Cell(cfg: Config, f: FieldDef, raw: bytes): seq<string> {
    var doc := cfg.parse(raw);
    if doc.None? || f.name !in doc.value then []
    else
      match f.kind
      case Text => TermsOf(Tokens(cfg.an, doc.value[f.name]))
      case Keyword => [cfg.an.lower(doc.value[f.name])]
      case I64 => []
  }

  ghost function Cells(cfg: Config, f: FieldDef, docs: seq<bytes>): (r: seq<seq<string>>)
    ensures |r| == |docs| && forall d | 0 <= d < |docs| :: r[d] == Cell(cfg, f, docs[d])
  {
    seq(|docs|, d requires 0 <= d < |docs| => Cell(cfg, f, docs[d]))
  }

  /** The columns of the text and keyword fields, in schema order. */
  ghost function Columns(cfg: Config, schema: seq<FieldDef>, docs: seq<bytes>): seq<Segment.Column> {
    if schema == [] then []
    else
      var last := schema[|schema| - 1];
      Columns(cfg, schema[..|schema| - 1], docs)
      + if last.kind.I64? then [] else [Segment.Column(last.name, Cells(cfg, last, docs))]
  }

  /** Validate rejects schemas that name a field twice. */
  ghost predicate ValidSchema(schema: seq<FieldDef>) {
    forall i, j | 0 <= i < j < |schema| :: schema[i].name != schema[j].name
  }

  ghost predicate Inverted(f: FieldDef) {
    !f.kind.I64?
  }

  /** The names of the fields that have postings, among the first n. */
  ghost function InvertedNames(schema: seq<FieldDef>, n: nat): set<string>
    requires n <= |schema|
  {
    if n == 0 then {} else InvertedNames(schema, n - 1) + if Inverted(schema[n - 1]) then {schema[n - 1].name} else {}
  }

  lemma {:induction false} NamedOnce(schema: seq<FieldDef>, n: nat, i: nat)
    requires ValidSchema(schema) && n <= |schema| && i < |schema|
    ensures schema[i].name in InvertedNames(schema, n) <==> i < n && Inverted(schema[i])
  {
    if n > 0 {
      NamedOnce(schema, n - 1, i);
    }
  }

  /** Adds the tokens of one document to its field. */
  method AddTokens(fa: FieldAccumulator, docID: u32, tokens: seq<Token>)
    requires fa.Valid() && fa.docs != [] && docID == |fa.docs| - 1 && fa.docs[docID] == []
    requires |tokens| < 0x1_0000_0000 && forall k | 0 <= k < |tokens| :: tokens[k].position == k
    requires Measures(fa.doclens, fa.docs)
    modifies fa
    ensures fa.Valid() && fa.docs == old(fa.docs)[docID := TermsOf(tokens)] && Measures(fa.doclens, fa.docs)
  {
    ghost var terms := TermsOf(tokens);
    for k := 0 to |tokens|
      invariant fa.Valid() && fa.docs == old(fa.docs)[docID := terms[..k]] && fa.doclens == old(fa.doclens)
    {
      NextPrefix(terms, k);
      fa.AddToken(docID, tokens[k].term, tokens[k].position);
    }
    Whole(terms);
    fa.SetDoclen(docID, |tokens|);
  }

  /** An accumulator that holds exactly its field of the documents, and how many tokens each has there. */
  ghost predicate Covers(cfg: Config, f: FieldDef, fa: FieldAccumulator, docs: seq<bytes>)
    reads fa
  {
    fa.Valid() && fa.docs == Cells(cfg, f, docs) && Measures(fa.doclens, fa.docs)
  }

  method NewAccumulators(schema: seq<FieldDef>) returns (made: map<string, FieldAccumulator>)
    ensures made.Keys == InvertedNames(schema, |schema|)
    ensures forall n <- made :: fresh(made[n]) && made[n].name == n && made[n].Empty()
  {
    made := map[];
    for i := 0 to |schema|
      invariant made.Keys == InvertedNames(schema, i)
      invariant forall n <- made :: fresh(made[n]) && made[n].name == n && made[n].Empty()
    {
      if schema[i].kind.Text? || schema[i].kind.Keyword? {
        var fa := new FieldAccumulator(schema[i].name);
        made := made[schema[i].name := fa];
      }
    }
  }

  class Memtable {
    const cfg: Config
    const schema: seq<FieldDef>
    const fields: map<string, FieldAccumulator>
    const ds: Docstore.Writer
    var docCount: u32
    var rawBytes: nat

    /** Every inverted field has its own accumulator. */
    ghost predicate Wired() {
      && ValidSchema(schema) && fields.Keys == InvertedNames(schema, |schema|)
      && forall n <- fields :: fields[n].name == n
    }

    ghost predicate Holds(i: nat, docs: seq<bytes>)
      reads if i < |schema| && schema[i].name in fields then {fields[schema[i].name]} else {}
      requires i < |schema|
    {
      schema[i].name in fields ==> Covers(cfg, schema[i], fields[schema[i].name], docs)
    }

    ghost predicate Valid()
      reads this, ds, fields.Values
    {
      && Wired() && ds.Valid() && docCount == |ds.docs|
      && forall i | 0 <= i < |schema| :: Holds(i, ds.docs)
    }

    constructor (cfg: Config, schema: seq<FieldDef>, z: Docstore.Zstd, blockSize: nat)
      requires ValidSchema(schema)
      ensures Valid() && this.cfg == cfg && this.schema == schema && ds.z == z && ds.docs == [] && docCount == 0
      ensures fresh(ds) && forall n <- fields :: fresh(fields[n])
    {
      var made := NewAccumulators(schema);
      this.cfg, this.schema, this.fields := cfg, schema, made;
      this.docCount, this.rawBytes := 0, 0;
      ds := new Docstore.Writer(z, blockSize);
    }

    /** One iteration over the schema; the field then covers the new document too. */
    method AddField(i: nat, docID: u32, doc: map<string, string>, ghost raw: bytes)
      requires i < |schema| && Wired() && Holds(i, ds.docs) && docID == |ds.docs| < 0xffff_ffff
      requires cfg.parse(raw) == Some(doc) && forall n <- doc :: |doc[n]| < 0x1_0000_0000
      modifies if schema[i].name in fields then {fields[schema[i].name]} else {}
      ensures Holds(i, ds.docs + [raw])
    {
      var f := schema[i];
      CellsNext(cfg, f, ds.docs, raw);
      NamedOnce(schema, |schema|, i);
      LastReplaced(Cells(cfg, f, ds.docs), Cell(cfg, f, raw));
      if f.name in fields {
        fields[f.name].NextDocument();
      }
      if f.name in doc {
        match f.kind {
          case Text =>
            var tokens := Tokenize(cfg.an, doc[f.name]);
            TokensFew(cfg.an, doc[f.name]);
            forall k | 0 <= k < |tokens|
              ensures tokens[k].position == k
            {
              TokensAreWords(cfg.an, doc[f.name], k);
            }
            AddTokens(fields[f.name], docID, tokens);
          case Keyword =>
            var term := cfg.an.lower(doc[f.name]);
            NothingPlus([term]);
            fields[f.name].AddToken(docID, term, 0);
            fields[f.name].SetDoclen(docID, 1);
          case I64 =>
        }
      }
    }

    lemma OwnAccumulators(i: nat)
      requires Wired() && i < |schema|
      ensures forall j | 0 <= j < |schema| && j != i && schema[i].name in fields && schema[j].name in fields ::
                fields[schema[i].name] != fields[schema[j].name]
    {
    }

    /** Invalid JSON changes nothing; otherwise every column and the document store gain the document. */
    method Add(rawJSON: bytes) returns (ok: bool)
      requires Valid() && docCount < 0xffff_ffff && |ds.blocks| < 0xffff_ffff
      requires |ds.curBuf| + 4 + |rawJSON| < 0x1_0000_0000
      requires var doc := cfg.parse(rawJSON); doc.Some? ==> forall n <- doc.value :: |doc.value[n]| < 0x1_0000_0000
      modifies this, ds, fields.Values
      ensures Valid() && (ok <==> cfg.parse(rawJSON).Some?)
      ensures ds.docs == old(ds.docs) + if ok then [rawJSON] else []
      ensures rawBytes == old(rawBytes) + if ok then |rawJSON| else 0
    {
      var v := cfg.parse(rawJSON);
      if v.None? {
        return false;
      }
      AddFields(docCount, v.value, rawJSON);
      ds.Add(rawJSON);
      docCount := docCount + 1;
      rawBytes := rawBytes + |rawJSON|;
      return true;
    }

    method AddFields(docID: u32, doc: map<string, string>, ghost raw: bytes)
      requires Valid() && docID == docCount < 0xffff_ffff
      requires cfg.parse(raw) == Some(doc) && forall n <- doc :: |doc[n]| < 0x1_0000_0000
      modifies fields.Values
      ensures forall i | 0 <= i < |schema| :: Holds(i, ds.docs + [raw])
    {
      ghost var docs := ds.docs;
      for i := 0 to |schema|
        invariant forall j | 0 <= j < i :: Holds(j, docs + [raw])
        invariant forall j | i <= j < |schema| :: Holds(j, docs)
      {
        OwnAccumulators(i);
        AddField(i, docID, doc, raw);
      }
    }

    /** The segment answers for the columns of the documents and gives the documents back. */
    method Build(c: Segment.Codecs) returns (r: Option<B.Result>)
      requires Valid() && Segment.Lossless(c) && ds.z == c.zstd && |ds.blocks| < 0xffff_ffff
      modifies ds
      ensures r.Some? && B.Faithful(c, r.value, Columns(cfg, schema, old(ds.docs)), old(ds.docs))
    {
      ghost var cols := Columns(cfg, schema, ds.docs);
      var fieldSlice := FieldSlice();
      r := B.Build(c, fieldSlice, cols, ds, docCount);
    }

    /** The accumulators in schema order. */
    method FieldSlice() returns (fs: seq<FieldAccumulator>)
      requires Valid()
      ensures B.Accumulates(fs, Columns(cfg, schema, ds.docs))
      ensures forall i | 0 <= i < |fs| :: |Columns(cfg, schema, ds.docs)[i].docs| == docCount
    {
      fs := [];
      for i := 0 to |schema|
        invariant |fs| == |Columns(cfg, schema[..i], ds.docs)|
        invariant forall k | 0 <= k < |fs| ::
                    && fs[k].Valid() && |fs[k].docs| == docCount && Measures(fs[k].doclens, fs[k].docs)
                    && Columns(cfg, schema[..i], ds.docs)[k] == Segment.Column(fs[k].name, fs[k].docs)
      {
        var f := schema[i];
        NamedOnce(schema, |schema|, i);
        assert Holds(i, ds.docs);
        assert schema[..i + 1][..i] == schema[..i];
        if f.name in fields {
          fs := fs + [fields[f.name]];
        }
      }
      Whole(schema);
      ColumnsDistinct(cfg, schema, |schema|, ds.docs);
    }
  }

  lemma {:induction false} ColumnsDistinct(cfg: Config, schema: seq<FieldDef>, n: nat, docs: seq<bytes>)
    requires ValidSchema(schema) && n <= |schema|
    ensures Segment.DistinctNames(Columns(cfg, schema[..n], docs))
    ensures forall k | 0 <= k < |Columns(cfg, schema[..n], docs)| ::
              exists j | 0 <= j < n :: Columns(cfg, schema[..n], docs)[k].name == schema[j].name
  {
    if n > 0 {
      ColumnsDistinct(cfg, schema, n - 1, docs);
      assert schema[..n][..n - 1] == schema[..n - 1];
      var before, now := Columns(cfg, schema[..n - 1], docs), Columns(cfg, schema[..n], docs);
      forall k | 0 <= k < |before|
        ensures before[k].name != schema[n - 1].name
      {
        var j :| 0 <= j < n - 1 && before[k].name == schema[j].name;
      }
      forall k | 0 <= k < |now|
        ensures exists j | 0 <= j < n :: now[k].name == schema[j].name
      {
        if k < |before| {
          var j :| 0 <= j < n - 1 && before[k].name == schema[j].name;
          assert now[k].name == schema[j].name;
        } else {
          assert now[k].name == schema[n - 1].name;
        }
      }
    }
  }

  lemma LastReplaced(cells: seq<seq<string>>, cell: seq<string>)
    ensures (cells + [[]])[|cells| := cell] == cells + [cell]
    ensures cell == [] ==> cells + [[]] == cells + [cell]
  {
  }

  lemma CellsNext(cfg: Config, f: FieldDef, docs: seq<bytes>, raw: bytes)
    ensures Cells(cfg, f, docs + [raw]) == Cells(cfg, f, docs) + [Cell(cfg, f, raw)]
  {
  }
}
