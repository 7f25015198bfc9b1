/** The hotcache: per field a term dictionary, the byte ranges of each term and the document lengths. */
module Hotcache {
  import opened Bytes
  import opened Sequences
  import opened Lex

  const MAGIC: bytes := [0x53, 0x33, 0x48, 0x43]

  datatype TermOffsets = TermOffsets(postOff: u64, postLen: u64, posOff: u64, posLen: u64)

  /** What EncodeHotcache is given for one field; the average is the bit pattern of a float32. */
  datatype FieldInput = FieldInput(name: string, fst: bytes, offsets: seq<TermOffsets>, doclens: seq<u32>, avg: u32)

  /** One loaded field. The dictionary maps its j-th term to j. */
  datatype FieldHotcache =
    FieldHotcache(name: string, terms: seq<string>, table: seq<TermOffsets>, doclens: seq<u32>, avg: u32)

  datatype Hotcache = Hotcache(fields: seq<FieldHotcache>, docstoreIdx: bytes, docCount: u32, numBlocks: u32)

  /** Strings as bytes, and the dictionary builder and loader. */
  datatype Texts = Texts(text: string -> bytes, untext: bytes -> string,
                         fst: seq<string> -> bytes, unfst: bytes -> Option<seq<string>>)

  ghost predicate LosslessTexts(c: Texts) {
    && (forall s: string {:trigger c.text(s)} :: c.untext(c.text(s)) == s)
    && (forall ts: seq<string> {:trigger c.fst(ts)} :: StrictlySorted(ts) ==> c.unfst(c.fst(ts)) == Some(ts))
  }

  // ----- Layout -----

  function PutOffsets(t: TermOffsets): bytes {
    PutU64(t.postOff) + (PutU64(t.postLen) + (PutU64(t.posOff) + PutU64(t.posLen)))
  }

  function GetOffsets(s: bytes): TermOffsets {
    if |s| < 32 then TermOffsets(0, 0, 0, 0)
    else TermOffsets(GetU64(s), GetU64(s[8..]), GetU64(s[16..]), GetU64(s[24..]))
  }

  function GetLength(s: bytes): u32 {
    if |s| < 4 then 0 else GetU32(s)
  }

  lemma OffsetsRoundTrip(t: TermOffsets)
    ensures |PutOffsets(t)| == 32 && GetOffsets(PutOffsets(t)) == t
  {
    var s := PutOffsets(t);
    var a, b, c, d := PutU64(t.postOff), PutU64(t.postLen), PutU64(t.posOff), PutU64(t.posLen);
    assert s[8..] == b + (c + d) && s[16..] == c + d && s[24..] == d + [];
    U64RoundTrip(t.postOff, b + (c + d));
    U64RoundTrip(t.postLen, c + d);
    U64RoundTrip(t.posOff, d);
    U64RoundTrip(t.posLen, []);
  }

  lemma TableRoundTrip(ts: seq<TermOffsets>)
    ensures Unlaid(GetOffsets, 32, Laid(PutOffsets, ts)) == ts
  {
    forall t: TermOffsets {:trigger PutOffsets(t)}
      ensures |PutOffsets(t)| == 32 && GetOffsets(PutOffsets(t)) == t
    {
      OffsetsRoundTrip(t);
    }
    LaidRoundTrip(PutOffsets, GetOffsets, 32, ts);
  }

  lemma DoclensRoundTrip(ds: seq<u32>)
    ensures Unlaid(GetLength, 4, Laid(PutU32, ds)) == ds
  {
    forall d: u32 {:trigger PutU32(d)}
      ensures |PutU32(d)| == 4 && GetLength(PutU32(d)) == d
    {
      U32RoundTrip(d, []);
      PlusNothing(PutU32(d));
    }
    LaidRoundTrip(PutU32, GetLength, 4, ds);
  }

  /** writeBlob: the length is truncated to 32 bits. */
  function BlobBytes(b: bytes): bytes {
    PutU32(Low32(|b|)) + b
  }

  function BlobsBytes(bs: seq<bytes>): bytes {
    if bs == [] then [] else BlobBytes(bs[0]) + BlobsBytes(bs[1..])
  }

  /** The four blobs of a field; the average length follows them. */
  function Parts(c: Texts, f: FieldInput): seq<bytes> {
    [c.text(f.name), f.fst, Laid(PutOffsets, f.offsets), Laid(PutU32, f.doclens)]
  }

  function FieldBytes(c: Texts, f: FieldInput): bytes {
    BlobsBytes(Parts(c, f)) + PutU32(f.avg)
  }

  function FieldsBytes(c: Texts, fs: seq<FieldInput>): bytes {
    if fs == [] then [] else FieldBytes(c, fs[0]) + FieldsBytes(c, fs[1..])
  }

  /** The magic, the version and three counts, before the rest. */
  function Headed(docCount: u32, numBlocks: u32, numFields: u32, rest: bytes): (s: bytes)
    ensures |s| == 20 + |rest|
  {
    MAGIC + (PutU32(1) + (PutU32(docCount) + (PutU32(numBlocks) + (PutU32(numFields) + rest))))
  }

  function HotcacheBytes(c: Texts, fs: seq<FieldInput>, idx: bytes, docCount: u32, numBlocks: u32): bytes {
    Headed(docCount, numBlocks, Low32(|fs|), BlobBytes(idx) + FieldsBytes(c, fs))
  }

  // ----- Reading at an offset; running off the end is a failure -----

  datatype Read<T> = Short | Read(value: T, next: nat)

  function ReadBlob(data: bytes, off: nat): Read<bytes> {
    if off + 4 > |data| then Short
    else
      var end := off + 4 + GetU32(data[off..]);
      if end > |data| then Short else Read(data[off + 4..end], end)
  }

  function ReadBlobs(data: bytes, off: nat, n: nat): (r: Read<seq<bytes>>)
    ensures r.Read? ==> |r.value| == n
    decreases n
  {
    if n == 0 then Read([], off)
    else
      match ReadBlob(data, off)
      case Short => Short
      case Read(b, next) =>
        match ReadBlobs(data, next, n - 1)
        case Short => Short
        case Read(bs, end) => Read([b] + bs, end)
  }

  function Assembled(c: Texts, parts: seq<bytes>, avg: u32): Option<FieldHotcache>
    requires |parts| == 4
  {
    match c.unfst(parts[1])
    case None => None
    case Some(terms) =>
      Some(FieldHotcache(c.untext(parts[0]), terms, Unlaid(GetOffsets, 32, parts[2]), Unlaid(GetLength, 4, parts[3]),
                         avg))
  }

  function ReadField(c: Texts, data: bytes, off: nat): Read<FieldHotcache> {
    var parts := ReadBlobs(data, off, 4);
    if parts.Short? || parts.next + 4 > |data| then Short
    else
      match Assembled(c, parts.value, GetU32(data[parts.next..]))
      case None => Short
      case Some(f) => Read(f, parts.next + 4)
  }

  function FieldReader(c: Texts, data: bytes): nat -> Read<FieldHotcache> {
    (off: nat) => ReadField(c, data, off)
  }

  /** n items read one after another, behind those already read. */
  function ReadEach<T>(read: nat -> Read<T>, got: seq<T>, off: nat, n: nat): Option<seq<T>>
    decreases n
  {
    if n == 0 then Some(got)
    else
      match read(off)
      case Short => None
      case Read(x, next) => ReadEach(read, got + [x], next, n - 1)
  }

  function ReadHotcache(c: Texts, data: bytes): Option<Hotcache> {
    if |data| < 20 || data[..4] != MAGIC then None
    else
      var idx := ReadBlob(data, 20);
      if idx.Short? then None
      else
        var fields := ReadEach(FieldReader(c, data), [], idx.next, GetU32(data[16..]));
        if fields.None? then None
        else Some(Hotcache(fields.value, idx.value, GetU32(data[8..]), GetU32(data[12..])))
  }

  // ----- Round trip -----

  /** What a field reads back as, given what its dictionary holds. */
  function Loaded(f: FieldInput, terms: seq<string>): FieldHotcache {
    FieldHotcache(f.name, terms, f.offsets, f.doclens, f.avg)
  }

  ghost predicate FieldFits(c: Texts, f: FieldInput, terms: seq<string>) {
    && StrictlySorted(terms) && f.fst == c.fst(terms)
    && |FieldBytes(c, f)| < 0x1_0000_0000
  }

  lemma BlobRoundTrip(data: bytes, off: nat, b: bytes)
    requires |b| < 0x1_0000_0000 && At(data, off, BlobBytes(b))
    ensures ReadBlob(data, off) == Read(b, off + |BlobBytes(b)|)
  {
    AtSplits(data, off, PutU32(|b|), b);
    U32At(data, off, |b|);
    AtSlice(data, off + 4, b);
  }

  lemma BlobThen(data: bytes, off: nat, b: bytes, rest: bytes)
    requires |b| < 0x1_0000_0000 && At(data, off, BlobBytes(b) + rest)
    ensures ReadBlob(data, off) == Read(b, off + |BlobBytes(b)|)
    ensures At(data, off + |BlobBytes(b)|, rest)
  {
    AtSplits(data, off, BlobBytes(b), rest);
    BlobRoundTrip(data, off, b);
  }

  lemma {:induction false} BlobsRoundTrip(data: bytes, off: nat, bs: seq<bytes>)
    requires |BlobsBytes(bs)| < 0x1_0000_0000 && At(data, off, BlobsBytes(bs))
    ensures ReadBlobs(data, off, |bs|) == Read(bs, off + |BlobsBytes(bs)|)
    decreases |bs|
  {
    if bs != [] {
      BlobThen(data, off, bs[0], BlobsBytes(bs[1..]));
      BlobsRoundTrip(data, off + |BlobBytes(bs[0])|, bs[1..]);
      HeadAndTail(bs);
    }
  }

  lemma FieldRoundTrip(c: Texts, data: bytes, off: nat, f: FieldInput, terms: seq<string>)
    requires LosslessTexts(c) && FieldFits(c, f, terms) && At(data, off, FieldBytes(c, f))
    ensures ReadField(c, data, off) == Read(Loaded(f, terms), off + |FieldBytes(c, f)|)
  {
    var parts := Parts(c, f);
    AtSplits(data, off, BlobsBytes(parts), PutU32(f.avg));
    BlobsRoundTrip(data, off, parts);
    U32At(data, off + |BlobsBytes(parts)|, f.avg);
    assert Assembled(c, parts, f.avg) == Some(Loaded(f, terms)) by {
      TableRoundTrip(f.offsets);
      DoclensRoundTrip(f.doclens);
    }
  }

  /** The fields with their dictionaries. */
  ghost predicate AllFit(c: Texts, fs: seq<FieldInput>, dicts: seq<seq<string>>) {
    |dicts| == |fs| && forall i | 0 <= i < |fs| :: FieldFits(c, fs[i], dicts[i])
  }

  function AllLoaded(fs: seq<FieldInput>, dicts: seq<seq<string>>): (r: seq<FieldHotcache>)
    requires |fs| == |dicts|
    ensures |r| == |fs|
  {
    if fs == [] then [] else [Loaded(fs[0], dicts[0])] + AllLoaded(fs[1..], dicts[1..])
  }

  lemma {:induction false} LoadedAt(fs: seq<FieldInput>, dicts: seq<seq<string>>, i: nat)
    requires |fs| == |dicts| && i < |fs|
    ensures AllLoaded(fs, dicts)[i] == Loaded(fs[i], dicts[i])
  {
    if i > 0 {
      LoadedAt(fs[1..], dicts[1..], i - 1);
    }
  }

  lemma FitTail(c: Texts, fs: seq<FieldInput>, dicts: seq<seq<string>>)
    requires AllFit(c, fs, dicts) && fs != []
    ensures FieldFits(c, fs[0], dicts[0]) && AllFit(c, fs[1..], dicts[1..])
  {
  }

  lemma {:induction false} FieldsRoundTrip(c: Texts, data: bytes, got: seq<FieldHotcache>, off: nat,
                                           fs: seq<FieldInput>, dicts: seq<seq<string>>)
    requires LosslessTexts(c) && AllFit(c, fs, dicts) && At(data, off, FieldsBytes(c, fs))
    ensures ReadEach(FieldReader(c, data), got, off, |fs|) == Some(got + AllLoaded(fs, dicts))
    decreases |fs|
  {
    if fs == [] {
      PlusNothing(got);
    } else {
      var next := off + |FieldBytes(c, fs[0])|;
      FitTail(c, fs, dicts);
      AtSplits(data, off, FieldBytes(c, fs[0]), FieldsBytes(c, fs[1..]));
      assert FieldReader(c, data)(off) == Read(Loaded(fs[0], dicts[0]), next) by {
        FieldRoundTrip(c, data, off, fs[0], dicts[0]);
      }
      FieldsRoundTrip(c, data, got + [Loaded(fs[0], dicts[0])], next, fs[1..], dicts[1..]);
      Assoc(got, [Loaded(fs[0], dicts[0])], AllLoaded(fs[1..], dicts[1..]));
    }
  }

  lemma {:induction false} FieldsAreParts(c: Texts, fs: seq<FieldInput>, i: nat)
    requires i < |fs|
    ensures |FieldBytes(c, fs[i])| <= |FieldsBytes(c, fs)|
    ensures |fs| <= |FieldsBytes(c, fs)|
  {
    if i > 0 {
      FieldsAreParts(c, fs[1..], i - 1);
    } else if |fs| > 1 {
      FieldsAreParts(c, fs[1..], 0);
    }
  }

  lemma HeaderRead(docCount: u32, numBlocks: u32, numFields: u32, rest: bytes)
    ensures var data := Headed(docCount, numBlocks, numFields, rest);
            && data[..4] == MAGIC && At(data, 20, rest)
            && GetU32(data[8..]) == docCount && GetU32(data[12..]) == numBlocks && GetU32(data[16..]) == numFields
  {
    var data := Headed(docCount, numBlocks, numFields, rest);
    var d := PutU32(numFields) + rest;
    var e := PutU32(numBlocks) + d;
    var f := PutU32(docCount) + e;
    assert data[8..] == f && data[12..] == e && data[16..] == d && data[20..] == rest;
    U32RoundTrip(docCount, e);
    U32RoundTrip(numBlocks, d);
    U32RoundTrip(numFields, rest);
  }

  lemma AllFieldsFit(c: Texts, fs: seq<FieldInput>, dicts: seq<seq<string>>)
    requires |fs| == |dicts| && |FieldsBytes(c, fs)| < 0x1_0000_0000
    requires forall i | 0 <= i < |fs| :: StrictlySorted(dicts[i]) && fs[i].fst == c.fst(dicts[i])
    ensures AllFit(c, fs, dicts) && |fs| < 0x1_0000_0000
  {
    forall i | 0 <= i < |fs|
      ensures FieldFits(c, fs[i], dicts[i])
    {
      FieldsAreParts(c, fs, i);
    }
    if fs != [] {
      FieldsAreParts(c, fs, 0);
    }
  }

  /** A hotcache below 4 GiB reads back as what was encoded. */
  lemma HotcacheRoundTrip(c: Texts, fs: seq<FieldInput>, dicts: seq<seq<string>>, idx: bytes,
                          docCount: u32, numBlocks: u32)
    requires LosslessTexts(c) && |fs| == |dicts|
    requires forall i | 0 <= i < |fs| :: StrictlySorted(dicts[i]) && fs[i].fst == c.fst(dicts[i])
    requires |HotcacheBytes(c, fs, idx, docCount, numBlocks)| < 0x1_0000_0000
    ensures ReadHotcache(c, HotcacheBytes(c, fs, idx, docCount, numBlocks))
         == Some(Hotcache(AllLoaded(fs, dicts), idx, docCount, numBlocks))
  {
    var data := HotcacheBytes(c, fs, idx, docCount, numBlocks);
    var fields := FieldsBytes(c, fs);
    assert AllFit(c, fs, dicts) && |fs| < 0x1_0000_0000 by {
      AllFieldsFit(c, fs, dicts);
    }
    HeaderRead(docCount, numBlocks, |fs|, BlobBytes(idx) + fields);
    BlobThen(data, 20, idx, fields);
    assert ReadEach(FieldReader(c, data), [], 20 + |BlobBytes(idx)|, |fs|) == Some(AllLoaded(fs, dicts)) by {
      FieldsRoundTrip(c, data, [], 20 + |BlobBytes(idx)|, fs, dicts);
      NothingPlus(AllLoaded(fs, dicts));
    }
  }

  // ----- The loops -----

  method WriteBlob(buf: bytes, data: bytes) returns (r: bytes)
    ensures r == buf + BlobBytes(data)
  {
    r := buf + PutU32(Low32(|data|));
    r := r + data;
  }

  method EncodeHotcache(c: Texts, fields: seq<FieldInput>, docstoreIdx: bytes, docCount: u32, numBlocks: u32)
    returns (buf: bytes)
    ensures buf == HotcacheBytes(c, fields, docstoreIdx, docCount, numBlocks)
  {
    buf := MAGIC + PutU32(1);
    buf := buf + PutU32(docCount);
    buf := buf + PutU32(numBlocks);
    buf := buf + PutU32(Low32(|fields|));
    buf := WriteBlob(buf, docstoreIdx);
    assert buf == Headed(docCount, numBlocks, Low32(|fields|), BlobBytes(docstoreIdx));
    ghost var front := buf;
    for i := 0 to |fields|
      invariant buf + FieldsBytes(c, fields[i..]) == front + FieldsBytes(c, fields)
    {
      assert fields[i..][0] == fields[i] && fields[i..][1..] == fields[i + 1..];
      Assoc(buf, FieldBytes(c, fields[i]), FieldsBytes(c, fields[i + 1..]));
      buf := EncodeField(c, fields[i], buf);
    }
    PlusNothing(buf);
    HeadedAssoc(docCount, numBlocks, Low32(|fields|), BlobBytes(docstoreIdx), FieldsBytes(c, fields));
  }

  lemma HeadedAssoc(docCount: u32, numBlocks: u32, numFields: u32, a: bytes, b: bytes)
    ensures Headed(docCount, numBlocks, numFields, a) + b == Headed(docCount, numBlocks, numFields, a + b)
  {
  }

  lemma FourBlobs(buf: bytes, w: bytes, x: bytes, y: bytes, z: bytes, end: bytes)
    ensures buf + BlobBytes(w) + BlobBytes(x) + BlobBytes(y) + BlobBytes(z) + end
         == buf + (BlobsBytes([w, x, y, z]) + end)
  {
    assert BlobsBytes([z]) == BlobBytes(z);
    assert BlobsBytes([y, z]) == BlobBytes(y) + BlobBytes(z);
    assert BlobsBytes([x, y, z]) == BlobBytes(x) + (BlobBytes(y) + BlobBytes(z));
    assert BlobsBytes([w, x, y, z]) == BlobBytes(w) + (BlobBytes(x) + (BlobBytes(y) + BlobBytes(z)));
  }

  method EncodeField(c: Texts, f: FieldInput, before: bytes) returns (buf: bytes)
    ensures buf == before + FieldBytes(c, f)
  {
    buf := WriteBlob(before, c.text(f.name));
    buf := WriteBlob(buf, f.fst);
    var tblBytes := Lay(PutOffsets, f.offsets);
    buf := WriteBlob(buf, tblBytes);
    var doclensBytes := Lay(PutU32, f.doclens);
    buf := WriteBlob(buf, doclensBytes);
    buf := buf + PutU32(f.avg);
    FourBlobs(before, c.text(f.name), f.fst, tblBytes, doclensBytes, PutU32(f.avg));
  }

  method DecodeHotcache(c: Texts, data: bytes) returns (r: Option<Hotcache>)
    ensures r == ReadHotcache(c, data)
  {
    if |data| < 20 || data[..4] != MAGIC {
      return None;
    }
    var docCount, numBlocks, numFields := GetU32(data[8..]), GetU32(data[12..]), GetU32(data[16..]);
    var idx := ReadBlob(data, 20);
    if idx.Short? {
      return None;
    }
    var fields := DecodeEach(FieldReader(c, data), idx.next, numFields);
    if fields.None? {
      return None;
    }
    return Some(Hotcache(fields.value, idx.value, docCount, numBlocks));
  }

  method DecodeEach<T>(read: nat -> Read<T>, start: nat, n: nat) returns (r: Option<seq<T>>)
    ensures r == ReadEach(read, [], start, n)
  {
    var got: seq<T>, off := [], start;
    ghost var left: nat := n;
    for i := 0 to n
      invariant i + left == n
      invariant ReadEach(read, [], start, n) == ReadEach(read, got, off, left)
    {
      var x := read(off);
      if x.Short? {
        return None;
      }
      got, off, left := got + [x.value], x.next, left - 1;
    }
    return Some(got);
  }

  // ----- Lookups -----

  /** FST.Get: the number of a term. */
  function TermID(terms: seq<string>, t: string): (r: Option<nat>)
    ensures r.Some? <==> t in terms
    ensures r.Some? ==> r.value < |terms| && terms[r.value] == t
  {
    if terms == [] then None
    else if terms[0] == t then Some(0)
    else
      match TermID(terms[1..], t)
      case None => None
      case Some(id) => Some(id + 1)
  }

  /** The ranges of a term: found if and only if the dictionary has it, once the table covers the dictionary. */
  function LookupTerm(f: FieldHotcache, t: string): (r: Option<TermOffsets>)
    ensures |f.terms| <= |f.table| ==> (r.Some? <==> t in f.terms)
    ensures r.Some? ==> exists i | 0 <= i < |f.terms| :: i < |f.table| && f.terms[i] == t && f.table[i] == r.value
    ensures r.None? ==> t !in f.terms || exists i | |f.table| <= i < |f.terms| :: f.terms[i] == t
  {
    match TermID(f.terms, t)
    case None => None
    case Some(id) => if id >= |f.table| then None else Some(f.table[id])
  }

  /** The field index keeps the last field of a name. */
  function Field(fields: seq<FieldHotcache>, name: string): Option<FieldHotcache> {
    if fields == [] then None
    else if fields[|fields| - 1].name == name then Some(fields[|fields| - 1])
    else Field(fields[..|fields| - 1], name)
  }
}
