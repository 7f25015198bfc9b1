/** The document store: length-prefixed documents in compressed blocks, found through an index. */
module Docstore {
  import opened Bytes
  import opened Sequences

  datatype BlockEntry = BlockEntry(block: u32, offset: u32)

  /** The block compressor. */
  datatype Zstd = Zstd(zip: bytes -> bytes, unzip: bytes -> Option<bytes>)

  ghost predicate Lossless(z: Zstd) {
    forall x: bytes {:trigger z.zip(x)} :: z.unzip(z.zip(x)) == Some(x)
  }

  function LengthPrefixed(doc: bytes): bytes
    requires |doc| < 0x1_0000_0000
  {
    PutU32(|doc|) + doc
  }

  /** Reader.Get on a fetched block. Its sums wrap in 32 bits; a range that ends before it starts is an error here. */
  function Get(z: Zstd, blocks: seq<bytes>, entry: BlockEntry): Option<bytes> {
    if entry.block >= |blocks| then None
    else
      var raw := z.unzip(blocks[entry.block]);
      if raw.None? || entry.offset + 4 > |raw.value| then None
      else
        var docLen, start := GetU32(raw.value[entry.offset..]), (entry.offset + 4) % 0x1_0000_0000;
        var end := (start + docLen) % 0x1_0000_0000;
        if end > |raw.value| || start > end then None else Some(raw.value[start..end])
  }

  /** Every document is read back through its index entry. */
  ghost predicate Readable(z: Zstd, blocks: seq<bytes>, index: seq<BlockEntry>, docs: seq<bytes>) {
    |index| == |docs| && forall i | 0 <= i < |docs| :: Get(z, blocks, index[i]) == Some(docs[i])
  }

  lemma GetFinds(z: Zstd, blocks: seq<bytes>, entry: BlockEntry, raw: bytes, doc: bytes)
    requires entry.block < |blocks| && z.unzip(blocks[entry.block]) == Some(raw)
    requires entry.offset + 4 + |doc| < 0x1_0000_0000 && At(raw, entry.offset, LengthPrefixed(doc))
    ensures Get(z, blocks, entry) == Some(doc)
  {
    AtSplits(raw, entry.offset, PutU32(|doc|), doc);
    U32At(raw, entry.offset, |doc|);
    AtSlice(raw, entry.offset + 4, doc);
  }

  /** A document lies where its entry says, in a finished block or in the current one. */
  ghost predicate Located(raws: seq<bytes>, cur: bytes, e: BlockEntry, doc: bytes) {
    && e.block <= |raws| && e.offset + 4 + |doc| < 0x1_0000_0000
    && At(if e.block < |raws| then raws[e.block] else cur, e.offset, LengthPrefixed(doc))
  }

  ghost predicate AllLocated(raws: seq<bytes>, cur: bytes, index: seq<BlockEntry>, docs: seq<bytes>) {
    |index| == |docs| && forall i | 0 <= i < |docs| :: Located(raws, cur, index[i], docs[i])
  }

  lemma LocatedGrows(raws: seq<bytes>, cur: bytes, index: seq<BlockEntry>, docs: seq<bytes>,
                     doc: bytes, entry: BlockEntry)
    requires AllLocated(raws, cur, index, docs) && |cur| + 4 + |doc| < 0x1_0000_0000
    requires entry.block == |raws| && entry.offset == |cur|
    ensures AllLocated(raws, cur + LengthPrefixed(doc), index + [entry], docs + [doc])
  {
    var more := LengthPrefixed(doc);
    forall i | 0 <= i < |docs|
      ensures Located(raws, cur + more, index[i], docs[i])
    {
      if index[i].block == |raws| {
        AtGrows(cur, index[i].offset, LengthPrefixed(docs[i]), more);
      }
    }
    AtEnd(cur, more, []);
    assert cur + more + [] == cur + more;
  }

  lemma LocatedCommitted(raws: seq<bytes>, cur: bytes, index: seq<BlockEntry>, docs: seq<bytes>)
    requires AllLocated(raws, cur, index, docs)
    ensures AllLocated(raws + [cur], [], index, docs)
  {
    forall i | 0 <= i < |docs|
      ensures Located(raws + [cur], [], index[i], docs[i])
    {
      assert Located(raws, cur, index[i], docs[i]);
    }
  }

  /** What the fix-up loop of flushBlock makes of the index: it stops at the first entry, from the end, of block c. */
  function FixedUp(idx: seq<BlockEntry>, c: u32): (r: seq<BlockEntry>)
    ensures |r| == |idx|
  {
    if idx == [] || idx[|idx| - 1].block == c then idx
    else FixedUp(idx[..|idx| - 1], c) + [idx[|idx| - 1].(block := c)]
  }

  class Writer {
    const z: Zstd
    const blockSize: nat
    var blocks: seq<bytes>
    var index: seq<BlockEntry>
    var curBuf: bytes
    ghost var docs: seq<bytes>
    ghost var raws: seq<bytes>

    ghost predicate Valid()
      reads this
    {
      && |raws| == |blocks| && (forall j | 0 <= j < |blocks| :: blocks[j] == z.zip(raws[j]))
      && AllLocated(raws, curBuf, index, docs)
      && (curBuf != [] ==> index != [] && index[|index| - 1].block == |blocks|)
    }

    constructor (z: Zstd, blockSize: nat)
      ensures Valid() && docs == [] && this.z == z && this.blockSize == blockSize && curBuf == [] && blocks == []
    {
      this.z, this.blockSize := z, blockSize;
      blocks, index, curBuf, docs, raws := [], [], [], [], [];
    }

    /** Wherever the block boundaries fall, the store holds one more document. */
    method Add(rawJSON: bytes)
      requires Valid() && |curBuf| + 4 + |rawJSON| < 0x1_0000_0000 && |blocks| < 0xffff_ffff
      modifies this
      ensures Valid() && docs == old(docs) + [rawJSON] && (curBuf == [] || |curBuf| < blockSize)
      ensures |old(curBuf)| + 4 + |rawJSON| < blockSize ==> blocks == old(blocks)
    {
      ghost var before := curBuf;
      curBuf := curBuf + PutU32(|rawJSON|);
      curBuf := curBuf + rawJSON;
      assert curBuf == before + LengthPrefixed(rawJSON);
      var entry := BlockEntry(|blocks|, |curBuf| - |rawJSON| - 4);
      LocatedGrows(raws, before, index, docs, rawJSON, entry);
      index := index + [entry];
      docs := docs + [rawJSON];
      if |curBuf| >= blockSize {
        FlushBlock();
      }
    }

    /** Commits the current block; the fix-up of the index finds nothing to fix. */
    method FlushBlock()
      requires Valid() && |blocks| < 0xffff_ffff
      modifies this
      ensures Valid() && docs == old(docs) && index == old(index) && curBuf == []
      ensures blocks == old(blocks) + if old(curBuf) == [] then [] else [z.zip(old(curBuf))]
    {
      if |curBuf| == 0 {
        return;
      }
      LocatedCommitted(raws, curBuf, index, docs);
      blocks := blocks + [z.zip(curBuf)];
      raws := raws + [curBuf];
      assert FixedUp(index, |blocks| - 1) == index;
      FixUp(|blocks| - 1);
      curBuf := [];
    }

    method FixUp(commitIdx: u32)
      modifies this`index
      ensures index == FixedUp(old(index), commitIdx)
    {
      var i := |index| - 1;
      assert index[..i + 1] == index;
      PlusNothing(FixedUp(index, commitIdx));
      while i >= 0
        invariant -1 <= i < |index|
        invariant FixedUp(index[..i + 1], commitIdx) + index[i + 1..] == FixedUp(old(index), commitIdx)
      {
        if index[i].block == commitIdx {
          break;
        }
        ghost var head, tail := index[..i], index[i + 1..];
        assert index[..i + 1][..i] == head;
        index := index[i := index[i].(block := commitIdx)];
        assert index[..i] == head && index[i..] == [index[i]] + tail;
        Assoc(FixedUp(head, commitIdx), [index[i]], tail);
        i := i - 1;
      }
      assert index == index[..i + 1] + index[i + 1..];
    }

    method Finalize() returns (bs: seq<bytes>, idx: seq<BlockEntry>)
      requires Valid() && |blocks| < 0xffff_ffff && Lossless(z)
      modifies this
      ensures Valid() && docs == old(docs) && Readable(z, bs, idx, docs)
      ensures |bs| <= |old(blocks)| + 1
    {
      FlushBlock();
      forall i | 0 <= i < |docs|
        ensures index[i].block < |blocks| && Get(z, blocks, index[i]) == Some(docs[i])
      {
        assert Located(raws, curBuf, index[i], docs[i]);
        GetFinds(z, blocks, index[i], raws[index[i].block], docs[i]);
      }
      return blocks, index;
    }
  }

  // ----- The index as bytes -----

  function PutEntry(e: BlockEntry): bytes {
    PutU32(e.block) + PutU32(e.offset)
  }

  function GetEntry(s: bytes): BlockEntry {
    if |s| < 8 then BlockEntry(0, 0) else BlockEntry(GetU32(s), GetU32(s[4..]))
  }

  lemma EntryRoundTrip(e: BlockEntry)
    ensures |PutEntry(e)| == 8 && GetEntry(PutEntry(e)) == e
  {
    U32RoundTrip(e.block, PutU32(e.offset));
    U32RoundTrip(e.offset, []);
    assert PutEntry(e)[4..] == PutU32(e.offset) + [];
  }

  method EncodeIndex(idx: seq<BlockEntry>) returns (buf: bytes)
    ensures buf == Laid(PutEntry, idx)
  {
    buf := Lay(PutEntry, idx);
  }

  /** DecodeIndex rejects what is not whole entries. */
  function IndexRead(data: bytes): Option<seq<BlockEntry>> {
    if |data| % 8 != 0 then None else Some(Unlaid(GetEntry, 8, data))
  }

  method DecodeIndex(data: bytes) returns (r: Option<seq<BlockEntry>>)
    ensures r == IndexRead(data)
  {
    if |data| % 8 != 0 {
      return None;
    }
    var out := Unlay(GetEntry, 8, data);
    return Some(out);
  }

  lemma IndexRoundTrip(idx: seq<BlockEntry>)
    ensures IndexRead(Laid(PutEntry, idx)) == Some(idx)
  {
    forall e: BlockEntry {:trigger PutEntry(e)}
      ensures |PutEntry(e)| == 8 && GetEntry(PutEntry(e)) == e
    {
      EntryRoundTrip(e);
    }
    LaidRoundTrip(PutEntry, GetEntry, 8, idx);
  }

  // ----- The blocks as a section of the segment -----

  function Joined(blocks: seq<bytes>): bytes {
    if blocks == [] then [] else blocks[0] + Joined(blocks[1..])
  }

  /** Where each block starts, and as a last entry where the last one ends. */
  function Offsets(start: nat, blocks: seq<bytes>): (s: bytes)
    ensures |s| == 8 * (|blocks| + 1)
    decreases |blocks|
  {
    if blocks == [] then PutU64(Low64(start))
    else PutU64(Low64(start)) + Offsets(start + |blocks[0]|, blocks[1..])
  }

  ghost predicate FitsU64(blocks: seq<bytes>) {
    |Joined(blocks)| < 0x1_0000_0000_0000_0000
  }

  function Section(blocks: seq<bytes>): bytes {
    Offsets(0, blocks) + Joined(blocks)
  }

  method WriteSection(blocks: seq<bytes>) returns (buf: bytes)
    ensures buf == Section(blocks)
  {
    buf := [];
    var cumOff: nat := 0;
    for i := 0 to |blocks|
      invariant buf + Offsets(cumOff, blocks[i..]) == Offsets(0, blocks)
    {
      assert blocks[i..][1..] == blocks[i + 1..];
      Assoc(buf, PutU64(Low64(cumOff)), Offsets(cumOff + |blocks[i]|, blocks[i + 1..]));
      buf := buf + PutU64(Low64(cumOff));
      cumOff := cumOff + |blocks[i]|;
    }
    buf := buf + PutU64(Low64(cumOff));
    ghost var table := buf;
    for i := 0 to |blocks|
      invariant buf + Joined(blocks[i..]) == table + Joined(blocks)
    {
      assert blocks[i..][1..] == blocks[i + 1..];
      Assoc(buf, blocks[i], Joined(blocks[i + 1..]));
      buf := buf + blocks[i];
    }
    PlusNothing(buf);
  }

  /** The offset table, then the range between two of its entries. */
  function GetDocBlock(seg: bytes, tableOff: nat, blockIdx: nat, numBlocks: nat): Option<bytes>
    requires tableOff <= |seg|
  {
    var tableSize := (numBlocks + 1) * 8;
    var table := GetRange(seg, tableOff, tableSize);
    if numBlocks == 0 || (blockIdx + 2) * 8 > |table| then None
    else
      var from, to := GetU64(table[blockIdx * 8..]), GetU64(table[(blockIdx + 1) * 8..]);
      var start := tableOff + tableSize + from;
      if to < from || start > |seg| then None else Some(GetRange(seg, start, to - from))
  }

  lemma AtShifted(head: bytes, data: bytes, off: nat, s: bytes)
    requires At(data, off, s)
    ensures At(head + data, |head| + off, s)
  {
    forall i | 0 <= i < |s|
      ensures (head + data)[|head| + off + i] == s[i]
    {
      assert (head + data)[|head| + (off + i)] == data[off + i];
    }
  }

  lemma {:induction false} OffsetsAt(start: nat, blocks: seq<bytes>, i: nat)
    requires start + |Joined(blocks)| < 0x1_0000_0000_0000_0000 && i <= |blocks|
    ensures |Joined(blocks[..i])| <= |Joined(blocks)|
    ensures At(Offsets(start, blocks), 8 * i, PutU64(start + |Joined(blocks[..i])|))
    decreases i
  {
    if i == 0 {
      OffsetsFirst(start, blocks);
    } else {
      var rest := Offsets(start + |blocks[0]|, blocks[1..]);
      assert Joined(blocks[..i]) == blocks[0] + Joined(blocks[1..][..i - 1]) by {
        assert blocks[..i][1..] == blocks[1..][..i - 1];
      }
      OffsetsAt(start + |blocks[0]|, blocks[1..], i - 1);
      AtShifted(PutU64(start), rest, 8 * (i - 1), PutU64(start + |Joined(blocks[..i])|));
    }
  }

  lemma OffsetsFirst(start: u64, blocks: seq<bytes>)
    ensures At(Offsets(start, blocks), 0, PutU64(start))
  {
  }

  lemma {:induction false} JoinedAt(blocks: seq<bytes>, i: nat)
    requires i < |blocks|
    ensures At(Joined(blocks), |Joined(blocks[..i])|, blocks[i])
    ensures |Joined(blocks[..i + 1])| == |Joined(blocks[..i])| + |blocks[i]|
  {
    if i == 0 {
      AtEnd([], blocks[0], Joined(blocks[1..]));
      assert [] + blocks[0] + Joined(blocks[1..]) == Joined(blocks);
      assert blocks[..1][1..] == [];
    } else {
      JoinedAt(blocks[1..], i - 1);
      assert blocks[..i][1..] == blocks[1..][..i - 1];
      assert blocks[..i + 1][1..] == blocks[1..][..i];
      AtShifted(blocks[0], Joined(blocks[1..]), |Joined(blocks[1..][..i - 1])|, blocks[i]);
    }
  }

  lemma TableEntry(blocks: seq<bytes>, i: nat)
    requires FitsU64(blocks) && i <= |blocks|
    ensures GetU64(Offsets(0, blocks)[8 * i..]) == |Joined(blocks[..i])|
  {
    OffsetsAt(0, blocks, i);
    U64At(Offsets(0, blocks), 8 * i, |Joined(blocks[..i])|);
  }

  lemma TableEntries(blocks: seq<bytes>, i: nat)
    requires FitsU64(blocks) && i < |blocks|
    ensures var table, from := Offsets(0, blocks), |Joined(blocks[..i])|;
            GetU64(table[8 * i..]) == from && GetU64(table[8 * (i + 1)..]) == from + |blocks[i]|
  {
    TableEntry(blocks, i);
    TableEntry(blocks, i + 1);
    JoinedAt(blocks, i);
  }

  lemma SectionSplits(seg: bytes, tableOff: nat, blocks: seq<bytes>)
    requires At(seg, tableOff, Section(blocks))
    ensures At(seg, tableOff, Offsets(0, blocks)) && At(seg, tableOff + |Offsets(0, blocks)|, Joined(blocks))
  {
    AtSplits(seg, tableOff, Offsets(0, blocks), Joined(blocks));
  }

  lemma BlockWithin(seg: bytes, base: nat, blocks: seq<bytes>, i: nat)
    requires At(seg, base, Joined(blocks)) && i < |blocks|
    ensures At(seg, base + |Joined(blocks[..i])|, blocks[i])
  {
    JoinedAt(blocks, i);
    AtWithin(seg, base, Joined(blocks), |Joined(blocks[..i])|, blocks[i]);
  }

  lemma ReadsRange(seg: bytes, tableOff: nat, table: bytes, i: nat, n: nat, from: nat, block: bytes)
    requires i < n && |table| == (n + 1) * 8 && At(seg, tableOff, table)
    requires GetU64(table[8 * i..]) == from && GetU64(table[8 * (i + 1)..]) == from + |block|
    requires At(seg, tableOff + |table| + from, block)
    ensures GetDocBlock(seg, tableOff, i, n) == Some(block)
  {
    RangeAt(seg, tableOff, table);
    RangeAt(seg, tableOff + |table| + from, block);
  }

  /** Every block is read back from a segment that holds the section at the table offset. */
  lemma DocBlockRoundTrip(seg: bytes, tableOff: nat, blocks: seq<bytes>, i: nat)
    requires FitsU64(blocks) && i < |blocks| && At(seg, tableOff, Section(blocks))
    ensures GetDocBlock(seg, tableOff, i, |blocks|) == Some(blocks[i])
  {
    var table, from := Offsets(0, blocks), |Joined(blocks[..i])|;
    SectionSplits(seg, tableOff, blocks);
    BlockWithin(seg, tableOff + |table|, blocks, i);
    TableEntries(blocks, i);
    ReadsRange(seg, tableOff, table, i, |blocks|, from, blocks[i]);
  }

  /** Document i through the encoded index, the offset table and the block. */
  lemma DocumentRoundTrip(z: Zstd, seg: bytes, tableOff: nat, blocks: seq<bytes>, idx: seq<BlockEntry>,
                          docs: seq<bytes>, i: nat)
    requires FitsU64(blocks) && At(seg, tableOff, Section(blocks)) && Readable(z, blocks, idx, docs) && i < |docs|
    ensures IndexRead(Laid(PutEntry, idx)) == Some(idx) && idx[i].block < |blocks|
    ensures GetDocBlock(seg, tableOff, idx[i].block, |blocks|) == Some(blocks[idx[i].block])
    ensures Get(z, blocks, idx[i]) == Some(docs[i])
  {
    IndexRoundTrip(idx);
    DocBlockRoundTrip(seg, tableOff, blocks, idx[i].block);
  }
}
