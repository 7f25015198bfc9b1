/** Term positions as a stream of unsigned LEB128 integers. */
module Positions {
  import opened Bytes
  import opened Sequences

  const MAX_VARINT: nat := 10
  const U32_SPAN: nat := 0x1_0000_0000

  datatype Entry = Entry(docID: u32, positions: seq<u32>)

  /** PutUvarint: seven bits a byte, low bits first, the high bit set on all but the last. */
  function PutUvarint(v: nat): (s: bytes)
    ensures |s| > 0
  {
    if v < 0x80 then [v] else [0x80 + v % 0x80] + PutUvarint(v / 0x80)
  }

  datatype Varint = Bad | Varint(value: nat, next: nat)

  /** Uvarint at an offset, from byte i of the number on: it ends within ten bytes and fits 64 bits. */
  function UvarintFrom(data: bytes, off: nat, i: nat): (r: Varint)
    ensures r.Varint? ==> off < r.next <= |data|
    decreases |data| - off
  {
    if off >= |data| || i == MAX_VARINT then Bad
    else if data[off] < 0x80 then
      if i == MAX_VARINT - 1 && data[off] > 1 then Bad else Varint(data[off], off + 1)
    else
      match UvarintFrom(data, off + 1, i + 1)
      case Bad => Bad
      case Varint(v, next) => Varint(data[off] - 0x80 + 0x80 * v, next)
  }

  function Uvarint(data: bytes, off: nat): (r: Varint)
    ensures r.Varint? ==> off < r.next <= |data|
  {
    UvarintFrom(data, off, 0)
  }

  function Pow128(n: nat): (p: nat)
    ensures p > 0
  {
    if n == 0 then 1 else 0x80 * Pow128(n - 1)
  }

  /** A number of at most nine septets is read back. */
  lemma {:induction false} UvarintFromRoundTrip(data: bytes, off: nat, v: nat, i: nat)
    requires i < MAX_VARINT && v < Pow128(MAX_VARINT - 1 - i) && At(data, off, PutUvarint(v))
    ensures UvarintFrom(data, off, i) == Varint(v, off + |PutUvarint(v)|)
    decreases v
  {
    assert data[off] == PutUvarint(v)[0];
    if v >= 0x80 {
      AtSplits(data, off, [0x80 + v % 0x80], PutUvarint(v / 0x80));
      UvarintFromRoundTrip(data, off + 1, v / 0x80, i + 1);
    }
  }

  lemma UvarintRoundTrip(data: bytes, off: nat, v: nat)
    requires v < 0x8000_0000_0000_0000 && At(data, off, PutUvarint(v))
    ensures Uvarint(data, off) == Varint(v, off + |PutUvarint(v)|)
  {
    assert Pow128(3) == 0x20_0000;
    assert Pow128(6) == 0x400_0000_0000;
    assert Pow128(9) == 0x8000_0000_0000_0000;
    UvarintFromRoundTrip(data, off, v, 0);
  }

  // ----- What the encoder writes and the decoder makes of it -----

  /** uint32 subtraction wraps. */
  function Minus(p: u32, prev: u32): u32 {
    if p >= prev then p - prev else p + U32_SPAN - prev
  }

  function Deltas(prev: u32, ps: seq<u32>): bytes
    decreases |ps|
  {
    if ps == [] then [] else PutUvarint(Minus(ps[0], prev)) + Deltas(ps[0], ps[1..])
  }

  function EntryBytes(e: Entry): bytes {
    PutUvarint(e.docID) + (PutUvarint(|e.positions|) + Deltas(0, e.positions))
  }

  function AllBytes(es: seq<Entry>): bytes {
    if es == [] then [] else EntryBytes(es[0]) + AllBytes(es[1..])
  }

  /** Positions decoded at an offset, and where they end. */
  datatype Decoded = Failed | Decoded(positions: seq<u32>, next: nat)

  function ReadDeltas(data: bytes, off: nat, count: nat, prev: u32): (r: Decoded)
    ensures r.Decoded? ==> off <= r.next && |r.positions| == count
    ensures r.Decoded? && off <= |data| ==> r.next <= |data|
    decreases count
  {
    if count == 0 then Decoded([], off)
    else
      match Uvarint(data, off)
      case Bad => Failed
      case Varint(delta, next) =>
        var p := Low32(prev + delta);
        match ReadDeltas(data, next, count - 1, p)
        case Failed => Failed
        case Decoded(ps, end) => Decoded([p] + ps, end)
  }

  datatype EntryRead = BadEntry | EntryRead(entry: Entry, next: nat)

  function ReadEntry(data: bytes, off: nat): (r: EntryRead)
    ensures r.EntryRead? ==> off < r.next <= |data|
  {
    match Uvarint(data, off)
    case Bad => BadEntry
    case Varint(docID, a) =>
      match Uvarint(data, a)
      case Bad => BadEntry
      case Varint(count, b) =>
        match ReadDeltas(data, b, count, 0)
        case Failed => BadEntry
        case Decoded(ps, next) => EntryRead(Entry(Low32(docID), ps), next)
  }

  function ReadAll(data: bytes, off: nat): (r: Option<seq<Entry>>)
    decreases |data| - off
  {
    if off >= |data| then Some([])
    else
      match ReadEntry(data, off)
      case BadEntry => None
      case EntryRead(e, next) =>
        match ReadAll(data, next)
        case None => None
        case Some(es) => Some([e] + es)
  }

  lemma {:induction false} DeltasRoundTrip(data: bytes, off: nat, prev: u32, ps: seq<u32>)
    requires At(data, off, Deltas(prev, ps))
    ensures ReadDeltas(data, off, |ps|, prev) == Decoded(ps, off + |Deltas(prev, ps)|)
    decreases |ps|
  {
    if ps != [] {
      var delta := Minus(ps[0], prev);
      AtSplits(data, off, PutUvarint(delta), Deltas(ps[0], ps[1..]));
      UvarintRoundTrip(data, off, delta);
      DeltasRoundTrip(data, off + |PutUvarint(delta)|, ps[0], ps[1..]);
      assert Low32(prev + delta) == ps[0];
      assert [ps[0]] + ps[1..] == ps;
    }
  }

  lemma UvarintThen(data: bytes, off: nat, v: u32, rest: bytes)
    requires At(data, off, PutUvarint(v) + rest)
    ensures Uvarint(data, off) == Varint(v, off + |PutUvarint(v)|) && At(data, off + |PutUvarint(v)|, rest)
  {
    AtSplits(data, off, PutUvarint(v), rest);
    UvarintRoundTrip(data, off, v);
  }

  lemma EntryRoundTrip(data: bytes, off: nat, e: Entry)
    requires |e.positions| < U32_SPAN && At(data, off, EntryBytes(e))
    ensures ReadEntry(data, off) == EntryRead(e, off + |EntryBytes(e)|)
  {
    var length, deltas := PutUvarint(|e.positions|), Deltas(0, e.positions);
    var a := off + |PutUvarint(e.docID)|;
    UvarintThen(data, off, e.docID, length + deltas);
    UvarintThen(data, a, |e.positions|, deltas);
    DeltasRoundTrip(data, a + |length|, 0, e.positions);
  }

  lemma {:induction false} AllRoundTrip(data: bytes, off: nat, es: seq<Entry>)
    requires forall i | 0 <= i < |es| :: |es[i].positions| < U32_SPAN
    requires At(data, off, AllBytes(es)) && off + |AllBytes(es)| == |data|
    ensures ReadAll(data, off) == Some(es)
    decreases |es|
  {
    if es != [] {
      var next := off + |EntryBytes(es[0])|;
      assert ReadEntry(data, off) == EntryRead(es[0], next) by {
        AtSplits(data, off, EntryBytes(es[0]), AllBytes(es[1..]));
        EntryRoundTrip(data, off, es[0]);
      }
      assert ReadAll(data, next) == Some(es[1..]) by {
        AtSplits(data, off, EntryBytes(es[0]), AllBytes(es[1..]));
        AllRoundTrip(data, next, es[1..]);
      }
      HeadAndTail(es);
    }
  }

  /** Decoding gives back every list of entries, sorted or not. */
  lemma PositionsRoundTrip(es: seq<Entry>)
    requires forall i | 0 <= i < |es| :: |es[i].positions| < U32_SPAN
    ensures ReadAll(AllBytes(es), 0) == Some(es)
  {
    AllRoundTrip(AllBytes(es), 0, es);
  }

  // ----- The loops -----

  method EncodePositions(entries: seq<Entry>) returns (buf: bytes)
    ensures buf == AllBytes(entries)
  {
    buf := [];
    for i := 0 to |entries|
      invariant buf + AllBytes(entries[i..]) == AllBytes(entries)
    {
      var e := entries[i];
      assert entries[i..][0] == e && entries[i..][1..] == entries[i + 1..];
      ghost var before, rest := buf, AllBytes(entries[i + 1..]);
      buf := buf + PutUvarint(e.docID);
      buf := buf + PutUvarint(|e.positions|);
      ghost var head := buf;
      var prev: u32 := 0;
      for j := 0 to |e.positions|
        invariant buf + Deltas(prev, e.positions[j..]) == head + Deltas(0, e.positions)
      {
        var p := e.positions[j];
        assert e.positions[j..][0] == p && e.positions[j..][1..] == e.positions[j + 1..];
        Assoc(buf, PutUvarint(Minus(p, prev)), Deltas(p, e.positions[j + 1..]));
        buf := buf + PutUvarint(Minus(p, prev));
        prev := p;
      }
      PlusNothing(buf);
      Gathered(before, PutUvarint(e.docID), PutUvarint(|e.positions|), Deltas(0, e.positions), rest);
    }
    PlusNothing(buf);
  }

  lemma Gathered(a: bytes, b: bytes, c: bytes, d: bytes, rest: bytes)
    ensures ((a + b) + c) + d + rest == a + ((b + (c + d)) + rest)
  {
  }

  method DecodePositions(data: bytes) returns (r: Option<seq<Entry>>)
    ensures r == ReadAll(data, 0)
  {
    var entries: seq<Entry>, offset: nat := [], 0;
    AfterNothing(ReadAll(data, 0));
    while offset < |data|
      invariant ReadAll(data, 0) == After(entries, ReadAll(data, offset))
      decreases |data| - offset
    {
      var docID := Uvarint(data, offset);
      if docID.Bad? {
        return None;
      }
      var count := Uvarint(data, docID.next);
      if count.Bad? {
        return None;
      }
      var ps := DecodeDeltas(data, count.next, count.value);
      if ps.Failed? {
        return None;
      }
      var e := Entry(Low32(docID.value), ps.positions);
      AfterOne(entries, e, ReadAll(data, ps.next));
      entries := entries + [e];
      offset := ps.next;
    }
    PlusNothing(entries);
    return Some(entries);
  }

  /** A failure later fails the whole. */
  function After(es: seq<Entry>, rest: Option<seq<Entry>>): Option<seq<Entry>> {
    if rest.None? then None else Some(es + rest.value)
  }

  lemma AfterNothing(rest: Option<seq<Entry>>)
    ensures After([], rest) == rest
  {
    if rest.Some? {
      NothingPlus(rest.value);
    }
  }

  lemma AfterOne(es: seq<Entry>, e: Entry, rest: Option<seq<Entry>>)
    ensures After(es, After([e], rest)) == After(es + [e], rest)
  {
    if rest.Some? {
      Assoc(es, [e], rest.value);
    }
  }

  /** The decoder's inner loop. */
  method DecodeDeltas(data: bytes, start: nat, count: nat) returns (r: Decoded)
    ensures r == ReadDeltas(data, start, count, 0)
  {
    var positions: seq<u32>, prev: u32, offset: nat := [], 0, start;
    BehindNothing(ReadDeltas(data, start, count, 0));
    var i := 0;
    ghost var left := count;
    while i < count
      invariant i + left == count
      invariant ReadDeltas(data, start, count, 0) == Behind(positions, ReadDeltas(data, offset, left, prev))
    {
      var delta := Uvarint(data, offset);
      if delta.Bad? {
        return Failed;
      }
      prev := Low32(prev + delta.value);
      BehindOne(positions, prev, ReadDeltas(data, delta.next, left - 1, prev));
      positions := positions + [prev];
      offset := delta.next;
      i, left := i + 1, left - 1;
    }
    PlusNothing(positions);
    return Decoded(positions, offset);
  }

  function Behind(ps: seq<u32>, rest: Decoded): Decoded {
    if rest.Failed? then Failed else Decoded(ps + rest.positions, rest.next)
  }

  lemma BehindNothing(rest: Decoded)
    ensures Behind([], rest) == rest
  {
    if rest.Decoded? {
      NothingPlus(rest.positions);
    }
  }

  lemma BehindOne(ps: seq<u32>, p: u32, rest: Decoded)
    ensures Behind(ps, Behind([p], rest)) == Behind(ps + [p], rest)
  {
    if rest.Decoded? {
      Assoc(ps, [p], rest.positions);
    }
  }
}
