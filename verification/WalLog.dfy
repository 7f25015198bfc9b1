/**
 * The bytes of the write-ahead log, as values: an eight byte header followed by
 * frames of length, checksum and payload. The checksum is any function of the
 * payload; nothing here depends on it being CRC-32.
 */
module WalLog {
  import opened Bytes
  import opened Sequences

  const HEADER_SIZE: nat := 8
  const RECORD_OVERHEAD: nat := 8

  /** The magic "S3WL" read little-endian, version 2 and three reserved zeros. */
  const HEADER: bytes := PutU32(0x53334C57) + [2, 0, 0, 0]

  type Checksum = bytes -> u32

  /** uint32(len(payload)) wraps for payloads of 4 GiB and more. */
  function Frame(crc: Checksum, p: bytes): (s: bytes)
    ensures |s| == RECORD_OVERHEAD + |p|
  {
    PutU32(|p| % 0x1_0000_0000) + PutU32(crc(p)) + p
  }

  function Frames(crc: Checksum, ps: seq<bytes>): bytes {
    if ps == [] then [] else Frame(crc, ps[0]) + Frames(crc, ps[1..])
  }

  predicate Loggable(p: bytes) {
    |p| < 0x1_0000_0000
  }

  ghost predicate AllLoggable(ps: seq<bytes>) {
    forall i | 0 <= i < |ps| :: Loggable(ps[i])
  }

  /** Reading one record: fewer than eight bytes are the end, a short or corrupt payload is bad. */
  datatype Next = End | Bad | Record(payload: bytes)

  function NextRecord(crc: Checksum, s: bytes): (r: Next)
    ensures r.Record? ==> RECORD_OVERHEAD + |r.payload| <= |s|
  {
    if |s| < RECORD_OVERHEAD then
      End
    else
      var n := GetU32(s);
      if |s| - RECORD_OVERHEAD < n then
        Bad
      else
        var p := s[RECORD_OVERHEAD..RECORD_OVERHEAD + n];
        if crc(p) != GetU32(s[4..]) then Bad else Record(p)
  }

  /** What a scan delivers, how many bytes were good, and whether the tail was torn or corrupt. */
  datatype Scan = Scan(payloads: seq<bytes>, good: nat, torn: bool)

  /** Replay's reading of everything after the header. */
  function ScanTail(crc: Checksum, s: bytes): (r: Scan)
    ensures r.good <= |s|
  {
    match NextRecord(crc, s)
    case End => Scan([], 0, false)
    case Bad => Scan([], 0, true)
    case Record(p) =>
      var rest := ScanTail(crc, s[RECORD_OVERHEAD + |p|..]);
      Scan([p] + rest.payloads, RECORD_OVERHEAD + |p| + rest.good, rest.torn)
  }

  /** The file Replay leaves behind: cut back to the last good offset on a torn or corrupt tail. */
  function Repaired(crc: Checksum, file: bytes): bytes
    requires |file| >= HEADER_SIZE
  {
    var r := ScanTail(crc, file[HEADER_SIZE..]);
    if r.torn then file[..HEADER_SIZE + r.good] else file
  }

  /** The payloads Replay sees in a file. */
  function Records(crc: Checksum, file: bytes): seq<bytes>
    requires |file| >= HEADER_SIZE
  {
    ScanTail(crc, file[HEADER_SIZE..]).payloads
  }

  /** TruncatePrefix: drop the bytes between the header and off. */
  function PrefixRemoved(file: bytes, off: nat): bytes {
    if off <= HEADER_SIZE then file
    else if off >= |file| then HEADER
    else HEADER + file[off..]
  }

  lemma {:induction false} FramesConcat(crc: Checksum, a: seq<bytes>, b: seq<bytes>)
    ensures Frames(crc, a + b) == Frames(crc, a) + Frames(crc, b)
  {
    if a == [] {
      assert a + b == b;
    } else {
      assert (a + b)[1..] == a[1..] + b;
      FramesConcat(crc, a[1..], b);
    }
  }

  lemma FramesOne(crc: Checksum, p: bytes)
    ensures Frames(crc, [p]) == Frame(crc, p)
  {
    assert Frames(crc, [p][1..]) == [];
  }

  lemma FramesSnoc(crc: Checksum, ps: seq<bytes>, p: bytes)
    ensures Frames(crc, ps + [p]) == Frames(crc, ps) + Frame(crc, p)
  {
    FramesConcat(crc, ps, [p]);
    FramesOne(crc, p);
  }

  /** A scan over well-formed frames delivers them and goes on with what follows. */
  lemma {:induction false} ScanFrames(crc: Checksum, ps: seq<bytes>, tail: bytes)
    requires AllLoggable(ps)
    ensures var r := ScanTail(crc, tail);
            ScanTail(crc, Frames(crc, ps) + tail)
            == Scan(ps + r.payloads, |Frames(crc, ps)| + r.good, r.torn)
  {
    if ps == [] {
      assert Frames(crc, ps) + tail == tail;
    } else {
      var rest := Frames(crc, ps[1..]) + tail;
      ScanFrames(crc, ps[1..], tail);
      assert Frames(crc, ps) + tail == Frame(crc, ps[0]) + rest;
      ScanOneFrame(crc, ps[0], rest);
      PrependScan(ps, ScanTail(crc, tail).payloads);
    }
  }

  lemma PrependScan(ps: seq<bytes>, more: seq<bytes>)
    requires ps != []
    ensures [ps[0]] + (ps[1..] + more) == ps + more
  {
  }

  lemma ScanOneFrame(crc: Checksum, p: bytes, rest: bytes)
    requires Loggable(p)
    ensures var r := ScanTail(crc, rest);
            ScanTail(crc, Frame(crc, p) + rest)
            == Scan([p] + r.payloads, RECORD_OVERHEAD + |p| + r.good, r.torn)
  {
    NextOfFrame(crc, p, rest);
  }

  lemma NextOfFrame(crc: Checksum, p: bytes, rest: bytes)
    requires Loggable(p)
    ensures NextRecord(crc, Frame(crc, p) + rest) == Record(p)
    ensures (Frame(crc, p) + rest)[RECORD_OVERHEAD + |p|..] == rest
  {
    FrameParts(crc, p, rest);
  }

  /** Where the reader finds the length, the checksum, the payload and the rest. */
  lemma FrameParts(crc: Checksum, p: bytes, rest: bytes)
    requires Loggable(p)
    ensures var s := Frame(crc, p) + rest;
            && GetU32(s) == |p| && GetU32(s[4..]) == crc(p)
            && s[RECORD_OVERHEAD..RECORD_OVERHEAD + |p|] == p && s[RECORD_OVERHEAD + |p|..] == rest
  {
    var length, sum, s := PutU32(|p|), PutU32(crc(p)), Frame(crc, p) + rest;
    FourParts(length, sum, p, rest);
    assert GetU32(s) == |p| by {
      U32RoundTrip(|p|, sum + p + rest);
    }
    assert GetU32(s[4..]) == crc(p) by {
      U32RoundTrip(crc(p), p + rest);
    }
  }

  lemma FourParts(a: bytes, b: bytes, c: bytes, d: bytes)
    ensures var s := a + b + c + d;
            && s == a + (b + c + d) && s[|a|..] == b + (c + d)
            && s[|a| + |b|..|a| + |b| + |c|] == c && s[|a| + |b| + |c|..] == d
  {
  }

  /** The beginning of a frame is no frame; it counts as torn once its header is complete. */
  lemma ScanPartialFrame(crc: Checksum, p: bytes, cut: nat)
    requires Loggable(p) && cut < |Frame(crc, p)|
    ensures ScanTail(crc, Frame(crc, p)[..cut]) == Scan([], 0, cut >= RECORD_OVERHEAD)
  {
    var s := Frame(crc, p)[..cut];
    if cut >= RECORD_OVERHEAD {
      assert s == PutU32(|p|) + s[4..];
      U32RoundTrip(|p|, s[4..]);
    }
  }

  /** For any bytes at all, the good prefix is exactly the encoding of what was delivered. */
  lemma {:induction false} ScanSound(crc: Checksum, s: bytes)
    ensures var r := ScanTail(crc, s);
            s[..r.good] == Frames(crc, r.payloads) && AllLoggable(r.payloads)
    decreases |s|
  {
    var r := ScanTail(crc, s);
    if r.payloads != [] {
      var p, rest := ScanStep(crc, s);
      ScanSound(crc, rest);
      assert r.payloads[1..] == ScanTail(crc, rest).payloads;
      assert s[..r.good] == Frame(crc, p) + rest[..ScanTail(crc, rest).good];
    }
  }

  /** A scan that delivers something starts with a whole frame. */
  lemma ScanStep(crc: Checksum, s: bytes) returns (p: bytes, rest: bytes)
    requires ScanTail(crc, s).payloads != []
    ensures s == Frame(crc, p) + rest && Loggable(p)
    ensures var r := ScanTail(crc, rest);
            ScanTail(crc, s) == Scan([p] + r.payloads, |Frame(crc, p)| + r.good, r.torn)
  {
    p := NextRecord(crc, s).payload;
    rest := s[RECORD_OVERHEAD + |p|..];
    FrameOfNext(crc, s);
  }

  lemma FrameOfNext(crc: Checksum, s: bytes)
    requires NextRecord(crc, s).Record?
    ensures var p := NextRecord(crc, s).payload;
            s == Frame(crc, p) + s[RECORD_OVERHEAD + |p|..] && Loggable(p)
  {
    var p := NextRecord(crc, s).payload;
    assert PutU32(|p|) == s[..4] && PutU32(crc(p)) == s[4..][..4] by {
      U32Injective(s);
      U32Injective(s[4..]);
    }
    InFour(s, |p|);
  }

  lemma InFour(s: bytes, n: nat)
    requires RECORD_OVERHEAD + n <= |s|
    ensures s == s[..4] + s[4..][..4] + s[RECORD_OVERHEAD..RECORD_OVERHEAD + n] + s[RECORD_OVERHEAD + n..]
  {
  }

  /** Replaying twice delivers the same and the second time cuts nothing, for every file. */
  lemma ReplayIdempotent(crc: Checksum, file: bytes)
    requires |file| >= HEADER_SIZE
    ensures var again := Repaired(crc, file);
            && |again| >= HEADER_SIZE && again[..HEADER_SIZE] == file[..HEADER_SIZE]
            && Records(crc, again) == Records(crc, file)
            && Repaired(crc, again) == again
  {
    var s := file[HEADER_SIZE..];
    var r := ScanTail(crc, s);
    if r.torn {
      var again := Repaired(crc, file);
      assert again[HEADER_SIZE..] == s[..r.good];
      ScanSound(crc, s);
      ScanFrames(crc, r.payloads, []);
      assert Frames(crc, r.payloads) + [] == s[..r.good];
      assert again[..HEADER_SIZE] == file[..HEADER_SIZE];
      assert r.payloads + [] == r.payloads;
    }
  }

  /** k records lie wholly before the cut. */
  ghost predicate WhollyBefore(crc: Checksum, ps: seq<bytes>, k: nat, cut: nat) {
    && k <= |ps|
    && |Frames(crc, ps[..k])| <= cut
    && (k < |ps| ==> cut < |Frames(crc, ps[..k + 1])|)
    && cut <= |Frames(crc, ps)|
  }

  /** Every cut point has such a k. */
  lemma {:induction false} SomeWhollyBefore(crc: Checksum, ps: seq<bytes>, cut: nat) returns (k: nat)
    requires cut <= |Frames(crc, ps)|
    ensures WhollyBefore(crc, ps, k, cut)
  {
    assert ps[..|ps|] == ps;
    k := |ps|;
    while cut < |Frames(crc, ps[..k])|
      invariant k <= |ps|
      invariant k < |ps| ==> cut < |Frames(crc, ps[..k + 1])|
      decreases k
    {
      k := k - 1;
    }
  }

  /** Splits the bytes before a cut into the whole frames and the beginning of another. */
  lemma CutSplits(crc: Checksum, ps: seq<bytes>, k: nat, cut: nat) returns (p: bytes)
    requires AllLoggable(ps) && WhollyBefore(crc, ps, k, cut)
    ensures var residue := cut - |Frames(crc, ps[..k])|;
            && Loggable(p) && residue < |Frame(crc, p)|
            && Frames(crc, ps)[..cut] == Frames(crc, ps[..k]) + Frame(crc, p)[..residue]
  {
    if k < |ps| {
      p := ps[k];
      Split(ps, k);
      FramesConcat(crc, ps[..k], ps[k..]);
      assert ps[..k + 1] == ps[..k] + [p];
      FramesConcat(crc, ps[..k], [p]);
      FramesOne(crc, p);
    } else {
      p := [];
      assert ps[..k] == ps;
    }
  }

  lemma ScanTorn(crc: Checksum, ps: seq<bytes>, p: bytes, residue: nat)
    requires AllLoggable(ps) && Loggable(p) && residue < |Frame(crc, p)|
    ensures ScanTail(crc, Frames(crc, ps) + Frame(crc, p)[..residue])
            == Scan(ps, |Frames(crc, ps)|, residue >= RECORD_OVERHEAD)
  {
    ScanFrames(crc, ps, Frame(crc, p)[..residue]);
    ScanPartialFrame(crc, p, residue);
    PlusNothing(ps);
  }

  /** A log of whole records followed by the beginning of one more. */
  lemma ReplayTorn(crc: Checksum, header: bytes, ps: seq<bytes>, p: bytes, residue: nat)
    requires |header| == HEADER_SIZE && AllLoggable(ps) && Loggable(p) && residue < |Frame(crc, p)|
    ensures var whole := header + Frames(crc, ps);
            var file := whole + Frame(crc, p)[..residue];
            && Records(crc, file) == ps
            && Repaired(crc, file) == if 0 < residue < RECORD_OVERHEAD then file else whole
  {
    var x, tail := Frames(crc, ps), Frame(crc, p)[..residue];
    ThreeParts(header, x, tail);
    ScanTorn(crc, ps, p, residue);
  }

  lemma ThreeParts(a: bytes, b: bytes, c: bytes)
    ensures var s := a + b + c;
            s[|a|..] == b + c && s[..|a| + |b|] == a + b && (c == [] ==> s == a + b)
  {
  }

  lemma FourPartsAssoc(a: bytes, b: bytes, c: bytes, d: bytes)
    ensures a + b + (c + d) == a + (b + c) + d
  {
  }

  /**
   * Cutting a log anywhere among its last records: Replay delivers exactly the
   * records wholly before the cut, and leaves exactly their encoding if and only
   * if the residue is empty or holds at least a whole record header.
   */
  lemma ReplayAfterCut(crc: Checksum, header: bytes, a: seq<bytes>, b: seq<bytes>, k: nat, cut: nat)
    requires |header| == HEADER_SIZE && AllLoggable(a) && AllLoggable(b) && WhollyBefore(crc, b, k, cut)
    ensures var file := header + Frames(crc, a) + Frames(crc, b)[..cut];
            var residue := cut - |Frames(crc, b[..k])|;
            && Records(crc, file) == a + b[..k]
            && (Repaired(crc, file) == header + Frames(crc, a + b[..k])
                <==> residue == 0 || residue >= RECORD_OVERHEAD)
            && (0 < residue < RECORD_OVERHEAD ==> Repaired(crc, file) == file)
  {
    var residue := cut - |Frames(crc, b[..k])|;
    var p := CutSplits(crc, b, k, cut);
    FramesConcat(crc, a, b[..k]);
    AllLoggableConcat(a, b[..k]);
    FourPartsAssoc(header, Frames(crc, a), Frames(crc, b[..k]), Frame(crc, p)[..residue]);
    ReplayTorn(crc, header, a + b[..k], p, residue);
  }

  lemma AllLoggableConcat(a: seq<bytes>, b: seq<bytes>)
    requires AllLoggable(a) && AllLoggable(b)
    ensures AllLoggable(a + b)
  {
  }

  /** Removing a prefix that ends on a record boundary leaves the encoding of the later records. */
  lemma PrefixRemovedAtBoundary(crc: Checksum, a: seq<bytes>, b: seq<bytes>)
    ensures PrefixRemoved(HEADER + Frames(crc, a + b), HEADER_SIZE + |Frames(crc, a)|)
            == HEADER + Frames(crc, b)
  {
    FramesConcat(crc, a, b);
    var file := HEADER + Frames(crc, a + b);
    var off := HEADER_SIZE + |Frames(crc, a)|;
    assert file == (HEADER + Frames(crc, a)) + Frames(crc, b);
    assert file[off..] == Frames(crc, b);
    if off >= |file| {
      assert Frames(crc, b) == [];
    }
  }

  /** A well-formed log is read back as written and is left alone. */
  lemma RecordsOfFrames(crc: Checksum, ps: seq<bytes>)
    requires AllLoggable(ps)
    ensures Records(crc, HEADER + Frames(crc, ps)) == ps
    ensures Repaired(crc, HEADER + Frames(crc, ps)) == HEADER + Frames(crc, ps)
  {
    assert (HEADER + Frames(crc, ps))[HEADER_SIZE..] == Frames(crc, ps) + [];
    ScanFrames(crc, ps, []);
    assert ps + [] == ps;
  }
}
