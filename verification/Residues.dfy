/**
 * What becomes of a document appended behind a part of a record: the residue of a crash, or of a refused batch
 * that had outgrown the write buffer.
 */
module Residues {
  import opened Bytes
  import opened Sequences
  import opened WalLog
  import opened Ingest
  import opened Durability

  // ----- Reading from a residue on -----

  /** A record behind a residue that, read from the residue on, is the record again; behind nothing it is. */
  ghost predicate Again(residue: bytes, frame: bytes) {
    (residue + frame)[..|frame|] == frame
  }

  lemma EightBytes(crc: Checksum, ps: seq<bytes>)
    ensures ps != [] ==> |Frames(crc, ps)| >= RECORD_OVERHEAD
  {
  }

  /** The frames before, of and behind one of several records. */
  lemma AroundOne(crc: Checksum, ps: seq<bytes>, p: bytes) returns (a: seq<bytes>, b: seq<bytes>)
    requires p in ps
    ensures ps == a + [p] + b
    ensures |Frames(crc, ps)| == |Frames(crc, a)| + |Frame(crc, p)| + |Frames(crc, b)|
  {
    var j :| 0 <= j < |ps| && ps[j] == p;
    a, b := ps[..j], ps[j + 1..];
    assert ps == a + [p] + b;
    FramesConcat(crc, a + [p], b);
    FramesSnoc(crc, a, p);
  }

  /** Records that leave no room for another beside one of them are that one. */
  lemma OnlyRecord(crc: Checksum, ps: seq<bytes>, p: bytes)
    requires p in ps && |Frames(crc, ps)| < RECORD_OVERHEAD + |Frame(crc, p)|
    ensures ps == [p]
  {
    var a, b := AroundOne(crc, ps, p);
    EightBytes(crc, a);
    EightBytes(crc, b);
  }

  /** A record that is not read within fewer bytes than it has. */
  lemma NoRoom(crc: Checksum, s: bytes, p: bytes)
    requires |s| < |Frame(crc, p)|
    ensures p !in ScanTail(crc, s).payloads
  {
    ScanSound(crc, s);
    if p in ScanTail(crc, s).payloads {
      var a, b := AroundOne(crc, ScanTail(crc, s).payloads, p);
    }
  }

  /** Behind a residue shorter than a record header. */
  lemma FoundBehindShort(crc: Checksum, residue: bytes, p: bytes)
    requires |residue| < RECORD_OVERHEAD && p in ScanTail(crc, residue + Frame(crc, p)).payloads
    ensures Again(residue, Frame(crc, p))
  {
    var tail := residue + Frame(crc, p);
    var r := ScanTail(crc, tail);
    assert tail[..r.good] == Frames(crc, r.payloads) by {
      ScanSound(crc, tail);
    }
    OnlyRecord(crc, r.payloads, p);
    FramesOne(crc, p);
  }

  /** The record read where a longer residue begins takes more bytes than the residue has. */
  lemma FirstIsLong(crc: Checksum, q: bytes, cut: nat, more: bytes, first: bytes, rest: bytes)
    requires Loggable(q) && Loggable(first) && RECORD_OVERHEAD <= cut <= |Frame(crc, q)|
    requires Frame(crc, q)[..cut] + more == Frame(crc, first) + rest
    ensures |first| == |q|
  {
    var s := Frame(crc, q)[..cut] + more;
    assert s == PutU32(|q|) + s[4..];
    U32RoundTrip(|q|, s[4..]);
    FrameParts(crc, first, rest);
  }

  lemma FoundBehindLong(crc: Checksum, q: bytes, cut: nat, p: bytes)
    requires Loggable(q) && RECORD_OVERHEAD <= cut < |Frame(crc, q)|
    requires p in ScanTail(crc, Frame(crc, q)[..cut] + Frame(crc, p)).payloads
    ensures Again(Frame(crc, q)[..cut], Frame(crc, p))
  {
    var tail := Frame(crc, q)[..cut] + Frame(crc, p);
    var first, rest := ScanStep(crc, tail);
    FirstIsLong(crc, q, cut, Frame(crc, p), first, rest);
    NoRoom(crc, rest, p);
    assert first == p;
  }

  lemma FoundIfAgain(crc: Checksum, residue: bytes, p: bytes)
    requires Loggable(p) && Again(residue, Frame(crc, p))
    ensures p in ScanTail(crc, residue + Frame(crc, p)).payloads
  {
    var tail, n := residue + Frame(crc, p), |Frame(crc, p)|;
    Split(tail, n);
    ScanOneFrame(crc, p, tail[n..]);
  }

  /**
   * Behind any log and any part of a further record: replay reads a record if and only if, read from the residue
   * on, it is the record again.
   */
  lemma ReadBehindIff(crc: Checksum, recs: seq<bytes>, q: bytes, cut: nat, p: bytes)
    requires AllLoggable(recs) && Loggable(q) && Loggable(p) && cut < |Frame(crc, q)|
    ensures var residue := Frame(crc, q)[..cut];
            var read := ScanTail(crc, residue + Frame(crc, p)).payloads;
            && Records(crc, HEADER + Frames(crc, recs) + residue + Frame(crc, p)) == recs + read
            && (p in read <==> Again(residue, Frame(crc, p)))
  {
    var residue := Frame(crc, q)[..cut];
    var tail := residue + Frame(crc, p);
    ScanFrames(crc, recs, tail);
    BehindHeader(Frames(crc, recs), residue, Frame(crc, p));
    if p in ScanTail(crc, tail).payloads {
      if cut < RECORD_OVERHEAD {
        FoundBehindShort(crc, residue, p);
      } else {
        FoundBehindLong(crc, q, cut, p);
      }
    }
    if Again(residue, Frame(crc, p)) {
      FoundIfAgain(crc, residue, p);
    }
  }

  lemma BehindHeader(a: bytes, b: bytes, c: bytes)
    ensures (HEADER + a + b + c)[HEADER_SIZE..] == a + (b + c)
  {
    assert |HEADER| == HEADER_SIZE;
  }

  // ----- The next document -----

  /** Copies held beyond those acknowledged. */
  ghost function Spare(e: Engine, s: State): multiset<bytes>
    requires |s.file| >= HEADER_SIZE
  {
    Bag(e, s.published) + multiset(Replayable(e, s.file)) - Bag(e, s.acked)
  }

  /** The log is whole records and a part of one more. */
  ghost predicate Trails(e: Engine, s: State, recs: seq<bytes>, residue: bytes) {
    && AllLoggable(recs) && s.file == HEADER + Frames(e.crc, recs) + residue
    && exists q: bytes :: Loggable(q) && |residue| < |Frame(e.crc, q)| && residue == Frame(e.crc, q)[..|residue|]
  }

  lemma TrailingReplay(e: Engine, s: State, recs: seq<bytes>, residue: bytes)
    requires Trails(e, s, recs, residue)
    ensures |s.file| >= HEADER_SIZE && Replayable(e, s.file) == Taken(e, recs)
  {
    var q: bytes :| Loggable(q) && |residue| < |Frame(e.crc, q)| && residue == Frame(e.crc, q)[..|residue|];
    ReplayTorn(e.crc, HEADER, recs, q, |residue|);
  }

  lemma {:induction false} TakenIff(e: Engine, ps: seq<bytes>, p: bytes)
    requires e.json.valid(p) && e.parse(p)
    ensures p in Taken(e, ps) <==> p in ps
  {
    if ps != [] {
      TakenIff(e, ps[1..], p);
    }
  }

  lemma OneMore<T>(a: multiset<T>, have: multiset<T>, more: multiset<T>, p: T)
    requires a <= have
    ensures a + multiset{p} <= have + more <==> p in more || p in have - a
  {
    if p in more || p in have - a {
      forall x
        ensures (a + multiset{p})[x] <= (have + more)[x]
      {
      }
    } else {
      assert (a + multiset{p})[p] > (have + more)[p];
    }
  }

  /** What a file with one more record behind the residue replays. */
  lemma ReplayBehind(e: Engine, s: State, recs: seq<bytes>, residue: bytes, p: bytes) returns (more: seq<bytes>)
    requires Trails(e, s, recs, residue) && Loggable(p) && e.json.valid(p) && e.parse(p)
    ensures |s.file| >= HEADER_SIZE && Replayable(e, s.file + Frame(e.crc, p)) == Taken(e, recs) + more
    ensures p in more <==> Again(residue, Frame(e.crc, p))
  {
    var q: bytes :| Loggable(q) && |residue| < |Frame(e.crc, q)| && residue == Frame(e.crc, q)[..|residue|];
    var read := ScanTail(e.crc, residue + Frame(e.crc, p)).payloads;
    ReadBehindIff(e.crc, recs, q, |residue|, p);
    TakenConcat(e, recs, read);
    TakenIff(e, read, p);
    more := Taken(e, read);
  }

  /** The next accepted document is durable if and only if its record is read, or a spare copy is held already. */
  lemma NextAddIff(e: Engine, s: State, recs: seq<bytes>, residue: bytes, d: bytes, due: bool)
    requires Sane(e) && Trails(e, s, recs, residue) && Durable(e, s) && !s.flushErr
    requires Accepted(e, d) && Loggable(Norm(e, d))
    ensures Durable(e, AfterAdd(e, s, d, due))
            <==> Again(residue, Frame(e.crc, Norm(e, d))) || Norm(e, d) in Spare(e, s)
  {
    var more := ReplayBehind(e, s, recs, residue, Norm(e, d));
    TrailingReplay(e, s, recs, residue);
    AddHolds(e, s, d, due);
    OneMoreHeld(e, s, d, Taken(e, recs), more);
  }

  lemma AddHolds(e: Engine, s: State, d: bytes, due: bool)
    requires Accepted(e, d) && !s.flushErr
    ensures var s' := AfterAdd(e, s, d, due);
            && s'.file == s.file + Frame(e.crc, Norm(e, d)) && s'.acked == s.acked + [d]
            && s'.published == s.published
  {
  }

  lemma OneMoreHeld(e: Engine, s: State, d: bytes, had: seq<bytes>, more: seq<bytes>)
    requires Bag(e, s.acked) <= Bag(e, s.published) + multiset(had)
    ensures Bag(e, s.acked + [d]) <= Bag(e, s.published) + multiset(had + more)
            <==> Norm(e, d) in more || Norm(e, d) in Bag(e, s.published) + multiset(had) - Bag(e, s.acked)
  {
    NormAllConcat(e, s.acked, [d]);
    assert NormAll(e, [d]) == [Norm(e, d)];
    BagOfConcat(had, more);
    Sums(Bag(e, s.published), multiset(had), multiset(more));
    OneMore(Bag(e, s.acked), Bag(e, s.published) + multiset(had), multiset(more), Norm(e, d));
  }

  lemma Sums<T>(a: multiset<T>, b: multiset<T>, c: multiset<T>)
    ensures a + (b + c) == (a + b) + c
  {
  }

  // ----- Residues of runs -----

  /** What is left behind the last whole record when only so many bytes of the frames are there. */
  function Residue(crc: Checksum, ps: seq<bytes>, cut: nat): bytes
    requires cut <= |Frames(crc, ps)|
  {
    if ps == [] then []
    else if cut < |Frame(crc, ps[0])| then Frame(crc, ps[0])[..cut]
    else Residue(crc, ps[1..], cut - |Frame(crc, ps[0])|)
  }

  lemma {:induction false} ResidueSplits(crc: Checksum, ps: seq<bytes>, cut: nat) returns (k: nat, q: bytes)
    requires cut <= |Frames(crc, ps)| && AllLoggable(ps)
    ensures k <= |ps| && Loggable(q) && |Residue(crc, ps, cut)| < |Frame(crc, q)|
    ensures Residue(crc, ps, cut) == Frame(crc, q)[..|Residue(crc, ps, cut)|]
    ensures Frames(crc, ps)[..cut] == Frames(crc, ps[..k]) + Residue(crc, ps, cut)
  {
    if ps == [] {
      k, q := 0, [];
    } else if cut < |Frame(crc, ps[0])| {
      k, q := 0, ps[0];
    } else {
      var n := |Frame(crc, ps[0])|;
      k, q := ResidueSplits(crc, ps[1..], cut - n);
      assert ps[..k + 1][1..] == ps[1..][..k];
      assert Frames(crc, ps)[..cut] == Frame(crc, ps[0]) + Frames(crc, ps[1..])[..cut - n];
      Assoc(Frame(crc, ps[0]), Frames(crc, ps[1..][..k]), Residue(crc, ps, cut));
      k := k + 1;
    }
  }

  /** A spill ends on a record boundary exactly when it leaves no residue. */
  lemma {:induction false} BoundaryIff(e: Engine, docs: seq<bytes>, cut: nat)
    requires cut <= |Encoded(e, docs)|
    ensures OnBoundary(e, docs, cut) <==> Residue(e.crc, NormAll(e, docs), cut) == []
  {
    if docs == [] {
      assert docs[..0] == [] && cut == |Encoded(e, docs[..0])|;
    } else {
      var first, later, ps := docs[0], docs[1..], NormAll(e, docs);
      var n := |Frame(e.crc, ps[0])|;
      assert ps[1..] == NormAll(e, later);
      if cut >= n {
        BoundaryIff(e, later, cut - n);
        BoundaryShifts(e, docs, cut);
      } else {
        ShortBoundary(e, docs, cut);
      }
    }
  }

  lemma FirstWeighs(e: Engine, docs: seq<bytes>, k: nat)
    requires 0 < k <= |docs|
    ensures |Encoded(e, docs[..k])| == |Frame(e.crc, Norm(e, docs[0]))| + |Encoded(e, docs[1..][..k - 1])|
  {
    var ps := NormAll(e, docs[..k]);
    assert ps[1..] == NormAll(e, docs[1..][..k - 1]);
  }

  lemma ShortBoundary(e: Engine, docs: seq<bytes>, cut: nat)
    requires docs != [] && cut < |Frame(e.crc, Norm(e, docs[0]))|
    ensures OnBoundary(e, docs, cut) <==> cut == 0
  {
    assert docs[..0] == [];
    if k: nat :| k <= |docs| && cut == |Encoded(e, docs[..k])| {
      if k > 0 {
        FirstWeighs(e, docs, k);
      }
    }
    if cut == 0 {
      assert cut == |Encoded(e, docs[..0])|;
    }
  }

  lemma BoundaryShifts(e: Engine, docs: seq<bytes>, cut: nat)
    requires docs != [] && cut >= |Frame(e.crc, Norm(e, docs[0]))|
    ensures OnBoundary(e, docs, cut) <==> OnBoundary(e, docs[1..], cut - |Frame(e.crc, Norm(e, docs[0]))|)
  {
    var n := |Frame(e.crc, Norm(e, docs[0]))|;
    if k: nat :| k <= |docs| && cut == |Encoded(e, docs[..k])| {
      assert docs[..0] == [];
      assert k > 0;
      FirstWeighs(e, docs, k);
      assert cut - n == |Encoded(e, docs[1..][..k - 1])|;
    }
    if k: nat :| k <= |docs[1..]| && cut - n == |Encoded(e, docs[1..][..k])| {
      FirstWeighs(e, docs, k + 1);
      assert cut == |Encoded(e, docs[..k + 1])|;
    }
  }

  /** A log of whole records grows by a part of further ones. */
  lemma PartlyWritten(e: Engine, s: State, recs: seq<bytes>, docs: seq<bytes>, cut: nat, s': State)
    returns (kept: seq<bytes>)
    requires AllLoggable(recs) && s.file == HEADER + Frames(e.crc, recs) && Fits(e, docs)
    requires cut <= |Encoded(e, docs)| && s'.file == s.file + Encoded(e, docs)[..cut]
    ensures Trails(e, s', recs + kept, Residue(e.crc, NormAll(e, docs), cut))
  {
    var ps := NormAll(e, docs);
    var k, q := ResidueSplits(e.crc, ps, cut);
    kept := ps[..k];
    FramesConcat(e.crc, recs, kept);
    Fourfold(HEADER, Frames(e.crc, recs), Frames(e.crc, kept), Residue(e.crc, ps, cut));
  }

  lemma Fourfold(a: bytes, b: bytes, c: bytes, d: bytes)
    ensures a + b + (c + d) == a + (b + c) + d
  {
  }

  /** Durable states stay so when the log grows by what replay reads and nothing else changes. */
  lemma StillDurable(e: Engine, s: State, recs: seq<bytes>, s': State, kept: seq<bytes>, residue: bytes)
    requires Durable(e, s) && s.file == HEADER + Frames(e.crc, recs) && AllLoggable(recs)
    requires Trails(e, s', recs + kept, residue) && s'.acked == s.acked && s'.published == s.published
    ensures Durable(e, s')
  {
    RecordsOfFrames(e.crc, recs);
    TrailingReplay(e, s', recs + kept, residue);
    TakenConcat(e, recs, kept);
    BagOfConcat(Taken(e, recs), Taken(e, kept));
  }

  /**
   * In every careful run that goes on with a refused batch, whatever has spilled of it, and an accepted document:
   * the document is durable if and only if its record is read again from the batch's residue on, or a spare copy
   * is held already.
   */
  lemma AddAfterSpillIff(e: Engine, states: seq<State>, steps: seq<Step>, n: nat)
    requires Sane(e) && Run(e, states, steps) && n + 2 <= |steps|
    requires forall i | 0 <= i < n :: Careful(e, states[i], steps[i])
    requires steps[n].AddBatch? && GoodPrefix(e, steps[n].docs) < |steps[n].docs| && Fits(e, steps[n].docs)
    requires !states[n].flushErr
    requires steps[n + 1].Add? && Accepted(e, steps[n + 1].raw) && Fits(e, [steps[n + 1].raw])
    ensures |states[n + 1].file| >= HEADER_SIZE && steps[n].spill <= |Encoded(e, Appended(e, steps[n].docs))|
    ensures var residue := Residue(e.crc, NormAll(e, Appended(e, steps[n].docs)), steps[n].spill);
            var p := Norm(e, steps[n + 1].raw);
            Durable(e, states[n + 2]) <==> Again(residue, Frame(e.crc, p)) || p in Spare(e, states[n + 1])
  {
    var s, docs, d := states[n], Appended(e, steps[n].docs), [steps[n + 1].raw];
    var l := PrefixKeeps(e, states, steps, n);
    assert Loggable(Norm(e, d[0]));
    AppendedFits(e, steps[n].docs);
    var kept := PartlyWritten(e, s, l.recs, docs, steps[n].spill, states[n + 1]);
    StillDurable(e, s, l.recs, states[n + 1], kept, Residue(e.crc, NormAll(e, docs), steps[n].spill));
    NextAddIff(e, states[n + 1], l.recs + kept, Residue(e.crc, NormAll(e, docs), steps[n].spill), d[0],
               steps[n + 1].due);
  }

  lemma AppendedFits(e: Engine, docs: seq<bytes>)
    requires Fits(e, docs)
    ensures Fits(e, Appended(e, docs))
  {
    var a := Appended(e, docs);
    assert forall i | 0 <= i < |a| :: a[i] == docs[i];
  }

  lemma PrefixKeeps(e: Engine, states: seq<State>, steps: seq<Step>, n: nat) returns (l: Ledger)
    requires Sane(e) && Run(e, states, steps) && n <= |steps|
    requires forall i | 0 <= i < n :: Careful(e, states[i], steps[i])
    ensures Inv(e, states[n], l) && Durable(e, states[n])
  {
    l := RunKeeps(e, states[..n + 1], steps[..n], n);
    RecordsOfFrames(e.crc, l.recs);
  }

  /** What reopening leaves of a residue: a whole record header is recognised and cut off. */
  function Reopened(residue: bytes): bytes {
    if |residue| < RECORD_OVERHEAD then residue else []
  }

  /** The same for a careful run that goes on with a crash, wherever it cuts, and an accepted document. */
  lemma AddAfterCrashIff(e: Engine, states: seq<State>, steps: seq<Step>, n: nat)
    requires Sane(e) && Run(e, states, steps) && n + 2 <= |steps|
    requires forall i | 0 <= i < n :: Careful(e, states[i], steps[i])
    requires steps[n].Crash? && Fits(e, steps[n].writing)
    requires steps[n + 1].Add? && Accepted(e, steps[n + 1].raw) && Fits(e, [steps[n + 1].raw])
    ensures |states[n + 1].file| >= HEADER_SIZE && steps[n].cut <= |Encoded(e, steps[n].writing)|
    ensures var residue := Reopened(Residue(e.crc, NormAll(e, steps[n].writing), steps[n].cut));
            var p := Norm(e, steps[n + 1].raw);
            Durable(e, states[n + 2]) <==> Again(residue, Frame(e.crc, p)) || p in Spare(e, states[n + 1])
  {
    var s, d := states[n], [steps[n + 1].raw];
    var l := PrefixKeeps(e, states, steps, n);
    assert Loggable(Norm(e, d[0]));
    var torn := s.(file := TornFile(e, s, steps[n].writing, steps[n].cut));
    var residue := Residue(e.crc, NormAll(e, steps[n].writing), steps[n].cut);
    var kept := PartlyWritten(e, s, l.recs, steps[n].writing, steps[n].cut, torn);
    StillTrails(e, torn, states[n + 1], l.recs + kept, residue);
    StillDurable(e, s, l.recs, states[n + 1], kept, Reopened(residue));
    NextAddIff(e, states[n + 1], l.recs + kept, Reopened(residue), d[0], steps[n + 1].due);
  }

  lemma StillTrails(e: Engine, torn: State, s': State, recs: seq<bytes>, residue: bytes)
    requires Trails(e, torn, recs, residue) && |torn.file| >= HEADER_SIZE && s'.file == Repaired(e.crc, torn.file)
    ensures Trails(e, s', recs, Reopened(residue))
  {
    var q: bytes :| Loggable(q) && |residue| < |Frame(e.crc, q)| && residue == Frame(e.crc, q)[..|residue|];
    ReplayTorn(e.crc, HEADER, recs, q, |residue|);
    PlusNothing(HEADER + Frames(e.crc, recs));
    if |residue| >= RECORD_OVERHEAD {
      assert [] == Frame(e.crc, q)[..0];
    }
  }
}
