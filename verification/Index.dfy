/**
 * The index object. Its methods hold the mutex, so each is one step of the
 * ingest state machine; the ghost argument s is the machine's state, of which
 * the object holds the log, the memtable and the background flush.
 */
module Index {
  import opened Bytes
  import opened WalLog
  import opened Wal
  import opened Migration
  import opened Ingest
  import opened Sequences
  import D = Durability

  lemma {:induction false} GoodPrefixIs(e: Engine, docs: seq<bytes>, k: nat)
    requires k <= |docs| && (forall i | 0 <= i < k :: Accepted(e, docs[i]))
    requires k < |docs| ==> !Accepted(e, docs[k])
    ensures GoodPrefix(e, docs) == k
  {
    if k > 0 {
      GoodPrefixIs(e, docs[1..], k - 1);
    }
  }

  lemma EncodedSnoc(e: Engine, docs: seq<bytes>, d: bytes)
    ensures Encoded(e, docs + [d]) == Encoded(e, docs) + Frame(e.crc, Norm(e, d))
  {
    D.NormAllConcat(e, docs, [d]);
    FramesConcat(e.crc, NormAll(e, docs), NormAll(e, [d]));
    D.EncodedOne(e, d);
  }

  /** What the memtable takes of a list of payloads. */
  function Parsed(parse: bytes -> bool, ps: seq<bytes>): seq<bytes> {
    if ps == [] then []
    else Parsed(parse, ps[..|ps| - 1]) + if parse(ps[|ps| - 1]) then [ps[|ps| - 1]] else []
  }

  lemma ParsedNext(parse: bytes -> bool, ps: seq<bytes>, i: nat)
    requires i < |ps|
    ensures Parsed(parse, ps[..i + 1])
         == if parse(ps[i]) then Parsed(parse, ps[..i]) + [ps[i]] else Parsed(parse, ps[..i])
  {
    assert ps[..i + 1][..i] == ps[..i];
  }

  lemma {:induction false} ParsedConcat(parse: bytes -> bool, a: seq<bytes>, b: seq<bytes>)
    ensures Parsed(parse, a + b) == Parsed(parse, a) + Parsed(parse, b)
  {
    if b == [] {
      assert a + b == a;
    } else {
      assert (a + b)[..|a + b| - 1] == a + b[..|b| - 1];
      ParsedConcat(parse, a, b[..|b| - 1]);
    }
  }

  /** Replaying, then adding what the memtable accepts, takes what Taken says. */
  lemma {:induction false} ParsedValid(e: Engine, ps: seq<bytes>)
    ensures Parsed(e.parse, ValidOnly(e.json.valid, ps)) == Taken(e, ps)
  {
    if ps != [] {
      var head: seq<bytes> := if e.json.valid(ps[0]) then [ps[0]] else [];
      ParsedConcat(e.parse, head, ValidOnly(e.json.valid, ps[1..]));
      ParsedValid(e, ps[1..]);
      assert Parsed(e.parse, head) == if e.json.valid(ps[0]) && e.parse(ps[0]) then [ps[0]] else [] by {
        if head != [] {
          assert head[..0] == [];
        }
      }
    }
  }

  /** Some documents of a batch have been appended to a log that held the bytes before. */
  ghost predicate Pending(e: Engine, before: bytes, docs: seq<bytes>, file: bytes, buf: bytes) {
    && file + buf == before + Encoded(e, docs) && before <= file
    && (file == before <==> |Encoded(e, docs)| <= BUFFER_SIZE)
  }

  lemma PendingNext(e: Engine, before: bytes, docs: seq<bytes>, d: bytes, file: bytes, buf: bytes,
                    file': bytes, buf': bytes)
    requires Pending(e, before, docs, file, buf) && |buf| <= BUFFER_SIZE
    requires var frame := Frame(e.crc, Norm(e, d));
             && file' + buf' == file + buf + frame && file <= file'
             && (file' == file <==> |buf| + |frame| <= BUFFER_SIZE)
    ensures Pending(e, before, docs + [d], file', buf')
  {
    EncodedSnoc(e, docs, d);
    Assoc(before, Encoded(e, docs), Frame(e.crc, Norm(e, d)));
    if file == before {
      assert |buf| == |Encoded(e, docs)|;
    }
  }

  /** EstimatedBytes: the total length of the documents. */
  function TotalBytes(docs: seq<bytes>): nat {
    if docs == [] then 0 else TotalBytes(docs[..|docs| - 1]) + |docs[|docs| - 1]|
  }

  lemma TotalNext(docs: seq<bytes>, d: bytes)
    ensures TotalBytes(docs + [d]) == TotalBytes(docs) + |d|
  {
    assert (docs + [d])[..|docs|] == docs;
  }

  /** Enough documents, enough bytes, or long enough since the last flush. */
  predicate Full(docs: seq<bytes>, maxDocs: nat, maxBytes: nat, aged: bool) {
    |docs| >= maxDocs || TotalBytes(docs) >= maxBytes || aged
  }

  /** The background flush among the flights, of which there is at most one. */
  ghost predicate InFlight(fs: seq<Flight>, flushing: Option<seq<bytes>>, off: nat) {
    && (flushing.Some? <==> exists f <- fs :: f.background)
    && (forall i | 0 <= i < |fs| && fs[i].background :: flushing == Some(fs[i].snap) && off == fs[i].off)
    && (forall i, j | 0 <= i < j < |fs| :: !(fs[i].background && fs[j].background))
  }

  class Index {
    const e: Engine
    const wal: WAL
    const maxDocs: nat
    const maxBytes: nat
    var memtable: seq<bytes>
    var rawBytes: nat
    var flushing: Option<seq<bytes>>
    var flushOff: nat
    var flushErr: bool

    ghost predicate Valid()
      reads this, wal
    {
      wal.Valid() && wal.buf == [] && wal.crc == e.crc && wal.json == e.json && rawBytes == TotalBytes(memtable)
    }

    /**
     * After an accepted call that left these documents held: they wait in the memtable, or, if a flush is due and
     * none was in the background before, a flush has taken them all.
     */
    ghost predicate Taken(held: seq<bytes>, due: bool, flight: Option<seq<bytes>>, off: nat)
      reads this, wal
    {
      if due && flight.None? then memtable == [] && flushing == Some(held) && flushOff == |wal.file|
      else memtable == held && flushing == flight && flushOff == off
    }

    /** The object is what the machine's state says it is. */
    ghost predicate Shows(s: State)
      reads this, wal
    {
      && Valid()
      && s.file == wal.file && s.memtable == memtable && s.flushErr == flushErr
      && InFlight(s.flights, flushing, flushOff)
    }

    /** The memtable is what the log replays. */
    constructor (e: Engine, wal: WAL, maxDocs: nat, maxBytes: nat)
      requires wal.Valid() && wal.buf == [] && wal.crc == e.crc && wal.json == e.json
      modifies wal
      ensures Valid() && this.e == e && this.wal == wal && flushing.None? && !flushErr
      ensures this.maxDocs == maxDocs && this.maxBytes == maxBytes
      ensures wal.file == Repaired(e.crc, old(wal.file)) && memtable == Replayable(e, old(wal.file))
    {
      this.e, this.wal, this.maxDocs, this.maxBytes := e, wal, maxDocs, maxBytes;
      memtable, rawBytes, flushing, flushOff, flushErr := [], 0, None, 0, false;
      new;
      var empty := wal.IsEmpty();
      if !empty {
        ReplayLog();
      } else {
        assert wal.file[HEADER_SIZE..] == [];
      }
    }

    /**
     * Open: the log is opened and repaired and the memtable is what it replays, which on the file a crash left
     * is the machine's crash step. Null is an error.
     */
    static method Open(e: Engine, existing: bytes, maxDocs: nat, maxBytes: nat) returns (idx: Index?)
      ensures idx == null <==> OpenedFile(e.crc, e.json.compact, e.json.valid, existing).None?
      ensures idx != null ==> fresh(idx) && fresh(idx.wal) && idx.Valid() && idx.e == e
      ensures idx != null ==> idx.maxDocs == maxDocs && idx.maxBytes == maxBytes && idx.flushing.None? && !idx.flushErr
      ensures idx != null ==>
                var file := OpenedFile(e.crc, e.json.compact, e.json.valid, existing).value;
                idx.wal.file == Repaired(e.crc, file) && idx.memtable == Replayable(e, file)
      ensures existing == [] ==> idx.Shows(Initial)
      ensures |existing| >= HEADER_SIZE && GetU32(existing) == MAGIC ==> forall s, writing, cut ::
                Enabled(e, s, Step.Crash(writing, cut)) && existing == TornFile(e, s, writing, cut) ==>
                  idx.Shows(AfterCrash(e, s, writing, cut))
    {
      var wal := WAL.Open(existing, e.crc, e.json);
      if wal == null {
        return null;
      }
      idx := new Index(e, wal, maxDocs, maxBytes);
      assert HEADER[HEADER_SIZE..] == [];
    }

    method ReplayLog()
      requires Valid() && memtable == []
      modifies this`memtable, this`rawBytes, wal
      ensures Valid() && wal.file == Repaired(e.crc, old(wal.file))
      ensures memtable == Replayable(e, old(wal.file))
    {
      var delivered := wal.Replay();
      var i := 0;
      while i < |delivered|
        invariant 0 <= i <= |delivered| && memtable == Parsed(e.parse, delivered[..i])
        invariant Valid() && wal.file == Repaired(e.crc, old(wal.file))
      {
        var _ := MemtableAdd(delivered[i]);
        ParsedNext(e.parse, delivered, i);
        i := i + 1;
      }
      assert delivered[..i] == delivered;
      ParsedValid(e, Records(e.crc, old(wal.file)));
    }

    /** Memtable.Add, as far as ingest sees it. */
    method MemtableAdd(rawJSON: bytes) returns (ok: bool)
      requires rawBytes == TotalBytes(memtable)
      modifies this`memtable, this`rawBytes
      ensures ok == e.parse(rawJSON) && rawBytes == TotalBytes(memtable)
      ensures memtable == if ok then old(memtable) + [rawJSON] else old(memtable)
    {
      ok := e.parse(rawJSON);
      if ok {
        TotalNext(memtable, rawJSON);
        memtable := memtable + [rawJSON];
        rawBytes := rawBytes + |rawJSON|;
      }
    }

    method ShouldFlush(aged: bool) returns (due: bool)
      requires rawBytes == TotalBytes(memtable)
      ensures due == Full(memtable, maxDocs, maxBytes, aged)
    {
      due := |memtable| >= maxDocs || rawBytes >= maxBytes || aged;
    }

    method ConsumeFlushErr() returns (err: bool)
      modifies this`flushErr
      ensures err == old(flushErr) && !flushErr
    {
      err := flushErr;
      flushErr := false;
    }

    method TriggerAsyncFlush(ghost s: State)
      requires Shows(s) && flushing.None?
      modifies this`memtable, this`rawBytes, this`flushing, this`flushOff, wal
      ensures Shows(Launch(s, true)) && wal.file == old(wal.file)
      ensures memtable == [] && flushing == Some(old(memtable)) && flushOff == |wal.file|
    {
      var walOff := wal.Position();
      var snap := memtable;
      memtable, rawBytes := [], 0;
      flushing := Some(snap);
      flushOff := walOff;
      ghost var s' := Launch(s, true);
      assert s'.flights[|s.flights|].background;
    }

    method TriggerIfDue(due: bool, ghost s: State)
      requires Shows(s)
      modifies this`memtable, this`rawBytes, this`flushing, this`flushOff, wal
      ensures Shows(LaunchIfDue(s, due)) && wal.file == old(wal.file)
      ensures Taken(old(memtable), due, old(flushing), old(flushOff))
    {
      if due && flushing.None? {
        TriggerAsyncFlush(s);
      }
    }

    method Add(rawJSON: bytes, aged: bool, ghost s: State) returns (ok: bool, due: bool)
      requires Shows(s)
      modifies this, wal
      ensures Shows(AfterAdd(e, s, rawJSON, due))
      ensures ok == (!old(flushErr) && Accepted(e, rawJSON)) && !flushErr
      ensures AfterAdd(e, s, rawJSON, due).acked == s.acked + if ok then [rawJSON] else []
      ensures due == (ok && Full(old(memtable) + [rawJSON], maxDocs, maxBytes, aged))
      ensures ok ==> Taken(old(memtable) + [rawJSON], due, old(flushing), old(flushOff))
      ensures !ok ==> Taken(old(memtable), false, old(flushing), old(flushOff))
      ensures wal.file == if !old(flushErr) && e.json.compact(rawJSON).Some?
                          then old(wal.file) + Frame(e.crc, Norm(e, rawJSON)) else old(wal.file)
    {
      due := false;
      var err := ConsumeFlushErr();
      if err {
        return false, due;
      }
      ghost var now;
      ok, now := LogAndKeep(rawJSON, s);
      if !ok {
        return;
      }
      due := ShouldFlush(aged);
      TriggerIfDue(due, now);
    }

    /** The document to the log and to the memtable. */
    method LogAndKeep(rawJSON: bytes, ghost s: State) returns (ok: bool, ghost now: State)
      requires Shows(s) && !s.flushErr
      modifies this`memtable, this`rawBytes, wal
      ensures Shows(now) && ok == Accepted(e, rawJSON)
      ensures e.json.compact(rawJSON).None? ==> now == s
      ensures e.json.compact(rawJSON).Some? ==>
                var logged := s.(file := s.file + Frame(e.crc, Norm(e, rawJSON)));
                now == if !ok then logged
                       else logged.(memtable := s.memtable + [rawJSON], acked := s.acked + [rawJSON])
    {
      now := s;
      ok := wal.Append(rawJSON);
      if !ok {
        return;
      }
      wal.Flush();
      now := s.(file := s.file + Frame(e.crc, Norm(e, rawJSON)));
      ok := MemtableAdd(rawJSON);
      if ok {
        now := now.(memtable := s.memtable + [rawJSON], acked := s.acked + [rawJSON]);
      }
    }

    method AddBatch(docs: seq<bytes>, aged: bool, ghost s: State) returns (ok: bool, due: bool, ghost spill: nat)
      requires Shows(s)
      modifies this, wal
      ensures Enabled(e, s, Step.AddBatch(docs, due, spill)) && Shows(AfterAddBatch(e, s, docs, due, spill))
      ensures ok == (!old(flushErr) && GoodPrefix(e, docs) == |docs|) && !flushErr
      ensures AfterAddBatch(e, s, docs, due, spill).acked == s.acked + if ok then docs else []
      ensures due == (ok && Full(old(memtable) + docs, maxDocs, maxBytes, aged))
      ensures ok ==> Taken(old(memtable) + docs, due, old(flushing), old(flushOff))
      ensures old(flushErr) ==> Taken(old(memtable), false, old(flushing), old(flushOff))
      ensures !old(flushErr) && !ok ==>
                Taken(old(memtable) + docs[..GoodPrefix(e, docs)], false, old(flushing), old(flushOff))
    {
      due := false;
      var err := ConsumeFlushErr();
      if err {
        spill := BatchSpill(docs);
        return false, due, spill;
      }
      ok, spill := AppendEach(docs, s);
      if !ok {
        return;
      }
      wal.Flush();
      due := ShouldFlush(aged);
      TriggerIfDue(due, s.(file := s.file + Encoded(e, docs), memtable := s.memtable + docs, acked := s.acked + docs));
    }

    /** The object after a batch was refused, the step's effect on the machine included. */
    ghost predicate Refused(docs: seq<bytes>, s: State, spill: nat)
      reads this, wal
    {
      && Valid() && GoodPrefix(e, docs) < |docs| && memtable == s.memtable + docs[..GoodPrefix(e, docs)]
      && forall due ::
           && Enabled(e, s, Step.AddBatch(docs, due, spill))
           && AfterAddBatch(e, s, docs, due, spill)
              == s.(file := wal.file, memtable := memtable, strays := s.strays || GoodPrefix(e, docs) > 0)
    }

    /** The first documents of a batch are accepted, appended and in the memtable. */
    ghost predicate Batched(docs: seq<bytes>, i: nat, s: State)
      requires i <= |docs|
      reads this, wal
    {
      && wal.Valid() && wal.crc == e.crc && wal.json == e.json && Pending(e, s.file, docs[..i], wal.file, wal.buf)
      && memtable == s.memtable + docs[..i] && rawBytes == TotalBytes(memtable)
      && forall j | 0 <= j < i :: Accepted(e, docs[j])
    }

    /** The batch's loop: every document to the log and the memtable, until one is refused. */
    method AppendEach(docs: seq<bytes>, ghost s: State) returns (ok: bool, ghost spill: nat)
      requires Valid() && s.file == wal.file && s.memtable == memtable && !s.flushErr
      modifies this`memtable, this`rawBytes, wal
      ensures ok ==> wal.Valid() && wal.file + wal.buf == s.file + Encoded(e, docs) && memtable == s.memtable + docs
      ensures ok ==> rawBytes == TotalBytes(memtable)
      ensures ok ==> GoodPrefix(e, docs) == |docs|
      ensures !ok ==> Refused(docs, s, spill)
    {
      NoneBatched(docs, s);
      var i := 0;
      while i < |docs|
        invariant 0 <= i <= |docs| && Batched(docs, i, s)
      {
        ok, spill := AppendOne(docs, i, s);
        if !ok {
          return;
        }
        i := i + 1;
      }
      GoodPrefixIs(e, docs, |docs|);
      Whole(docs);
      ok, spill := true, 0;
    }

    lemma NoneBatched(docs: seq<bytes>, s: State)
      requires Valid() && s.file == wal.file && s.memtable == memtable
      ensures Batched(docs, 0, s)
    {
      assert docs[..0] == [];
      PlusNothing(s.memtable);
      assert Encoded(e, []) == [];
      PlusNothing(s.file);
    }

    /** One round of the loop. */
    method AppendOne(docs: seq<bytes>, i: nat, ghost s: State) returns (ok: bool, ghost spill: nat)
      requires i < |docs| && !s.flushErr && Batched(docs, i, s)
      modifies this`memtable, this`rawBytes, wal
      ensures ok ==> Batched(docs, i + 1, s)
      ensures !ok ==> Refused(docs, s, spill)
    {
      NextPrefix(docs, i);
      ghost var file, buf := wal.file, wal.buf;
      ok := wal.Append(docs[i]);
      if !ok {
        spill := Failed(docs, i, docs[..i], s);
        return;
      }
      PendingNext(e, s.file, docs[..i], docs[i], file, buf, wal.file, wal.buf);
      ok := MemtableAdd(docs[i]);
      if !ok {
        spill := Failed(docs, i, docs[..i + 1], s);
        return;
      }
      NextBehind(s.memtable, docs, i);
      spill := 0;
    }

    /** Any admissible spill, for a batch that writes nothing. */
    ghost method BatchSpill(docs: seq<bytes>) returns (spill: nat)
      ensures forall s, due :: Enabled(e, s, Step.AddBatch(docs, due, spill))
    {
      var pending := |Encoded(e, Appended(e, docs))|;
      spill := if pending <= BUFFER_SIZE then 0 else pending;
    }

    /** The batch stops at document k: what is still buffered is discarded. */
    method Failed(docs: seq<bytes>, k: nat, ghost appended: seq<bytes>, ghost s: State) returns (ghost spill: nat)
      requires k < |docs| && (forall j | 0 <= j < k :: Accepted(e, docs[j])) && !Accepted(e, docs[k])
      requires appended == if e.json.compact(docs[k]).Some? then docs[..k + 1] else docs[..k]
      requires wal.Valid() && wal.crc == e.crc && wal.json == e.json && !s.flushErr
      requires Pending(e, s.file, appended, wal.file, wal.buf) && memtable == s.memtable + docs[..k]
      requires rawBytes == TotalBytes(memtable)
      modifies wal
      ensures Refused(docs, s, spill)
    {
      GoodPrefixIs(e, docs, k);
      assert Appended(e, docs) == appended;
      spill := |wal.file| - |s.file|;
      assert wal.file == (wal.file + wal.buf)[..|wal.file|];
      assert wal.file == s.file + Encoded(e, appended)[..spill];
      wal.DiscardBuffer();
    }

    /** flushAsync after runFlush: an error is kept for the next caller, success cuts the log. */
    method FinishAsyncFlush(err: bool, ghost s: State, ghost i: nat)
      requires Shows(s) && i < |s.flights| && s.flights[i].background
      modifies this, wal
      ensures Shows(if err then AfterFail(s, i) else AfterTruncate(s, i))
      ensures flushing.None? && memtable == old(memtable) && flushErr == (old(flushErr) || err)
      ensures wal.file == if err then old(wal.file) else PrefixRemoved(old(wal.file), old(flushOff))
    {
      if err {
        flushErr := true;
      } else {
        wal.TruncatePrefix(flushOff);
      }
      flushing := None;
      ghost var rest := Without(s, i).flights;
      assert forall j | 0 <= j < |rest| :: !rest[j].background;
    }

    /** FlushNow up to its snapshot, once no background flush is running. */
    method FlushNowBegin(ghost s: State) returns (start: bool, snap: seq<bytes>, walOff: nat)
      requires Shows(s) && flushing.None?
      modifies this, wal
      ensures Shows(AfterFlushNow(s))
      ensures start ==> AfterFlushNow(s).flights == s.flights + [Flight(snap, walOff, false, false)]
      ensures !start ==> AfterFlushNow(s).flights == s.flights
      ensures start == (!old(flushErr) && old(memtable) != []) && !flushErr && wal.file == old(wal.file)
      ensures if start then memtable == [] && snap == old(memtable) && walOff == |wal.file|
              else memtable == old(memtable)
    {
      start, snap, walOff := false, [], 0;
      var err := ConsumeFlushErr();
      if err || |memtable| == 0 {
        return;
      }
      start := true;
      walOff := wal.Position();
      snap := memtable;
      memtable, rawBytes := [], 0;
    }

    /** FlushNow after runFlush succeeded; the offset is the caller's own. */
    method FlushNowEnd(walOff: nat, ghost s: State, ghost i: nat)
      requires Shows(s) && i < |s.flights| && !s.flights[i].background && walOff == s.flights[i].off
      modifies wal
      ensures Shows(AfterTruncate(s, i)) && wal.file == PrefixRemoved(old(wal.file), walOff)
    {
      wal.TruncatePrefix(walOff);
      OthersStay(s, i);
    }

    /** FlushNow after runFlush failed leaves the index as it is. */
    lemma FlushNowFailed(s: State, i: nat)
      requires Shows(s) && i < |s.flights| && !s.flights[i].background
      ensures Shows(AfterFail(s, i))
    {
      OthersStay(s, i);
    }

    /** Removing a foreground flush does not touch the background one. */
    lemma OthersStay(s: State, i: nat)
      requires i < |s.flights| && !s.flights[i].background
      ensures Background(Without(s, i)) == Background(s)
      ensures forall j | 0 <= j < |s.flights| - 1 ::
                Without(s, i).flights[j] == s.flights[if j < i then j else j + 1]
    {
      var rest := Without(s, i).flights;
      if Background(s) {
        var j :| 0 <= j < |s.flights| && s.flights[j].background;
        assert rest[if j < i then j else j - 1] == s.flights[j];
      }
    }
  }
}
