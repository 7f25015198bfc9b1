/**
 * Why each condition on careful runs is there: for every engine and every choice
 * of documents, a run that breaks one of them and loses an acknowledged document.
 */
module LossTraces {
  import opened Bytes
  import opened Sequences
  import opened WalLog
  import opened Wal
  import opened Ingest
  import opened Durability
  import opened Residues

  lemma HeaderHoldsNothing(e: Engine)
    ensures |HEADER| == HEADER_SIZE && Replayable(e, HEADER) == []
  {
    assert HEADER[HEADER_SIZE..] == [];
  }

  /** More acknowledged documents than are published or replayable. */
  lemma Outnumbered(e: Engine, s: State)
    requires |s.file| >= HEADER_SIZE && |s.acked| > |s.published| + |Replayable(e, s.file)|
    ensures !Durable(e, s)
  {
    var a, p, r := Bag(e, s.acked), Bag(e, s.published), multiset(Replayable(e, s.file));
    SubBagSize(a, p + r);
    assert |a| == |s.acked| && |p + r| == |s.published| + |Replayable(e, s.file)|;
  }

  lemma SubBagSize<T>(a: multiset<T>, b: multiset<T>)
    ensures a <= b ==> |a| <= |b|
  {
    if a <= b {
      assert b == a + (b - a);
    }
  }

  ghost predicate Usable(e: Engine, d: bytes) {
    Accepted(e, d) && Fits(e, [d])
  }

  ghost predicate Moves(e: Engine, s: State, step: Step, s': State) {
    Enabled(e, s, step) && Apply(e, s, step) == s'
  }

  /** A step of a careful run. */
  ghost predicate Fine(e: Engine, s: State, step: Step, s': State) {
    Moves(e, s, step, s') && Careful(e, s, step)
  }

  /** A step that breaks a condition. */
  ghost predicate Reckless(e: Engine, s: State, step: Step, s': State) {
    Moves(e, s, step, s') && !Careful(e, s, step)
  }

  /** Adding an accepted document while no background flush runs. */
  lemma Adds(e: Engine, s: State, d: bytes, due: bool)
    requires Usable(e, d) && !s.flushErr && forall i | 0 <= i < |s.flights| :: !s.flights[i].background
    ensures var file := s.file + Frame(e.crc, Norm(e, d));
            var docs := s.memtable + [d];
            Moves(e, s, Add(d, due),
                  if due then s.(file := file, memtable := [], acked := s.acked + [d], strays := false,
                                 flights := s.flights + [Flight(docs, |file|, true, false)])
                  else s.(file := file, memtable := docs, acked := s.acked + [d]))
  {
  }

  lemma Publishes(e: Engine, s: State, f: Flight, rest: seq<Flight>)
    requires s.flights == [f] + rest && !f.published
    ensures Moves(e, s, Publish(0),
                  s.(flights := [f.(published := true)] + rest, published := s.published + f.snap))
  {
    assert s.flights[0 := f.(published := true)] == [f.(published := true)] + rest;
  }

  lemma Cuts(e: Engine, s: State, f: Flight, rest: seq<Flight>)
    requires s.flights == [f] + rest && f.published
    ensures Moves(e, s, Truncate(0), s.(flights := rest, file := PrefixRemoved(s.file, f.off)))
  {
    assert s.flights[..0] + s.flights[1..] == rest;
  }

  lemma Fails(e: Engine, s: State, f: Flight)
    requires s.flights == [f] && !f.published && f.background
    ensures Moves(e, s, Fail(0), s.(flights := [], flushErr := true, lost := s.lost + f.snap))
  {
    assert s.flights[..0] + s.flights[1..] == [];
  }

  /** The log is cut although an earlier flush failed: its document is in no segment and no log. */
  lemma TruncateAfterFailedFlushLoses(e: Engine, a: bytes, b: bytes)
    returns (s1: State, s2: State, s3: State, s4: State, s5: State, s6: State)
    requires Usable(e, a) && Usable(e, b)
    ensures Fine(e, Initial, Add(a, true), s1)
    ensures Fine(e, s1, Fail(0), s2)
    ensures Fine(e, s2, Add(b, true), s3)
    ensures Fine(e, s3, Add(b, true), s4)
    ensures Fine(e, s4, Publish(0), s5)
    ensures Reckless(e, s5, Truncate(0), s6)
    ensures !Durable(e, s6)
  {
    s1, s2, s3 := FlushFails(e, a, b);
    s4, s5, s6 := NextFlushCuts(e, s3, b);
    HeaderHoldsNothing(e);
    Outnumbered(e, s6);
  }

  /** The next document is flushed, and its flush cuts the whole log. */
  lemma NextFlushCuts(e: Engine, s: State, d: bytes) returns (s1: State, s2: State, s3: State)
    requires Usable(e, d) && |s.file| >= HEADER_SIZE && s.lost != []
    requires s == State(s.file, [], [], false, [], s.acked, s.lost, false)
    ensures Fine(e, s, Add(d, true), s1)
    ensures Fine(e, s1, Publish(0), s2)
    ensures Reckless(e, s2, Truncate(0), s3)
    ensures s3 == State(HEADER, [], [], false, [d], s.acked + [d], s.lost, false)
  {
    var file := s.file + Frame(e.crc, Norm(e, d));
    var f := Flight([d], |file|, true, false);
    s1 := State(file, [], [f], false, [], s.acked + [d], s.lost, false);
    s2 := State(file, [], [f.(published := true)], false, [d], s.acked + [d], s.lost, false);
    s3 := State(HEADER, [], [], false, [d], s.acked + [d], s.lost, false);
    AddFlushes(e, s, d);
    PlusNothing([f]);
    Publishes(e, s1, f, []);
    PlusNothing([f.(published := true)]);
    Cuts(e, s2, f.(published := true), []);
  }

  /** A background flush fails, and the next caller gets the error. */
  lemma FlushFails(e: Engine, a: bytes, b: bytes) returns (s1: State, s2: State, s3: State)
    requires Usable(e, a) && Usable(e, b)
    ensures Fine(e, Initial, Add(a, true), s1)
    ensures Fine(e, s1, Fail(0), s2)
    ensures Fine(e, s2, Add(b, true), s3)
    ensures s3 == State(HEADER + Frame(e.crc, Norm(e, a)), [], [], false, [], [a], [a], false)
  {
    var one := HEADER + Frame(e.crc, Norm(e, a));
    var f := Flight([a], |one|, true, false);
    s1 := State(one, [], [f], false, [], [a], [], false);
    s2 := State(one, [], [], true, [], [a], [a], false);
    s3 := State(one, [], [], false, [], [a], [a], false);
    AddFlushes(e, Initial, a);
    Fails(e, s1, f);
  }

  /** Adding an accepted document to an idle index that is due for a flush. */
  lemma AddFlushes(e: Engine, s: State, d: bytes)
    requires Usable(e, d) && !s.flushErr && s.memtable == [] && s.flights == [] && !s.strays
    ensures var file := s.file + Frame(e.crc, Norm(e, d));
            Fine(e, s, Add(d, true),
                 s.(file := file, flights := [Flight([d], |file|, true, false)], acked := s.acked + [d]))
  {
    Adds(e, s, d, true);
    assert s.memtable + [d] == [d];
    var f := Flight([d], |s.file + Frame(e.crc, Norm(e, d))|, true, false);
    assert s.flights + [f] == [f];
  }

  lemma AddsQuietly(e: Engine, s: State, d: bytes)
    requires Usable(e, d) && !s.flushErr
    ensures Fine(e, s, Add(d, false),
                 s.(file := s.file + Frame(e.crc, Norm(e, d)), memtable := s.memtable + [d], acked := s.acked + [d]))
  {
  }

  lemma FlushNowStarts(e: Engine, s: State)
    requires !s.flushErr && s.memtable != [] && s.flights == [] && !s.strays
    ensures Fine(e, s, FlushNow, s.(memtable := [], flights := [Flight(s.memtable, |s.file|, false, false)]))
  {
  }

  lemma NotBackground(s: State)
    requires |s.flights| == 1 && !s.flights[0].background
    ensures !Background(s)
  {
    forall f <- s.flights
      ensures !f.background
    {
      assert f == s.flights[0];
    }
  }

  lemma AddOverlaps(e: Engine, s: State, x: Flight, d: bytes)
    requires Usable(e, d) && !s.flushErr && s.memtable == [] && s.flights == [x] && !x.background && !s.strays
    ensures var file := s.file + Frame(e.crc, Norm(e, d));
            Reckless(e, s, Add(d, true),
                     s.(file := file, flights := [x, Flight([d], |file|, true, false)], acked := s.acked + [d]))
  {
    Adds(e, s, d, true);
    assert s.memtable + [d] == [d];
    var f := Flight([d], |s.file + Frame(e.crc, Norm(e, d))|, true, false);
    assert s.flights + [f] == [x, f];
    NotBackground(s);
  }

  /** A background flush starts while FlushNow is between its snapshot and its truncation. */
  lemma FlushesOverlap(e: Engine, a: bytes, b: bytes) returns (s1: State, s2: State, s3: State)
    requires Usable(e, a) && Usable(e, b)
    ensures Fine(e, Initial, Add(a, false), s1)
    ensures Fine(e, s1, FlushNow, s2)
    ensures Reckless(e, s2, Add(b, true), s3)
    ensures var one, two := HEADER + Frame(e.crc, Norm(e, a)), s3.file;
            && two == one + Frame(e.crc, Norm(e, b))
            && s3 == State(two, [], [Flight([a], |one|, false, false), Flight([b], |two|, true, false)],
                           false, [], [a, b], [], false)
  {
    var one := HEADER + Frame(e.crc, Norm(e, a));
    var two := one + Frame(e.crc, Norm(e, b));
    var x := Flight([a], |one|, false, false);
    s1 := State(one, [a], [], false, [], [a], [], false);
    s2 := State(one, [], [x], false, [], [a], [], false);
    s3 := State(two, [], [x, Flight([b], |two|, true, false)], false, [], [a, b], [], false);
    AddsQuietly(e, Initial, a);
    FlushNowStarts(e, s1);
    AddOverlaps(e, s2, x, b);
  }

  /**
   * The background flush cuts the log first, at the end of it: the document FlushNow has not published yet is in no
   * segment and no log, and stays lost when FlushNow fails.
   */
  lemma EarlyCutLoses(e: Engine, a: bytes, b: bytes)
    returns (s1: State, s2: State, s3: State, s4: State, s5: State, s6: State)
    requires Usable(e, a) && Usable(e, b)
    ensures Fine(e, Initial, Add(a, false), s1)
    ensures Fine(e, s1, FlushNow, s2)
    ensures Reckless(e, s2, Add(b, true), s3)
    ensures Fine(e, s3, Publish(1), s4)
    ensures Fine(e, s4, Truncate(1), s5) && !Durable(e, s5)
    ensures Fine(e, s5, Fail(0), s6) && !Durable(e, s6) && s6.flights == []
  {
    s1, s2, s3 := FlushesOverlap(e, a, b);
    var x, y := s3.flights[0], s3.flights[1];
    var y' := y.(published := true);
    s4 := s3.(flights := [x, y'], published := [b]);
    s5 := s4.(flights := [x], file := HEADER);
    s6 := s5.(flights := [], lost := [a]);
    LastPublishes(e, s3, x, y);
    LastCuts(e, s4, x, y');
    assert s5.flights[..0] + s5.flights[1..] == [];
    HeaderHoldsNothing(e);
    Outnumbered(e, s5);
    Outnumbered(e, s6);
  }

  lemma LastPublishes(e: Engine, s: State, x: Flight, y: Flight)
    requires s.flights == [x, y] && !y.published
    ensures Moves(e, s, Publish(1), s.(flights := [x, y.(published := true)], published := s.published + y.snap))
  {
    assert s.flights[1 := y.(published := true)] == [x, y.(published := true)];
  }

  lemma LastCuts(e: Engine, s: State, x: Flight, y: Flight)
    requires s.flights == [x, y] && y.published
    ensures Moves(e, s, Truncate(1), s.(flights := [x], file := PrefixRemoved(s.file, y.off)))
  {
    assert s.flights[..1] + s.flights[2..] == [x];
  }

  /** The first truncation makes the second offset stale, and the second removes a later document. */
  lemma OverlappingFlushesLose(e: Engine, a: bytes, b: bytes)
    returns (s1: State, s2: State, s3: State, s4: State, s5: State, s6: State, s7: State, s8: State)
    requires Usable(e, a) && Usable(e, b)
    ensures Fine(e, Initial, Add(a, false), s1)
    ensures Fine(e, s1, FlushNow, s2)
    ensures Reckless(e, s2, Add(b, true), s3)
    ensures Fine(e, s3, Publish(0), s4)
    ensures Fine(e, s4, Truncate(0), s5)
    ensures Fine(e, s5, Add(a, false), s6)
    ensures Fine(e, s6, Publish(0), s7)
    ensures Fine(e, s7, Truncate(0), s8)
    ensures !Durable(e, s8)
  {
    s1, s2, s3 := FlushesOverlap(e, a, b);
    var fa, fb := Frame(e.crc, Norm(e, a)), Frame(e.crc, Norm(e, b));
    var x, y := s3.flights[0], s3.flights[1];
    var x', y' := x.(published := true), y.(published := true);
    s4 := s3.(flights := [x', y], published := [a]);
    s5 := s4.(flights := [y], file := HEADER + fb);
    s6 := s5.(file := HEADER + fb + fa, memtable := [a], acked := [a, b, a]);
    s7 := s6.(flights := [y'], published := [a, b]);
    s8 := s7.(flights := [], file := HEADER);
    Publishes(e, s3, x, [y]);
    assert s4.file[x.off..] == fb;
    Cuts(e, s4, x', [y]);
    AddsQuietly(e, s5, a);
    Publishes(e, s6, y, []);
    Cuts(e, s7, y', []);
    HeaderHoldsNothing(e);
    Outnumbered(e, s8);
  }

  lemma TornHeader(e: Engine, w: bytes, residue: nat) returns (s1: State)
    requires Usable(e, w) && Torn(residue)
    ensures Reckless(e, Initial, Crash([w], residue), s1)
    ensures s1 == Initial.(file := HEADER + Frame(e.crc, Norm(e, w))[..residue])
  {
    var p := Norm(e, w);
    EncodedOne(e, w);
    var one: seq<bytes> := [p];
    assert NormAll(e, [w]) == one && one[..0] == [] && one[..1] == one;
    assert WhollyBefore(e.crc, one, 0, residue);
    ReplayTorn(e.crc, HEADER, [], p, residue);
    assert HEADER + Frames(e.crc, []) == HEADER;
    s1 := AfterCrash(e, Initial, [w], residue);
  }

  /**
   * A crash leaves 1 to 7 bytes of a record header, which reopening keeps, and the next acknowledged document is
   * lost behind them, whenever the lengths of the two documents differ in their lowest bytes.
   */
  lemma TornHeaderLoses(e: Engine, w: bytes, d: bytes, residue: nat) returns (s1: State, s2: State)
    requires Sane(e) && Usable(e, w) && Usable(e, d) && Torn(residue)
    requires |Norm(e, w)| % 0x100 != |Norm(e, d)| % 0x100
    ensures Reckless(e, Initial, Crash([w], residue), s1)
    ensures Fine(e, s1, Add(d, false), s2)
    ensures !Durable(e, s2)
  {
    s1 := TornHeader(e, w, residue);
    AddsQuietly(e, s1, d);
    s2 := AfterAdd(e, s1, d, false);
    var p := Norm(e, w);
    var left := Frame(e.crc, p)[..residue];
    assert Loggable(Norm(e, [w][0])) && Loggable(Norm(e, [d][0]));
    assert Trails(e, s1, [], left) by {
      PlusNothing(HEADER);
      assert left == Frame(e.crc, p)[..|left|];
    }
    TrailingReplay(e, s1, [], left);
    NextAddIff(e, s1, [], left, d, false);
    OtherLength(e.crc, p, Norm(e, d), residue);
  }

  lemma OtherLength(crc: Checksum, v: bytes, p: bytes, residue: nat)
    requires Torn(residue) && |v| % 0x100 != |p| % 0x100
    ensures !Again(Frame(crc, v)[..residue], Frame(crc, p))
  {
    LowestByte(crc, v);
    LowestByte(crc, p);
    assert (Frame(crc, v)[..residue] + Frame(crc, p))[0] == Frame(crc, v)[0];
  }

  lemma LowestByte(crc: Checksum, p: bytes)
    ensures Frame(crc, p)[0] == |p| % 0x100
  {
    var low := |p| % 0x1_0000_0000;
    assert PutLE(low, 4)[0] == low % 0x100;
  }

  /** What follows the beginning of a long record is taken for its payload. */
  lemma LongFrameSwallows(crc: Checksum, p: bytes, cut: nat, f: bytes)
    requires Loggable(p) && RECORD_OVERHEAD <= cut <= |Frame(crc, p)| && cut - RECORD_OVERHEAD + |f| < |p|
    ensures NextRecord(crc, Frame(crc, p)[..cut] + f).Bad?
  {
    var head := Frame(crc, p)[..cut];
    assert head + f == PutU32(|p|) + (head[4..] + f);
    U32RoundTrip(|p|, head[4..] + f);
  }

  /**
   * A batch fails after its first record has outgrown the write buffer: the part
   * that reached the file swallows whatever is acknowledged next.
   */
  lemma SpilledBatchLoses(e: Engine, big: bytes, bad: bytes, d: bytes) returns (s1: State, s2: State)
    requires Usable(e, big) && e.json.compact(bad).None? && Fits(e, [bad]) && Usable(e, d)
    requires BUFFER_SIZE - RECORD_OVERHEAD + |Frame(e.crc, Norm(e, d))| < |Norm(e, big)|
    ensures Reckless(e, Initial, AddBatch([big, bad], false, BUFFER_SIZE), s1)
    ensures Fine(e, s1, Add(d, false), s2)
    ensures !Durable(e, s2)
  {
    var p, f := Norm(e, big), Frame(e.crc, Norm(e, d));
    assert [big, bad][1..] == [bad];
    assert GoodPrefix(e, [bad]) == 0 && GoodPrefix(e, [big, bad]) == 1;
    assert Appended(e, [big, bad]) == [big];
    EncodedOne(e, big);
    s1 := AfterAddBatch(e, Initial, [big, bad], false, BUFFER_SIZE);
    AddsQuietly(e, s1, d);
    s2 := AfterAdd(e, s1, d, false);
    LongFrameSwallows(e.crc, p, BUFFER_SIZE, f);
    assert s2.file[HEADER_SIZE..] == Frame(e.crc, p)[..BUFFER_SIZE] + f;
    Outnumbered(e, s2);
  }
}
