/**
 * Runs in which every document is accepted and no flush fails: the log is the flight's records, then the
 * memtable's.
 */
module CalmRuns {
  import opened Bytes
  import opened Sequences
  import opened WalLog
  import opened Ingest
  import opened Durability

  /** Adds and batches succeed, flushes do not fail, and the process does not die. */
  ghost predicate Welcome(e: Engine, step: Step) {
    match step
    case Add(raw, _) => Accepted(e, raw) && Fits(e, [raw])
    case AddBatch(docs, _, _) => GoodPrefix(e, docs) == |docs| && Fits(e, docs)
    case Fail(_) => false
    case Crash(_, _) => false
    case _ => true
  }

  /** What a flight still owes to the published documents. */
  ghost function Owed(e: Engine, f: Flight): multiset<bytes> {
    if f.published then multiset{} else Bag(e, f.snap)
  }

  ghost function AllOwed(e: Engine, fs: seq<Flight>): multiset<bytes> {
    if fs == [] then multiset{} else Owed(e, fs[0]) + AllOwed(e, fs[1..])
  }

  /** The log, the memtable's part of it, and where the acknowledged documents are. */
  ghost predicate Logged(e: Engine, s: State, pre: seq<bytes>, mem: seq<bytes>) {
    && s.file == HEADER + Frames(e.crc, pre + mem) && AllLoggable(pre + mem)
    && mem == NormAll(e, s.memtable) && !s.flushErr && s.lost == []
    && Bag(e, s.acked) == Bag(e, s.published) + AllOwed(e, s.flights) + multiset(mem)
  }

  /** At most one flight, whose offset is where the memtable's records begin. */
  ghost predicate Calm(e: Engine, s: State, pre: seq<bytes>, mem: seq<bytes>) {
    && Logged(e, s, pre, mem)
    && (s.flights == [] ==> pre == [])
    && (s.flights != [] ==>
          && |s.flights| == 1 && s.flights[0].off == HEADER_SIZE + |Frames(e.crc, pre)|
          && (!s.flights[0].background ==> pre != []))
  }

  // ----- Single steps -----

  /** More accepted documents at the end of the log and of the memtable. */
  lemma Accepts(e: Engine, s: State, pre: seq<bytes>, mem: seq<bytes>, docs: seq<bytes>)
    requires Logged(e, s, pre, mem) && Fits(e, docs)
    ensures var s' := s.(file := s.file + Encoded(e, docs), memtable := s.memtable + docs, acked := s.acked + docs);
            Logged(e, s', pre, mem + NormAll(e, docs))
  {
    var more := NormAll(e, docs);
    LogGrows(e.crc, pre, mem, more);
    NormAllConcat(e, s.memtable, docs);
    NormAllConcat(e, s.acked, docs);
    Rearrange(Bag(e, s.published), AllOwed(e, s.flights), multiset(mem), multiset(more));
  }

  lemma LogGrows(crc: Checksum, pre: seq<bytes>, mem: seq<bytes>, more: seq<bytes>)
    requires AllLoggable(pre + mem) && AllLoggable(more)
    ensures HEADER + Frames(crc, pre + mem) + Frames(crc, more) == HEADER + Frames(crc, pre + (mem + more))
    ensures AllLoggable(pre + (mem + more))
  {
    Assoc(pre, mem, more);
    FramesConcat(crc, pre + mem, more);
    Assoc(HEADER, Frames(crc, pre + mem), Frames(crc, more));
    AllLoggableConcat(pre + mem, more);
  }

  lemma Rearrange(p: multiset<bytes>, o: multiset<bytes>, m: multiset<bytes>, x: multiset<bytes>)
    ensures (p + o + m) + x == p + o + (m + x)
  {
  }

  /** A snapshot turns the memtable's records into the flight's. */
  lemma Launches(e: Engine, s: State, pre: seq<bytes>, mem: seq<bytes>, background: bool)
    requires Logged(e, s, pre, mem)
    ensures Logged(e, Launch(s, background), pre + mem, [])
    ensures Launch(s, background).flights[|s.flights|].off == HEADER_SIZE + |Frames(e.crc, pre + mem)|
  {
    var s' := Launch(s, background);
    var f := s'.flights[|s.flights|];
    PlusNothing(pre + mem);
    OwedLast(e, s.flights, f);
    assert NormAll(e, []) == [] && |HEADER| == HEADER_SIZE;
    Rearrange(Bag(e, s.published), AllOwed(e, s.flights), multiset(mem), multiset{});
  }

  lemma {:induction false} OwedLast(e: Engine, fs: seq<Flight>, f: Flight)
    ensures AllOwed(e, fs + [f]) == AllOwed(e, fs) + Owed(e, f)
  {
    if fs == [] {
      assert [f][1..] == [] && fs + [f] == [f];
    } else {
      OwedLast(e, fs[1..], f);
      assert (fs + [f])[1..] == fs[1..] + [f];
    }
  }

  /** Publishing pays what a flight owes. */
  lemma Pays(e: Engine, s: State, pre: seq<bytes>, mem: seq<bytes>, i: nat)
    requires Logged(e, s, pre, mem) && i < |s.flights| && !s.flights[i].published
    ensures Logged(e, AfterPublish(s, i), pre, mem)
  {
    var f := s.flights[i];
    NormAllConcat(e, s.published, f.snap);
    PaidOne(e, s.flights, i);
    var rest := AllOwed(e, s.flights[i := f.(published := true)]);
    assert Bag(e, s.published) + (rest + Bag(e, f.snap)) + multiset(mem)
        == (Bag(e, s.published) + Bag(e, f.snap)) + rest + multiset(mem);
  }

  lemma {:induction false} PaidOne(e: Engine, fs: seq<Flight>, i: nat)
    requires i < |fs| && !fs[i].published
    ensures AllOwed(e, fs) == AllOwed(e, fs[i := fs[i].(published := true)]) + Bag(e, fs[i].snap)
  {
    var paid := fs[i := fs[i].(published := true)];
    if i == 0 {
      assert paid[1..] == fs[1..];
    } else {
      PaidOne(e, fs[1..], i - 1);
      assert paid[1..] == fs[1..][i - 1 := fs[i].(published := true)];
    }
  }

  /** A published flight can go without being missed. */
  lemma {:induction false} GoneOwed(e: Engine, fs: seq<Flight>, i: nat)
    requires i < |fs| && fs[i].published
    ensures AllOwed(e, fs[..i] + fs[i + 1..]) == AllOwed(e, fs)
  {
    var rest := fs[..i] + fs[i + 1..];
    if i == 0 {
      assert rest == fs[1..];
    } else {
      GoneOwed(e, fs[1..], i - 1);
      assert rest[1..] == fs[1..][..i - 1] + fs[1..][i..] && rest[0] == fs[0];
    }
  }

  /** Cutting at the boundary before some of the records. */
  lemma CutsBefore(e: Engine, s: State, a: seq<bytes>, b: seq<bytes>, mem: seq<bytes>, i: nat)
    requires Logged(e, s, a + b, mem) && i < |s.flights| && s.flights[i].published
    requires s.flights[i].off == HEADER_SIZE + |Frames(e.crc, a)|
    ensures Logged(e, AfterTruncate(s, i), b, mem)
  {
    Assoc(a, b, mem);
    PrefixRemovedAtBoundary(e.crc, a, b + mem);
    GoneOwed(e, s.flights, i);
    LaterLoggable(a, b + mem);
  }

  lemma LaterLoggable(a: seq<bytes>, b: seq<bytes>)
    requires AllLoggable(a + b)
    ensures AllLoggable(b)
  {
    forall i | 0 <= i < |b|
      ensures Loggable(b[i])
    {
      assert (a + b)[|a| + i] == b[i];
    }
  }

  // ----- Runs -----

  /** An accepted Add or batch, before a flush may start. */
  function Documents(step: Step): seq<bytes>
    requires step.Add? || step.AddBatch?
  {
    if step.Add? then [step.raw] else step.docs
  }

  function Stored(e: Engine, s: State, docs: seq<bytes>): State {
    s.(file := s.file + Encoded(e, docs), memtable := s.memtable + docs, acked := s.acked + docs)
  }

  lemma AddIsStored(e: Engine, s: State, step: Step)
    requires (step.Add? || step.AddBatch?) && Welcome(e, step) && Enabled(e, s, step) && !s.flushErr
    ensures Fits(e, Documents(step))
    ensures Apply(e, s, step) == LaunchIfDue(Stored(e, s, Documents(step)), step.due)
  {
    if step.Add? {
      EncodedOne(e, step.raw);
    }
  }

  lemma CalmStep(e: Engine, s: State, pre: seq<bytes>, mem: seq<bytes>, step: Step)
    returns (pre': seq<bytes>, mem': seq<bytes>)
    requires Calm(e, s, pre, mem) && Enabled(e, s, step) && Careful(e, s, step) && Welcome(e, step)
    ensures Calm(e, Apply(e, s, step), pre', mem')
  {
    pre', mem' := pre, mem;
    match step
    case Add(_, due) => pre', mem' := CalmAdd(e, s, pre, mem, step);
    case AddBatch(_, due, _) => pre', mem' := CalmAdd(e, s, pre, mem, step);
    case FlushNow =>
      if s.memtable != [] {
        pre', mem' := CalmLaunch(e, s, pre, mem, false);
      }
    case Publish(i) => Pays(e, s, pre, mem, i);
    case Truncate(i) =>
      PlusNothing(pre);
      CutsBefore(e, s, pre, [], mem, i);
      pre' := [];
  }

  lemma CalmLaunch(e: Engine, s: State, pre: seq<bytes>, mem: seq<bytes>, background: bool)
    returns (pre': seq<bytes>, mem': seq<bytes>)
    requires Calm(e, s, pre, mem) && s.flights == [] && (!background ==> s.memtable != [])
    ensures Calm(e, Launch(s, background), pre', mem')
  {
    Launches(e, s, pre, mem, background);
    pre', mem' := pre + mem, [];
  }

  lemma CalmAdd(e: Engine, s: State, pre: seq<bytes>, mem: seq<bytes>, step: Step)
    returns (pre': seq<bytes>, mem': seq<bytes>)
    requires Calm(e, s, pre, mem) && Enabled(e, s, step) && Careful(e, s, step) && Welcome(e, step)
    requires step.Add? || step.AddBatch?
    ensures Calm(e, Apply(e, s, step), pre', mem')
  {
    var docs := Documents(step);
    var s' := Stored(e, s, docs);
    AddIsStored(e, s, step);
    Accepts(e, s, pre, mem, docs);
    pre', mem' := pre, mem + NormAll(e, docs);
    assert Calm(e, s', pre, mem');
    if step.due && !Background(s') {
      assert s'.flights == [] by {
        assert Background(s) == Background(s');
      }
      pre', mem' := CalmLaunch(e, s', pre, mem', true);
    }
  }

  lemma CalmRun(e: Engine, states: seq<State>, steps: seq<Step>, n: nat) returns (pre: seq<bytes>, mem: seq<bytes>)
    requires Run(e, states, steps) && n <= |steps|
    requires forall i | 0 <= i < n :: Careful(e, states[i], steps[i]) && Welcome(e, steps[i])
    ensures Calm(e, states[n], pre, mem)
  {
    pre, mem := [], [];
    assert HEADER + [] == HEADER && NormAll(e, []) == [];
    for i := 0 to n
      invariant Calm(e, states[i], pre, mem)
    {
      pre, mem := CalmStep(e, states[i], pre, mem, steps[i]);
    }
  }

  /** While a flush is in flight, the records from its offset on are exactly the memtable's documents. */
  lemma MemtableRecordsExact(e: Engine, states: seq<State>, steps: seq<Step>, n: nat) returns (k: nat)
    requires Run(e, states, steps) && n <= |steps| && states[n].flights != []
    requires forall i | 0 <= i < n :: Careful(e, states[i], steps[i]) && Welcome(e, steps[i])
    ensures |states[n].flights| == 1 && |states[n].file| >= HEADER_SIZE
    ensures var s := states[n];
            var recs := Records(e.crc, s.file);
            && k <= |recs| && s.file == HEADER + Frames(e.crc, recs)
            && s.flights[0].off == HEADER_SIZE + |Frames(e.crc, recs[..k])|
            && recs[k..] == NormAll(e, s.memtable)
            && Records(e.crc, PrefixRemoved(s.file, s.flights[0].off)) == NormAll(e, s.memtable)
  {
    var pre, mem := CalmRun(e, states, steps, n);
    k := |pre|;
    SplitRecords(e.crc, states[n].file, pre, mem);
  }

  lemma SplitRecords(crc: Checksum, file: bytes, pre: seq<bytes>, mem: seq<bytes>)
    requires file == HEADER + Frames(crc, pre + mem) && AllLoggable(pre + mem)
    ensures |file| >= HEADER_SIZE && Records(crc, file) == pre + mem
    ensures (pre + mem)[..|pre|] == pre && (pre + mem)[|pre|..] == mem
    ensures Records(crc, PrefixRemoved(file, HEADER_SIZE + |Frames(crc, pre)|)) == mem
  {
    RecordsOfFrames(crc, pre + mem);
    assert (pre + mem)[..|pre|] == pre && (pre + mem)[|pre|..] == mem;
    CutLog(crc, pre + mem, |pre|);
  }
}
