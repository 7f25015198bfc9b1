/** Flushes that overlap: exactly when cutting the log is safe. */
module FlushOverlap {
  import opened Bytes
  import opened Sequences
  import opened WalLog
  import opened Ingest
  import opened Durability
  import opened CalmRuns
  import opened Residues

  // ----- Counting bytes -----

  /** Records that are part of others take no more bytes than those. */
  lemma {:induction false} PartWeighsLess(crc: Checksum, a: seq<bytes>, b: seq<bytes>)
    requires multiset(a) <= multiset(b)
    ensures |Frames(crc, a)| <= |Frames(crc, b)|
  {
    if a != [] {
      var j := PartIn(a, b, 0);
      var rest := b[..j] + b[j + 1..];
      Pluck(a, b, j);
      PartWeighsLess(crc, a[1..], rest);
      WeighsOut(crc, b, j);
    }
  }

  /** The bytes of one record among several. */
  lemma WeighsOut(crc: Checksum, b: seq<bytes>, j: nat)
    requires j < |b|
    ensures |Frames(crc, b)| == |Frames(crc, b[..j] + b[j + 1..])| + |Frame(crc, b[j])|
  {
    FramesConcat(crc, b[..j], b[j + 1..]);
    FramesSnoc(crc, b[..j], b[j]);
    FramesConcat(crc, b[..j] + [b[j]], b[j + 1..]);
    assert b == (b[..j] + [b[j]]) + b[j + 1..];
  }

  /** Taking the same element out of both. */
  lemma Pluck<T>(a: seq<T>, b: seq<T>, j: nat)
    requires a != [] && j < |b| && b[j] == a[0] && multiset(a) <= multiset(b)
    ensures multiset(a[1..]) <= multiset(b[..j] + b[j + 1..])
  {
    var one, rest := multiset{a[0]}, b[..j] + b[j + 1..];
    assert multiset(a) == one + multiset(a[1..]) by {
      HeadAndTail(a);
    }
    assert multiset(b) == one + multiset(rest) by {
      assert b == b[..j] + ([b[j]] + b[j + 1..]);
    }
    Cancel(one, multiset(a[1..]), multiset(rest));
  }

  lemma {:induction false} TakenWeighsLess(e: Engine, ps: seq<bytes>)
    ensures |Frames(e.crc, Taken(e, ps))| <= |Frames(e.crc, ps)|
  {
    if ps != [] {
      TakenWeighsLess(e, ps[1..]);
      var rest := Taken(e, ps[1..]);
      if e.json.valid(ps[0]) && e.parse(ps[0]) {
        assert ([ps[0]] + rest)[1..] == rest;
      } else {
        NothingPlus(rest);
      }
    }
  }

  /** What a file replays was written with no more bytes than it has. */
  lemma ReplayWeighsLess(e: Engine, file: bytes)
    requires |file| >= HEADER_SIZE
    ensures HEADER_SIZE + |Frames(e.crc, Replayable(e, file))| <= |file|
  {
    var tail := file[HEADER_SIZE..];
    ScanSound(e.crc, tail);
    TakenWeighsLess(e, Records(e.crc, file));
  }

  lemma SomeBytes(crc: Checksum, ps: seq<bytes>)
    requires ps != []
    ensures |Frames(crc, ps)| > 0
  {
  }

  // ----- A stale offset -----

  /** The log holds records, of which the last are those of the memtable, and a flight cuts beyond the others. */
  ghost predicate Overshoots(e: Engine, s: State, i: nat, pend: seq<bytes>, mem: seq<bytes>) {
    && i < |s.flights| && s.file == HEADER + Frames(e.crc, pend + mem)
    && s.flights[i].off > HEADER_SIZE + |Frames(e.crc, pend)|
  }

  lemma CutTooMuch(e: Engine, s: State, i: nat, pend: seq<bytes>, mem: seq<bytes>)
    requires Overshoots(e, s, i, pend, mem) && mem != []
    ensures var file := AfterTruncate(s, i).file;
            HEADER_SIZE <= |file| < HEADER_SIZE + |Frames(e.crc, mem)|
  {
    FramesConcat(e.crc, pend, mem);
    SomeBytes(e.crc, mem);
    assert |HEADER| == HEADER_SIZE;
  }

  /** Published documents cancel. */
  lemma Cancel<T>(p: multiset<T>, m: multiset<T>, r: multiset<T>)
    requires p + m <= p + r
    ensures m <= r
  {
    forall x
      ensures m[x] <= r[x]
    {
      assert (p + m)[x] <= (p + r)[x];
    }
  }

  /** Cutting beyond the boundary is safe if and only if nothing lies behind it and nothing else is owed. */
  lemma StaleCutSafeIff(e: Engine, s: State, i: nat, pend: seq<bytes>, mem: seq<bytes>, owed: multiset<bytes>)
    requires Overshoots(e, s, i, pend, mem) && Bag(e, s.acked) == Bag(e, s.published) + owed + multiset(mem)
    ensures Durable(e, AfterTruncate(s, i)) <==> mem == [] && owed == multiset{}
  {
    var s' := AfterTruncate(s, i);
    if mem == [] {
      PlusNothing(pend);
      assert s'.file == HEADER && Replayable(e, HEADER) == [] by {
        assert HEADER[HEADER_SIZE..] == [];
      }
      BagShort(Bag(e, s.published), owed, multiset{});
      BagsPlusNothing(Bag(e, s.published), owed);
    } else {
      CutTooMuch(e, s, i, pend, mem);
      ReplayWeighsLess(e, s'.file);
      if Durable(e, s') {
        Cancel(Bag(e, s.published), owed + multiset(mem), multiset(Replayable(e, s'.file)));
        PartWeighsLess(e.crc, mem, Replayable(e, s'.file));
      }
    }
  }

  lemma BagsPlusNothing<T>(p: multiset<T>, x: multiset<T>)
    ensures p + x + multiset{} == p + x && p + multiset{} == p
  {
  }

  // ----- Flights in a line -----

  /** The records of several flights, one behind the other. */
  ghost function Snapped(e: Engine, fs: seq<Flight>): seq<bytes> {
    if fs == [] then [] else Snapped(e, fs[..|fs| - 1]) + NormAll(e, fs[|fs| - 1].snap)
  }

  /** Replay takes these records. */
  ghost predicate Good(e: Engine, recs: seq<bytes>) {
    forall i | 0 <= i < |recs| :: e.json.valid(recs[i]) && e.parse(recs[i])
  }

  /** A flight's offset is where the next one's records begin; only the last flight may be a background one. */
  ghost predicate OffsetOk(e: Engine, fs: seq<Flight>, i: nat)
    requires i < |fs|
  {
    && fs[i].off == HEADER_SIZE + |Frames(e.crc, Snapped(e, fs[..i + 1]))|
    && (i < |fs| - 1 ==> !fs[i].background) && (!fs[i].background ==> fs[i].snap != [])
  }

  ghost predicate Offsets(e: Engine, fs: seq<Flight>) {
    forall i | 0 <= i < |fs| :: OffsetOk(e, fs, i)
  }

  lemma OffsetAt(e: Engine, fs: seq<Flight>, k: nat)
    requires Offsets(e, fs) && k < |fs|
    ensures fs[k].off == HEADER_SIZE + |Frames(e.crc, Snapped(e, fs[..k + 1]))|
    ensures k < |fs| - 1 ==> fs[k].snap != []
  {
    assert OffsetOk(e, fs, k);
  }

  /** The log is the records of the flights and of the memtable, however many flights there are. */
  ghost predicate Lined(e: Engine, s: State) {
    && Logged(e, s, Snapped(e, s.flights), NormAll(e, s.memtable)) && Offsets(e, s.flights)
    && Good(e, Snapped(e, s.flights) + NormAll(e, s.memtable))
  }

  /** A step that is welcome, and no cut while flushes overlap. */
  ghost predicate Plain(e: Engine, s: State, step: Step) {
    Welcome(e, step) && (step.Truncate? ==> |s.flights| == 1)
  }

  lemma SnappedNext(e: Engine, fs: seq<Flight>, f: Flight)
    ensures Snapped(e, fs + [f]) == Snapped(e, fs) + NormAll(e, f.snap)
  {
    assert (fs + [f])[..|fs|] == fs;
  }

  lemma {:induction false} SnappedSplits(e: Engine, a: seq<Flight>, b: seq<Flight>)
    ensures Snapped(e, a + b) == Snapped(e, a) + Snapped(e, b)
    decreases |b|
  {
    if b == [] {
      PlusNothing(a);
      PlusNothing(Snapped(e, a));
    } else {
      var n := |b| - 1;
      SnappedSplits(e, a, b[..n]);
      assert (a + b)[..|a + b| - 1] == a + b[..n];
      Assoc(Snapped(e, a), Snapped(e, b[..n]), NormAll(e, b[n].snap));
    }
  }

  /** Publishing changes no records. */
  lemma {:induction false} SnappedSame(e: Engine, fs: seq<Flight>, gs: seq<Flight>)
    requires |fs| == |gs| && forall i | 0 <= i < |fs| :: fs[i].snap == gs[i].snap
    ensures Snapped(e, fs) == Snapped(e, gs)
  {
    if fs != [] {
      SnappedSame(e, fs[..|fs| - 1], gs[..|gs| - 1]);
    }
  }

  lemma LinedPublish(e: Engine, s: State, i: nat)
    requires Lined(e, s) && Enabled(e, s, Publish(i))
    ensures Lined(e, AfterPublish(s, i))
  {
    var fs := AfterPublish(s, i).flights;
    SnappedSame(e, s.flights, fs);
    Pays(e, s, Snapped(e, s.flights), NormAll(e, s.memtable), i);
    OffsetsSame(e, s.flights, fs);
  }

  lemma OffsetsSame(e: Engine, fs: seq<Flight>, gs: seq<Flight>)
    requires Offsets(e, fs) && |fs| == |gs|
    requires forall i | 0 <= i < |fs| ::
               gs[i].snap == fs[i].snap && gs[i].off == fs[i].off && gs[i].background == fs[i].background
    ensures Offsets(e, gs)
  {
    forall i | 0 <= i < |gs|
      ensures OffsetOk(e, gs, i)
    {
      assert OffsetOk(e, fs, i);
      SnappedSame(e, fs[..i + 1], gs[..i + 1]);
    }
  }

  lemma LinedLaunch(e: Engine, s: State, background: bool)
    requires Lined(e, s) && !Background(s) && (!background ==> s.memtable != [])
    ensures Lined(e, Launch(s, background))
  {
    var pre, mem, s' := Snapped(e, s.flights), NormAll(e, s.memtable), Launch(s, background);
    var f := s'.flights[|s.flights|];
    Launches(e, s, pre, mem, background);
    SnappedNext(e, s.flights, f);
    assert NormAll(e, []) == [];
    PlusNothing(pre + mem);
    LaunchOffsets(e, s, f);
  }

  lemma LaunchOffsets(e: Engine, s: State, f: Flight)
    requires Offsets(e, s.flights) && !Background(s) && (!f.background ==> f.snap != [])
    requires f.off == HEADER_SIZE + |Frames(e.crc, Snapped(e, s.flights + [f]))|
    ensures Offsets(e, s.flights + [f])
  {
    var fs := s.flights + [f];
    forall i | 0 <= i < |fs|
      ensures OffsetOk(e, fs, i)
    {
      if i < |s.flights| {
        assert OffsetOk(e, s.flights, i);
        SliceOfConcat(s.flights, [f], i + 1);
        assert s.flights[i] in s.flights;
      } else {
        Whole(fs);
      }
    }
  }

  lemma LinedAdd(e: Engine, s: State, step: Step)
    requires Sane(e) && Lined(e, s) && Enabled(e, s, step) && Welcome(e, step) && (step.Add? || step.AddBatch?)
    ensures Lined(e, Apply(e, s, step))
  {
    var docs := Documents(step);
    var s' := Stored(e, s, docs);
    AddIsStored(e, s, step);
    Accepts(e, s, Snapped(e, s.flights), NormAll(e, s.memtable), docs);
    NormAllConcat(e, s.memtable, docs);
    GoodMore(e, Snapped(e, s.flights), NormAll(e, s.memtable), docs, step);
    assert Lined(e, s');
    if step.due && !Background(s') {
      LinedLaunch(e, s', true);
    }
  }

  lemma GoodMore(e: Engine, pre: seq<bytes>, mem: seq<bytes>, docs: seq<bytes>, step: Step)
    requires Sane(e) && Good(e, pre + mem) && Welcome(e, step) && (step.Add? || step.AddBatch?)
    requires docs == Documents(step)
    ensures Good(e, pre + (mem + NormAll(e, docs)))
  {
    GoodPrefixAccepted(e, docs);
    assert forall i | 0 <= i < |docs| :: Accepted(e, docs[i]);
    var more := NormAll(e, docs);
    assert Good(e, more);
    Assoc(pre, mem, more);
  }

  lemma LinedStep(e: Engine, s: State, step: Step)
    requires Sane(e) && Lined(e, s) && Enabled(e, s, step) && Plain(e, s, step)
    ensures Lined(e, Apply(e, s, step))
  {
    match step
    case Add(_, _) => LinedAdd(e, s, step);
    case AddBatch(_, _, _) => LinedAdd(e, s, step);
    case FlushNow =>
      if s.memtable != [] {
        LinedLaunch(e, s, false);
      }
    case Publish(i) => LinedPublish(e, s, i);
    case Truncate(i) => LinedCut(e, s);
  }

  /** The cut of a flight that is alone. */
  lemma LinedCut(e: Engine, s: State)
    requires Lined(e, s) && |s.flights| == 1 && s.flights[0].published
    ensures Lined(e, AfterTruncate(s, 0))
  {
    var pre, mem := Snapped(e, s.flights), NormAll(e, s.memtable);
    Whole(s.flights);
    PlusNothing(pre);
    OffsetAt(e, s.flights, 0);
    CutsBefore(e, s, pre, [], mem, 0);
    assert AfterTruncate(s, 0).flights == [];
    NothingPlus(mem);
    GoodLater(e, pre, mem);
  }

  lemma GoodLater(e: Engine, a: seq<bytes>, b: seq<bytes>)
    requires Good(e, a + b)
    ensures Good(e, b)
  {
    forall i | 0 <= i < |b|
      ensures e.json.valid(b[i]) && e.parse(b[i])
    {
      assert (a + b)[|a| + i] == b[i];
    }
  }

  lemma LinedRun(e: Engine, states: seq<State>, steps: seq<Step>, n: nat)
    requires Sane(e) && Run(e, states, steps) && n <= |steps|
    requires forall i | 0 <= i < n :: Plain(e, states[i], steps[i])
    ensures Lined(e, states[n])
  {
    assert HEADER + [] == HEADER && NormAll(e, []) == [];
    for i := 0 to n
      invariant Lined(e, states[i])
    {
      LinedStep(e, states[i], steps[i]);
    }
  }

  // ----- The first cut while flushes overlap -----

  /** The published documents of several flights. */
  ghost function AllPaid(e: Engine, fs: seq<Flight>): multiset<bytes> {
    if fs == [] then multiset{}
    else AllPaid(e, fs[..|fs| - 1]) + if fs[|fs| - 1].published then Bag(e, fs[|fs| - 1].snap) else multiset{}
  }

  lemma {:induction false} OwedSplits(e: Engine, a: seq<Flight>, b: seq<Flight>)
    ensures AllOwed(e, a + b) == AllOwed(e, a) + AllOwed(e, b)
    decreases |b|
  {
    if b == [] {
      PlusNothing(a);
    } else {
      var n := |b| - 1;
      OwedSplits(e, a, b[..n]);
      OwedLast(e, b[..n], b[n]);
      OwedLast(e, a + b[..n], b[n]);
      NextPrefix(b, n);
      Whole(b);
      Assoc(a, b[..n], [b[n]]);
      Sums(AllOwed(e, a), AllOwed(e, b[..n]), Owed(e, b[n]));
    }
  }

  /** The records of flights are owed or paid. */
  lemma {:induction false} OwedOrPaid(e: Engine, fs: seq<Flight>)
    ensures multiset(Snapped(e, fs)) == AllOwed(e, fs) + AllPaid(e, fs)
  {
    if fs != [] {
      var n := |fs| - 1;
      var f, before := fs[n], fs[..n];
      OwedOrPaid(e, before);
      OwedLast(e, before, f);
      NextPrefix(fs, n);
      Whole(fs);
      BagOfConcat(Snapped(e, before), NormAll(e, f.snap));
      Either(AllOwed(e, before), AllPaid(e, before), Bag(e, f.snap));
    }
  }

  lemma Either<T>(o: multiset<T>, p: multiset<T>, x: multiset<T>)
    ensures (o + p) + x == (o + x) + (p + multiset{}) == (o + multiset{}) + (p + x)
  {
  }

  lemma {:induction false} GoodTaken(e: Engine, recs: seq<bytes>)
    requires Good(e, recs)
    ensures Taken(e, recs) == recs
  {
    if recs != [] {
      GoodTaken(e, recs[1..]);
    }
  }

  lemma CutLeaves(e: Engine, s: State, i: nat)
    requires Lined(e, s) && i < |s.flights|
    ensures var later := Snapped(e, s.flights[i + 1..]) + NormAll(e, s.memtable);
            var file := AfterTruncate(s, i).file;
            |file| >= HEADER_SIZE && Replayable(e, file) == later
  {
    var a, b, mem := s.flights[..i + 1], s.flights[i + 1..], NormAll(e, s.memtable);
    Split(s.flights, i + 1);
    SnappedSplits(e, a, b);
    OffsetAt(e, s.flights, i);
    CutReplays(e, s.file, Snapped(e, a), Snapped(e, b), mem);
  }

  lemma CutReplays(e: Engine, file: bytes, a: seq<bytes>, b: seq<bytes>, mem: seq<bytes>)
    requires file == HEADER + Frames(e.crc, (a + b) + mem) && AllLoggable((a + b) + mem) && Good(e, (a + b) + mem)
    ensures var cut := PrefixRemoved(file, HEADER_SIZE + |Frames(e.crc, a)|);
            |cut| >= HEADER_SIZE && Replayable(e, cut) == b + mem
  {
    Assoc(a, b, mem);
    PrefixRemovedAtBoundary(e.crc, a, b + mem);
    GoodLater(e, a, b + mem);
    LaterLoggable(a, b + mem);
    RecordsOfFrames(e.crc, b + mem);
    GoodTaken(e, b + mem);
    assert |HEADER| == HEADER_SIZE;
  }

  /** Cutting at a flight's offset is safe if and only if what earlier flights owe is published again behind it. */
  lemma CutSafeIff(e: Engine, s: State, i: nat)
    requires Lined(e, s) && i < |s.flights| && s.flights[i].published
    ensures Durable(e, AfterTruncate(s, i)) <==> AllOwed(e, s.flights[..i]) <= AllPaid(e, s.flights[i + 1..])
  {
    var a, b := s.flights[..i], s.flights[i + 1..];
    CutLeaves(e, s, i);
    OwedAround(e, s.flights, i);
    OwedOrPaid(e, b);
    BagOfConcat(Snapped(e, b), NormAll(e, s.memtable));
    Weigh(Bag(e, s.published), AllOwed(e, a), AllOwed(e, b), AllPaid(e, b), Bag(e, s.memtable));
  }

  lemma OwedAround(e: Engine, fs: seq<Flight>, i: nat)
    requires i < |fs| && fs[i].published
    ensures AllOwed(e, fs) == AllOwed(e, fs[..i]) + AllOwed(e, fs[i + 1..])
  {
    GoneOwed(e, fs, i);
    OwedSplits(e, fs[..i], fs[i + 1..]);
  }

  lemma Weigh<T>(p: multiset<T>, x: multiset<T>, o: multiset<T>, y: multiset<T>, m: multiset<T>)
    ensures p + (x + o) + m <= p + ((o + y) + m) <==> x <= y
  {
    if p + (x + o) + m <= p + ((o + y) + m) {
      forall z
        ensures x[z] <= y[z]
      {
        assert (p + (x + o) + m)[z] <= (p + ((o + y) + m))[z];
      }
    }
  }

  /**
   * In every run in which all is accepted and nothing has been cut while flushes overlap, with any number of
   * flushes in the air: the first such cut is safe if and only if what earlier flights owe is published again
   * behind it.
   */
  lemma FirstCutSafeIff(e: Engine, states: seq<State>, steps: seq<Step>, n: nat, i: nat)
    requires Sane(e) && Run(e, states, steps) && n <= |steps|
    requires forall k | 0 <= k < n :: Plain(e, states[k], steps[k])
    requires Enabled(e, states[n], Truncate(i))
    ensures var fs := states[n].flights;
            Durable(e, AfterTruncate(states[n], i)) <==> AllOwed(e, fs[..i]) <= AllPaid(e, fs[i + 1..])
  {
    LinedRun(e, states, steps, n);
    CutSafeIff(e, states[n], i);
  }

  /** With two flushes in the air the older may cut first, and the younger if and only if the older is published. */
  lemma FirstOfTwoCuts(e: Engine, states: seq<State>, steps: seq<Step>, n: nat)
    requires Sane(e) && Run(e, states, steps) && n <= |steps| && |states[n].flights| == 2
    requires forall k | 0 <= k < n :: Plain(e, states[k], steps[k])
    ensures states[n].flights[0].published ==> Durable(e, AfterTruncate(states[n], 0))
    ensures states[n].flights[1].published ==>
              (Durable(e, AfterTruncate(states[n], 1)) <==> states[n].flights[0].published)
  {
    var s := states[n];
    LinedRun(e, states, steps, n);
    if s.flights[0].published {
      OlderCuts(e, s);
    }
    if s.flights[1].published {
      YoungerCuts(e, s);
    }
  }

  lemma OlderCuts(e: Engine, s: State)
    requires Lined(e, s) && |s.flights| > 0 && s.flights[0].published
    ensures Durable(e, AfterTruncate(s, 0))
  {
    CutSafeIff(e, s, 0);
    assert s.flights[..0] == [];
  }

  lemma YoungerCuts(e: Engine, s: State)
    requires Lined(e, s) && |s.flights| == 2 && s.flights[1].published
    ensures Durable(e, AfterTruncate(s, 1)) <==> s.flights[0].published
  {
    var f := s.flights[0];
    OffsetAt(e, s.flights, 0);
    CutSafeIff(e, s, 1);
    OwesOne(e, f);
    assert s.flights[..1] == [f] && s.flights[2..] == [];
  }

  lemma OwesOne(e: Engine, f: Flight)
    requires f.snap != []
    ensures AllOwed(e, [f]) <= multiset{} <==> f.published
  {
    assert [f][1..] == [];
    BagsPlusNothing(multiset{}, Owed(e, f));
    assert AllOwed(e, [f]) == Owed(e, f);
    assert NormAll(e, f.snap)[0] in Bag(e, f.snap);
  }

  // ----- The cut after it -----

  /** A flight's offset lies beyond the records before those of the memtable. */
  ghost predicate Stale(e: Engine, s: State, j: nat, pend: seq<bytes>, mem: seq<bytes>) {
    && Logged(e, s, pend, mem) && j < |s.flights| && s.flights[j].off > HEADER_SIZE + |Frames(e.crc, pend)|
  }

  /** Adds that start no further flush, and publishing. */
  ghost predicate Quiet(e: Engine, s: State, step: Step) {
    match step
    case Add(_, due) => Welcome(e, step) && (due ==> Background(s))
    case AddBatch(_, due, _) => Welcome(e, step) && (due ==> Background(s))
    case FlushNow => s.memtable == []
    case Publish(_) => true
    case _ => false
  }

  lemma QuietStep(e: Engine, s: State, j: nat, pend: seq<bytes>, mem: seq<bytes>, step: Step) returns (mem': seq<bytes>)
    requires Stale(e, s, j, pend, mem) && Enabled(e, s, step) && Quiet(e, s, step)
    ensures Stale(e, Apply(e, s, step), j, pend, mem')
  {
    mem' := mem;
    if step.Publish? {
      Pays(e, s, pend, mem, step.i);
    } else if !step.FlushNow? {
      var docs := Documents(step);
      AddIsStored(e, s, step);
      Accepts(e, s, pend, mem, docs);
      mem' := mem + NormAll(e, docs);
      assert Background(Stored(e, s, docs)) == Background(s);
    }
  }

  lemma SomeRecords(e: Engine, fs: seq<Flight>)
    requires fs != [] && fs[0].snap != []
    ensures |Frames(e.crc, Snapped(e, fs))| > 0
  {
    assert fs == [fs[0]] + fs[1..];
    SnappedSplits(e, [fs[0]], fs[1..]);
    NothingPlus([fs[0]]);
    SnappedNext(e, [], fs[0]);
    NothingPlus(NormAll(e, fs[0].snap));
    SomeBytes(e.crc, Snapped(e, fs));
  }

  lemma CutAt(e: Engine, s: State, i: nat)
    requires Lined(e, s) && i < |s.flights| && s.flights[i].published
    ensures Logged(e, AfterTruncate(s, i), Snapped(e, s.flights[i + 1..]), NormAll(e, s.memtable))
  {
    var a, b := s.flights[..i + 1], s.flights[i + 1..];
    Split(s.flights, i + 1);
    SnappedSplits(e, a, b);
    OffsetAt(e, s.flights, i);
    CutsBefore(e, s, Snapped(e, a), Snapped(e, b), NormAll(e, s.memtable), i);
  }

  /** An offset beyond the records of the flights behind a cut. */
  lemma Beyond(e: Engine, fs: seq<Flight>, i: nat, j: nat)
    requires Offsets(e, fs) && i < |fs| && j < |fs| && i != j && (i == |fs| - 1 || j == |fs| - 1)
    ensures fs[j].off > HEADER_SIZE + |Frames(e.crc, Snapped(e, fs[i + 1..]))|
  {
    OffsetAt(e, fs, 0);
    OffsetAt(e, fs, j);
    if i == |fs| - 1 {
      assert fs[i + 1..] == [];
      SomeRecords(e, fs[..j + 1]);
    } else {
      Whole(fs);
      LaterWeighsLess(e, fs, i);
    }
  }

  lemma LaterWeighsLess(e: Engine, fs: seq<Flight>, i: nat)
    requires i < |fs| && fs[0].snap != []
    ensures |Frames(e.crc, Snapped(e, fs[i + 1..]))| < |Frames(e.crc, Snapped(e, fs))|
  {
    var a, b := fs[..i + 1], fs[i + 1..];
    SomeRecords(e, a);
    Split(fs, i + 1);
    SnappedSplits(e, a, b);
    FramesConcat(e.crc, Snapped(e, a), Snapped(e, b));
  }

  /** The first cut by a flight makes the last flight's offset stale, or every offset if the last one cuts. */
  lemma BecomesStale(e: Engine, s: State, i: nat, j: nat) returns (pend: seq<bytes>)
    requires Lined(e, s) && i < |s.flights| && s.flights[i].published && j < |s.flights| - 1
    requires i == |s.flights| - 1 || j == |s.flights| - 2
    ensures Stale(e, AfterTruncate(s, i), j, pend, NormAll(e, s.memtable))
  {
    pend := Snapped(e, s.flights[i + 1..]);
    CutAt(e, s, i);
    Beyond(e, s.flights, i, if j < i then j else j + 1);
  }

  /**
   * In every run in which a flight has cut the log while others were in the air, until another flush starts: the
   * cut of the last flight, or any cut if the last flight cut first, is safe if and only if the memtable is empty
   * and no flight owes anything.
   */
  lemma NextCutSafeIff(e: Engine, states: seq<State>, steps: seq<Step>, b: nat, n: nat, j: nat)
    requires Sane(e) && Run(e, states, steps) && b < n <= |steps|
    requires forall k | 0 <= k < b :: Plain(e, states[k], steps[k])
    requires steps[b].Truncate? && forall k | b < k < n :: Quiet(e, states[k], steps[k])
    requires Enabled(e, states[n], Truncate(j)) && j < |states[b].flights| - 1
    requires steps[b].i == |states[b].flights| - 1 || j == |states[b].flights| - 2
    ensures Durable(e, AfterTruncate(states[n], j))
            <==> states[n].memtable == [] && AllOwed(e, states[n].flights) == multiset{}
  {
    LinedRun(e, states, steps, b);
    var pend := BecomesStale(e, states[b], steps[b].i, j);
    var mem := NormAll(e, states[b].memtable);
    for k := b + 1 to n
      invariant Stale(e, states[k], j, pend, mem)
    {
      mem := QuietStep(e, states[k], j, pend, mem, steps[k]);
    }
    StaleCutSafeIff(e, states[n], j, pend, mem, AllOwed(e, states[n].flights));
  }

  /** Of two flushes, once one has cut the log the other's cut is safe if and only if the memtable is empty. */
  lemma SecondOfTwoCuts(e: Engine, states: seq<State>, steps: seq<Step>, b: nat, n: nat)
    requires Sane(e) && Run(e, states, steps) && b < n <= |steps|
    requires forall k | 0 <= k < b :: Plain(e, states[k], steps[k])
    requires steps[b].Truncate? && |states[b].flights| == 2
    requires (forall k | b < k < n :: Quiet(e, states[k], steps[k])) && Enabled(e, states[n], Truncate(0))
    ensures Durable(e, AfterTruncate(states[n], 0)) <==> states[n].memtable == []
  {
    NextCutSafeIff(e, states, steps, b, n, 0);
    FlightsStay(e, states, steps, b, n);
    assert states[n].flights[1..] == [];
  }

  lemma FlightsStay(e: Engine, states: seq<State>, steps: seq<Step>, b: nat, n: nat)
    requires Run(e, states, steps) && b < n <= |steps| && steps[b].Truncate?
    requires forall k | b < k < n :: Quiet(e, states[k], steps[k])
    ensures |states[n].flights| == |states[b].flights| - 1
  {
    for k := b + 1 to n
      invariant |states[k].flights| == |states[b].flights| - 1
    {
      QuietFlights(e, states[k], steps[k]);
    }
  }

  lemma QuietFlights(e: Engine, s: State, step: Step)
    requires Enabled(e, s, step) && Quiet(e, s, step)
    ensures |Apply(e, s, step).flights| == |s.flights|
  {
  }
}
