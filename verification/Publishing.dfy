/**
 * Any number of writers publishing manifests by conditional PUT, with List, Get
 * and Put as separate steps that interleave freely.
 */
module Publishing {
  import opened Bytes
  import opened Lex
  import opened Manifest

  /** Where a call is in its retry loop. */
  datatype Pc = Listing | Getting(latest: Option<string>) | Putting(current: Option<Manifest>)

  /** begun is the number of versions that existed when the call began. */
  datatype Call = Call(change: Change, retries: nat, begun: nat, status: Status)

  datatype Status = Running(attempt: nat, pc: Pc) | Published(version: nat) | GaveUp

  /** history[v - 1] is the call that published version v. */
  datatype System = System(objects: map<string, Manifest>, calls: map<nat, Call>, history: seq<nat>)

  datatype Step =
    | Begin(id: nat, change: Change, retries: nat)
    | List(id: nat, found: string)
    | Get(id: nat)
    | Put(id: nat)

  const Fresh: System := System(map[], map[], [])

  predicate RunningAt(sys: System, id: nat) {
    id in sys.calls && sys.calls[id].status.Running?
  }

  /** List picks the greatest key, if there is any. */
  ghost predicate Enabled(sys: System, step: Step) {
    match step
    case Begin(id, _, _) => id !in sys.calls
    case List(id, found) =>
      && RunningAt(sys, id) && sys.calls[id].status.pc.Listing?
      && (sys.objects != map[] ==> Greatest(found, sys.objects.Keys))
    case Get(id) =>
      && RunningAt(sys, id) && sys.calls[id].status.pc.Getting?
      && (sys.calls[id].status.pc.latest.Some? ==> sys.calls[id].status.pc.latest.value in sys.objects)
    case Put(id) => RunningAt(sys, id) && sys.calls[id].status.pc.Putting?
  }

  function WithStatus(sys: System, id: nat, status: Status): System
    requires id in sys.calls
  {
    sys.(calls := sys.calls[id := sys.calls[id].(status := status)])
  }

  function Next(current: Option<Manifest>, change: Change): Manifest {
    match current
    case None => Manifest(1, Changed(change, []))
    case Some(m) => Manifest(m.version + 1, Changed(change, m.segments))
  }

  /** A refused PUT is tried again from the start, as long as attempts are left. */
  function RefusedStatus(call: Call): Status
    requires call.status.Running?
  {
    var n := call.status.attempt + 1;
    if n < call.retries then Running(n, Listing) else GaveUp
  }

  function AfterPut(key: nat -> string, sys: System, id: nat): System
    requires RunningAt(sys, id) && sys.calls[id].status.pc.Putting?
  {
    var call := sys.calls[id];
    var m := Next(call.status.pc.current, call.change);
    if key(m.version) in sys.objects then
      WithStatus(sys, id, RefusedStatus(call))
    else
      WithStatus(sys, id, Published(m.version))
        .(objects := sys.objects[key(m.version) := m], history := sys.history + [id])
  }

  function Apply(key: nat -> string, sys: System, step: Step): System
    requires Enabled(sys, step)
  {
    match step
    case Begin(id, change, retries) =>
      var status := if retries > 0 then Running(0, Listing) else GaveUp;
      sys.(calls := sys.calls[id := Call(change, retries, |sys.history|, status)])
    case List(id, found) =>
      var latest := if sys.objects == map[] then None else Some(found);
      WithStatus(sys, id, Running(sys.calls[id].status.attempt, Getting(latest)))
    case Get(id) =>
      var status := sys.calls[id].status;
      var current := if status.pc.latest.Some? then Some(sys.objects[status.pc.latest.value]) else None;
      WithStatus(sys, id, Running(status.attempt, Putting(current)))
    case Put(id) => AfterPut(key, sys, id)
  }

  ghost predicate Run(key: nat -> string, states: seq<System>, steps: seq<Step>) {
    && |states| == |steps| + 1 && states[0] == Fresh
    && forall i | 0 <= i < |steps| ::
         Enabled(states[i], steps[i]) && states[i + 1] == Apply(key, states[i], steps[i])
  }

  // ----- The chain of versions -----

  /** How manifest keys sort. */
  ghost predicate KeyLaws(key: nat -> string) {
    && (forall a: nat, b: nat {:trigger key(a), key(b)} | a < b <= LAST :: Less(key(a), key(b)))
    && Less(key(LAST + 1), key(LAST))
    && (forall a: nat | a <= LAST :: key(a) != key(LAST + 1))
  }

  lemma ManifestKeysLawful(index: string)
    ensures KeyLaws((v: nat) => Key(index, v))
  {
    var key := (v: nat) => Key(index, v);
    forall a: nat, b: nat {:trigger key(a), key(b)} | a < b <= LAST
      ensures Less(key(a), key(b))
    {
      KeyOrder(index, a, b);
    }
    SevenDigitsSortFirst(index);
    forall a: nat | a <= LAST
      ensures key(a) != key(LAST + 1)
    {
      SevenDigits(index, a);
    }
  }

  lemma Apart(key: nat -> string, a: nat, b: nat)
    requires KeyLaws(key) && a < b <= LAST + 1
    ensures key(a) != key(b)
  {
    if b <= LAST {
      Irreflexive(key(a));
    }
  }

  /** The changes in the order in which they took effect. */
  ghost function Log(sys: System): seq<Change>
    requires forall id <- sys.history :: id in sys.calls
  {
    seq(|sys.history|, i requires 0 <= i < |sys.history| => sys.calls[sys.history[i]].change)
  }

  /** The objects a history of changes has left. */
  ghost function Objects(key: nat -> string, log: seq<Change>): map<string, Manifest> {
    var n := |log|;
    if n == 0 then map[] else Objects(key, log[..n - 1])[key(n) := Manifest(n, Outcome(log))]
  }

  /** They are versions 1 to n, each the result of the first so many changes. */
  ghost predicate Chain(key: nat -> string, objects: map<string, Manifest>, log: seq<Change>) {
    && (forall v: nat | 1 <= v <= |log| :: key(v) in objects && objects[key(v)] == Manifest(v, Outcome(log[..v])))
    && (forall k <- objects :: exists v: nat :: 1 <= v <= |log| && k == key(v))
  }

  lemma NextObject(key: nat -> string, log: seq<Change>, c: Change)
    ensures Objects(key, log + [c])
            == Objects(key, log)[key(|log| + 1) := Manifest(|log| + 1, Changed(c, Outcome(log)))]
  {
    var log' := log + [c];
    assert log'[..|log|] == log && log'[|log|] == c;
    assert Outcome(log') == Changed(c, Outcome(log));
  }

  lemma {:induction false} ObjectsAt(key: nat -> string, log: seq<Change>, v: nat)
    requires KeyLaws(key) && 1 <= v <= |log| <= LAST + 1
    ensures key(v) in Objects(key, log) && Objects(key, log)[key(v)] == Manifest(v, Outcome(log[..v]))
  {
    var n := |log|;
    if v == n {
      assert log[..n] == log;
    } else {
      ObjectsAt(key, log[..n - 1], v);
      Apart(key, v, n);
      assert log[..n - 1][..v] == log[..v];
    }
  }

  lemma {:induction false} ObjectsOnly(key: nat -> string, log: seq<Change>, k: string) returns (v: nat)
    requires k in Objects(key, log)
    ensures 1 <= v <= |log| && k == key(v)
  {
    v := |log|;
    if k != key(v) {
      v := ObjectsOnly(key, log[..v - 1], k);
    }
  }

  lemma ObjectsFormChain(key: nat -> string, log: seq<Change>)
    requires KeyLaws(key) && |log| <= LAST + 1
    ensures Chain(key, Objects(key, log), log)
  {
    forall v: nat | 1 <= v <= |log|
      ensures key(v) in Objects(key, log) && Objects(key, log)[key(v)] == Manifest(v, Outcome(log[..v]))
    {
      ObjectsAt(key, log, v);
    }
    forall k <- Objects(key, log)
      ensures exists v: nat :: 1 <= v <= |log| && k == key(v)
    {
      var v := ObjectsOnly(key, log, k);
    }
  }

  /** The version a writer is working from. */
  function Base(current: Option<Manifest>): nat {
    if current.Some? then current.value.version else 0
  }

  /** What a writer has read is a version of the chain no newer than the last with six digits. */
  ghost predicate Read(key: nat -> string, sys: System, pc: Pc, floor: nat)
  {
    match pc
    case Listing => floor <= |sys.history| || |sys.history| == LAST + 1
    case Getting(None) => floor == 0
    case Getting(Some(k)) => k in sys.objects && Current(key, sys, sys.objects[k], floor)
    case Putting(None) => floor == 0
    case Putting(Some(m)) => Current(key, sys, m, floor)
  }

  /** m is a version of the chain, at least the floor unless there are seven digits. */
  ghost predicate Current(key: nat -> string, sys: System, m: Manifest, floor: nat) {
    && 1 <= m.version <= |sys.history| && m.version <= LAST
    && key(m.version) in sys.objects && sys.objects[key(m.version)] == m
    && (floor <= m.version || |sys.history| == LAST + 1)
  }

  /** A conflict so far means at least as many other versions have appeared since the call began. */
  ghost predicate CallOk(key: nat -> string, sys: System, id: nat, call: Call) {
    && call.begun <= |sys.history|
    && match call.status
       case Running(attempt, pc) =>
         attempt < call.retries && id !in sys.history && Read(key, sys, pc, call.begun + attempt)
       case Published(v) => call.begun < v <= |sys.history| && sys.history[v - 1] == id
       case GaveUp => id !in sys.history && (call.begun + call.retries <= |sys.history| || |sys.history| == LAST + 1)
  }

  ghost predicate Inv(key: nat -> string, sys: System) {
    && (forall id <- sys.history :: id in sys.calls && sys.calls[id].status.Published?)
    && (forall i, j | 0 <= i < j < |sys.history| :: sys.history[i] != sys.history[j])
    && |sys.history| <= LAST + 1 && sys.objects == Objects(key, Log(sys))
    && (forall id <- sys.calls :: CallOk(key, sys, id, sys.calls[id]))
  }

  /** Among versions 1 to n the greatest key is n, until there are seven digits. */
  lemma GreatestVersion(key: nat -> string, log: seq<Change>, found: string)
    requires KeyLaws(key) && |log| <= LAST + 1 && Greatest(found, Objects(key, log).Keys)
    ensures |log| > 0 && found == key(if |log| <= LAST then |log| else LAST)
  {
    var v := ObjectsOnly(key, log, found);
    var top := if |log| <= LAST then |log| else LAST;
    ObjectsAt(key, log, top);
    if v != top {
      assert Less(found, key(top));
      NotBoth(found, key(top));
    }
  }

  lemma NotBoth(a: string, b: string)
    requires Less(a, b)
    ensures !AtMost(b, a)
  {
    Irreflexive(a);
    if Less(b, a) {
      Transitive(a, b, a);
    }
  }

  lemma BeginKeeps(key: nat -> string, sys: System, id: nat, change: Change, retries: nat)
    requires Inv(key, sys) && Enabled(sys, Begin(id, change, retries))
    ensures Inv(key, Apply(key, sys, Begin(id, change, retries)))
  {
    var sys' := Apply(key, sys, Begin(id, change, retries));
    assert Log(sys') == Log(sys);
    forall x <- sys'.calls
      ensures CallOk(key, sys', x, sys'.calls[x])
    {
      if x != id {
        assert CallOk(key, sys, x, sys.calls[x]);
      }
    }
  }

  /** Changing only a running call's position keeps everything else. */
  lemma PositionKeeps(key: nat -> string, sys: System, id: nat, status: Status)
    requires Inv(key, sys) && RunningAt(sys, id) && !status.Published?
    requires CallOk(key, sys, id, sys.calls[id].(status := status))
    ensures Inv(key, WithStatus(sys, id, status))
  {
    var sys' := WithStatus(sys, id, status);
    assert Log(sys') == Log(sys);
    forall x <- sys'.calls
      ensures CallOk(key, sys', x, sys'.calls[x])
    {
      assert CallOk(key, sys, x, sys.calls[x]);
    }
  }

  lemma ListKeeps(key: nat -> string, sys: System, id: nat, found: string)
    requires KeyLaws(key) && Inv(key, sys) && Enabled(sys, List(id, found))
    ensures Inv(key, Apply(key, sys, List(id, found)))
  {
    var call := sys.calls[id];
    var n := |sys.history|;
    var latest := if sys.objects == map[] then None else Some(found);
    assert CallOk(key, sys, id, call);
    if latest.Some? {
      GreatestVersion(key, Log(sys), found);
      ObjectsAt(key, Log(sys), if n <= LAST then n else LAST);
    } else if n > 0 {
      ObjectsAt(key, Log(sys), 1);
    }
    PositionKeeps(key, sys, id, Running(call.status.attempt, Getting(latest)));
  }

  lemma GetKeeps(key: nat -> string, sys: System, id: nat)
    requires KeyLaws(key) && Inv(key, sys) && Enabled(sys, Get(id))
    ensures Inv(key, Apply(key, sys, Get(id)))
  {
    var call := sys.calls[id];
    assert CallOk(key, sys, id, call);
    var latest := call.status.pc.latest;
    var current := if latest.Some? then Some(sys.objects[latest.value]) else None;
    PositionKeeps(key, sys, id, Running(call.status.attempt, Putting(current)));
  }

  /** The key a writer tries is taken exactly when its version already exists. */
  lemma TakenIffExists(key: nat -> string, log: seq<Change>, v: nat)
    requires KeyLaws(key) && 1 <= v <= LAST + 1 && |log| <= LAST + 1
    ensures key(v) in Objects(key, log) <==> v <= |log|
  {
    if v <= |log| {
      ObjectsAt(key, log, v);
    } else if key(v) in Objects(key, log) {
      var w := ObjectsOnly(key, log, key(v));
      Apart(key, w, v);
    }
  }

  /** A refused writer has missed a version since it listed. */
  lemma ConflictMeansOvertaken(key: nat -> string, sys: System, id: nat)
    requires KeyLaws(key) && Inv(key, sys) && Enabled(sys, Put(id))
    requires key(Base(sys.calls[id].status.pc.current) + 1) in sys.objects
    ensures var call := sys.calls[id];
            && call.begun <= |sys.history| && id !in sys.history
            && (call.begun + call.status.attempt + 1 <= |sys.history| || |sys.history| == LAST + 1)
  {
    assert CallOk(key, sys, id, sys.calls[id]);
    TakenIffExists(key, Log(sys), Base(sys.calls[id].status.pc.current) + 1);
  }

  lemma ConflictKeeps(key: nat -> string, sys: System, id: nat)
    requires KeyLaws(key) && Inv(key, sys) && Enabled(sys, Put(id))
    requires key(Base(sys.calls[id].status.pc.current) + 1) in sys.objects
    ensures Inv(key, AfterPut(key, sys, id)) && AfterPut(key, sys, id).objects == sys.objects
  {
    var status := RefusedStatus(sys.calls[id]);
    RefusedOk(key, sys, id);
    PositionKeeps(key, sys, id, status);
    assert AfterPut(key, sys, id) == WithStatus(sys, id, status);
  }

  lemma RefusedOk(key: nat -> string, sys: System, id: nat)
    requires KeyLaws(key) && Inv(key, sys) && Enabled(sys, Put(id))
    requires key(Base(sys.calls[id].status.pc.current) + 1) in sys.objects
    ensures CallOk(key, sys, id, sys.calls[id].(status := RefusedStatus(sys.calls[id])))
  {
    ConflictMeansOvertaken(key, sys, id);
    assert CallOk(key, sys, id, sys.calls[id]);
  }

  /** A writer that is not refused has read the latest version. */
  lemma NotTakenMeansLatest(key: nat -> string, sys: System, id: nat)
    requires KeyLaws(key) && Inv(key, sys) && Enabled(sys, Put(id))
    requires key(Base(sys.calls[id].status.pc.current) + 1) !in sys.objects
    ensures var call := sys.calls[id];
            var n := |sys.history| + 1;
            && n <= LAST + 1 && Log(sys)[..n - 1] == Log(sys) && call.begun < n
            && Next(call.status.pc.current, call.change) == Manifest(n, Changed(call.change, Outcome(Log(sys))))
  {
    var call := sys.calls[id];
    assert CallOk(key, sys, id, call);
    var v := Base(call.status.pc.current);
    TakenIffExists(key, Log(sys), v + 1);
    assert v == |sys.history|;
    assert Log(sys)[..v] == Log(sys);
    if v > 0 {
      ObjectsAt(key, Log(sys), v);
    }
  }

  lemma PublishKeeps(key: nat -> string, sys: System, id: nat)
    requires KeyLaws(key) && Inv(key, sys) && Enabled(sys, Put(id))
    requires key(Base(sys.calls[id].status.pc.current) + 1) !in sys.objects
    ensures Inv(key, AfterPut(key, sys, id))
  {
    var sys' := AfterPut(key, sys, id);
    OwnCallPublished(key, sys, id);
    PublishedLog(key, sys, id);
    OthersKept(key, sys, id);
    HistoryGrows(key, sys, id);
    forall x <- sys'.calls
      ensures CallOk(key, sys', x, sys'.calls[x])
    {
    }
  }

  lemma HistoryGrows(key: nat -> string, sys: System, id: nat)
    requires KeyLaws(key) && Inv(key, sys) && Enabled(sys, Put(id))
    requires key(Base(sys.calls[id].status.pc.current) + 1) !in sys.objects
    ensures var sys' := AfterPut(key, sys, id);
            && (forall x <- sys'.history :: x in sys'.calls && sys'.calls[x].status.Published?)
            && (forall i, j | 0 <= i < j < |sys'.history| :: sys'.history[i] != sys'.history[j])
  {
    assert CallOk(key, sys, id, sys.calls[id]);
  }

  lemma OthersKept(key: nat -> string, sys: System, id: nat)
    requires KeyLaws(key) && Inv(key, sys) && Enabled(sys, Put(id))
    requires key(Base(sys.calls[id].status.pc.current) + 1) !in sys.objects
    ensures var sys' := AfterPut(key, sys, id);
            forall x <- sys'.calls :: x != id ==> CallOk(key, sys', x, sys'.calls[x])
  {
    var sys' := AfterPut(key, sys, id);
    NotTakenMeansLatest(key, sys, id);
    forall x <- sys'.calls | x != id
      ensures CallOk(key, sys', x, sys'.calls[x])
    {
      OtherCallKeeps(key, sys, sys', x);
    }
  }

  lemma OwnCallPublished(key: nat -> string, sys: System, id: nat)
    requires KeyLaws(key) && Inv(key, sys) && Enabled(sys, Put(id))
    requires key(Base(sys.calls[id].status.pc.current) + 1) !in sys.objects
    ensures var sys' := AfterPut(key, sys, id);
            id in sys'.calls && CallOk(key, sys', id, sys'.calls[id])
  {
    assert CallOk(key, sys, id, sys.calls[id]);
    NotTakenMeansLatest(key, sys, id);
  }

  /** The next version extends the chain by the writer's change to the latest version. */
  lemma PublishedLog(key: nat -> string, sys: System, id: nat)
    requires KeyLaws(key) && Inv(key, sys) && Enabled(sys, Put(id))
    requires key(Base(sys.calls[id].status.pc.current) + 1) !in sys.objects
    ensures var sys' := AfterPut(key, sys, id);
            && (forall x <- sys'.history :: x in sys'.calls)
            && Log(sys') == Log(sys) + [sys.calls[id].change] && sys'.objects == Objects(key, Log(sys'))
            && |sys'.history| == |sys.history| + 1 <= LAST + 1
  {
    NotTakenMeansLatest(key, sys, id);
    var sys' := AfterPut(key, sys, id);
    assert CallOk(key, sys, id, sys.calls[id]);
    assert Log(sys') == Log(sys) + [sys.calls[id].change];
    assert Log(sys')[..|sys.history|] == Log(sys);
  }

  lemma OtherCallKeeps(key: nat -> string, sys: System, sys': System, x: nat)
    requires x in sys.calls && CallOk(key, sys, x, sys.calls[x])
    requires |sys'.history| == |sys.history| + 1 <= LAST + 1 && sys'.history[..|sys.history|] == sys.history
    requires sys'.history[|sys.history|] != x
    requires forall k <- sys.objects :: k in sys'.objects && sys'.objects[k] == sys.objects[k]
    ensures CallOk(key, sys', x, sys.calls[x])
  {
    if x in sys'.history {
      var i :| 0 <= i < |sys'.history| && sys'.history[i] == x;
      assert i < |sys.history| && sys.history[i] == x;
    }
  }

  lemma StepKeeps(key: nat -> string, sys: System, step: Step)
    requires KeyLaws(key) && Inv(key, sys) && Enabled(sys, step)
    ensures Inv(key, Apply(key, sys, step))
    ensures forall k <- sys.objects ::
              k in Apply(key, sys, step).objects && Apply(key, sys, step).objects[k] == sys.objects[k]
    ensures sys.history <= Apply(key, sys, step).history
  {
    match step
    case Begin(id, change, retries) => BeginKeeps(key, sys, id, change, retries);
    case List(id, found) => ListKeeps(key, sys, id, found);
    case Get(id) => GetKeeps(key, sys, id);
    case Put(id) =>
      if key(Base(sys.calls[id].status.pc.current) + 1) in sys.objects {
        ConflictKeeps(key, sys, id);
      } else {
        PublishKeeps(key, sys, id);
      }
  }

  lemma {:induction false} RunKeeps(key: nat -> string, states: seq<System>, steps: seq<Step>, m: nat, n: nat)
    requires KeyLaws(key) && Run(key, states, steps) && m <= n <= |steps|
    ensures Inv(key, states[n])
    ensures forall k <- states[m].objects :: k in states[n].objects && states[n].objects[k] == states[m].objects[k]
    ensures states[m].history <= states[n].history
  {
    for i := 0 to n
      invariant Inv(key, states[i])
      invariant m <= i ==> states[m].history <= states[i].history
      invariant m <= i ==>
        forall k <- states[m].objects :: k in states[i].objects && states[i].objects[k] == states[m].objects[k]
    {
      StepKeeps(key, states[i], steps[i]);
    }
  }

  // ----- The theorems -----

  /**
   * In every state of every run the objects are exactly the versions 1 to n, and
   * version v is the first v published changes applied in order, one per call.
   */
  lemma VersionsFormAChain(key: nat -> string, states: seq<System>, steps: seq<Step>, n: nat)
    requires KeyLaws(key) && Run(key, states, steps) && n <= |steps|
    ensures var sys := states[n];
            && (forall id <- sys.history :: id in sys.calls)
            && (forall i, j | 0 <= i < j < |sys.history| :: sys.history[i] != sys.history[j])
            && Chain(key, sys.objects, Log(sys))
  {
    RunKeeps(key, states, steps, n, n);
    ObjectsFormChain(key, Log(states[n]));
  }

  /** A manifest that has been written never changes. */
  lemma WrittenStaysWritten(key: nat -> string, states: seq<System>, steps: seq<Step>, m: nat, n: nat, k: string)
    requires KeyLaws(key) && Run(key, states, steps) && m <= n <= |steps| && k in states[m].objects
    ensures k in states[n].objects && states[n].objects[k] == states[m].objects[k]
  {
    RunKeeps(key, states, steps, m, n);
  }

  /**
   * A call that reports version v put exactly that version into the chain, after
   * it began; one that has given up put none, and after at least as many other
   * publishes as it had attempts, unless version 1000000 has been reached.
   */
  lemma CallsReportTheTruth(key: nat -> string, states: seq<System>, steps: seq<Step>, n: nat, id: nat)
    requires KeyLaws(key) && Run(key, states, steps) && n <= |steps| && id in states[n].calls
    ensures var call, history := states[n].calls[id], states[n].history;
            match call.status
            case Published(v) =>
              call.begun < v <= |history| && forall i | 0 <= i < |history| :: history[i] == id <==> i == v - 1
            case GaveUp => id !in history && (|history| - call.begun >= call.retries || |history| == LAST + 1)
            case Running(attempt, _) => id !in history
  {
    RunKeeps(key, states, steps, n, n);
    assert CallOk(key, states[n], id, states[n].calls[id]);
  }

  /** At version 1000000 the greatest key is 999999's, and nothing is ever published again. */
  lemma {:induction false} PublishingStopsAtSevenDigits(key: nat -> string, states: seq<System>, steps: seq<Step>,
                                                        m: nat, n: nat)
    requires KeyLaws(key) && Run(key, states, steps) && m <= n <= |steps| && |states[m].history| == LAST + 1
    ensures states[n].objects == states[m].objects && states[n].history == states[m].history
  {
    RunKeeps(key, states, steps, m, m);
    for i := m to n
      invariant Inv(key, states[i]) && states[i].objects == states[m].objects && states[i].history == states[m].history
    {
      StuckAtSevenDigits(key, states[i], steps[i]);
    }
  }

  lemma StuckAtSevenDigits(key: nat -> string, sys: System, step: Step)
    requires KeyLaws(key) && Inv(key, sys) && Enabled(sys, step) && |sys.history| == LAST + 1
    ensures Inv(key, Apply(key, sys, step))
    ensures Apply(key, sys, step).objects == sys.objects && Apply(key, sys, step).history == sys.history
  {
    StepKeeps(key, sys, step);
    if step.Put? {
      if key(Base(sys.calls[step.id].status.pc.current) + 1) in sys.objects {
        ConflictKeeps(key, sys, step.id);
      } else {
        NotTakenMeansLatest(key, sys, step.id);
      }
    }
  }
}
