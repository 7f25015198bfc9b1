/**
 * Ingest as a state machine: documents go to the log and the memtable, flushes
 * snapshot the memtable, publish it and cut the log, and crashes throw away
 * everything but the log and what is published.
 */
module Ingest {
  import opened Bytes
  import opened WalLog
  import opened Wal

  /** The checksum, encoding/json and the memtable's own JSON parser. */
  datatype Engine = Engine(crc: Checksum, json: Json, parse: bytes -> bool)

  /**
   * Removing insignificant whitespace gives valid JSON that has none left, and
   * does not change whether the memtable accepts the document.
   */
  ghost predicate Sane(e: Engine) {
    forall x: bytes {:trigger e.json.compact(x)} :: e.json.compact(x).Some? ==>
      var y := e.json.compact(x).value;
      e.json.valid(y) && e.json.compact(y) == Some(y) && e.parse(y) == e.parse(x)
  }

  /** A document up to JSON compaction, which is how the log keeps it. */
  function Norm(e: Engine, raw: bytes): bytes {
    var c := e.json.compact(raw);
    if c.Some? then c.value else raw
  }

  function NormAll(e: Engine, docs: seq<bytes>): (r: seq<bytes>)
    ensures |r| == |docs|
  {
    seq(|docs|, i requires 0 <= i < |docs| => Norm(e, docs[i]))
  }

  /** Append and the memtable both take the document. */
  predicate Accepted(e: Engine, raw: bytes) {
    e.json.compact(raw).Some? && e.parse(raw)
  }

  /** The payloads the memtable takes when they are replayed, in order. */
  function Taken(e: Engine, ps: seq<bytes>): seq<bytes> {
    if ps == [] then []
    else (if e.json.valid(ps[0]) && e.parse(ps[0]) then [ps[0]] else []) + Taken(e, ps[1..])
  }

  /** A flush between its snapshot and its truncation; off is the log size at the snapshot. */
  datatype Flight = Flight(snap: seq<bytes>, off: nat, background: bool, published: bool)

  /**
   * The index and its surroundings. The last three fields are history: the
   * documents acknowledged so far, those of snapshots dropped unpublished since
   * the index was opened, and whether a failed batch left documents in the memtable.
   */
  datatype State = State(
    file: bytes,
    memtable: seq<bytes>,
    flights: seq<Flight>,
    flushErr: bool,
    published: seq<bytes>,
    acked: seq<bytes>,
    lost: seq<bytes>,
    strays: bool)

  const Initial: State := State(HEADER, [], [], false, [], [], [], false)

  /**
   * due says that shouldFlush holds after the call, spill how many bytes of a
   * failed batch had already left the write buffer, and cut how many bytes of
   * the records being written had reached the disk when the process died.
   */
  datatype Step =
    | Add(raw: bytes, due: bool)
    | AddBatch(docs: seq<bytes>, due: bool, spill: nat)
    | FlushNow
    | Publish(i: nat)
    | Fail(i: nat)
    | Truncate(i: nat)
    | Crash(writing: seq<bytes>, cut: nat)

  predicate Background(s: State) {
    exists f <- s.flights :: f.background
  }

  /** The documents of a batch before its first failure. */
  function GoodPrefix(e: Engine, docs: seq<bytes>): (k: nat)
    ensures k <= |docs|
  {
    if docs == [] || !Accepted(e, docs[0]) then 0 else 1 + GoodPrefix(e, docs[1..])
  }

  /** What a batch has appended when it stops: a document only the memtable refuses is already in. */
  function Appended(e: Engine, docs: seq<bytes>): seq<bytes> {
    var k := GoodPrefix(e, docs);
    if k < |docs| && e.json.compact(docs[k]).Some? then docs[..k + 1] else docs[..k]
  }

  function Encoded(e: Engine, docs: seq<bytes>): bytes {
    Frames(e.crc, NormAll(e, docs))
  }

  predicate Enabled(e: Engine, s: State, step: Step) {
    match step
    case Add(_, _) => true
    case AddBatch(docs, _, spill) =>
      GoodPrefix(e, docs) < |docs| ==>
        var pending := |Encoded(e, Appended(e, docs))|;
        spill <= pending && (spill == 0 <==> pending <= BUFFER_SIZE)
    case FlushNow => !Background(s)
    case Publish(i) => i < |s.flights| && !s.flights[i].published
    case Fail(i) => i < |s.flights|
    case Truncate(i) => i < |s.flights| && s.flights[i].published
    case Crash(writing, cut) =>
      && |s.file| >= HEADER_SIZE
      && (forall d <- writing :: e.json.compact(d).Some?)
      && cut <= |Encoded(e, writing)|
  }

  /** Snapshot, record the log position, install an empty memtable. */
  function Launch(s: State, background: bool): State {
    s.(memtable := [], strays := false,
       flights := s.flights + [Flight(s.memtable, |s.file|, background, false)])
  }

  function LaunchIfDue(s: State, due: bool): State {
    if due && !Background(s) then Launch(s, true) else s
  }

  function Without(s: State, i: nat): State
    requires i < |s.flights|
  {
    s.(flights := s.flights[..i] + s.flights[i + 1..])
  }

  function AfterAdd(e: Engine, s: State, raw: bytes, due: bool): State {
    if s.flushErr then s.(flushErr := false)
    else if e.json.compact(raw).None? then s
    else
      var logged := s.(file := s.file + Frame(e.crc, Norm(e, raw)));
      if !e.parse(raw) then logged
      else LaunchIfDue(logged.(memtable := s.memtable + [raw], acked := s.acked + [raw]), due)
  }

  function AfterAddBatch(e: Engine, s: State, docs: seq<bytes>, due: bool, spill: nat): State
    requires Enabled(e, s, AddBatch(docs, due, spill))
  {
    var k := GoodPrefix(e, docs);
    if s.flushErr then s.(flushErr := false)
    else if k < |docs| then
      s.(file := s.file + Encoded(e, Appended(e, docs))[..spill],
         memtable := s.memtable + docs[..k], strays := s.strays || k > 0)
    else
      LaunchIfDue(s.(file := s.file + Encoded(e, docs), memtable := s.memtable + docs, acked := s.acked + docs), due)
  }

  function AfterFlushNow(s: State): State {
    if s.flushErr then s.(flushErr := false)
    else if s.memtable == [] then s
    else Launch(s, false)
  }

  function AfterPublish(s: State, i: nat): State
    requires i < |s.flights|
  {
    var f := s.flights[i];
    s.(flights := s.flights[i := f.(published := true)], published := s.published + f.snap)
  }

  /** Only a background flush leaves its error for the next caller. */
  function AfterFail(s: State, i: nat): State
    requires i < |s.flights|
  {
    var f := s.flights[i];
    Without(s, i).(flushErr := s.flushErr || f.background,
                   lost := s.lost + if f.published then [] else f.snap)
  }

  function AfterTruncate(s: State, i: nat): State
    requires i < |s.flights|
  {
    Without(s, i).(file := PrefixRemoved(s.file, s.flights[i].off))
  }

  /** The file after a crash in the middle of appending, before it is reopened. */
  function TornFile(e: Engine, s: State, writing: seq<bytes>, cut: nat): bytes
    requires Enabled(e, s, Crash(writing, cut))
  {
    s.file + Encoded(e, writing)[..cut]
  }

  function AfterCrash(e: Engine, s: State, writing: seq<bytes>, cut: nat): State
    requires Enabled(e, s, Crash(writing, cut))
  {
    var torn := TornFile(e, s, writing, cut);
    State(Repaired(e.crc, torn), Taken(e, Records(e.crc, torn)), [], false, s.published, s.acked, [], false)
  }

  function Apply(e: Engine, s: State, step: Step): State
    requires Enabled(e, s, step)
  {
    match step
    case Add(raw, due) => AfterAdd(e, s, raw, due)
    case AddBatch(docs, due, spill) => AfterAddBatch(e, s, docs, due, spill)
    case FlushNow => AfterFlushNow(s)
    case Publish(i) => AfterPublish(s, i)
    case Fail(i) => AfterFail(s, i)
    case Truncate(i) => AfterTruncate(s, i)
    case Crash(writing, cut) => AfterCrash(e, s, writing, cut)
  }

  /** A whole run: the states and the steps between them. */
  ghost predicate Run(e: Engine, states: seq<State>, steps: seq<Step>) {
    && |states| == |steps| + 1 && states[0] == Initial
    && forall i | 0 <= i < |steps| ::
         Enabled(e, states[i], steps[i]) && states[i + 1] == Apply(e, states[i], steps[i])
  }

  // ----- What is promised -----

  ghost function Bag(e: Engine, docs: seq<bytes>): multiset<bytes> {
    multiset(NormAll(e, docs))
  }

  /** What reopening the index now would put into the memtable. */
  function Replayable(e: Engine, file: bytes): seq<bytes>
    requires |file| >= HEADER_SIZE
  {
    Taken(e, Records(e.crc, file))
  }

  /** Every acknowledged document is published or replayable, as often as it was acknowledged. */
  ghost predicate Durable(e: Engine, s: State) {
    |s.file| >= HEADER_SIZE && Bag(e, s.acked) <= Bag(e, s.published) + multiset(Replayable(e, s.file))
  }

  // ----- What a run must avoid -----

  /** Records stay below 4 GiB. */
  predicate Fits(e: Engine, docs: seq<bytes>) {
    forall i | 0 <= i < |docs| :: Loggable(Norm(e, docs[i]))
  }

  predicate Torn(residue: int) {
    0 < residue < RECORD_OVERHEAD
  }

  /** The bytes are those of the first so many documents. */
  ghost predicate OnBoundary(e: Engine, docs: seq<bytes>, bytes: nat) {
    exists k: nat :: k <= |docs| && bytes == |Encoded(e, docs[..k])|
  }

  /** The residue a crash leaves behind the last whole record. */
  ghost predicate LeavesTornHeader(e: Engine, writing: seq<bytes>, cut: nat) {
    exists k: nat :: WhollyBefore(e.crc, NormAll(e, writing), k, cut)
                     && Torn(cut - |Frames(e.crc, NormAll(e, writing)[..k])|)
  }

  /**
   * - a failed batch that outgrows the write buffer leaves whole records in the file;
   * - a flush starts only when no other is between snapshot and truncation;
   * - the log is not cut while documents of a failed flush are only in the log;
   * - no crash leaves a part of a record header.
   */
  ghost predicate Careful(e: Engine, s: State, step: Step) {
    match step
    case Add(raw, due) => Fits(e, [raw]) && (due ==> s.flights == [] || Background(s))
    case AddBatch(docs, due, spill) =>
      && Fits(e, docs) && (due ==> s.flights == [] || Background(s))
      && (GoodPrefix(e, docs) < |docs| ==> OnBoundary(e, Appended(e, docs), spill))
    case FlushNow => s.flights == [] || s.flushErr || s.memtable == []
    case Publish(_) => true
    case Fail(_) => true
    case Truncate(_) => s.lost == []
    case Crash(writing, cut) => Fits(e, writing) && !LeavesTornHeader(e, writing, cut)
  }

  ghost predicate CarefulRun(e: Engine, states: seq<State>, steps: seq<Step>) {
    Run(e, states, steps) && forall i | 0 <= i < |steps| :: Careful(e, states[i], steps[i])
  }
}
