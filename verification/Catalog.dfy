/** Flushes, merges, deletes by query, garbage collection and crashes as interleaved steps on one index. */
module Catalog {
  import opened Bytes
  import opened Manifest
  import opened Visibility

  datatype Flush = Flush(id: string, docs: seq<Doc>, uploaded: bool)

  /** A compaction or a delete by query; there is at most one of them at a time. */
  datatype Writer =
    | Idle
    | Merging(picked: seq<SegmentMeta>, newId: string, merged: Option<seq<Doc>>, uploaded: bool)
    | Deleting(base: seq<SegmentMeta>, test: Test, plan: Option<map<string, set<u32>>>, written: set<string>)

  /** A garbage collection: it has read the manifest, or it removes what it listed object by object. */
  datatype Sweep = NoSweep | Reading(protected: set<string>) | Removing(segs: set<string>, dels: set<DelKey>)

  datatype World =
    World(store: Store, metas: seq<SegmentMeta>, flushes: map<nat, Flush>, writer: Writer, sweep: Sweep)

  datatype Step =
    | BeginFlush(job: nat, id: string, docs: seq<Doc>)
    | UploadFlush(job: nat)
    | PublishFlush(job: nat, meta: SegmentMeta)
    | BeginMerge(picked: seq<SegmentMeta>, newId: string)
    | ReadMerge
    | UploadMerge
    | PublishMerge(meta: SegmentMeta)
    | BeginDelete(test: Test)
    | ReadDelete
    | WriteDel(id: string)
    | PublishDelete
    | AbandonFlush(job: nat)
    | AbandonWriter
    | Crash
    | BeginSweep
    | ListSweep
    | RemoveSeg(id: string)
    | RemoveDel(key: DelKey)
    | EndSweep

  /** What a merge keeps of the live documents it reads, in the order it reads them. */
  type Filter = seq<Doc> -> seq<Doc>

  ghost function DelIds(dels: set<DelKey>): set<string> {
    set k <- dels :: k.id
  }

  ghost function SweepIds(sw: Sweep): set<string> {
    if sw.Removing? then sw.segs + DelIds(sw.dels) else {}
  }

  ghost function FlushIds(flushes: map<nat, Flush>): set<string> {
    set j <- flushes :: flushes[j].id
  }

  ghost function NewIds(wr: Writer): set<string> {
    if wr.Merging? then {wr.newId} else {}
  }

  ghost function Used(w: World): set<string> {
    w.store.segs.Keys + DelIds(w.store.dels.Keys) + IdsOf(w.metas) + FlushIds(w.flushes) + NewIds(w.writer)
    + SweepIds(w.sweep)
  }

  /** A segment's documents number less than 2^32. */
  ghost predicate Countable(docs: seq<Doc>) {
    |docs| < 0x1_0000_0000
  }

  ghost function Hits(st: Store, m: SegmentMeta, p: Test): set<u32> {
    if Countable(Content(st, m.id)) then HitsFrom(Content(st, m.id), DelOf(st, m), p, 0) else {}
  }

  /** The new bitmap of every segment in which something matched. */
  ghost predicate Planned(st: Store, base: seq<SegmentMeta>, p: Test, plan: map<string, set<u32>>) {
    && plan.Keys <= IdsOf(base)
    && forall i | 0 <= i < |base| ::
      && (base[i].id in plan <==> Hits(st, base[i], p) != {})
      && (base[i].id in plan ==> plan[base[i].id] == DelOf(st, base[i]) + Hits(st, base[i], p))
  }

  ghost function VersionsOf(base: seq<SegmentMeta>, plan: map<string, set<u32>>): map<string, nat> {
    if base == [] then map[]
    else
      var m := base[|base| - 1];
      var before := VersionsOf(base[..|base| - 1], plan);
      if m.id in plan then before[m.id := m.delVersion + 1] else before
  }

  ghost function ActiveIds(metas: seq<SegmentMeta>): set<string> {
    IdsOf(ActiveSegments(metas))
  }

  /** The store after a whole collection: no object of a segment that is not active. */
  ghost function Collected(st: Store, metas: seq<SegmentMeta>): Store {
    Store(map id <- st.segs | id in ActiveIds(metas) :: st.segs[id],
          map k <- st.dels | k.id in ActiveIds(metas) :: st.dels[k])
  }

  /** What a collection lists, given the segments that were active when it read the manifest. */
  ghost function Garbage(st: Store, protected: set<string>): Sweep {
    Removing(set id <- st.segs | id !in protected, set k <- st.dels | k.id !in protected)
  }

  function WithoutSeg(st: Store, id: string): Store {
    st.(segs := st.segs - {id})
  }

  function WithoutDel(st: Store, k: DelKey): Store {
    st.(dels := st.dels - {k})
  }

  /** No uploaded segment awaits its manifest. */
  ghost predicate NothingPending(flushes: map<nat, Flush>, wr: Writer) {
    (forall j <- flushes :: !flushes[j].uploaded) && (wr.Merging? ==> !wr.uploaded)
  }

  /** Reading a segment without its object is an error. */
  ghost predicate Present(st: Store, ms: seq<SegmentMeta>) {
    forall i | 0 <= i < |ms| :: ms[i].id in st.segs
  }

  /** A collection needs a manifest, and once there is one its segment list is never empty again. */
  ghost predicate Enabled(w: World, s: Step) {
    match s
    case BeginFlush(job, id, docs) => job !in w.flushes && id !in Used(w) && Countable(docs)
    case UploadFlush(job) => job in w.flushes
    case PublishFlush(job, meta) =>
      && job in w.flushes && w.flushes[job].uploaded
      && meta.id == w.flushes[job].id && !meta.deleted && meta.delVersion == 0
    case BeginMerge(picked, newId) => w.writer.Idle? && Picked(w.metas, picked) && newId !in Used(w)
    case ReadMerge => w.writer.Merging? && w.writer.merged.None? && Present(w.store, w.writer.picked)
    case UploadMerge => w.writer.Merging? && w.writer.merged.Some? && Countable(w.writer.merged.value)
    case PublishMerge(meta) =>
      && w.writer.Merging? && w.writer.merged.Some? && (w.writer.merged != Some([]) ==> w.writer.uploaded)
      && meta.id == w.writer.newId && !meta.deleted && meta.delVersion == 0
    case BeginDelete(test) => w.writer.Idle?
    case ReadDelete => w.writer.Deleting? && w.writer.plan.None? && Present(w.store, w.writer.base)
    case WriteDel(id) => w.writer.Deleting? && w.writer.plan.Some? && id in w.writer.plan.value
    case PublishDelete =>
      w.writer.Deleting? && w.writer.plan.Some? && w.writer.written == w.writer.plan.value.Keys
    case AbandonFlush(job) => true
    case AbandonWriter => true
    case Crash => true
    case BeginSweep => w.sweep.NoSweep? && w.metas != []
    case ListSweep => w.sweep.Reading?
    case RemoveSeg(id) => w.sweep.Removing? && id in w.sweep.segs
    case RemoveDel(k) => w.sweep.Removing? && k in w.sweep.dels
    case EndSweep => true
  }

  /** No segment is uploaded or awaits its manifest between a collection's reading of the manifest and its listing. */
  ghost predicate Careful(w: World, s: Step) {
    match s
    case BeginSweep => NothingPending(w.flushes, w.writer)
    case UploadFlush(_) => !w.sweep.Reading?
    case UploadMerge => !w.sweep.Reading?
    case _ => true
  }

  ghost function PlanOf(st: Store, base: seq<SegmentMeta>, p: Test): map<string, set<u32>> {
    if base == [] then map[]
    else
      var m := base[|base| - 1];
      var before := PlanOf(st, base[..|base| - 1], p);
      if Hits(st, m, p) == {} then before else before[m.id := DelOf(st, m) + Hits(st, m, p)]
  }

  /** The version a planned segment moves to. */
  ghost function NextVersion(base: seq<SegmentMeta>, plan: map<string, set<u32>>, id: string): nat {
    var vs := VersionsOf(base, plan);
    if id in vs then vs[id] else 0
  }

  function Uploaded(st: Store, id: string, docs: seq<Doc>): Store {
    st.(segs := st.segs[id := docs])
  }

  function DelWritten(st: Store, k: DelKey, bm: set<u32>): Store {
    st.(dels := st.dels[k := bm])
  }

  /** The manifest change of a finished merge: without documents the sources are only marked. */
  ghost function MergeChange(wr: Writer, meta: SegmentMeta): Change
    requires wr.Merging?
  {
    if wr.merged == Some([]) then Retire(IdsOf(wr.picked)) else Merge(IdsOf(wr.picked), meta)
  }

  ghost function DelTarget(wr: Writer, id: string): DelKey
    requires wr.Deleting? && wr.plan.Some?
  {
    DelKey(id, NextVersion(wr.base, wr.plan.value, id))
  }

  ghost function Apply(keep: Filter, w: World, s: Step): World
    requires Enabled(w, s)
  {
    match s
    case BeginFlush(job, id, docs) => w.(flushes := w.flushes[job := Flush(id, docs, false)])
    case UploadFlush(job) =>
      var f := w.flushes[job];
      w.(store := Uploaded(w.store, f.id, f.docs), flushes := w.flushes[job := f.(uploaded := true)])
    case PublishFlush(job, meta) =>
      w.(metas := Changed(AppendSegment(meta), w.metas), flushes := w.flushes - {job})
    case BeginMerge(picked, newId) => w.(writer := Merging(picked, newId, None, false))
    case ReadMerge => w.(writer := w.writer.(merged := Some(keep(AllLive(w.store, w.writer.picked)))))
    case UploadMerge =>
      w.(store := Uploaded(w.store, w.writer.newId, w.writer.merged.value), writer := w.writer.(uploaded := true))
    case PublishMerge(meta) => w.(metas := Changed(MergeChange(w.writer, meta), w.metas), writer := Idle)
    case BeginDelete(test) => w.(writer := Deleting(ActiveSegments(w.metas), test, None, {}))
    case ReadDelete => w.(writer := w.writer.(plan := Some(PlanOf(w.store, w.writer.base, w.writer.test))))
    case WriteDel(id) =>
      w.(store := DelWritten(w.store, DelTarget(w.writer, id), w.writer.plan.value[id]),
         writer := w.writer.(written := w.writer.written + {id}))
    case PublishDelete =>
      w.(metas := Changed(BumpDeletes(VersionsOf(w.writer.base, w.writer.plan.value)), w.metas), writer := Idle)
    case AbandonFlush(job) => w.(flushes := w.flushes - {job})
    case AbandonWriter => w.(writer := Idle)
    case Crash => w.(flushes := map[], writer := Idle, sweep := NoSweep)
    case BeginSweep => w.(sweep := Reading(ActiveIds(w.metas)))
    case ListSweep => w.(sweep := Garbage(w.store, w.sweep.protected))
    case RemoveSeg(id) => w.(store := WithoutSeg(w.store, id), sweep := w.sweep.(segs := w.sweep.segs - {id}))
    case RemoveDel(k) => w.(store := WithoutDel(w.store, k), sweep := w.sweep.(dels := w.sweep.dels - {k}))
    case EndSweep => w.(sweep := NoSweep)
  }

  // ----- The invariant -----

  /** Active segments have their objects. */
  ghost predicate Backed(st: Store, metas: seq<SegmentMeta>) {
    forall i | 0 <= i < |metas| && !metas[i].deleted ::
      && metas[i].id in st.segs && Countable(st.segs[metas[i].id])
      && (metas[i].delVersion > 0 ==> DelKey(metas[i].id, metas[i].delVersion) in st.dels)
  }

  ghost predicate Holds(st: Store, id: string, docs: seq<Doc>) {
    id in st.segs && st.segs[id] == docs && Countable(docs)
  }

  /** The object of a segment that no manifest names yet is there if and only if it was uploaded. */
  ghost predicate Pending(st: Store, id: string, uploaded: bool, docs: seq<Doc>) {
    && (uploaded ==> Holds(st, id, docs)) && (!uploaded ==> id !in st.segs)
    && forall k <- st.dels :: k.id != id
  }

  ghost predicate FlushOk(st: Store, metas: seq<SegmentMeta>, f: Flush) {
    f.id !in IdsOf(metas) && Countable(f.docs) && Pending(st, f.id, f.uploaded, f.docs)
  }

  ghost predicate FlushesOk(st: Store, metas: seq<SegmentMeta>, flushes: map<nat, Flush>) {
    && (forall j <- flushes :: FlushOk(st, metas, flushes[j]))
    && (forall j, k | j in flushes && k in flushes && j != k :: flushes[j].id != flushes[k].id)
  }

  ghost predicate MergeOk(keep: Filter, st: Store, metas: seq<SegmentMeta>, wr: Writer)
    requires wr.Merging?
  {
    && Picked(metas, wr.picked) && wr.newId !in IdsOf(metas)
    && (wr.merged.Some? ==> wr.merged.value == keep(AllLive(st, wr.picked)))
    && (wr.uploaded ==> wr.merged.Some?) && Pending(st, wr.newId, wr.uploaded, Merged(wr))
  }

  ghost function Merged(wr: Writer): seq<Doc>
    requires wr.Merging?
  {
    if wr.merged.Some? then wr.merged.value else []
  }

  /** The bitmap of base segment i has been written under its next version. */
  ghost predicate BitmapWritten(st: Store, m: SegmentMeta, bm: set<u32>) {
    var k := DelKey(m.id, m.delVersion + 1);
    k in st.dels && st.dels[k] == bm
  }

  ghost predicate DeleteOk(st: Store, metas: seq<SegmentMeta>, wr: Writer)
    requires wr.Deleting?
  {
    && Picked(metas, wr.base)
    && (wr.plan.None? ==> wr.written == {})
    && (wr.plan.Some? ==>
          && Planned(st, wr.base, wr.test, wr.plan.value) && wr.written <= wr.plan.value.Keys
          && forall i | 0 <= i < |wr.base| && wr.base[i].id in wr.written ::
               BitmapWritten(st, wr.base[i], wr.plan.value[wr.base[i].id]))
  }

  ghost predicate WriterOk(keep: Filter, st: Store, metas: seq<SegmentMeta>, wr: Writer) {
    match wr
    case Idle => true
    case Merging(_, _, _, _) => MergeOk(keep, st, metas, wr)
    case Deleting(_, _, _, _) => DeleteOk(st, metas, wr)
  }

  /** A merge's new id is no flush's id. */
  ghost predicate Apart(flushes: map<nat, Flush>, wr: Writer) {
    wr.Merging? ==> forall j <- flushes :: flushes[j].id != wr.newId
  }

  ghost predicate Inv(keep: Filter, w: World) {
    && DistinctIds(w.metas) && Backed(w.store, w.metas) && FlushesOk(w.store, w.metas, w.flushes)
    && WriterOk(keep, w.store, w.metas, w.writer) && Apart(w.flushes, w.writer)
    && SweepOk(w.metas, w.flushes, w.writer, w.sweep)
  }

  /** Nothing a collection may remove is active or will be. */
  ghost predicate SweepOk(metas: seq<SegmentMeta>, flushes: map<nat, Flush>, wr: Writer, sw: Sweep) {
    match sw
    case NoSweep => true
    case Reading(protected) => ActiveIds(metas) <= protected && NothingPending(flushes, wr)
    case Removing(_, _) => SweepIds(sw) !! (ActiveIds(metas) + FlushIds(flushes) + NewIds(wr))
  }

  // ----- Small facts -----

  lemma IdIn(metas: seq<SegmentMeta>, i: nat)
    requires i < |metas|
    ensures metas[i].id in IdsOf(metas)
  {
    assert metas[i] in metas;
  }

  lemma IdOf(metas: seq<SegmentMeta>, id: string) returns (i: nat)
    requires id in IdsOf(metas)
    ensures i < |metas| && metas[i].id == id
  {
    var m :| m in metas && m.id == id;
    i :| 0 <= i < |metas| && metas[i] == m;
  }

  lemma IdsAppended(metas: seq<SegmentMeta>, m: SegmentMeta)
    ensures IdsOf(metas + [m]) == IdsOf(metas) + {m.id}
  {
    forall id
      ensures id in IdsOf(metas + [m]) <==> id in IdsOf(metas) || id == m.id
    {
      if id in IdsOf(metas + [m]) {
        var x :| x in metas + [m] && x.id == id;
        assert x in metas || x == m;
      }
      if id in IdsOf(metas) {
        var x :| x in metas && x.id == id;
        assert x in metas + [m];
      }
      assert m in metas + [m];
    }
  }

  /** The position of a picked segment in the manifest. */
  lemma PickedAt(metas: seq<SegmentMeta>, picked: seq<SegmentMeta>, i: nat) returns (k: nat)
    requires Picked(metas, picked) && i < |picked|
    ensures k < |metas| && metas[k] == picked[i] && !metas[k].deleted
  {
    assert picked[i] in metas;
    k :| 0 <= k < |metas| && metas[k] == picked[i];
  }

  lemma PickedAgree(a: Store, b: Store, metas: seq<SegmentMeta>, picked: seq<SegmentMeta>)
    requires Agree(a, b, metas) && Picked(metas, picked)
    ensures Agree(a, b, picked)
  {
    forall i | 0 <= i < |picked|
      ensures Content(a, picked[i].id) == Content(b, picked[i].id) && DelOf(a, picked[i]) == DelOf(b, picked[i])
    {
      var k := PickedAt(metas, picked, i);
    }
  }

  lemma {:induction false} AllLiveAgree(a: Store, b: Store, picked: seq<SegmentMeta>)
    requires Agree(a, b, picked) && forall i | 0 <= i < |picked| :: !picked[i].deleted
    ensures AllLive(a, picked) == AllLive(b, picked)
  {
    if picked != [] {
      AllLiveAgree(a, b, picked[..|picked| - 1]);
    }
  }

  lemma PlannedAgree(a: Store, b: Store, base: seq<SegmentMeta>, p: Test, plan: map<string, set<u32>>)
    requires Agree(a, b, base) && (forall i | 0 <= i < |base| :: !base[i].deleted) && Planned(a, base, p, plan)
    ensures Planned(b, base, p, plan)
  {
    forall i | 0 <= i < |base|
      ensures Hits(b, base[i], p) == Hits(a, base[i], p) && DelOf(b, base[i]) == DelOf(a, base[i])
    {
    }
  }

  lemma {:induction false} ActiveArePicked(metas: seq<SegmentMeta>)
    requires DistinctIds(metas)
    ensures Picked(metas, ActiveSegments(metas))
    ensures forall i | 0 <= i < |metas| && !metas[i].deleted :: metas[i] in ActiveSegments(metas)
  {
    if metas != [] {
      var rest := metas[1..];
      ActiveArePicked(rest);
      var active := ActiveSegments(rest);
      assert metas == [metas[0]] + rest;
      forall i | 0 <= i < |active|
        ensures active[i].id != metas[0].id
      {
        var k := PickedAt(rest, active, i);
        assert metas[k + 1] == active[i];
      }
    }
  }

  lemma {:induction false} VersionsExact(base: seq<SegmentMeta>, plan: map<string, set<u32>>, id: string)
    ensures id in VersionsOf(base, plan) <==> id in plan && id in IdsOf(base)
  {
    if base != [] {
      var n := |base| - 1;
      VersionsExact(base[..n], plan, id);
      IdsAppended(base[..n], base[n]);
      assert base == base[..n] + [base[n]];
    }
  }

  lemma {:induction false} VersionAt(base: seq<SegmentMeta>, plan: map<string, set<u32>>, i: nat)
    requires DistinctIds(base) && i < |base| && base[i].id in plan
    ensures base[i].id in VersionsOf(base, plan) && VersionsOf(base, plan)[base[i].id] == base[i].delVersion + 1
  {
    var n := |base| - 1;
    if i < n {
      VersionAt(base[..n], plan, i);
    }
  }

  lemma {:induction false} PlanKeys(st: Store, base: seq<SegmentMeta>, p: Test)
    ensures PlanOf(st, base, p).Keys <= IdsOf(base)
  {
    if base != [] {
      var n := |base| - 1;
      PlanKeys(st, base[..n], p);
      IdsAppended(base[..n], base[n]);
      assert base == base[..n] + [base[n]];
    }
  }

  lemma {:induction false} PlanAt(st: Store, base: seq<SegmentMeta>, p: Test, i: nat)
    requires DistinctIds(base) && i < |base|
    ensures var plan, m := PlanOf(st, base, p), base[i];
            && (m.id in plan <==> Hits(st, m, p) != {})
            && (m.id in plan ==> plan[m.id] == DelOf(st, m) + Hits(st, m, p))
  {
    var n := |base| - 1;
    if i < n {
      PlanAt(st, base[..n], p, i);
    } else {
      PlanKeys(st, base[..n], p);
      if base[n].id in IdsOf(base[..n]) {
        var k := IdOf(base[..n], base[n].id);
      }
    }
  }

  lemma PlanIsPlanned(st: Store, base: seq<SegmentMeta>, p: Test)
    requires DistinctIds(base)
    ensures Planned(st, base, p, PlanOf(st, base, p))
  {
    PlanKeys(st, base, p);
    forall i | 0 <= i < |base|
      ensures base[i].id in PlanOf(st, base, p) <==> Hits(st, base[i], p) != {}
      ensures base[i].id in PlanOf(st, base, p) ==>
                PlanOf(st, base, p)[base[i].id] == DelOf(st, base[i]) + Hits(st, base[i], p)
    {
      PlanAt(st, base, p, i);
    }
  }
}
