/** What a merge and a delete do to each other when both have read before either publishes. */
module Overlap {
  import opened Bytes
  import opened Sequences
  import opened Manifest
  import opened Visibility
  import opened Catalog
  import opened Conservation
  import opened TwoWriters

  // ----- Which documents come back -----

  /** The hits of the delete in segments the merge has read: they are in the merged segment, undeleted. */
  ghost function ComingBack(st: Store, metas: seq<SegmentMeta>, base: seq<SegmentMeta>, p: Test,
                            picked: seq<SegmentMeta>, x: Doc): nat
  {
    SumIn(HitCopies(st, p, x), metas, IdsOf(base) * IdsOf(picked))
  }

  lemma {:induction false} SomeCounted(f: Measure, metas: seq<SegmentMeta>, ids: set<string>, k: nat)
    requires k < |metas| && metas[k].id in ids
    ensures SumIn(f, metas, ids) >= f(metas[k])
  {
    var n := |metas| - 1;
    if k < n {
      SomeCounted(f, metas[..n], ids, k);
    }
  }

  lemma {:induction false} NoneCounted(f: Measure, metas: seq<SegmentMeta>, ids: set<string>)
    requires forall i | 0 <= i < |metas| && metas[i].id in ids :: f(metas[i]) == 0
    ensures SumIn(f, metas, ids) == 0
  {
    if metas != [] {
      NoneCounted(f, metas[..|metas| - 1], ids);
    }
  }

  /** A base segment has hits if and only if it is in the plan, and then some document of it is one. */
  lemma PlannedHas(st: Store, base: seq<SegmentMeta>, p: Test, plan: map<string, set<u32>>, i: nat)
    requires Planned(st, base, p, plan) && i < |base|
    ensures base[i].id in plan <==> HitDocs(st, base[i], p) != []
  {
    var m := base[i];
    if Countable(Content(st, m.id)) {
      HitsCounted(Content(st, m.id), DelOf(st, m), p, 0);
      assert Hits(st, m, p) == {} <==> |Hits(st, m, p)| == 0;
    }
  }

  /** A manifest entry with the id of a base segment is that segment. */
  lemma BaseEntry(metas: seq<SegmentMeta>, base: seq<SegmentMeta>, k: nat) returns (i: nat)
    requires DistinctIds(metas) && Picked(metas, base) && k < |metas| && metas[k].id in IdsOf(base)
    ensures i < |base| && base[i] == metas[k]
  {
    i := IdOf(base, metas[k].id);
    var n := PickedAt(metas, base, i);
    assert n == k;
  }

  /** Nothing comes back if and only if the delete plans no change to a segment the merge has read. */
  lemma NothingComesBackIff(st: Store, metas: seq<SegmentMeta>, base: seq<SegmentMeta>, p: Test,
                            plan: map<string, set<u32>>, picked: seq<SegmentMeta>)
    requires DistinctIds(metas) && Picked(metas, base) && Planned(st, base, p, plan)
    ensures (forall x: Doc :: ComingBack(st, metas, base, p, picked, x) == 0) <==> plan.Keys !! IdsOf(picked)
  {
    var ids := IdsOf(base) * IdsOf(picked);
    if plan.Keys !! IdsOf(picked) {
      forall x: Doc
        ensures ComingBack(st, metas, base, p, picked, x) == 0
      {
        forall k | 0 <= k < |metas| && metas[k].id in ids
          ensures HitCopies(st, p, x)(metas[k]) == 0
        {
          var i := BaseEntry(metas, base, k);
          PlannedHas(st, base, p, plan, i);
        }
        NoneCounted(HitCopies(st, p, x), metas, ids);
      }
    } else {
      var id :| id in plan.Keys && id in IdsOf(picked);
      var i := IdOf(base, id);
      var k := PickedAt(metas, base, i);
      PlannedHas(st, base, p, plan, i);
      var x := HitDocs(st, base[i], p)[0];
      assert x in multiset(HitDocs(st, base[i], p));
      SomeCounted(HitCopies(st, p, x), metas, ids, k);
      assert ComingBack(st, metas, base, p, picked, x) > 0;
    }
  }

  // ----- The delete publishes first -----

  /** What a delete hides of the segments with some ids. */
  lemma {:induction false} BumpHides(st: Store, metas: seq<SegmentMeta>, base: seq<SegmentMeta>, p: Test,
                                     plan: map<string, set<u32>>, ids: set<string>, n: nat, x: Doc)
    requires ReadyToBump(st, metas, base, p, plan) && n <= |metas|
    ensures var after := Bumped(metas, VersionsOf(base, plan));
            SumIn(Copies(st, x), metas[..n], ids)
            == SumIn(Copies(st, x), after[..n], ids) + SumIn(HitCopies(st, p, x), metas[..n], IdsOf(base) * ids)
  {
    if n > 0 {
      var after := Bumped(metas, VersionsOf(base, plan));
      BumpHides(st, metas, base, p, plan, ids, n - 1, x);
      MetaBumped(st, metas, base, p, plan, n - 1);
      assert after[n - 1] == BumpedMeta(metas[n - 1], VersionsOf(base, plan));
      NextSum(Copies(st, x), metas, ids, n);
      NextSum(Copies(st, x), after, ids, n);
      NextSum(HitCopies(st, p, x), metas, IdsOf(base) * ids, n);
    }
  }

  lemma BumpedPicked(metas: seq<SegmentMeta>, picked: seq<SegmentMeta>, vs: map<string, nat>)
    requires Picked(metas, picked)
    ensures Picked(Bumped(metas, vs), Bumped(picked, vs)) && IdsOf(Bumped(picked, vs)) == IdsOf(picked)
  {
    var after := Bumped(picked, vs);
    forall i | 0 <= i < |after|
      ensures after[i] in Bumped(metas, vs) && !after[i].deleted
    {
      var k := PickedAt(metas, picked, i);
      assert Bumped(metas, vs)[k] == after[i];
    }
    BumpIds(picked, vs);
  }

  /** The documents the merge has read, and what is still live of them once the delete has published. */
  lemma ReadBeforeDelete(st: Store, metas: seq<SegmentMeta>, base: seq<SegmentMeta>, p: Test,
                         plan: map<string, set<u32>>, picked: seq<SegmentMeta>, x: Doc)
    requires ReadyToBump(st, metas, base, p, plan) && Picked(metas, picked)
    ensures multiset(AllLive(st, picked))[x]
         == multiset(AllLive(st, Bumped(picked, VersionsOf(base, plan))))[x]
            + ComingBack(st, metas, base, p, picked, x)
  {
    var vs := VersionsOf(base, plan);
    var after, picked' := Bumped(metas, vs), Bumped(picked, vs);
    BumpKeeps(st, metas, base, p, plan);
    BumpedPicked(metas, picked, vs);
    PickedSum(Copies(st, x), metas, picked);
    PickedSum(Copies(st, x), after, picked');
    LiveSum(st, picked, x);
    LiveSum(st, picked', x);
    BumpHides(st, metas, base, p, plan, IdsOf(picked), |metas|, x);
    Whole(metas);
    Whole(after);
  }

  /** The merge as it would be had it picked the segments after the delete, with what it read before. */
  function Restated(wr: Writer, vs: map<string, nat>): Writer
    requires wr.Merging?
  {
    wr.(picked := Bumped(wr.picked, vs))
  }

  ghost function Fixed(docs: seq<Doc>): Filter {
    (ds: seq<Doc>) => docs
  }

  /** After the delete has published, the stale merge is a merge of the changed segments that keeps what it reads. */
  lemma StaleMerge(keep: Filter, w: World, del: Writer)
    requires Inv(keep, w) && Inv(keep, w.(writer := del)) && w.writer.Merging?
    requires Enabled(w.(writer := del), PublishDelete)
    ensures var vs := VersionsOf(del.base, del.plan.value);
            var read := keep(AllLive(w.store, w.writer.picked));
            Inv(Fixed(read), w.(metas := Bumped(w.metas, vs), writer := Restated(w.writer, vs)))
  {
    var wr, vs := w.writer, VersionsOf(del.base, del.plan.value);
    PublishDeleteKeeps(keep, w.(writer := del));
    BumpedPicked(w.metas, wr.picked, vs);
    BumpIds(w.metas, vs);
    BumpedActive(w.metas, vs);
  }

  // ----- Flushes and collections in between -----

  /** A step of a flush or of a collection. */
  predicate Unrelated(s: Step) {
    !IsWriterStep(s) && !s.Crash?
  }

  /** A flush or a collection leaves the active segments and their objects as they are. */
  lemma UnrelatedStays(keep: Filter, w: World, s: Step, picked: seq<SegmentMeta>)
    requires Inv(keep, w) && Enabled(w, s) && Careful(w, s) && Unrelated(s) && Picked(w.metas, picked)
    ensures var w' := Apply(keep, w, s);
            && w'.writer == w.writer && Inv(keep, w') && Picked(w'.metas, picked)
            && Agree(w.store, w'.store, picked) && IdsOf(w.metas) <= IdsOf(w'.metas)
            && (w'.metas == w.metas || (|w'.metas| == |w.metas| + 1 && w'.metas[..|w.metas|] == w.metas
                                        && w'.metas[|w.metas|].id !in IdsOf(w.metas)))
  {
    StepKeeps(keep, w, s);
    if s.PublishFlush? {
      assert FlushOk(w.store, w.metas, w.flushes[s.job]);
      IdsAppended(w.metas, s.meta);
      assert forall m | m in w.metas :: m in w.metas + [s.meta];
    } else {
      ObjectsStay(keep, w, s);
      PickedAgree(w.store, Apply(keep, w, s).store, w.metas, picked);
    }
  }

  /** All objects of some segments are the same, those of other versions included. */
  ghost predicate SameObjects(a: Store, b: Store, ids: set<string>) {
    && (forall id <- ids :: Content(a, id) == Content(b, id))
    && (forall k: DelKey | k.id in ids ::
          (k in a.dels <==> k in b.dels) && (k in a.dels ==> a.dels[k] == b.dels[k]))
  }

  /** Unless a bitmap is written, active segments keep all their objects. */
  lemma ActiveObjectsStay(keep: Filter, w: World, s: Step)
    requires Inv(keep, w) && Enabled(w, s) && Careful(w, s) && !s.WriteDel?
    ensures SameObjects(w.store, Apply(keep, w, s).store, ActiveIds(w.metas))
  {
    if s.UploadFlush? {
      assert FlushOk(w.store, w.metas, w.flushes[s.job]);
      NotActive(w.metas, w.flushes[s.job].id);
    } else if s.UploadMerge? {
      NotActive(w.metas, w.writer.newId);
    } else if s.RemoveDel? {
      assert s.key.id in DelIds(w.sweep.dels);
    }
  }

  lemma OldAgree(a: Store, b: Store, ids: set<string>, ms: seq<SegmentMeta>)
    requires SameObjects(a, b, ids) && IdsOf(ms) <= ids
    ensures Agree(a, b, ms)
  {
    forall i | 0 <= i < |ms|
      ensures ms[i].id in ids
    {
      IdIn(ms, i);
    }
  }

  lemma PickedAreActive(metas: seq<SegmentMeta>, picked: seq<SegmentMeta>)
    requires DistinctIds(metas) && Picked(metas, picked)
    ensures IdsOf(picked) <= ActiveIds(metas)
  {
    forall id <- IdsOf(picked)
      ensures id in ActiveIds(metas)
    {
      var i := IdOf(picked, id);
      var k := PickedAt(metas, picked, i);
      ActiveIn(metas, k);
    }
  }

  /** A merge picked its sources before a delete published; what it has read or will read is what was live before. */
  ghost predicate MergeIsStale(w: World, vs: map<string, nat>, read: seq<Doc>) {
    && w.writer.Merging? && (w.writer.merged.Some? ==> w.writer.merged.value == read)
    && Inv(Fixed(read), w.(writer := Restated(w.writer, vs)))
  }

  /** A step of the merge before it publishes, of a flush or of a collection. */
  predicate MergeContinues(s: Step) {
    Unrelated(s) || s.ReadMerge? || s.UploadMerge?
  }

  lemma StaleMergeStays(keep: Filter, w: World, vs: map<string, nat>, read: seq<Doc>, s: Step)
    requires MergeIsStale(w, vs, read) && Enabled(w, s) && Careful(w, s) && MergeContinues(s)
    requires keep(AllLive(w.store, w.writer.picked)) == read
    ensures var w' := Apply(keep, w, s);
            MergeIsStale(w', vs, read) && w'.writer.picked == w.writer.picked
  {
    var v := w.(writer := Restated(w.writer, vs));
    BumpIds(w.writer.picked, vs);
    assert Enabled(v, s);
    StepKeeps(Fixed(read), v, s);
    var w' := Apply(keep, w, s);
    assert Apply(Fixed(read), v, s) == w'.(writer := Restated(w'.writer, vs));
  }

  lemma StaleReadStays(keep: Filter, w: World, vs: map<string, nat>, read: seq<Doc>, s: Step)
    requires MergeIsStale(w, vs, read) && Enabled(w, s) && Careful(w, s) && MergeContinues(s)
    requires forall i | 0 <= i < |w.writer.picked| :: !w.writer.picked[i].deleted
    ensures var st', picked := Apply(keep, w, s).store, w.writer.picked;
            AllLive(st', picked) == AllLive(w.store, picked)
            && AllLive(st', Bumped(picked, vs)) == AllLive(w.store, Bumped(picked, vs))
  {
    var v, picked := w.(writer := Restated(w.writer, vs)), w.writer.picked;
    var st' := Apply(keep, w, s).store;
    BumpIds(picked, vs);
    PickedAreActive(v.metas, v.writer.picked);
    assert SameObjects(w.store, st', ActiveIds(v.metas)) by {
      assert Enabled(v, s);
      ActiveObjectsStay(Fixed(read), v, s);
    }
    OldAgree(w.store, st', ActiveIds(v.metas), picked);
    OldAgree(w.store, st', ActiveIds(v.metas), Bumped(picked, vs));
    AllLiveAgree(w.store, st', picked);
    AllLiveAgree(w.store, st', Bumped(picked, vs));
  }

  /** A merge that has read before the delete published brings the hits in its sources back. */
  lemma StaleMergeShows(w: World, vs: map<string, nat>, read: seq<Doc>, meta: SegmentMeta, x: Doc)
    requires MergeIsStale(w, vs, read) && Enabled(w, PublishMerge(meta))
    ensures Visible(w.store, w.metas)[x] + multiset(read)[x]
         == Visible(w.store, Changed(MergeChange(w.writer, meta), w.metas))[x]
            + multiset(AllLive(w.store, Bumped(w.writer.picked, vs)))[x]
  {
    var v := w.(writer := Restated(w.writer, vs));
    BumpIds(w.writer.picked, vs);
    MergeShows(Fixed(read), v, meta, x);
  }

  // ----- Runs of the two writers -----

  ghost predicate DuoRun(keep: Filter, states: seq<Duo>, steps: seq<DuoStep>) {
    && |states| == |steps| + 1 && Starts(states[0].world) && states[0].second == Idle
    && forall i | 0 <= i < |steps| ::
         DuoEnabled(states[i], steps[i]) && states[i + 1] == DuoApply(keep, states[i], steps[i])
  }

  /** Up to a state, writers publish only while the other is idle. */
  ghost predicate SerialisedUntil(states: seq<Duo>, steps: seq<DuoStep>, n: nat)
    requires n <= |steps| < |states|
  {
    forall i | 0 <= i < n :: DuoCareful(states[i], steps[i])
  }

  lemma DuoRunKeeps(keep: Filter, states: seq<Duo>, steps: seq<DuoStep>, n: nat)
    requires DuoRun(keep, states, steps) && n <= |steps| && SerialisedUntil(states, steps, n)
    ensures DuoInv(keep, states[n])
  {
    for i := 0 to n
      invariant DuoInv(keep, states[i])
    {
      DuoStepKeeps(keep, states[i], steps[i]);
    }
  }

  ghost function Shows(d: Duo): multiset<Doc> {
    Visible(d.world.store, d.world.metas)
  }

  /** The hits of the delete in the sources of the merge, as a state has them. */
  ghost function Returning(d: Duo, x: Doc): nat
    requires d.world.writer.Merging? && d.second.Deleting?
  {
    ComingBack(d.world.store, d.world.metas, d.second.base, d.second.test, d.world.writer.picked, x)
  }

  /** Between two states the merge may read and upload, and flushes and collections move. */
  ghost predicate MergeGoesOn(states: seq<Duo>, steps: seq<DuoStep>, a: nat, b: nat)
    requires b <= |steps| < |states|
  {
    forall i | a <= i < b :: steps[i].First? && MergeContinues(steps[i].s) && Careful(states[i].world, steps[i].s)
  }

  /** What the merge reads, whether it has done so before the delete publishes or not. */
  ghost function Sources(d: Duo): seq<Doc>
    requires d.world.writer.Merging?
  {
    AllLive(d.world.store, d.world.writer.picked)
  }

  /**
   * In every run of two writers in which the delete publishes while the merge is anywhere between picking its
   * sources and publishing: the merge replaces what the delete left of the sources by what it keeps of all they had
   * before, so that exactly the hits in the sources come back, as far as the merge keeps them.
   */
  lemma MergeAfterDelete(keep: Filter, states: seq<Duo>, steps: seq<DuoStep>, a: nat, n: nat, meta: SegmentMeta, x: Doc)
    requires DuoRun(keep, states, steps) && a < n < |steps| && SerialisedUntil(states, steps, a)
    requires steps[a] == Second(PublishDelete) && states[a].world.writer.Merging?
    requires MergeGoesOn(states, steps, a + 1, n) && steps[n] == First(PublishMerge(meta))
    ensures Shows(states[n + 1])[x] + multiset(Sources(states[a]))[x]
         == Shows(states[n])[x] + multiset(keep(Sources(states[a])))[x] + Returning(states[a], x)
  {
    var d := states[a];
    var wr, del := d.world.writer, d.second;
    var vs, read := VersionsOf(del.base, del.plan.value), keep(Sources(d));
    StaleMergeReached(keep, states, steps, a, n);
    StaleMergeShows(states[n].world, vs, read, meta, x);
    Ready(d.world.store, d.world.metas, del);
    ReadBeforeDelete(d.world.store, d.world.metas, del.base, del.test, del.plan.value, wr.picked, x);
  }

  /** Without an id field all of them come back. */
  lemma HitsComeBack(keep: Filter, states: seq<Duo>, steps: seq<DuoStep>, a: nat, n: nat, meta: SegmentMeta, x: Doc)
    requires DuoRun(keep, states, steps) && a < n < |steps| && SerialisedUntil(states, steps, a)
    requires steps[a] == Second(PublishDelete) && states[a].world.writer.Merging?
    requires MergeGoesOn(states, steps, a + 1, n) && steps[n] == First(PublishMerge(meta)) && KeepsAll(keep)
    ensures Shows(states[n + 1])[x] == Shows(states[n])[x] + Returning(states[a], x)
  {
    MergeAfterDelete(keep, states, steps, a, n, meta, x);
    assert keep(Sources(states[a])) == Sources(states[a]);
  }

  lemma StaleMergeReached(keep: Filter, states: seq<Duo>, steps: seq<DuoStep>, a: nat, n: nat)
    requires DuoRun(keep, states, steps) && a < n <= |steps| && SerialisedUntil(states, steps, a)
    requires steps[a] == Second(PublishDelete) && states[a].world.writer.Merging?
    requires MergeGoesOn(states, steps, a + 1, n)
    ensures DuoInv(keep, states[a]) && DuoEnabled(states[a], steps[a])
    ensures var wr, del := states[a].world.writer, states[a].second;
            var vs := VersionsOf(del.base, del.plan.value);
            && MergeIsStale(states[n].world, vs, keep(Sources(states[a])))
            && states[n].world.writer.picked == wr.picked
            && AllLive(states[n].world.store, Bumped(wr.picked, vs))
               == AllLive(states[a].world.store, Bumped(wr.picked, vs))
  {
    DuoRunKeeps(keep, states, steps, a);
    var d := states[a];
    var wr, del := d.world.writer, d.second;
    var vs, all := VersionsOf(del.base, del.plan.value), Sources(d);
    StaleMerge(keep, d.world, del);
    DeletePublished(keep, d);
    var left := AllLive(d.world.store, Bumped(wr.picked, vs));
    for i := a + 1 to n
      invariant MergeIsStale(states[i].world, vs, keep(all)) && states[i].world.writer.picked == wr.picked
      invariant AllLive(states[i].world.store, wr.picked) == all
      invariant AllLive(states[i].world.store, Bumped(wr.picked, vs)) == left
    {
      MergeStepReached(keep, states[i], steps[i].s, vs, all);
      assert states[i + 1] == DuoApply(keep, states[i], steps[i]);
    }
  }

  lemma MergeStepReached(keep: Filter, d: Duo, s: Step, vs: map<string, nat>, all: seq<Doc>)
    requires DuoEnabled(d, First(s)) && MergeContinues(s) && Careful(d.world, s)
    requires MergeIsStale(d.world, vs, keep(all)) && AllLive(d.world.store, d.world.writer.picked) == all
    requires forall i | 0 <= i < |d.world.writer.picked| :: !d.world.writer.picked[i].deleted
    ensures var w, w' := d.world, DuoApply(keep, d, First(s)).world;
            && MergeIsStale(w', vs, keep(all)) && w'.writer.picked == w.writer.picked
            && AllLive(w'.store, w.writer.picked) == all
            && AllLive(w'.store, Bumped(w.writer.picked, vs)) == AllLive(w.store, Bumped(w.writer.picked, vs))
  {
    StaleMergeStays(keep, d.world, vs, keep(all), s);
    StaleReadStays(keep, d.world, vs, keep(all), s);
  }

  // ----- The merge publishes first -----

  /** The segments without some ids, and a plan without them. */
  ghost function Rest(base: seq<SegmentMeta>, ids: set<string>): seq<SegmentMeta> {
    if base == [] then []
    else
      var m := base[|base| - 1];
      Rest(base[..|base| - 1], ids) + if m.id in ids then [] else [m]
  }

  ghost function RestPlan(plan: map<string, set<u32>>, ids: set<string>): map<string, set<u32>> {
    map id <- plan | id !in ids :: plan[id]
  }

  lemma {:induction false} RestHas(base: seq<SegmentMeta>, ids: set<string>, m: SegmentMeta)
    ensures m in Rest(base, ids) <==> m in base && m.id !in ids
  {
    if base != [] {
      var n := |base| - 1;
      RestHas(base[..n], ids, m);
      NextPrefix(base, n);
      Whole(base);
    }
  }

  lemma {:induction false} RestDistinct(base: seq<SegmentMeta>, ids: set<string>)
    requires DistinctIds(base)
    ensures DistinctIds(Rest(base, ids))
  {
    if base != [] {
      var n := |base| - 1;
      var before := Rest(base[..n], ids);
      RestDistinct(base[..n], ids);
      forall i | 0 <= i < |before|
        ensures before[i].id != base[n].id
      {
        RestHas(base[..n], ids, before[i]);
        var k :| 0 <= k < n && base[k] == before[i];
      }
    }
  }

  lemma RestIds(base: seq<SegmentMeta>, ids: set<string>)
    ensures IdsOf(Rest(base, ids)) == IdsOf(base) - ids
  {
    var rest := Rest(base, ids);
    forall id
      ensures id in IdsOf(rest) <==> id in IdsOf(base) && id !in ids
    {
      if id in IdsOf(rest) {
        var m :| m in rest && m.id == id;
        RestHas(base, ids, m);
      }
      if id in IdsOf(base) && id !in ids {
        var m :| m in base && m.id == id;
        RestHas(base, ids, m);
      }
    }
  }

  /** An entry of the rest is an entry of the whole. */
  lemma RestAt(base: seq<SegmentMeta>, ids: set<string>, i: nat) returns (k: nat)
    requires i < |Rest(base, ids)|
    ensures k < |base| && base[k] == Rest(base, ids)[i] && base[k].id !in ids
  {
    RestHas(base, ids, Rest(base, ids)[i]);
    k :| 0 <= k < |base| && base[k] == Rest(base, ids)[i];
  }

  /** What is left of the delete's segments once the merge has retired its sources. */
  lemma RestPicked(metas: seq<SegmentMeta>, more: seq<SegmentMeta>, base: seq<SegmentMeta>, ids: set<string>)
    requires Picked(metas, base)
    ensures Picked(MarkDeleted(metas, ids) + more, Rest(base, ids))
  {
    var rest, marked := Rest(base, ids), MarkDeleted(metas, ids);
    RestDistinct(base, ids);
    forall i | 0 <= i < |rest|
      ensures rest[i] in marked + more && !rest[i].deleted
    {
      var k := RestAt(base, ids, i);
      var n := PickedAt(metas, base, k);
      assert (marked + more)[n] == rest[i];
    }
  }

  lemma RestPlanned(st: Store, base: seq<SegmentMeta>, p: Test, plan: map<string, set<u32>>, ids: set<string>)
    requires Planned(st, base, p, plan)
    ensures Planned(st, Rest(base, ids), p, RestPlan(plan, ids))
  {
    RestIds(base, ids);
    forall i | 0 <= i < |Rest(base, ids)|
      ensures var m, plan' := Rest(base, ids)[i], RestPlan(plan, ids);
              && (m.id in plan' <==> Hits(st, m, p) != {})
              && (m.id in plan' ==> plan'[m.id] == DelOf(st, m) + Hits(st, m, p))
    {
      var k := RestAt(base, ids, i);
    }
  }

  /** The delete as it would be had it never read the merge's sources. */
  ghost function Reduced(wr: Writer, ids: set<string>): Writer
    requires wr.Deleting?
  {
    Deleting(Rest(wr.base, ids), wr.test, if wr.plan.None? then None else Some(RestPlan(wr.plan.value, ids)),
             wr.written - ids)
  }

  lemma ReducedOk(st: Store, metas: seq<SegmentMeta>, more: seq<SegmentMeta>, wr: Writer, ids: set<string>)
    requires wr.Deleting? && DeleteOk(st, metas, wr)
    ensures DeleteOk(st, MarkDeleted(metas, ids) + more, Reduced(wr, ids))
  {
    RestPicked(metas, more, wr.base, ids);
    if wr.plan.Some? {
      RestPlanned(st, wr.base, wr.test, wr.plan.value, ids);
      var rest, plan := Rest(wr.base, ids), RestPlan(wr.plan.value, ids);
      forall i | 0 <= i < |rest| && rest[i].id in wr.written - ids
        ensures BitmapWritten(st, rest[i], plan[rest[i].id])
      {
        var k := RestAt(wr.base, ids, i);
        assert BitmapWritten(st, wr.base[k], wr.plan.value[wr.base[k].id]);
      }
    }
  }

  /** The sources of a published merge stay marked. */
  ghost predicate Retired(metas: seq<SegmentMeta>, ids: set<string>) {
    forall i | 0 <= i < |metas| && metas[i].id in ids :: metas[i].deleted
  }

  /** A delete read segments that a merge has retired since. */
  ghost predicate DeleteIsStale(keep: Filter, w: World, del: Writer, ids: set<string>) {
    && del.Deleting? && DistinctIds(del.base)
    && Retired(w.metas, ids) && ids <= IdsOf(w.metas) && Inv(keep, w.(writer := Reduced(del, ids)))
  }

  lemma MergeMakesStale(keep: Filter, w: World, del: Writer, meta: SegmentMeta)
    requires Inv(keep, w) && Inv(keep, w.(writer := del)) && Enabled(w, PublishMerge(meta)) && del.Deleting?
    ensures DeleteIsStale(keep, Apply(keep, w, PublishMerge(meta)), del, IdsOf(w.writer.picked))
  {
    var wr, ids := w.writer, IdsOf(w.writer.picked);
    var w' := Apply(keep, w, PublishMerge(meta));
    PublishMergeKeeps(keep, w, meta);
    MarkKeeps(w.store, w.metas, ids);
    PickedIds(w.metas, wr.picked);
    var more := if wr.merged == Some([]) then [] else [meta];
    PlusNothing(MarkDeleted(w.metas, ids));
    assert w'.metas == MarkDeleted(w.metas, ids) + more;
    ReducedOk(w.store, w.metas, more, del, ids);
    MarkedAreRetired(w.metas, ids, more);
  }

  lemma MarkedAreRetired(metas: seq<SegmentMeta>, ids: set<string>, more: seq<SegmentMeta>)
    requires ids <= IdsOf(metas) && forall i | 0 <= i < |more| :: more[i].id !in IdsOf(metas)
    ensures Retired(MarkDeleted(metas, ids) + more, ids) && ids <= IdsOf(MarkDeleted(metas, ids) + more)
  {
    var after := MarkDeleted(metas, ids) + more;
    forall id <- ids
      ensures id in IdsOf(after)
    {
      var i := IdOf(metas, id);
      IdIn(after, i);
    }
  }

  lemma PickedIds(metas: seq<SegmentMeta>, picked: seq<SegmentMeta>)
    requires Picked(metas, picked)
    ensures IdsOf(picked) <= IdsOf(metas)
  {
    forall id <- IdsOf(picked)
      ensures id in IdsOf(metas)
    {
      var i := IdOf(picked, id);
      var k := PickedAt(metas, picked, i);
      IdIn(metas, k);
    }
  }

  /** The two deletes move the active segments to the same versions. */
  lemma SameVersion(metas: seq<SegmentMeta>, del: Writer, ids: set<string>, k: nat)
    requires del.Deleting? && del.plan.Some? && DistinctIds(del.base) && k < |metas| && metas[k].id !in ids
    ensures var red := Reduced(del, ids);
            BumpedMeta(metas[k], VersionsOf(del.base, del.plan.value))
            == BumpedMeta(metas[k], VersionsOf(red.base, red.plan.value))
  {
    var id, plan, rest, plan' := metas[k].id, del.plan.value, Rest(del.base, ids), RestPlan(del.plan.value, ids);
    VersionsExact(del.base, plan, id);
    VersionsExact(rest, plan', id);
    RestIds(del.base, ids);
    if id in plan && id in IdsOf(del.base) {
      var i := IdOf(del.base, id);
      VersionAt(del.base, plan, i);
      RestHas(del.base, ids, del.base[i]);
      var j :| 0 <= j < |rest| && rest[j] == del.base[i];
      RestDistinct(del.base, ids);
      VersionAt(rest, plan', j);
    }
  }

  /** Manifests that differ only in deleted entries show the same. */
  lemma {:induction false} DeletedDoNotShow(st: Store, a: seq<SegmentMeta>, b: seq<SegmentMeta>)
    requires |a| == |b|
    requires forall i | 0 <= i < |a| :: a[i] == b[i] || (a[i].deleted && b[i].deleted)
    ensures Visible(st, a) == Visible(st, b)
  {
    if a != [] {
      DeletedDoNotShow(st, a[..|a| - 1], b[..|b| - 1]);
    }
  }

  lemma StaleDeleteStays(keep: Filter, w: World, del: Writer, ids: set<string>, s: Step)
    requires DeleteIsStale(keep, w, del, ids) && Enabled(w, s) && Careful(w, s) && Unrelated(s)
    requires w.writer == Idle
    ensures var w' := Apply(keep, w, s);
            && DeleteIsStale(keep, w', del, ids) && w'.writer == Idle
            && Agree(w.store, w'.store, Rest(del.base, ids))
  {
    var v := w.(writer := Reduced(del, ids));
    var w', v' := Apply(keep, w, s), Apply(keep, v, s);
    UnrelatedStays(keep, v, s, v.writer.base);
    assert v' == w'.(writer := v.writer);
  }

  /** What a delete reads now of the segments the merge has left is what it would read of those alone. */
  lemma {:induction false} RestPlanOf(st: Store, base: seq<SegmentMeta>, p: Test, ids: set<string>)
    requires DistinctIds(base)
    ensures RestPlan(PlanOf(st, base, p), ids) == PlanOf(st, Rest(base, ids), p)
  {
    if base != [] {
      var n := |base| - 1;
      var m, rest := base[n], Rest(base[..n], ids);
      RestPlanOf(st, base[..n], p, ids);
      RestPlanNext(PlanOf(st, base[..n], p), ids, m.id, DelOf(st, m) + Hits(st, m, p));
      if m.id in ids {
        PlusNothing(rest);
      } else {
        PlanOfNext(st, rest, p, m);
      }
    }
  }

  lemma RestPlanNext(plan: map<string, set<u32>>, ids: set<string>, id: string, bm: set<u32>)
    ensures RestPlan(plan[id := bm], ids) == if id in ids then RestPlan(plan, ids) else RestPlan(plan, ids)[id := bm]
  {
  }

  lemma PlanOfNext(st: Store, base: seq<SegmentMeta>, p: Test, m: SegmentMeta)
    ensures PlanOf(st, base + [m], p)
         == if Hits(st, m, p) == {} then PlanOf(st, base, p)
            else PlanOf(st, base, p)[m.id := DelOf(st, m) + Hits(st, m, p)]
  {
    assert (base + [m])[..|base|] == base;
  }

  lemma StaleDeleteReads(keep: Filter, w: World, del: Writer, ids: set<string>)
    requires DeleteIsStale(keep, w, del, ids) && Enabled(w.(writer := del), ReadDelete)
    ensures DeleteIsStale(keep, w, Apply(keep, w.(writer := del), ReadDelete).writer, ids)
  {
    var v := w.(writer := Reduced(del, ids));
    RestPlanOf(w.store, del.base, del.test, ids);
    forall i | 0 <= i < |v.writer.base|
      ensures v.writer.base[i].id in w.store.segs
    {
      var k := RestAt(del.base, ids, i);
    }
    StepKeeps(keep, v, ReadDelete);
  }

  /** The bitmap of a retired segment is nobody's business. */
  lemma RetiredDel(keep: Filter, w: World, ids: set<string>, k: DelKey, bm: set<u32>)
    requires Inv(keep, w) && Retired(w.metas, ids) && ids <= IdsOf(w.metas) && k.id in ids && w.writer.Deleting?
    ensures var st := DelWritten(w.store, k, bm);
            Inv(keep, w.(store := st)) && Agree(w.store, st, w.metas)
  {
    var st, wr := DelWritten(w.store, k, bm), w.writer;
    FlushesSeeDel(w.store, w.metas, w.flushes, k, bm);
    forall i | 0 <= i < |wr.base|
      ensures wr.base[i].id != k.id
    {
      var n := PickedAt(w.metas, wr.base, i);
    }
    if wr.plan.Some? {
      forall i | 0 <= i < |wr.base| && wr.base[i].id in wr.written
        ensures BitmapWritten(st, wr.base[i], wr.plan.value[wr.base[i].id])
      {
        assert BitmapWritten(w.store, wr.base[i], wr.plan.value[wr.base[i].id]);
      }
    }
    WriterKept(keep, w.store, st, w.metas, wr);
  }

  /** A segment the merge has left is written under the same version either way. */
  lemma SameTarget(del: Writer, ids: set<string>, id: string)
    requires del.Deleting? && del.plan.Some? && DistinctIds(del.base) && id !in ids
    ensures DelTarget(del, id) == DelTarget(Reduced(del, ids), id)
  {
    var m := SegmentMeta(id, 0, 0, 0, 0, false);
    SameVersion([m], del, ids, 0);
    var vs, vs' := VersionsOf(del.base, del.plan.value),
                   VersionsOf(Rest(del.base, ids), RestPlan(del.plan.value, ids));
    VersionsExact(del.base, del.plan.value, id);
    VersionsExact(Rest(del.base, ids), RestPlan(del.plan.value, ids), id);
    RestIds(del.base, ids);
  }

  lemma StaleDeleteWrites(keep: Filter, w: World, del: Writer, ids: set<string>, id: string)
    requires DeleteIsStale(keep, w, del, ids) && Enabled(w.(writer := del), WriteDel(id))
    ensures var w' := Apply(keep, w.(writer := del), WriteDel(id));
            DeleteIsStale(keep, w'.(writer := w.writer), w'.writer, ids)
            && Agree(w.store, w'.store, w.metas)
  {
    var red := Reduced(del, ids);
    var v := w.(writer := red);
    if id in ids {
      assert (del.written + {id}) - ids == del.written - ids;
      RetiredDel(keep, v, ids, DelTarget(del, id), del.plan.value[id]);
    } else {
      assert (del.written + {id}) - ids == (del.written - ids) + {id};
      SameTarget(del, ids, id);
      WriteDelKeeps(keep, v, id);
    }
  }

  /** A delete that has read before the merge published misses what the merge carried over. */
  lemma StaleDeleteShows(keep: Filter, w: World, del: Writer, ids: set<string>, x: Doc)
    requires DeleteIsStale(keep, w, del, ids) && del.plan.Some? && del.written == del.plan.value.Keys
    ensures Visible(w.store, w.metas)[x]
         == Visible(w.store, Bumped(w.metas, VersionsOf(del.base, del.plan.value)))[x]
            + Sum(HitCopies(w.store, del.test, x), Rest(del.base, ids))
  {
    var red := Reduced(del, ids);
    assert red.written == red.plan.value.Keys;
    DeleteShows(keep, w.(writer := red), x);
    var a := Bumped(w.metas, VersionsOf(del.base, del.plan.value));
    var b := Bumped(w.metas, VersionsOf(red.base, red.plan.value));
    forall k | 0 <= k < |a|
      ensures a[k] == b[k] || (a[k].deleted && b[k].deleted)
    {
      if w.metas[k].id !in ids {
        SameVersion(w.metas, del, ids, k);
      }
    }
    DeletedDoNotShow(w.store, a, b);
  }

  lemma {:induction false} SumsSplit(f: Measure, metas: seq<SegmentMeta>, a: set<string>, b: set<string>)
    ensures SumIn(f, metas, a) == SumIn(f, metas, a - b) + SumIn(f, metas, a * b)
  {
    if metas != [] {
      SumsSplit(f, metas[..|metas| - 1], a, b);
    }
  }

  /** The hits a delete has counted are those in segments the merge has not read, and the returning ones. */
  lemma CountedHits(st: Store, metas: seq<SegmentMeta>, base: seq<SegmentMeta>, p: Test, picked: seq<SegmentMeta>,
                    x: Doc)
    requires DistinctIds(metas) && Picked(metas, base)
    ensures Sum(HitCopies(st, p, x), base)
         == Sum(HitCopies(st, p, x), Rest(base, IdsOf(picked))) + ComingBack(st, metas, base, p, picked, x)
  {
    var f, ids := HitCopies(st, p, x), IdsOf(picked);
    PickedSum(f, metas, base);
    RestDistinct(base, ids);
    RestIds(base, ids);
    forall i | 0 <= i < |Rest(base, ids)|
      ensures Rest(base, ids)[i] in metas && !Rest(base, ids)[i].deleted
    {
      var k := RestAt(base, ids, i);
    }
    PickedSum(f, metas, Rest(base, ids));
    SumsSplit(f, metas, IdsOf(base), ids);
  }

  lemma {:induction false} HitsAgree(a: Store, b: Store, p: Test, ms: seq<SegmentMeta>, x: Doc)
    requires Agree(a, b, ms) && forall i | 0 <= i < |ms| :: !ms[i].deleted
    ensures Sum(HitCopies(a, p, x), ms) == Sum(HitCopies(b, p, x), ms)
  {
    if ms != [] {
      HitsAgree(a, b, p, ms[..|ms| - 1], x);
    }
  }

  lemma StaleDeletePublished(keep: Filter, d: Duo, del: Writer, ids: set<string>, x: Doc)
    requires DuoEnabled(d, Second(PublishDelete)) && d.second == del && DeleteIsStale(keep, d.world, del, ids)
    ensures Shows(d)[x] == Shows(DuoApply(keep, d, Second(PublishDelete)))[x]
                           + Sum(HitCopies(d.world.store, del.test, x), Rest(del.base, ids))
  {
    DeletePublished(keep, d);
    StaleDeleteShows(keep, d.world, del, ids, x);
  }

  lemma DeletePublished(keep: Filter, d: Duo)
    requires DuoEnabled(d, Second(PublishDelete))
    ensures var w := DuoApply(keep, d, Second(PublishDelete)).world;
            w.store == d.world.store && w.metas == Bumped(d.world.metas, VersionsOf(d.second.base, d.second.plan.value))
  {
  }

  /** Between two states the delete may read and write bitmaps, and flushes and collections move. */
  ghost predicate DeleteGoesOn(states: seq<Duo>, steps: seq<DuoStep>, a: nat, b: nat)
    requires b <= |steps| < |states|
  {
    forall i | a <= i < b ::
      match steps[i]
      case First(s) => Unrelated(s) && Careful(states[i].world, s)
      case Second(s) => s.ReadDelete? || s.WriteDel?
  }

  /**
   * In every run of two writers in which the merge publishes while the delete is anywhere between reading the
   * manifest and publishing: the delete removes its hits except those in the merge's sources.
   */
  lemma DeleteAfterMerge(keep: Filter, states: seq<Duo>, steps: seq<DuoStep>, a: nat, n: nat, meta: SegmentMeta, x: Doc)
    requires DuoRun(keep, states, steps) && a < n < |steps| && SerialisedUntil(states, steps, a)
    requires steps[a] == First(PublishMerge(meta)) && states[a].second.Deleting?
    requires DeleteGoesOn(states, steps, a + 1, n) && steps[n] == Second(PublishDelete)
    ensures Shows(states[n])[x] + Returning(states[a], x)
         == Shows(states[n + 1])[x]
            + Sum(HitCopies(states[a].world.store, states[a].second.test, x), states[a].second.base)
  {
    var d := states[a];
    var del, ids := d.second, IdsOf(d.world.writer.picked);
    StaleDeleteReached(keep, states, steps, a, n, meta);
    StaleDeletePublished(keep, states[n], states[n].second, ids, x);
    RestActive(d.world.metas, del.base, ids);
    HitsAgree(d.world.store, states[n].world.store, del.test, Rest(del.base, ids), x);
    CountedHits(d.world.store, d.world.metas, del.base, del.test, d.world.writer.picked, x);
  }

  lemma RestActive(metas: seq<SegmentMeta>, base: seq<SegmentMeta>, ids: set<string>)
    requires Picked(metas, base)
    ensures forall i | 0 <= i < |Rest(base, ids)| :: !Rest(base, ids)[i].deleted
  {
    forall i | 0 <= i < |Rest(base, ids)|
      ensures !Rest(base, ids)[i].deleted
    {
      var k := RestAt(base, ids, i);
    }
  }

  lemma StaleDeleteReached(keep: Filter, states: seq<Duo>, steps: seq<DuoStep>, a: nat, n: nat, meta: SegmentMeta)
    requires DuoRun(keep, states, steps) && a < n <= |steps| && SerialisedUntil(states, steps, a)
    requires steps[a] == First(PublishMerge(meta)) && states[a].second.Deleting?
    requires DeleteGoesOn(states, steps, a + 1, n)
    ensures DuoInv(keep, states[a]) && DuoEnabled(states[a], steps[a])
    ensures var del, del', ids := states[a].second, states[n].second, IdsOf(states[a].world.writer.picked);
            && DeleteIsStale(keep, states[n].world, del', ids) && del'.base == del.base && del'.test == del.test
            && Agree(states[a].world.store, states[n].world.store, Rest(del.base, ids))
  {
    DuoRunKeeps(keep, states, steps, a);
    var d := states[a];
    var del, ids := d.second, IdsOf(d.world.writer.picked);
    var rest := Rest(del.base, ids);
    MergeMakesStale(keep, d.world, del, meta);
    AgreeItself(d.world.store, rest);
    for i := a + 1 to n
      invariant DeleteIsStale(keep, states[i].world, states[i].second, ids) && states[i].world.writer == Idle
      invariant states[i].second.base == del.base && states[i].second.test == del.test
      invariant Agree(d.world.store, states[i].world.store, rest)
    {
      DeleteStepReached(keep, states[i], steps[i], ids);
      assert states[i + 1] == DuoApply(keep, states[i], steps[i]);
      AgreeOn(d.world.store, states[i].world.store, states[i + 1].world.store, rest);
    }
  }

  lemma DeleteStepReached(keep: Filter, d: Duo, step: DuoStep, ids: set<string>)
    requires DuoEnabled(d, step) && d.world.writer == Idle && DeleteIsStale(keep, d.world, d.second, ids)
    requires match step
             case First(s) => Unrelated(s) && Careful(d.world, s)
             case Second(s) => s.ReadDelete? || s.WriteDel?
    ensures var d' := DuoApply(keep, d, step);
            && DeleteIsStale(keep, d'.world, d'.second, ids) && d'.world.writer == Idle
            && d'.second.base == d.second.base && d'.second.test == d.second.test
            && Agree(d.world.store, d'.world.store, Rest(d.second.base, ids))
  {
    if step.First? {
      StaleDeleteStays(keep, d.world, d.second, ids, step.s);
    } else if step.s.ReadDelete? {
      StaleDeleteReads(keep, d.world, d.second, ids);
      AgreeItself(d.world.store, Rest(d.second.base, ids));
    } else {
      StaleDeleteWrites(keep, d.world, d.second, ids, step.s.id);
      PickedAgree(d.world.store, DuoApply(keep, d, step).world.store, d.world.metas, Rest(d.second.base, ids));
    }
  }

  lemma AgreeOn(a: Store, b: Store, c: Store, metas: seq<SegmentMeta>)
    requires Agree(a, b, metas) && Agree(b, c, metas)
    ensures Agree(a, c, metas)
  {
  }

  lemma AgreeItself(st: Store, metas: seq<SegmentMeta>)
    ensures Agree(st, st, metas)
  {
  }

  /**
   * In either order nothing comes back if and only if the delete, whether it has read yet or not, plans no change
   * to a source of the merge.
   */
  lemma OverlapHarmlessIff(keep: Filter, states: seq<Duo>, steps: seq<DuoStep>, a: nat)
    requires DuoRun(keep, states, steps) && a <= |steps| && SerialisedUntil(states, steps, a)
    requires states[a].world.writer.Merging? && states[a].second.Deleting?
    ensures var d := states[a];
            var plan := PlanOf(d.world.store, d.second.base, d.second.test);
            && ((forall x: Doc :: Returning(d, x) == 0) <==> plan.Keys !! IdsOf(d.world.writer.picked))
            && (d.second.plan.Some? ==> d.second.plan.value.Keys == plan.Keys)
  {
    DuoRunKeeps(keep, states, steps, a);
    var d := states[a];
    var st, base, p := d.world.store, d.second.base, d.second.test;
    PlanIsPlanned(st, base, p);
    NothingComesBackIff(st, d.world.metas, base, p, PlanOf(st, base, p), d.world.writer.picked);
    forall x: Doc
      ensures Returning(d, x) == ComingBack(st, d.world.metas, base, p, d.world.writer.picked, x)
    {
    }
    if d.second.plan.Some? {
      SameKeys(st, base, p, d.second.plan.value, PlanOf(st, base, p));
    }
  }

  lemma SameKeys(st: Store, base: seq<SegmentMeta>, p: Test, a: map<string, set<u32>>, b: map<string, set<u32>>)
    requires Planned(st, base, p, a) && Planned(st, base, p, b)
    ensures a.Keys == b.Keys
  {
    forall id
      ensures id in a <==> id in b
    {
      if id in a || id in b {
        var i := IdOf(base, id);
      }
    }
  }
}
