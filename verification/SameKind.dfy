/** Two deletes, or two merges, at the same time. */
module SameKind {
  import opened Bytes
  import opened Sequences
  import opened Manifest
  import opened Visibility
  import opened Catalog
  import opened Conservation
  import opened TwoWriters
  import opened Overlap

  // ----- Two deletes -----

  /** Where a delete has written its bitmaps, except for some segments. */
  ghost predicate WrittenExcept(st: Store, wr: Writer, ids: set<string>)
    requires wr.Deleting? && wr.plan.Some?
  {
    forall i | 0 <= i < |wr.base| && wr.base[i].id in wr.plan.value && wr.base[i].id !in ids ::
      BitmapWritten(st, wr.base[i], wr.plan.value[wr.base[i].id])
  }

  ghost predicate HasPlan(st: Store, metas: seq<SegmentMeta>, wr: Writer) {
    && wr.Deleting? && wr.plan.Some? && Picked(metas, wr.base) && Planned(st, wr.base, wr.test, wr.plan.value)
  }

  /** Both have planned and written, the second one last where both plan a bitmap under the same key. */
  ghost predicate BothWritten(st: Store, metas: seq<SegmentMeta>, a: Writer, b: Writer) {
    && DistinctIds(metas) && Backed(st, metas) && HasPlan(st, metas, a) && HasPlan(st, metas, b)
    && WrittenExcept(st, a, b.plan.value.Keys) && WrittenExcept(st, b, {})
  }

  ghost function Versions(wr: Writer): map<string, nat>
    requires wr.Deleting? && wr.plan.Some?
  {
    VersionsOf(wr.base, wr.plan.value)
  }

  /** One entry after both publishes: the second delete's bitmap is in use where it has one. */
  lemma TwiceMeta(m: SegmentMeta, a: Writer, b: Writer)
    requires a.Deleting? && a.plan.Some? && b.Deleting? && b.plan.Some?
    ensures BumpedMeta(BumpedMeta(m, Versions(a)), Versions(b))
         == BumpedMeta(m, if m.id in Versions(b) then Versions(b) else Versions(a))
  {
  }

  /** One delete's share in an entry. */
  lemma OneDelete(st: Store, metas: seq<SegmentMeta>, wr: Writer, k: nat, x: Doc)
    requires DistinctIds(metas) && Backed(st, metas) && HasPlan(st, metas, wr) && k < |metas|
    requires metas[k].id in IdsOf(wr.base)
    requires metas[k].id in wr.plan.value ==> BitmapWritten(st, metas[k], wr.plan.value[metas[k].id])
    ensures Shown(st, metas[k])[x]
         == Shown(st, BumpedMeta(metas[k], Versions(wr)))[x] + HitCopies(st, wr.test, x)(metas[k])
    ensures metas[k].id !in wr.plan.value ==> HitCopies(st, wr.test, x)(metas[k]) == 0
  {
    var i := BaseEntry(metas, wr.base, k);
    BaseBumped(st, wr.base, wr.test, wr.plan.value, i);
    PlannedHas(st, wr.base, wr.test, wr.plan.value, i);
  }

  /** What both together remove from one segment. */
  ghost function Removed(st: Store, a: Writer, b: Writer, x: Doc, m: SegmentMeta): nat
    requires a.Deleting? && a.plan.Some? && b.Deleting? && b.plan.Some?
  {
    (if m.id in IdsOf(b.base) then HitCopies(st, b.test, x)(m) else 0)
    + if m.id in IdsOf(a.base) - b.plan.value.Keys then HitCopies(st, a.test, x)(m) else 0
  }

  lemma OneSegment(st: Store, metas: seq<SegmentMeta>, a: Writer, b: Writer, k: nat, x: Doc)
    requires BothWritten(st, metas, a, b) && k < |metas|
    ensures var m := metas[k];
            Shown(st, m)[x]
            == Shown(st, BumpedMeta(BumpedMeta(m, Versions(a)), Versions(b)))[x] + Removed(st, a, b, x, m)
  {
    var m := metas[k];
    TwiceMeta(m, a, b);
    VersionsExact(a.base, a.plan.value, m.id);
    VersionsExact(b.base, b.plan.value, m.id);
    if m.id in IdsOf(b.base) {
      var i := BaseEntry(metas, b.base, k);
      OneDelete(st, metas, b, k, x);
    }
    if m.id in IdsOf(a.base) && m.id !in b.plan.value {
      var i := BaseEntry(metas, a.base, k);
      OneDelete(st, metas, a, k, x);
    }
  }

  lemma {:induction false} TwiceShows(st: Store, metas: seq<SegmentMeta>, a: Writer, b: Writer, n: nat, x: Doc)
    requires BothWritten(st, metas, a, b) && n <= |metas|
    ensures var after := Bumped(Bumped(metas, Versions(a)), Versions(b));
            Visible(st, metas[..n])[x]
            == Visible(st, after[..n])[x] + SumIn(HitCopies(st, b.test, x), metas[..n], IdsOf(b.base))
               + SumIn(HitCopies(st, a.test, x), metas[..n], IdsOf(a.base) - b.plan.value.Keys)
  {
    if n > 0 {
      var after := Bumped(Bumped(metas, Versions(a)), Versions(b));
      TwiceShows(st, metas, a, b, n - 1, x);
      OneSegment(st, metas, a, b, n - 1, x);
      assert after[n - 1] == BumpedMeta(BumpedMeta(metas[n - 1], Versions(a)), Versions(b));
      NextVisible(st, metas, n, x);
      NextVisible(st, after, n, x);
      NextSum(HitCopies(st, b.test, x), metas, IdsOf(b.base), n);
      NextSum(HitCopies(st, a.test, x), metas, IdsOf(a.base) - b.plan.value.Keys, n);
    }
  }

  /** The first delete's hits in segments for which the second has written a bitmap as well. */
  ghost function Overwritten(st: Store, metas: seq<SegmentMeta>, a: Writer, b: Writer, x: Doc): nat
    requires a.Deleting? && b.Deleting? && b.plan.Some?
  {
    SumIn(HitCopies(st, a.test, x), metas, IdsOf(a.base) * b.plan.value.Keys)
  }

  /** Both deletes publish: each removes the hits it counted, except the first one's in overwritten segments. */
  lemma TwoDeletesShow(st: Store, metas: seq<SegmentMeta>, a: Writer, b: Writer, x: Doc)
    requires BothWritten(st, metas, a, b)
    ensures Visible(st, metas)[x] + Overwritten(st, metas, a, b, x)
         == Visible(st, Bumped(Bumped(metas, Versions(a)), Versions(b)))[x]
            + Sum(HitCopies(st, a.test, x), a.base) + Sum(HitCopies(st, b.test, x), b.base)
  {
    var after := Bumped(Bumped(metas, Versions(a)), Versions(b));
    TwiceShows(st, metas, a, b, |metas|, x);
    Whole(metas);
    Whole(after);
    PickedSum(HitCopies(st, a.test, x), metas, a.base);
    PickedSum(HitCopies(st, b.test, x), metas, b.base);
    SumsSplit(HitCopies(st, a.test, x), metas, IdsOf(a.base), b.plan.value.Keys);
  }

  lemma BaseEntryOf(metas: seq<SegmentMeta>, b: Writer, k: nat) returns (j: nat)
    requires DistinctIds(metas) && k < |metas| && b.Deleting? && b.plan.Some? && Picked(metas, b.base)
    requires b.plan.value.Keys <= IdsOf(b.base) && metas[k].id in b.plan.value
    ensures j < |b.base| && b.base[j] == metas[k]
  {
    j := BaseEntry(metas, b.base, k);
  }

  /** With a larger bitmap no hit is left if and only if the bitmap holds them. */
  lemma HitsLeft(docs: seq<Doc>, del: set<u32>, p: Test, del': set<u32>)
    requires |docs| < 0x1_0000_0000 && del <= del'
    ensures HitsFrom(docs, del', p, 0) == {} <==> del + HitsFrom(docs, del, p, 0) <= del'
  {
    forall d: u32
      ensures d in HitsFrom(docs, del', p, 0) <==> d in HitsFrom(docs, del, p, 0) && d !in del'
    {
      HitsAre(docs, del', p, 0, d);
      HitsAre(docs, del, p, 0, d);
    }
  }

  /** One segment of the first delete has no hits left. */
  ghost predicate NoneLeft(st: Store, a: Writer, b: Writer, m: SegmentMeta)
    requires a.Deleting? && a.plan.Some? && b.Deleting? && b.plan.Some?
  {
    Hits(st, BumpedMeta(BumpedMeta(m, Versions(a)), Versions(b)), a.test) == {}
  }

  /** Where the second delete has a bitmap, it decides. */
  lemma SecondDecides(st: Store, metas: seq<SegmentMeta>, a: Writer, b: Writer, i: nat)
    requires BothWritten(st, metas, a, b) && i < |a.base| && a.base[i].id in b.plan.value
    ensures var m := a.base[i];
            NoneLeft(st, a, b, m) <==> DelOf(st, m) + Hits(st, m, a.test) <= b.plan.value[m.id]
  {
    SecondInUse(st, metas, a, b, i);
    SecondKeepsDeleted(st, metas, a, b, i);
    HitsLeft(Content(st, a.base[i].id), DelOf(st, a.base[i]), a.test, b.plan.value[a.base[i].id]);
  }

  lemma SecondInUse(st: Store, metas: seq<SegmentMeta>, a: Writer, b: Writer, i: nat)
    requires BothWritten(st, metas, a, b) && i < |a.base| && a.base[i].id in b.plan.value
    ensures var m, m' := a.base[i], BumpedMeta(BumpedMeta(a.base[i], Versions(a)), Versions(b));
            m'.id == m.id && DelOf(st, m') == b.plan.value[m.id] && Countable(Content(st, m.id))
  {
    var id := a.base[i].id;
    var k := PickedAt(metas, a.base, i);
    var j := BaseEntryOf(metas, b, k);
    TwiceMeta(a.base[i], a, b);
    assert BitmapWritten(st, b.base[j], b.plan.value[id]);
    InUse(st, b.base, b.plan.value, j);
  }

  /** A published bitmap is in use. */
  lemma InUse(st: Store, base: seq<SegmentMeta>, plan: map<string, set<u32>>, j: nat)
    requires DistinctIds(base) && j < |base| && base[j].id in plan && BitmapWritten(st, base[j], plan[base[j].id])
    ensures base[j].id in VersionsOf(base, plan)
    ensures DelOf(st, BumpedMeta(base[j], VersionsOf(base, plan))) == plan[base[j].id]
  {
    VersionAt(base, plan, j);
  }

  lemma SecondKeepsDeleted(st: Store, metas: seq<SegmentMeta>, a: Writer, b: Writer, i: nat)
    requires BothWritten(st, metas, a, b) && i < |a.base| && a.base[i].id in b.plan.value
    ensures DelOf(st, a.base[i]) <= b.plan.value[a.base[i].id]
  {
    var k := PickedAt(metas, a.base, i);
    var j := BaseEntryOf(metas, b, k);
  }

  lemma OnlyFirst(st: Store, metas: seq<SegmentMeta>, a: Writer, b: Writer, i: nat)
    requires BothWritten(st, metas, a, b) && i < |a.base| && a.base[i].id !in b.plan.value
    ensures NoneLeft(st, a, b, a.base[i])
  {
    var k := PickedAt(metas, a.base, i);
    TwiceMeta(a.base[i], a, b);
    VersionsExact(b.base, b.plan.value, a.base[i].id);
    BaseBumped(st, a.base, a.test, a.plan.value, i);
  }

  lemma NoneLeftIff(st: Store, metas: seq<SegmentMeta>, a: Writer, b: Writer, i: nat)
    requires BothWritten(st, metas, a, b) && i < |a.base|
    ensures var id := a.base[i].id;
            NoneLeft(st, a, b, a.base[i])
            <==> (id in a.plan.value && id in b.plan.value ==> a.plan.value[id] <= b.plan.value[id])
  {
    var m, id := a.base[i], a.base[i].id;
    if id !in b.plan.value {
      OnlyFirst(st, metas, a, b, i);
    } else {
      SecondDecides(st, metas, a, b, i);
      SecondKeepsDeleted(st, metas, a, b, i);
      if id !in a.plan.value {
        assert Hits(st, m, a.test) == {};
      }
    }
  }

  /** The first delete has removed all it read if and only if no common bitmap of the second falls short of its own. */
  lemma NothingUndoneIff(st: Store, metas: seq<SegmentMeta>, a: Writer, b: Writer)
    requires BothWritten(st, metas, a, b)
    ensures (forall i | 0 <= i < |a.base| :: NoneLeft(st, a, b, a.base[i]))
            <==> forall id | id in a.plan.value && id in b.plan.value :: a.plan.value[id] <= b.plan.value[id]
  {
    forall i | 0 <= i < |a.base|
      ensures var id := a.base[i].id;
              NoneLeft(st, a, b, a.base[i])
              <==> (id in a.plan.value && id in b.plan.value ==> a.plan.value[id] <= b.plan.value[id])
    {
      NoneLeftIff(st, metas, a, b, i);
    }
    if forall i | 0 <= i < |a.base| :: NoneLeft(st, a, b, a.base[i]) {
      forall id | id in a.plan.value && id in b.plan.value
        ensures a.plan.value[id] <= b.plan.value[id]
      {
        var i := IdOf(a.base, id);
        assert NoneLeft(st, a, b, a.base[i]);
      }
    }
  }

  // ----- Runs of two deletes -----

  /** The first has written all; of the second's bitmaps those of some segments are written over them. */
  ghost predicate Overwriting(w: World, b: Writer) {
    && DistinctIds(w.metas) && Backed(w.store, w.metas)
    && HasPlan(w.store, w.metas, w.writer) && HasPlan(w.store, w.metas, b) && b.written <= b.plan.value.Keys
    && WrittenExcept(w.store, w.writer, b.written)
    && WrittenExcept(w.store, b, b.plan.value.Keys - b.written)
  }

  lemma OverwritesNext(keep: Filter, w: World, b: Writer, id: string)
    requires Overwriting(w, b) && Enabled(w.(writer := b), WriteDel(id))
    ensures var w' := Apply(keep, w.(writer := b), WriteDel(id));
            w'.metas == w.metas && Overwriting(w'.(writer := w.writer), w'.writer)
  {
    var a, v := w.writer, w.(writer := b);
    var i := IdOf(b.base, id);
    var st, st' := w.store, DelWritten(w.store, DelTarget(b, id), b.plan.value[id]);
    KeyInUse(st, w.metas, b, id, i);
    PickedAgree(st, st', w.metas, a.base);
    PickedAgree(st, st', w.metas, b.base);
    PlannedAgree(st, st', a.base, a.test, a.plan.value);
    PlannedAgree(st, st', b.base, b.test, b.plan.value);
    BitmapsBut(st, a, b.written, DelTarget(b, id), b.plan.value[id]);
    NowWrittenToo(st, b, id, i);
  }

  /** The key under which a bitmap is written is not in use yet. */
  lemma KeyInUse(st: Store, metas: seq<SegmentMeta>, b: Writer, id: string, i: nat)
    requires DistinctIds(metas) && Backed(st, metas) && HasPlan(st, metas, b) && id in b.plan.value
    requires i < |b.base| && b.base[i].id == id
    ensures DelTarget(b, id) == DelKey(id, b.base[i].delVersion + 1)
    ensures var st' := DelWritten(st, DelTarget(b, id), b.plan.value[id]);
            Agree(st, st', metas) && Backed(st', metas)
  {
    var wr := Deleting(b.base, b.test, b.plan, {});
    WriteDelAgrees(st, metas, wr, id, i);
  }

  lemma BitmapsBut(st: Store, a: Writer, ids: set<string>, k: DelKey, bm: set<u32>)
    requires a.Deleting? && a.plan.Some? && WrittenExcept(st, a, ids)
    ensures WrittenExcept(DelWritten(st, k, bm), a, ids + {k.id})
  {
    var st' := DelWritten(st, k, bm);
    forall i | 0 <= i < |a.base| && a.base[i].id in a.plan.value && a.base[i].id !in ids + {k.id}
      ensures BitmapWritten(st', a.base[i], a.plan.value[a.base[i].id])
    {
      assert BitmapWritten(st, a.base[i], a.plan.value[a.base[i].id]);
    }
  }

  lemma NowWrittenToo(st: Store, b: Writer, id: string, i: nat)
    requires b.Deleting? && b.plan.Some? && DistinctIds(b.base) && id in b.plan.value
    requires i < |b.base| && b.base[i].id == id && DelTarget(b, id) == DelKey(id, b.base[i].delVersion + 1)
    requires WrittenExcept(st, b, b.plan.value.Keys - b.written)
    ensures WrittenExcept(DelWritten(st, DelTarget(b, id), b.plan.value[id]), b.(written := b.written + {id}),
                          b.plan.value.Keys - (b.written + {id}))
  {
    var st', keys := DelWritten(st, DelTarget(b, id), b.plan.value[id]), b.plan.value.Keys;
    forall j | 0 <= j < |b.base| && b.base[j].id in b.plan.value && b.base[j].id !in keys - (b.written + {id})
      ensures BitmapWritten(st', b.base[j], b.plan.value[b.base[j].id])
    {
      if j != i {
        assert b.base[j].id != id;
        assert BitmapWritten(st, b.base[j], b.plan.value[b.base[j].id]);
      }
    }
  }

  /** Between two states the second delete writes its bitmaps. */
  ghost predicate SecondWrites(steps: seq<DuoStep>, a: nat, n: nat)
    requires n <= |steps|
  {
    forall i | a <= i < n :: steps[i].Second? && steps[i].s.WriteDel?
  }

  /**
   * In every run in which a second delete plans before a first one publishes and writes its bitmaps after the first
   * has written its own: each removes the hits it counted, except that the first one's in common segments stay.
   */
  lemma SecondDeleteOverwrites(keep: Filter, states: seq<Duo>, steps: seq<DuoStep>, a: nat, n: nat, x: Doc)
    requires DuoRun(keep, states, steps) && a <= n && n + 2 <= |steps| && SerialisedUntil(states, steps, a)
    requires Enabled(states[a].world, PublishDelete)
    requires states[a].second.Deleting? && states[a].second.plan.Some? && states[a].second.written == {}
    requires SecondWrites(steps, a, n) && steps[n] == First(PublishDelete) && steps[n + 1] == Second(PublishDelete)
    ensures var w, b := states[n].world, states[n].second;
            && w.writer.Deleting? && b.Deleting? && b.plan.Some? && BothWritten(w.store, w.metas, w.writer, b)
            && Shows(states[n])[x] + Overwritten(w.store, w.metas, w.writer, b, x)
               == Shows(states[n + 2])[x] + Sum(HitCopies(w.store, w.writer.test, x), w.writer.base)
                  + Sum(HitCopies(w.store, b.test, x), b.base)
  {
    DuoRunKeeps(keep, states, steps, a);
    for i := a to n
      invariant Overwriting(states[i].world, states[i].second) && states[i].world.writer == states[a].world.writer
    {
      OverwritesNext(keep, states[i].world, states[i].second, steps[i].s.id);
      assert states[i + 1] == DuoApply(keep, states[i], steps[i]);
    }
    assert states[n + 1] == DuoApply(keep, states[n], steps[n]);
    assert states[n + 2] == DuoApply(keep, states[n + 1], steps[n + 1]);
    BothPublish(keep, states[n]);
    TwoDeletesShow(states[n].world.store, states[n].world.metas, states[n].world.writer, states[n].second, x);
  }

  lemma BothPublish(keep: Filter, d: Duo)
    requires DuoEnabled(d, First(PublishDelete))
    requires DuoEnabled(DuoApply(keep, d, First(PublishDelete)), Second(PublishDelete))
    ensures var d' := DuoApply(keep, DuoApply(keep, d, First(PublishDelete)), Second(PublishDelete));
            && d.second.Deleting? && d.second.plan.Some? && d.second.written == d.second.plan.value.Keys
            && d'.world.store == d.world.store
            && d'.world.metas == Bumped(Bumped(d.world.metas, Versions(d.world.writer)), Versions(d.second))
  {
  }

  // ----- Two merges -----

  /** Live documents of segments that both merges have read. */
  ghost function Doubled(d: Duo, x: Doc): nat
    requires d.world.writer.Merging? && d.second.Merging?
  {
    SumIn(Copies(d.world.store, x), d.world.metas, IdsOf(d.world.writer.picked) * IdsOf(d.second.picked))
  }

  lemma {:induction false} MarkedCount(st: Store, metas: seq<SegmentMeta>, a: set<string>, b: set<string>, x: Doc)
    ensures SumIn(Copies(st, x), MarkDeleted(metas, a), b) == SumIn(Copies(st, x), metas, b - a)
  {
    if metas != [] {
      var n := |metas| - 1;
      MarkedCount(st, metas[..n], a, b, x);
      assert MarkDeleted(metas, a)[..n] == MarkDeleted(metas[..n], a);
    }
  }

  lemma AppendedCount(f: Measure, metas: seq<SegmentMeta>, m: SegmentMeta, ids: set<string>)
    ensures SumIn(f, metas + [m], ids) == SumIn(f, metas, ids) + if m.id in ids then f(m) else 0
  {
    assert (metas + [m])[..|metas|] == metas;
  }

  /** The segments that are left to the second merge when the first has published, and those it has taken away. */
  lemma LeftToSecond(st: Store, metas: seq<SegmentMeta>, ids: set<string>, picked: seq<SegmentMeta>, x: Doc)
    requires DistinctIds(metas) && Picked(metas, picked)
    ensures SumIn(Copies(st, x), MarkDeleted(metas, ids), IdsOf(picked))
            + SumIn(Copies(st, x), metas, ids * IdsOf(picked))
         == multiset(AllLive(st, picked))[x]
  {
    var f, ids' := Copies(st, x), IdsOf(picked);
    PickedSum(f, metas, picked);
    LiveSum(st, picked, x);
    SumsSplit(f, metas, ids', ids);
    assert ids' * ids == ids * ids';
    MarkedCount(st, metas, ids, ids', x);
  }

  /** Publishing a merge whose sources may be retired already. */
  lemma LateMergeShows(st: Store, metas: seq<SegmentMeta>, wr: Writer, meta: SegmentMeta, x: Doc)
    requires wr.Merging? && wr.merged.Some?
    requires wr.merged.value != [] ==> Holds(st, meta.id, wr.merged.value) && !meta.deleted && meta.delVersion == 0
    ensures Visible(st, metas)[x] + multiset(wr.merged.value)[x]
         == Visible(st, Changed(MergeChange(wr, meta), metas))[x] + SumIn(Copies(st, x), metas, IdsOf(wr.picked))
  {
    MarkingHides(st, metas, IdsOf(wr.picked), x);
    if wr.merged.value != [] {
      NewShows(st, MarkDeleted(metas, IdsOf(wr.picked)), meta, wr.merged.value);
    }
  }

  /** Two merges publish one after the other: live documents of common sources are in both new segments. */
  lemma TwoMergesShow(keep: Filter, d: Duo, meta: SegmentMeta, meta': SegmentMeta, x: Doc)
    requires DuoInv(keep, d) && DuoEnabled(d, First(PublishMerge(meta))) && DuoEnabled(d, Second(PublishMerge(meta')))
    ensures var d1 := DuoApply(keep, d, First(PublishMerge(meta)));
            && DuoEnabled(d1, Second(PublishMerge(meta')))
            && var d2 := DuoApply(keep, d1, Second(PublishMerge(meta')));
               Shows(d)[x] + multiset(d.world.writer.merged.value)[x] + multiset(d.second.merged.value)[x]
               + Doubled(d, x)
               == Shows(d2)[x] + multiset(AllLive(d.world.store, d.world.writer.picked))[x]
                  + multiset(AllLive(d.world.store, d.second.picked))[x]
  {
    var st, wr, wr' := d.world.store, d.world.writer, d.second;
    var metas1 := Changed(MergeChange(wr, meta), d.world.metas);
    MergeShows(keep, d.world, meta, x);
    SecondMerge(keep, d, meta');
    LateMergeShows(st, metas1, wr', meta', x);
    FirstMergeCounts(keep, d, meta, x);
    LeftToSecond(st, d.world.metas, IdsOf(wr.picked), wr'.picked, x);
    MergesPublished(keep, d, meta, meta');
  }

  lemma SecondMerge(keep: Filter, d: Duo, meta: SegmentMeta)
    requires Inv(keep, Other(d)) && Enabled(Other(d), PublishMerge(meta))
    ensures var wr := d.second;
            wr.merged.value != [] ==>
              Holds(d.world.store, meta.id, wr.merged.value) && !meta.deleted && meta.delVersion == 0
  {
  }

  /** The new segment of the first merge is no source of the second. */
  lemma FirstMergeCounts(keep: Filter, d: Duo, meta: SegmentMeta, x: Doc)
    requires DuoInv(keep, d) && Enabled(d.world, PublishMerge(meta)) && d.second.Merging?
    ensures var metas, ids := d.world.metas, IdsOf(d.world.writer.picked);
            SumIn(Copies(d.world.store, x), Changed(MergeChange(d.world.writer, meta), metas), IdsOf(d.second.picked))
            == SumIn(Copies(d.world.store, x), MarkDeleted(metas, ids), IdsOf(d.second.picked))
  {
    PickedIds(d.world.metas, d.second.picked);
    AppendedCount(Copies(d.world.store, x), MarkDeleted(d.world.metas, IdsOf(d.world.writer.picked)), meta,
                  IdsOf(d.second.picked));
  }

  lemma MergesPublished(keep: Filter, d: Duo, meta: SegmentMeta, meta': SegmentMeta)
    requires DuoEnabled(d, First(PublishMerge(meta))) && DuoEnabled(d, Second(PublishMerge(meta')))
    ensures var d1 := DuoApply(keep, d, First(PublishMerge(meta)));
            && DuoEnabled(d1, Second(PublishMerge(meta')))
            && var w := DuoApply(keep, d1, Second(PublishMerge(meta'))).world;
               && w.store == d.world.store
               && w.metas == Changed(MergeChange(d.second, meta'),
                                     Changed(MergeChange(d.world.writer, meta), d.world.metas))
  {
  }

  /** Without an id field exactly the live documents of common sources are doubled. */
  lemma MergesDouble(keep: Filter, d: Duo, meta: SegmentMeta, meta': SegmentMeta, x: Doc)
    requires DuoInv(keep, d) && KeepsAll(keep)
    requires DuoEnabled(d, First(PublishMerge(meta))) && DuoEnabled(d, Second(PublishMerge(meta')))
    ensures var d1 := DuoApply(keep, d, First(PublishMerge(meta)));
            && DuoEnabled(d1, Second(PublishMerge(meta')))
            && Shows(DuoApply(keep, d1, Second(PublishMerge(meta'))))[x] == Shows(d)[x] + Doubled(d, x)
  {
    TwoMergesShow(keep, d, meta, meta', x);
    MergedAll(keep, d.world);
    MergedAll(keep, Other(d));
  }

  lemma MergedAll(keep: Filter, w: World)
    requires Inv(keep, w) && KeepsAll(keep) && w.writer.Merging? && w.writer.merged.Some?
    ensures w.writer.merged.value == AllLive(w.store, w.writer.picked)
  {
  }

  /** Nothing is doubled if and only if no segment that both have picked shows anything. */
  lemma NothingDoubledIff(d: Duo)
    requires d.world.writer.Merging? && d.second.Merging?
    ensures (forall x: Doc :: Doubled(d, x) == 0)
            <==> NothingIn(d.world.store, d.world.metas, IdsOf(d.world.writer.picked) * IdsOf(d.second.picked))
  {
    var st, metas := d.world.store, d.world.metas;
    var ids := IdsOf(d.world.writer.picked) * IdsOf(d.second.picked);
    NoneDoubledIff(st, metas, ids);
    forall x: Doc
      ensures Doubled(d, x) == SumIn(Copies(st, x), metas, ids)
    {
    }
  }

  ghost predicate NothingIn(st: Store, metas: seq<SegmentMeta>, ids: set<string>) {
    forall k | 0 <= k < |metas| :: metas[k].id in ids ==> Shown(st, metas[k]) == multiset{}
  }

  lemma NoneDoubledIff(st: Store, metas: seq<SegmentMeta>, ids: set<string>)
    ensures (forall x: Doc :: SumIn(Copies(st, x), metas, ids) == 0)
            <==> NothingIn(st, metas, ids)
  {
    if NothingIn(st, metas, ids) {
      forall x: Doc
        ensures SumIn(Copies(st, x), metas, ids) == 0
      {
        NoneCounted(Copies(st, x), metas, ids);
      }
    } else {
      var k :| 0 <= k < |metas| && metas[k].id in ids && Shown(st, metas[k]) != multiset{};
      var x :| x in Shown(st, metas[k]);
      SomeCounted(Copies(st, x), metas, ids, k);
      assert SumIn(Copies(st, x), metas, ids) > 0;
    }
  }
}
