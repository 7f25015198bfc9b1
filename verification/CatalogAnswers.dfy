/** Queries over the whole catalog. */
module CatalogAnswers {
  import opened Bytes
  import opened Manifest
  import opened Visibility
  import opened Catalog
  import opened Conservation
  import opened Query
  import Answers
  import M = Memtable

  /** A query as a test on one document. */
  ghost function TestOf(cfg: M.Config, schema: seq<M.FieldDef>, q: Node): Test {
    (raw: Doc) => Matches(WordsOf(cfg.an), q, Answers.DocRow(cfg, schema, raw))
  }

  /** The hits of a segment are what its evaluation leaves after removing the deleted documents. */
  lemma HitsAreAnswers(cfg: M.Config, schema: seq<M.FieldDef>, q: Node, docs: seq<Doc>, del: set<u32>)
    requires |docs| < 0x1_0000_0000
    ensures HitsFrom(docs, del, TestOf(cfg, schema, q), 0) == Answers.Satisfying(cfg, schema, docs, q) - del
  {
    forall x: u32
      ensures x in HitsFrom(docs, del, TestOf(cfg, schema, q), 0) <==>
              x in Answers.Satisfying(cfg, schema, docs, q) - del
    {
      HitsAre(docs, del, TestOf(cfg, schema, q), 0, x);
    }
  }

  lemma {:induction false} HitDocsFilter(docs: seq<Doc>, del: set<u32>, p: Test, d: nat, x: Doc)
    ensures multiset(HitDocsFrom(docs, del, p, d))[x] == if p(x) then multiset(LiveFrom(docs, del, d))[x] else 0
    decreases |docs| - d
  {
    if d < |docs| {
      HitDocsFilter(docs, del, p, d + 1, x);
    }
  }

  /** The live documents that a query finds over all active segments, each as often as it is stored. */
  ghost function Found(st: Store, metas: seq<SegmentMeta>, p: Test, x: Doc): nat {
    Sum(HitCopies(st, p, x), ActiveSegments(metas))
  }

  lemma FoundInOne(st: Store, metas: seq<SegmentMeta>, p: Test, x: Doc, k: nat)
    requires DistinctIds(metas) && Backed(st, metas) && k < |metas|
    ensures (if metas[k].id in ActiveIds(metas) then HitCopies(st, p, x)(metas[k]) else 0)
         == if p(x) then Copies(st, x)(metas[k]) else 0
  {
    ActiveIdsExact(metas, k);
    var m := metas[k];
    if !m.deleted {
      HitDocsFilter(Content(st, m.id), DelOf(st, m), p, 0, x);
    }
  }

  lemma ActiveIdsExact(metas: seq<SegmentMeta>, k: nat)
    requires DistinctIds(metas) && k < |metas|
    ensures metas[k].id in ActiveIds(metas) <==> !metas[k].deleted
  {
    var active := ActiveSegments(metas);
    ActiveArePicked(metas);
    if !metas[k].deleted {
      assert metas[k] in active;
    }
    if metas[k].id in ActiveIds(metas) {
      var i := IdOf(active, metas[k].id);
      var n := PickedAt(metas, active, i);
      assert n == k;
    }
  }

  /** A query finds exactly the visible documents that satisfy it. */
  lemma FoundIsVisible(keep: Filter, w: World, p: Test, x: Doc)
    requires Inv(keep, w)
    ensures Found(w.store, w.metas, p, x) == if p(x) then Visible(w.store, w.metas)[x] else 0
  {
    var f, ids := HitCopies(w.store, p, x), ActiveIds(w.metas);
    forall k | 0 <= k < |w.metas|
      ensures (if w.metas[k].id in ids then f(w.metas[k]) else 0)
           == if p(x) then Copies(w.store, x)(w.metas[k]) else 0
    {
      FoundInOne(w.store, w.metas, p, x, k);
    }
    SumsAgree(f, Copies(w.store, x), w.metas, ids, p(x));
    VisibleSum(w.store, w.metas, x);
    ActiveArePicked(w.metas);
    PickedSum(f, w.metas, ActiveSegments(w.metas));
  }

  /** Without an id field a merge changes no query's answers, whatever was flushed in between. */
  lemma MergePreservesAnswers(keep: Filter, w: World, meta: SegmentMeta, p: Test, x: Doc)
    requires Inv(keep, w) && Enabled(w, PublishMerge(meta)) && KeepsAll(keep)
    ensures var w' := Apply(keep, w, PublishMerge(meta));
            Found(w'.store, w'.metas, p, x) == Found(w.store, w.metas, p, x)
  {
    var s := PublishMerge(meta);
    StepKeeps(keep, w, s);
    StepShows(keep, w, s, x);
    MergeTakesWhatItAdds(keep, w, s, x);
    FoundIsVisible(keep, w, p, x);
    FoundIsVisible(keep, Apply(keep, w, s), p, x);
  }

  // ----- Repeating a delete -----

  lemma {:induction false} NoHitsNoCount(st: Store, ms: seq<SegmentMeta>, p: Test)
    requires forall i | 0 <= i < |ms| :: Hits(st, ms[i], p) == {}
    ensures Sum(HitCount(st, p), ms) == 0 && PlanOf(st, ms, p) == map[]
  {
    if ms != [] {
      NoHitsNoCount(st, ms[..|ms| - 1], p);
    }
  }

  lemma ActiveAfterBump(st: Store, metas: seq<SegmentMeta>, p: Test, plan: map<string, set<u32>>, k: nat)
    requires ReadyToBump(st, metas, ActiveSegments(metas), p, plan) && k < |metas| && !metas[k].deleted
    ensures Hits(st, Bumped(metas, VersionsOf(ActiveSegments(metas), plan))[k], p) == {}
  {
    var base := ActiveSegments(metas);
    assert metas[k] in base by {
      ActiveArePicked(metas);
    }
    var j :| 0 <= j < |base| && base[j] == metas[k];
    assert Hits(st, BumpedMeta(base[j], VersionsOf(base, plan)), p) == {} by {
      BaseBumped(st, base, p, plan, j);
    }
  }

  lemma NothingPlannedAgain(st: Store, metas: seq<SegmentMeta>, p: Test, plan: map<string, set<u32>>)
    requires ReadyToBump(st, metas, ActiveSegments(metas), p, plan)
    ensures var active := ActiveSegments(Bumped(metas, VersionsOf(ActiveSegments(metas), plan)));
            Sum(HitCount(st, p), active) == 0 && PlanOf(st, active, p) == map[]
  {
    var after := Bumped(metas, VersionsOf(ActiveSegments(metas), plan));
    var active := ActiveSegments(after);
    BumpKeeps(st, metas, ActiveSegments(metas), p, plan);
    ActiveArePicked(after);
    forall i | 0 <= i < |active|
      ensures Hits(st, active[i], p) == {}
    {
      var k := PickedAt(after, active, i);
      ActiveAfterBump(st, metas, p, plan, k);
    }
    NoHitsNoCount(st, active, p);
  }

  /** With no new documents, deleting by the same query again finds nothing and plans nothing. */
  lemma RepeatDeletesNothing(keep: Filter, w: World)
    requires Inv(keep, w) && Enabled(w, PublishDelete) && w.writer.base == ActiveSegments(w.metas)
    ensures var active := ActiveSegments(Apply(keep, w, PublishDelete).metas);
            Sum(HitCount(w.store, w.writer.test), active) == 0 && PlanOf(w.store, active, w.writer.test) == map[]
  {
    Ready(w.store, w.metas, w.writer);
    DeleteApplied(keep, w);
    NothingPlannedAgain(w.store, w.metas, w.writer.test, w.writer.plan.value);
  }
}
