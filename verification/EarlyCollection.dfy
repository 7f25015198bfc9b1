/** What is lost when a segment is uploaded between a collection's reading of the manifest and its listing. */
module EarlyCollection {
  import opened Manifest
  import opened Visibility
  import opened Catalog
  import opened Conservation

  ghost predicate Moves(keep: Filter, a: World, s: Step, b: World) {
    Enabled(a, s) && b == Apply(keep, a, s)
  }

  /** Removing the object of a segment hides exactly what a segment with that id shows. */
  lemma {:induction false} RemovalHides(st: Store, metas: seq<SegmentMeta>, id: string, x: Doc)
    ensures Visible(st, metas)[x] == Visible(WithoutSeg(st, id), metas)[x] + SumIn(Copies(st, x), metas, {id})
  {
    if metas != [] {
      var n := |metas| - 1;
      RemovalHides(st, metas[..n], id, x);
      OneRemoved(st, metas[n], id);
    }
  }

  lemma OneRemoved(st: Store, m: SegmentMeta, id: string)
    ensures Shown(WithoutSeg(st, id), m) == if m.id == id then multiset{} else Shown(st, m)
  {
    if m.id == id {
      assert LiveIn(WithoutSeg(st, id), m) == [];
    } else {
      assert LiveIn(WithoutSeg(st, id), m) == LiveIn(st, m);
    }
  }

  /** A published segment whose object is then removed shows nothing. */
  lemma RemovedNew(st: Store, metas: seq<SegmentMeta>, m: SegmentMeta, docs: seq<Doc>)
    requires Holds(st, m.id, docs) && !m.deleted && m.delVersion == 0 && m.id !in IdsOf(metas)
    ensures Visible(WithoutSeg(st, m.id), metas + [m]) == Visible(st, metas)
  {
    var st' := WithoutSeg(st, m.id);
    forall i | 0 <= i < |metas|
      ensures metas[i].id != m.id
    {
      IdIn(metas, i);
    }
    AgreeShowsSame(st, st', metas);
    AppendShows(st', metas, m);
    OneRemoved(st, m, m.id);
  }

  /** What the listing finds holds every object the manifest did not name when it was read. */
  lemma ListedAll(st: Store, protected: set<string>, id: string)
    requires id in st.segs && id !in protected
    ensures Garbage(st, protected).Removing? && id in Garbage(st, protected).segs
  {
  }

  /**
   * A flush that uploads after a collection has read the manifest and publishes before its object is removed:
   * its documents become visible, and are lost while the manifest still names the segment.
   */
  lemma LateFlushLoses(keep: Filter, w: World, job: nat, meta: SegmentMeta)
    returns (read: World, uploaded: World, listed: World, published: World, removed: World)
    requires Inv(keep, w) && w.sweep.NoSweep? && w.metas != [] && job in w.flushes
    requires meta.id == w.flushes[job].id && !meta.deleted && meta.delVersion == 0
    ensures Moves(keep, w, BeginSweep, read) && Moves(keep, read, UploadFlush(job), uploaded)
    ensures Moves(keep, uploaded, ListSweep, listed) && Moves(keep, listed, PublishFlush(job, meta), published)
    ensures Moves(keep, published, RemoveSeg(meta.id), removed)
    ensures Visible(published.store, published.metas)
         == Visible(w.store, w.metas) + multiset(w.flushes[job].docs)
    ensures Visible(removed.store, removed.metas) == Visible(w.store, w.metas)
    ensures meta in removed.metas && meta.id !in removed.store.segs
  {
    var f := w.flushes[job];
    var st := Uploaded(w.store, f.id, f.docs);
    assert FlushOk(w.store, w.metas, f);
    NotActive(w.metas, f.id);
    read, uploaded, listed, published, removed := LateFlushMoves(keep, w, job, meta);
    UploadAgrees(w.store, w.metas, f.id, f.docs);
    AgreeShowsSame(w.store, st, w.metas);
    NewShows(st, w.metas, meta, f.docs);
    RemovedNew(st, w.metas, meta, f.docs);
  }

  lemma LateFlushMoves(keep: Filter, w: World, job: nat, meta: SegmentMeta)
    returns (read: World, uploaded: World, listed: World, published: World, removed: World)
    requires w.sweep.NoSweep? && w.metas != [] && job in w.flushes && w.flushes[job].id !in ActiveIds(w.metas)
    requires meta.id == w.flushes[job].id && !meta.deleted && meta.delVersion == 0
    ensures Moves(keep, w, BeginSweep, read) && Moves(keep, read, UploadFlush(job), uploaded)
    ensures Moves(keep, uploaded, ListSweep, listed) && Moves(keep, listed, PublishFlush(job, meta), published)
    ensures Moves(keep, published, RemoveSeg(meta.id), removed)
    ensures published.store == Uploaded(w.store, meta.id, w.flushes[job].docs)
    ensures published.metas == removed.metas == w.metas + [meta]
    ensures removed.store == WithoutSeg(published.store, meta.id)
  {
    read := Apply(keep, w, BeginSweep);
    uploaded := Apply(keep, read, UploadFlush(job));
    listed := Apply(keep, uploaded, ListSweep);
    ListedAll(uploaded.store, ActiveIds(w.metas), meta.id);
    published := Apply(keep, listed, PublishFlush(job, meta));
    removed := Apply(keep, published, RemoveSeg(meta.id));
  }

  /** A flush whose segment was uploaded before the collection read the manifest is lost in the same way. */
  lemma PendingFlushLoses(keep: Filter, w: World, job: nat, meta: SegmentMeta)
    returns (read: World, listed: World, published: World, removed: World)
    requires Inv(keep, w) && w.sweep.NoSweep? && w.metas != [] && Enabled(w, PublishFlush(job, meta))
    ensures Moves(keep, w, BeginSweep, read) && Moves(keep, read, ListSweep, listed)
    ensures Moves(keep, listed, PublishFlush(job, meta), published)
    ensures Moves(keep, published, RemoveSeg(meta.id), removed)
    ensures Visible(removed.store, removed.metas) == Visible(w.store, w.metas)
    ensures meta in removed.metas && meta.id !in removed.store.segs
  {
    var f := w.flushes[job];
    assert FlushOk(w.store, w.metas, f);
    NotActive(w.metas, f.id);
    ListedAll(w.store, ActiveIds(w.metas), f.id);
    RemovedNew(w.store, w.metas, meta, f.docs);
    read, listed, published, removed := PendingFlushMoves(keep, w, job, meta);
  }

  lemma PendingFlushMoves(keep: Filter, w: World, job: nat, meta: SegmentMeta)
    returns (read: World, listed: World, published: World, removed: World)
    requires w.sweep.NoSweep? && w.metas != [] && Enabled(w, PublishFlush(job, meta))
    requires meta.id in w.store.segs && meta.id !in ActiveIds(w.metas)
    ensures Moves(keep, w, BeginSweep, read) && Moves(keep, read, ListSweep, listed)
    ensures Moves(keep, listed, PublishFlush(job, meta), published)
    ensures Moves(keep, published, RemoveSeg(meta.id), removed)
    ensures removed.store == WithoutSeg(w.store, meta.id) && removed.metas == w.metas + [meta]
  {
    read := Apply(keep, w, BeginSweep);
    listed := Apply(keep, read, ListSweep);
    ListedAll(w.store, ActiveIds(w.metas), meta.id);
    published := Apply(keep, listed, PublishFlush(job, meta));
    removed := Apply(keep, published, RemoveSeg(meta.id));
  }

  /** What a merge leaves visible when the object it uploaded is removed: none of its sources' documents. */
  lemma MergeRemoved(keep: Filter, w: World, meta: SegmentMeta, x: Doc)
    requires Inv(keep, w) && Enabled(w, PublishMerge(meta)) && w.writer.merged.value != []
    ensures Visible(w.store, w.metas)[x]
         == Visible(WithoutSeg(w.store, meta.id), Changed(MergeChange(w.writer, meta), w.metas))[x]
            + multiset(AllLive(w.store, w.writer.picked))[x]
  {
    var marked := MarkDeleted(w.metas, IdsOf(w.writer.picked));
    MergeShows(keep, w, meta, x);
    MarkKeeps(w.store, w.metas, IdsOf(w.writer.picked));
    NewShows(w.store, marked, meta, w.writer.merged.value);
    RemovedNew(w.store, marked, meta, w.writer.merged.value);
  }

  /** A merge that uploads after a collection has read the manifest: every live document of its sources is lost. */
  lemma LateMergeLoses(keep: Filter, w: World, meta: SegmentMeta, x: Doc)
    returns (read: World, uploaded: World, listed: World, published: World, removed: World)
    requires Inv(keep, w) && w.sweep.NoSweep? && w.metas != [] && Enabled(w, UploadMerge) && w.writer.merged.value != []
    requires meta.id == w.writer.newId && !meta.deleted && meta.delVersion == 0
    ensures Moves(keep, w, BeginSweep, read) && Moves(keep, read, UploadMerge, uploaded)
    ensures Moves(keep, uploaded, ListSweep, listed) && Moves(keep, listed, PublishMerge(meta), published)
    ensures Moves(keep, published, RemoveSeg(meta.id), removed)
    ensures Visible(w.store, w.metas)[x]
         == Visible(removed.store, removed.metas)[x] + multiset(AllLive(w.store, w.writer.picked))[x]
    ensures meta in removed.metas && meta.id !in removed.store.segs
  {
    var wr := w.writer;
    var now := w.(store := Uploaded(w.store, wr.newId, wr.merged.value), writer := wr.(uploaded := true));
    UploadMergeKeeps(keep, w);
    MergeRemoved(keep, now, meta, x);
    AgreeShowsSame(w.store, now.store, w.metas);
    PickedAgree(w.store, now.store, w.metas, wr.picked);
    AllLiveAgree(w.store, now.store, wr.picked);
    NotActive(w.metas, wr.newId);
    read, uploaded, listed, published, removed := LateMergeMoves(keep, w, meta);
  }

  lemma LateMergeMoves(keep: Filter, w: World, meta: SegmentMeta)
    returns (read: World, uploaded: World, listed: World, published: World, removed: World)
    requires w.sweep.NoSweep? && w.metas != [] && Enabled(w, UploadMerge) && w.writer.newId !in ActiveIds(w.metas)
    requires meta.id == w.writer.newId && !meta.deleted && meta.delVersion == 0
    ensures Moves(keep, w, BeginSweep, read) && Moves(keep, read, UploadMerge, uploaded)
    ensures Moves(keep, uploaded, ListSweep, listed) && Moves(keep, listed, PublishMerge(meta), published)
    ensures Moves(keep, published, RemoveSeg(meta.id), removed)
    ensures removed.store == WithoutSeg(Uploaded(w.store, meta.id, w.writer.merged.value), meta.id)
    ensures removed.metas == Changed(MergeChange(w.writer.(uploaded := true), meta), w.metas)
  {
    read := Apply(keep, w, BeginSweep);
    uploaded := Apply(keep, read, UploadMerge);
    listed := Apply(keep, uploaded, ListSweep);
    ListedAll(uploaded.store, ActiveIds(w.metas), meta.id);
    published, removed := PublishedAndRemoved(keep, listed, meta);
  }

  lemma PublishedAndRemoved(keep: Filter, w: World, meta: SegmentMeta) returns (published: World, removed: World)
    requires Enabled(w, PublishMerge(meta)) && w.sweep.Removing? && meta.id in w.sweep.segs
    ensures Moves(keep, w, PublishMerge(meta), published) && Moves(keep, published, RemoveSeg(meta.id), removed)
    ensures removed.store == WithoutSeg(w.store, meta.id)
    ensures removed.metas == Changed(MergeChange(w.writer, meta), w.metas)
  {
    published := Apply(keep, w, PublishMerge(meta));
    removed := Apply(keep, published, RemoveSeg(meta.id));
  }
}
