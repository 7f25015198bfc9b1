/** What every step of the catalog keeps, and which steps change the visible documents. */
module Conservation {
  import opened Bytes
  import opened Sequences
  import opened Manifest
  import opened Visibility
  import opened Catalog

  // ----- Changes to the store that no active segment notices -----

  /** What a writer has read stays true as long as the active segments' objects do. */
  lemma WriterKept(keep: Filter, st: Store, st': Store, metas: seq<SegmentMeta>, wr: Writer)
    requires WriterOk(keep, st, metas, wr) && Agree(st, st', metas)
    requires wr.Merging? ==> Pending(st', wr.newId, wr.uploaded, Merged(wr))
    requires wr.Deleting? && wr.plan.Some? ==>
               forall i | 0 <= i < |wr.base| && wr.base[i].id in wr.written ::
                 BitmapWritten(st', wr.base[i], wr.plan.value[wr.base[i].id])
    ensures WriterOk(keep, st', metas, wr)
  {
    if wr.Merging? {
      PickedAgree(st, st', metas, wr.picked);
      AllLiveAgree(st, st', wr.picked);
    }
    if wr.Deleting? {
      PickedAgree(st, st', metas, wr.base);
      if wr.plan.Some? {
        PlannedAgree(st, st', wr.base, wr.test, wr.plan.value);
      }
    }
  }

  lemma UploadAgrees(st: Store, metas: seq<SegmentMeta>, id: string, docs: seq<Doc>)
    requires Backed(st, metas) && id !in IdsOf(metas)
    ensures Agree(st, Uploaded(st, id, docs), metas) && Backed(Uploaded(st, id, docs), metas)
  {
    forall i | 0 <= i < |metas|
      ensures metas[i].id != id
    {
      IdIn(metas, i);
    }
  }

  lemma UploadFlushKeeps(keep: Filter, w: World, job: nat)
    requires Inv(keep, w) && job in w.flushes && !w.sweep.Reading?
    ensures var f := w.flushes[job];
            var st := Uploaded(w.store, f.id, f.docs);
            && Inv(keep, w.(store := st, flushes := w.flushes[job := f.(uploaded := true)]))
            && Agree(w.store, st, w.metas)
  {
    var f := w.flushes[job];
    assert FlushOk(w.store, w.metas, f);
    UploadAgrees(w.store, w.metas, f.id, f.docs);
    WriterSeesUpload(keep, w.store, w.metas, w.writer, f.id, f.docs);
    FlushUploaded(w.store, w.metas, w.flushes, job);
    SameFlushIds(w.flushes, job, f.(uploaded := true));
  }

  lemma SameFlushIds(flushes: map<nat, Flush>, job: nat, f: Flush)
    requires job in flushes && f.id == flushes[job].id
    ensures FlushIds(flushes[job := f]) == FlushIds(flushes)
  {
    var now := flushes[job := f];
    assert forall j <- now :: now[j].id == flushes[j].id;
  }

  lemma WriterSeesUpload(keep: Filter, st: Store, metas: seq<SegmentMeta>, wr: Writer, id: string, docs: seq<Doc>)
    requires WriterOk(keep, st, metas, wr) && Agree(st, Uploaded(st, id, docs), metas)
    requires wr.Merging? ==> id != wr.newId
    ensures WriterOk(keep, Uploaded(st, id, docs), metas, wr)
  {
    var st' := Uploaded(st, id, docs);
    if wr.Deleting? && wr.plan.Some? {
      forall i | 0 <= i < |wr.base| && wr.base[i].id in wr.written
        ensures BitmapWritten(st', wr.base[i], wr.plan.value[wr.base[i].id])
      {
        assert BitmapWritten(st, wr.base[i], wr.plan.value[wr.base[i].id]);
      }
    }
    WriterKept(keep, st, st', metas, wr);
  }

  lemma FlushUploaded(st: Store, metas: seq<SegmentMeta>, flushes: map<nat, Flush>, job: nat)
    requires FlushesOk(st, metas, flushes) && job in flushes
    ensures var f := flushes[job];
            FlushesOk(Uploaded(st, f.id, f.docs), metas, flushes[job := f.(uploaded := true)])
  {
    var f := flushes[job];
    var st', now := Uploaded(st, f.id, f.docs), flushes[job := f.(uploaded := true)];
    forall j <- now
      ensures FlushOk(st', metas, now[j])
    {
      assert FlushOk(st, metas, flushes[j]);
    }
  }

  lemma UploadMergeKeeps(keep: Filter, w: World)
    requires Inv(keep, w) && !w.sweep.Reading?
    requires w.writer.Merging? && w.writer.merged.Some? && Countable(w.writer.merged.value)
    ensures var st := Uploaded(w.store, w.writer.newId, w.writer.merged.value);
            && Inv(keep, w.(store := st, writer := w.writer.(uploaded := true)))
            && Agree(w.store, st, w.metas)
  {
    var wr := w.writer;
    var st := Uploaded(w.store, wr.newId, wr.merged.value);
    UploadAgrees(w.store, w.metas, wr.newId, wr.merged.value);
    PickedAgree(w.store, st, w.metas, wr.picked);
    AllLiveAgree(w.store, st, wr.picked);
    FlushesSeeUpload(w.store, w.metas, w.flushes, wr.newId, wr.merged.value);
  }

  /** Another segment's upload is not a flush's own. */
  lemma FlushesSeeUpload(st: Store, metas: seq<SegmentMeta>, flushes: map<nat, Flush>, id: string, docs: seq<Doc>)
    requires FlushesOk(st, metas, flushes) && forall j <- flushes :: flushes[j].id != id
    ensures FlushesOk(Uploaded(st, id, docs), metas, flushes)
  {
    forall j <- flushes
      ensures FlushOk(Uploaded(st, id, docs), metas, flushes[j])
    {
      assert FlushOk(st, metas, flushes[j]);
    }
  }

  /** The file a delete writes is not the one in use. */
  lemma WriteDelAgrees(st: Store, metas: seq<SegmentMeta>, wr: Writer, id: string, i: nat)
    requires DistinctIds(metas) && Backed(st, metas) && wr.Deleting? && DeleteOk(st, metas, wr)
    requires wr.plan.Some? && id in wr.plan.value && i < |wr.base| && wr.base[i].id == id
    ensures DelTarget(wr, id) == DelKey(id, wr.base[i].delVersion + 1)
    ensures var st' := DelWritten(st, DelTarget(wr, id), wr.plan.value[id]);
            Agree(st, st', metas) && Backed(st', metas)
  {
    VersionAt(wr.base, wr.plan.value, i);
    var n := PickedAt(metas, wr.base, i);
    forall j | 0 <= j < |metas| && j != n
      ensures metas[j].id != metas[n].id
    {
    }
  }

  lemma WriteDelKeeps(keep: Filter, w: World, id: string)
    requires Inv(keep, w) && Enabled(w, WriteDel(id))
    ensures var st := DelWritten(w.store, DelTarget(w.writer, id), w.writer.plan.value[id]);
            && Inv(keep, w.(store := st, writer := w.writer.(written := w.writer.written + {id})))
            && Agree(w.store, st, w.metas)
  {
    var wr := w.writer;
    var i := IdOf(wr.base, id);
    var st := DelWritten(w.store, DelTarget(wr, id), wr.plan.value[id]);
    WriteDelAgrees(w.store, w.metas, wr, id, i);
    NowWritten(w.store, w.metas, wr, id, i);
    WriterKept(keep, w.store, st, w.metas, wr);
    var k := PickedAt(w.metas, wr.base, i);
    IdIn(w.metas, k);
    FlushesSeeDel(w.store, w.metas, w.flushes, DelTarget(wr, id), wr.plan.value[id]);
  }

  /** Flushed segments have no deletes before they are published. */
  lemma FlushesSeeDel(st: Store, metas: seq<SegmentMeta>, flushes: map<nat, Flush>, k: DelKey, bm: set<u32>)
    requires FlushesOk(st, metas, flushes) && k.id in IdsOf(metas)
    ensures FlushesOk(DelWritten(st, k, bm), metas, flushes)
  {
    forall j <- flushes
      ensures FlushOk(DelWritten(st, k, bm), metas, flushes[j])
    {
      assert FlushOk(st, metas, flushes[j]);
    }
  }

  lemma NowWritten(st: Store, metas: seq<SegmentMeta>, wr: Writer, id: string, i: nat)
    requires wr.Deleting? && DeleteOk(st, metas, wr) && wr.plan.Some? && id in wr.plan.value
    requires i < |wr.base| && wr.base[i].id == id && DelTarget(wr, id) == DelKey(id, wr.base[i].delVersion + 1)
    ensures var st' := DelWritten(st, DelTarget(wr, id), wr.plan.value[id]);
            forall j | 0 <= j < |wr.base| && wr.base[j].id in wr.written + {id} ::
              BitmapWritten(st', wr.base[j], wr.plan.value[wr.base[j].id])
  {
    var st' := DelWritten(st, DelTarget(wr, id), wr.plan.value[id]);
    forall j | 0 <= j < |wr.base| && wr.base[j].id in wr.written + {id}
      ensures BitmapWritten(st', wr.base[j], wr.plan.value[wr.base[j].id])
    {
      if j != i {
        assert wr.base[j].id != id;
        assert BitmapWritten(st, wr.base[j], wr.plan.value[wr.base[j].id]);
      }
    }
  }

  // ----- Collecting garbage -----

  lemma ActiveIn(metas: seq<SegmentMeta>, i: nat)
    requires DistinctIds(metas) && i < |metas| && !metas[i].deleted
    ensures metas[i].id in ActiveIds(metas)
  {
    ActiveArePicked(metas);
    assert metas[i] in ActiveSegments(metas);
  }

  lemma ActiveAt(metas: seq<SegmentMeta>, id: string) returns (k: nat)
    requires DistinctIds(metas) && id in ActiveIds(metas)
    ensures k < |metas| && metas[k].id == id && !metas[k].deleted
  {
    ActiveArePicked(metas);
    var i := IdOf(ActiveSegments(metas), id);
    k := PickedAt(metas, ActiveSegments(metas), i);
  }

  /** A store that differs only in objects of segments that are not active. */
  ghost predicate Spares(st: Store, st': Store, ids: set<string>) {
    && (forall id <- ids :: id in st.segs ==> id in st'.segs && st'.segs[id] == st.segs[id])
    && (forall k <- st.dels :: k.id in ids ==> k in st'.dels && st'.dels[k] == st.dels[k])
    && st'.segs.Keys <= st.segs.Keys && st'.dels.Keys <= st.dels.Keys
  }

  lemma SparesAgree(st: Store, st': Store, metas: seq<SegmentMeta>)
    requires DistinctIds(metas) && Backed(st, metas) && Spares(st, st', ActiveIds(metas))
    ensures Agree(st, st', metas) && Backed(st', metas)
  {
    forall i | 0 <= i < |metas| && !metas[i].deleted
      ensures metas[i].id in ActiveIds(metas)
    {
      ActiveIn(metas, i);
    }
  }

  lemma WriterSpared(keep: Filter, st: Store, st': Store, metas: seq<SegmentMeta>, wr: Writer)
    requires DistinctIds(metas) && Backed(st, metas) && WriterOk(keep, st, metas, wr)
    requires Spares(st, st', ActiveIds(metas))
    requires wr.Merging? && wr.uploaded ==> wr.newId in st'.segs && st'.segs[wr.newId] == st.segs[wr.newId]
    ensures WriterOk(keep, st', metas, wr)
  {
    SparesAgree(st, st', metas);
    if wr.Deleting? && wr.plan.Some? {
      forall i | 0 <= i < |wr.base| && wr.base[i].id in wr.written
        ensures BitmapWritten(st', wr.base[i], wr.plan.value[wr.base[i].id])
      {
        assert BitmapWritten(st, wr.base[i], wr.plan.value[wr.base[i].id]);
        var k := PickedAt(metas, wr.base, i);
        ActiveIn(metas, k);
      }
    }
    WriterKept(keep, st, st', metas, wr);
  }

  /** A segment whose object somebody still needs. */
  ghost predicate Needed(w: World, id: string) {
    || id in ActiveIds(w.metas)
    || (exists j <- w.flushes :: w.flushes[j].uploaded && w.flushes[j].id == id)
    || (w.writer.Merging? && w.writer.uploaded && w.writer.newId == id)
  }

  lemma FlushesSpared(st: Store, st': Store, metas: seq<SegmentMeta>, flushes: map<nat, Flush>)
    requires FlushesOk(st, metas, flushes) && st'.segs.Keys <= st.segs.Keys && st'.dels.Keys <= st.dels.Keys
    requires forall j <- flushes :: flushes[j].uploaded ==>
               flushes[j].id in st'.segs && st'.segs[flushes[j].id] == st.segs[flushes[j].id]
    ensures FlushesOk(st', metas, flushes)
  {
    forall j <- flushes
      ensures FlushOk(st', metas, flushes[j])
    {
      assert FlushOk(st, metas, flushes[j]);
    }
  }

  /** Removing the object of one segment does no harm if and only if nobody needs it. */
  lemma RemoveSegSafeIff(keep: Filter, w: World, id: string)
    requires Inv(keep, w) && id in w.store.segs
    ensures Inv(keep, w.(store := WithoutSeg(w.store, id))) <==> !Needed(w, id)
  {
    var st := WithoutSeg(w.store, id);
    if !Needed(w, id) {
      SparesAgree(w.store, st, w.metas);
      WriterSpared(keep, w.store, st, w.metas, w.writer);
      FlushesSpared(w.store, st, w.metas, w.flushes);
    } else if id in ActiveIds(w.metas) {
      var k := ActiveAt(w.metas, id);
    } else if j :| j in w.flushes && w.flushes[j].uploaded && w.flushes[j].id == id {
      assert !FlushOk(st, w.metas, w.flushes[j]);
    }
  }

  /** A delete bitmap in use, or written for a delete that will publish. */
  ghost predicate DelNeeded(w: World, k: DelKey) {
    || (exists i | 0 <= i < |w.metas| :: !w.metas[i].deleted && k == DelKey(w.metas[i].id, w.metas[i].delVersion)
                                         && k.version > 0)
    || (w.writer.Deleting? && k.id in w.writer.written
        && exists i | 0 <= i < |w.writer.base| ::
             k == DelKey(w.writer.base[i].id, w.writer.base[i].delVersion + 1))
  }

  /** A bitmap that no active segment uses can go. */
  lemma UnusedDel(st: Store, metas: seq<SegmentMeta>, k: DelKey)
    requires Backed(st, metas)
    requires forall i | 0 <= i < |metas| && !metas[i].deleted ::
               k != DelKey(metas[i].id, metas[i].delVersion) || k.version == 0
    ensures Agree(st, WithoutDel(st, k), metas) && Backed(WithoutDel(st, k), metas)
  {
  }

  lemma DelUnneeded(keep: Filter, w: World, k: DelKey)
    requires Inv(keep, w) && !DelNeeded(w, k)
    ensures Inv(keep, w.(store := WithoutDel(w.store, k)))
    ensures Agree(w.store, WithoutDel(w.store, k), w.metas)
  {
    var st, wr := WithoutDel(w.store, k), w.writer;
    UnusedDel(w.store, w.metas, k);
    if wr.Deleting? && wr.plan.Some? {
      forall i | 0 <= i < |wr.base| && wr.base[i].id in wr.written
        ensures BitmapWritten(st, wr.base[i], wr.plan.value[wr.base[i].id])
      {
        assert BitmapWritten(w.store, wr.base[i], wr.plan.value[wr.base[i].id]);
      }
    }
    WriterKept(keep, w.store, st, w.metas, wr);
    FlushesSpared(w.store, st, w.metas, w.flushes);
  }

  /** Removing one delete bitmap does no harm if and only if it is neither in use nor about to be. */
  lemma RemoveDelSafeIff(keep: Filter, w: World, k: DelKey)
    requires Inv(keep, w)
    ensures Inv(keep, w.(store := WithoutDel(w.store, k))) <==> !DelNeeded(w, k)
  {
    var st, wr := WithoutDel(w.store, k), w.writer;
    if !DelNeeded(w, k) {
      DelUnneeded(keep, w, k);
    } else if i :| 0 <= i < |w.metas| && !w.metas[i].deleted && k == DelKey(w.metas[i].id, w.metas[i].delVersion)
                   && k.version > 0 {
      assert !Backed(st, w.metas);
    } else {
      var i :| 0 <= i < |wr.base| && k == DelKey(wr.base[i].id, wr.base[i].delVersion + 1);
      assert !BitmapWritten(st, wr.base[i], wr.plan.value[wr.base[i].id]);
      assert !DeleteOk(st, w.metas, wr);
    }
  }

  /** No bitmap of a segment that is not active is needed. */
  lemma InactiveUnneeded(keep: Filter, w: World, k: DelKey)
    requires Inv(keep, w) && k.id !in ActiveIds(w.metas)
    ensures !DelNeeded(w, k)
  {
    forall i | 0 <= i < |w.metas| && !w.metas[i].deleted
      ensures w.metas[i].id != k.id
    {
      ActiveIn(w.metas, i);
    }
    if w.writer.Deleting? {
      forall i | 0 <= i < |w.writer.base|
        ensures w.writer.base[i].id != k.id
      {
        var n := PickedAt(w.metas, w.writer.base, i);
      }
    }
  }

  /** A whole collection at one moment does no harm if and only if no uploaded segment awaits its manifest. */
  lemma CollectSafeIff(keep: Filter, w: World)
    requires Inv(keep, w)
    ensures Inv(keep, w.(store := Collected(w.store, w.metas))) <==> NothingPending(w.flushes, w.writer)
  {
    var st := Collected(w.store, w.metas);
    if NothingPending(w.flushes, w.writer) {
      SparesAgree(w.store, st, w.metas);
      WriterSpared(keep, w.store, st, w.metas, w.writer);
      FlushesSpared(w.store, st, w.metas, w.flushes);
    } else if j :| j in w.flushes && w.flushes[j].uploaded {
      NotActive(w.metas, w.flushes[j].id);
      assert !FlushOk(st, w.metas, w.flushes[j]);
    } else {
      NotActive(w.metas, w.writer.newId);
    }
  }

  lemma NotActive(metas: seq<SegmentMeta>, id: string)
    requires DistinctIds(metas) && id !in IdsOf(metas)
    ensures id !in ActiveIds(metas)
  {
    if id in ActiveIds(metas) {
      var k := ActiveAt(metas, id);
      IdIn(metas, k);
    }
  }

  /** Removing what was listed is not noticed. */
  lemma RemoveKeeps(keep: Filter, w: World, s: Step)
    requires Inv(keep, w) && Enabled(w, s) && (s.RemoveSeg? || s.RemoveDel?)
    ensures Inv(keep, Apply(keep, w, s)) && Agree(w.store, Apply(keep, w, s).store, w.metas)
  {
    if s.RemoveSeg? {
      if s.id in w.store.segs {
        RemoveSegSafeIff(keep, w, s.id);
        SparesAgree(w.store, WithoutSeg(w.store, s.id), w.metas);
      } else {
        assert WithoutSeg(w.store, s.id) == w.store;
      }
    } else {
      assert s.key.id in DelIds(w.sweep.dels);
      InactiveUnneeded(keep, w, s.key);
      DelUnneeded(keep, w, s.key);
    }
  }

  /** What becomes active was active or is new. */
  lemma ActiveWithin(metas': seq<SegmentMeta>, ids: set<string>)
    requires DistinctIds(metas') && forall i | 0 <= i < |metas'| :: !metas'[i].deleted ==> metas'[i].id in ids
    ensures ActiveIds(metas') <= ids
  {
    forall id <- ActiveIds(metas')
      ensures id in ids
    {
      var k := ActiveAt(metas', id);
    }
  }

  lemma SweepSeesFlush(metas: seq<SegmentMeta>, flushes: map<nat, Flush>, wr: Writer, sw: Sweep, job: nat,
                       m: SegmentMeta)
    requires DistinctIds(metas + [m]) && DistinctIds(metas) && SweepOk(metas, flushes, wr, sw)
    requires job in flushes && flushes[job].uploaded && m.id == flushes[job].id
    ensures SweepOk(metas + [m], flushes - {job}, wr, sw)
  {
    AppendedActive(metas, m);
    assert m.id in FlushIds(flushes);
    assert FlushIds(flushes - {job}) <= FlushIds(flushes);
  }

  /** A writer publishes: at most its new segment becomes active. */
  lemma SweepSeesWriter(metas: seq<SegmentMeta>, metas': seq<SegmentMeta>, flushes: map<nat, Flush>, wr: Writer,
                        sw: Sweep)
    requires SweepOk(metas, flushes, wr, sw)
    requires ActiveIds(metas') <= ActiveIds(metas) + if wr.Merging? && wr.uploaded then {wr.newId} else {}
    ensures SweepOk(metas', flushes, Idle, sw)
  {
  }

  lemma MarkedActive(metas: seq<SegmentMeta>, ids: set<string>)
    requires DistinctIds(metas) && DistinctIds(MarkDeleted(metas, ids))
    ensures ActiveIds(MarkDeleted(metas, ids)) <= ActiveIds(metas)
  {
    var marked := MarkDeleted(metas, ids);
    forall i | 0 <= i < |marked| && !marked[i].deleted
      ensures marked[i].id in ActiveIds(metas)
    {
      ActiveIn(metas, i);
    }
    ActiveWithin(marked, ActiveIds(metas));
  }

  lemma AppendedActive(metas: seq<SegmentMeta>, m: SegmentMeta)
    requires DistinctIds(metas) && DistinctIds(metas + [m])
    ensures ActiveIds(metas + [m]) <= ActiveIds(metas) + {m.id}
  {
    forall i | 0 <= i < |metas| && !metas[i].deleted
      ensures metas[i].id in ActiveIds(metas)
    {
      ActiveIn(metas, i);
    }
    ActiveWithin(metas + [m], ActiveIds(metas) + {m.id});
  }

  lemma BumpedActive(metas: seq<SegmentMeta>, versions: map<string, nat>)
    requires DistinctIds(metas) && DistinctIds(Bumped(metas, versions))
    ensures ActiveIds(Bumped(metas, versions)) <= ActiveIds(metas)
  {
    var after := Bumped(metas, versions);
    forall i | 0 <= i < |after| && !after[i].deleted
      ensures after[i].id in ActiveIds(metas)
    {
      ActiveIn(metas, i);
    }
    ActiveWithin(after, ActiveIds(metas));
  }

  /** Listing finds nothing that is active, uploaded or about to be uploaded. */
  lemma ListKeeps(keep: Filter, w: World)
    requires Inv(keep, w) && w.sweep.Reading?
    ensures Inv(keep, w.(sweep := Garbage(w.store, w.sweep.protected)))
  {
    var sw := Garbage(w.store, w.sweep.protected);
    forall j <- w.flushes
      ensures w.flushes[j].id !in SweepIds(sw)
    {
      assert FlushOk(w.store, w.metas, w.flushes[j]);
    }
  }

  // ----- Publishing a flush -----

  lemma {:induction false} AllLiveWhenNew(docs: seq<Doc>, d: nat)
    requires d <= |docs|
    ensures LiveFrom(docs, {}, d) == docs[d..]
    decreases |docs| - d
  {
    if d < |docs| {
      AllLiveWhenNew(docs, d + 1);
    }
  }

  /** A new segment shows its documents. */
  lemma NewShows(st: Store, metas: seq<SegmentMeta>, m: SegmentMeta, docs: seq<Doc>)
    requires Holds(st, m.id, docs) && !m.deleted && m.delVersion == 0
    ensures Visible(st, metas + [m]) == Visible(st, metas) + multiset(docs)
  {
    AppendShows(st, metas, m);
    AllLiveWhenNew(docs, 0);
    assert docs[0..] == docs;
  }

  lemma AppendKeeps(st: Store, metas: seq<SegmentMeta>, m: SegmentMeta, docs: seq<Doc>)
    requires DistinctIds(metas) && Backed(st, metas) && m.id !in IdsOf(metas)
    requires Holds(st, m.id, docs) && m.delVersion == 0
    ensures DistinctIds(metas + [m]) && Backed(st, metas + [m])
  {
    forall i | 0 <= i < |metas|
      ensures metas[i].id != m.id
    {
      IdIn(metas, i);
    }
  }

  lemma WriterSeesAppend(keep: Filter, st: Store, metas: seq<SegmentMeta>, m: SegmentMeta, wr: Writer)
    requires WriterOk(keep, st, metas, wr) && (wr.Merging? ==> m.id != wr.newId)
    ensures WriterOk(keep, st, metas + [m], wr)
  {
    IdsAppended(metas, m);
    assert forall x | x in metas :: x in metas + [m];
  }

  lemma FlushesSeeAppend(st: Store, metas: seq<SegmentMeta>, flushes: map<nat, Flush>, job: nat, m: SegmentMeta)
    requires FlushesOk(st, metas, flushes) && job in flushes && m.id == flushes[job].id
    ensures FlushesOk(st, metas + [m], flushes - {job})
  {
    IdsAppended(metas, m);
  }

  lemma PublishFlushKeeps(keep: Filter, w: World, job: nat, meta: SegmentMeta)
    requires Inv(keep, w) && Enabled(w, PublishFlush(job, meta))
    ensures Inv(keep, w.(metas := w.metas + [meta], flushes := w.flushes - {job}))
    ensures Visible(w.store, w.metas + [meta]) == Visible(w.store, w.metas) + multiset(w.flushes[job].docs)
  {
    var f := w.flushes[job];
    assert FlushOk(w.store, w.metas, f);
    NewShows(w.store, w.metas, meta, f.docs);
    AppendKeeps(w.store, w.metas, meta, f.docs);
    WriterSeesAppend(keep, w.store, w.metas, meta, w.writer);
    FlushesSeeAppend(w.store, w.metas, w.flushes, job, meta);
    SweepSeesFlush(w.metas, w.flushes, w.writer, w.sweep, job, meta);
  }

  // ----- Publishing a merge -----

  lemma MarkKeeps(st: Store, metas: seq<SegmentMeta>, ids: set<string>)
    requires DistinctIds(metas) && Backed(st, metas)
    ensures DistinctIds(MarkDeleted(metas, ids)) && Backed(st, MarkDeleted(metas, ids))
    ensures IdsOf(MarkDeleted(metas, ids)) == IdsOf(metas)
  {
    var marked := MarkDeleted(metas, ids);
    forall id
      ensures id in IdsOf(marked) <==> id in IdsOf(metas)
    {
      if id in IdsOf(marked) {
        var i := IdOf(marked, id);
        IdIn(metas, i);
      }
      if id in IdsOf(metas) {
        var i := IdOf(metas, id);
        IdIn(marked, i);
      }
    }
  }

  lemma FlushesSee(st: Store, metas: seq<SegmentMeta>, metas': seq<SegmentMeta>, flushes: map<nat, Flush>)
    requires FlushesOk(st, metas, flushes) && forall j <- flushes :: flushes[j].id !in IdsOf(metas')
    ensures FlushesOk(st, metas', flushes)
  {
  }

  /** A merge replaces the live documents of its sources by what it kept of them. */
  lemma MergeShows(keep: Filter, w: World, meta: SegmentMeta, x: Doc)
    requires Inv(keep, w) && Enabled(w, PublishMerge(meta))
    ensures Visible(w.store, w.metas)[x] + multiset(w.writer.merged.value)[x]
         == Visible(w.store, Changed(MergeChange(w.writer, meta), w.metas))[x]
            + multiset(AllLive(w.store, w.writer.picked))[x]
  {
    var wr := w.writer;
    var ids := IdsOf(wr.picked);
    MarkingHides(w.store, w.metas, ids, x);
    PickedSum(Copies(w.store, x), w.metas, wr.picked);
    LiveSum(w.store, wr.picked, x);
    MergedShows(keep, w, meta);
  }

  /** Beside the segments that stay, the new one shows what the merge kept. */
  lemma MergedShows(keep: Filter, w: World, meta: SegmentMeta)
    requires Inv(keep, w) && Enabled(w, PublishMerge(meta))
    ensures Visible(w.store, Changed(MergeChange(w.writer, meta), w.metas))
         == Visible(w.store, MarkDeleted(w.metas, IdsOf(w.writer.picked))) + multiset(w.writer.merged.value)
  {
    if w.writer.merged != Some([]) {
      NewShows(w.store, MarkDeleted(w.metas, IdsOf(w.writer.picked)), meta, w.writer.merged.value);
    }
  }

  lemma PublishMergeKeeps(keep: Filter, w: World, meta: SegmentMeta)
    requires Inv(keep, w) && Enabled(w, PublishMerge(meta))
    ensures Inv(keep, w.(metas := Changed(MergeChange(w.writer, meta), w.metas), writer := Idle))
  {
    var wr := w.writer;
    var marked := MarkDeleted(w.metas, IdsOf(wr.picked));
    MarkKeeps(w.store, w.metas, IdsOf(wr.picked));
    MarkedActive(w.metas, IdsOf(wr.picked));
    if wr.merged == Some([]) {
      FlushesSee(w.store, w.metas, marked, w.flushes);
      SweepSeesWriter(w.metas, marked, w.flushes, wr, w.sweep);
    } else {
      assert Holds(w.store, wr.newId, wr.merged.value);
      AppendKeeps(w.store, marked, meta, wr.merged.value);
      AppendedActive(marked, meta);
      IdsAppended(marked, meta);
      FlushesSee(w.store, w.metas, marked + [meta], w.flushes);
      SweepSeesWriter(w.metas, marked + [meta], w.flushes, wr, w.sweep);
    }
  }

  // ----- Publishing a delete -----

  ghost function HitDocs(st: Store, m: SegmentMeta, p: Test): seq<Doc> {
    if Countable(Content(st, m.id)) then HitDocsFrom(Content(st, m.id), DelOf(st, m), p, 0) else []
  }

  /** How often a document is among a segment's hits, and how many hits there are. */
  ghost function HitCopies(st: Store, p: Test, x: Doc): Measure {
    (m: SegmentMeta) => multiset(HitDocs(st, m, p))[x]
  }

  ghost function HitCount(st: Store, p: Test): Measure {
    (m: SegmentMeta) => |Hits(st, m, p)|
  }

  function BumpedMeta(m: SegmentMeta, versions: map<string, nat>): SegmentMeta {
    if m.id in versions then m.(delVersion := versions[m.id]) else m
  }

  /** The bitmap in use before and after. */
  lemma DelBumped(st: Store, base: seq<SegmentMeta>, p: Test, plan: map<string, set<u32>>, i: nat)
    requires DistinctIds(base) && Planned(st, base, p, plan) && i < |base|
    requires base[i].id in plan ==> BitmapWritten(st, base[i], plan[base[i].id])
    ensures var m, m' := base[i], BumpedMeta(base[i], VersionsOf(base, plan));
            m'.id == m.id && m'.deleted == m.deleted && DelOf(st, m') == DelOf(st, m) + Hits(st, m, p)
  {
    VersionsExact(base, plan, base[i].id);
    if base[i].id in plan {
      VersionAt(base, plan, i);
    }
  }

  /** One segment the delete has read, before and after: the same query finds nothing more. */
  lemma BaseBumped(st: Store, base: seq<SegmentMeta>, p: Test, plan: map<string, set<u32>>, i: nat)
    requires DistinctIds(base) && Planned(st, base, p, plan) && i < |base| && !base[i].deleted
    requires Countable(Content(st, base[i].id))
    requires base[i].id in plan ==> BitmapWritten(st, base[i], plan[base[i].id])
    ensures var m, m' := base[i], BumpedMeta(base[i], VersionsOf(base, plan));
            && Shown(st, m) == Shown(st, m') + multiset(HitDocs(st, m, p))
            && |HitDocs(st, m, p)| == |Hits(st, m, p)| && Hits(st, m', p) == {}
  {
    DelBumped(st, base, p, plan, i);
    HitsLeave(Content(st, base[i].id), DelOf(st, base[i]), p);
  }

  /** In every segment of the manifest, the delete removes the hits if it has read the segment. */
  lemma MetaBumped(st: Store, metas: seq<SegmentMeta>, base: seq<SegmentMeta>, p: Test,
                   plan: map<string, set<u32>>, k: nat)
    requires DistinctIds(metas) && Backed(st, metas) && Picked(metas, base) && Planned(st, base, p, plan) && k < |metas|
    requires forall i | 0 <= i < |base| && base[i].id in plan :: BitmapWritten(st, base[i], plan[base[i].id])
    ensures var m, m' := metas[k], BumpedMeta(metas[k], VersionsOf(base, plan));
            if m.id in IdsOf(base) then
              Shown(st, m) == Shown(st, m') + multiset(HitDocs(st, m, p)) && |HitDocs(st, m, p)| == |Hits(st, m, p)|
            else m' == m
  {
    var m := metas[k];
    VersionsExact(base, plan, m.id);
    if m.id in IdsOf(base) {
      var i := IdOf(base, m.id);
      var n := PickedAt(metas, base, i);
      assert n == k;
      BaseBumped(st, base, p, plan, i);
    }
  }

  /** What a finished delete relies on. */
  ghost predicate ReadyToBump(st: Store, metas: seq<SegmentMeta>, base: seq<SegmentMeta>, p: Test,
                              plan: map<string, set<u32>>)
  {
    && DistinctIds(metas) && Backed(st, metas) && Picked(metas, base) && Planned(st, base, p, plan)
    && forall i | 0 <= i < |base| && base[i].id in plan :: BitmapWritten(st, base[i], plan[base[i].id])
  }

  lemma {:induction false} BumpShows(st: Store, metas: seq<SegmentMeta>, base: seq<SegmentMeta>, p: Test,
                                     plan: map<string, set<u32>>, n: nat, x: Doc)
    requires ReadyToBump(st, metas, base, p, plan) && n <= |metas|
    ensures var after := Bumped(metas, VersionsOf(base, plan));
            Visible(st, metas[..n])[x]
            == Visible(st, after[..n])[x] + SumIn(HitCopies(st, p, x), metas[..n], IdsOf(base))
  {
    if n > 0 {
      var after := Bumped(metas, VersionsOf(base, plan));
      BumpShows(st, metas, base, p, plan, n - 1, x);
      MetaBumped(st, metas, base, p, plan, n - 1);
      assert after[n - 1] == BumpedMeta(metas[n - 1], VersionsOf(base, plan));
      NextVisible(st, metas, n, x);
      NextVisible(st, after, n, x);
      NextSum(HitCopies(st, p, x), metas, IdsOf(base), n);
    }
  }

  lemma {:induction false} BumpCounts(st: Store, metas: seq<SegmentMeta>, base: seq<SegmentMeta>, p: Test,
                                      plan: map<string, set<u32>>, n: nat)
    requires ReadyToBump(st, metas, base, p, plan) && n <= |metas|
    ensures var after := Bumped(metas, VersionsOf(base, plan));
            |Visible(st, metas[..n])| == |Visible(st, after[..n])| + SumIn(HitCount(st, p), metas[..n], IdsOf(base))
  {
    if n > 0 {
      var after := Bumped(metas, VersionsOf(base, plan));
      BumpCounts(st, metas, base, p, plan, n - 1);
      MetaBumped(st, metas, base, p, plan, n - 1);
      assert after[n - 1] == BumpedMeta(metas[n - 1], VersionsOf(base, plan));
      NextVisible(st, metas, n, []);
      NextVisible(st, after, n, []);
      NextSum(HitCount(st, p), metas, IdsOf(base), n);
    }
  }

  lemma Ready(st: Store, metas: seq<SegmentMeta>, wr: Writer)
    requires DistinctIds(metas) && Backed(st, metas) && wr.Deleting? && DeleteOk(st, metas, wr)
    requires wr.plan.Some? && wr.written == wr.plan.value.Keys
    ensures ReadyToBump(st, metas, wr.base, wr.test, wr.plan.value)
  {
  }

  /** A published delete removes exactly the hits in the segments it read, as many as it counted. */
  lemma DeleteShows(keep: Filter, w: World, x: Doc)
    requires Inv(keep, w) && Enabled(w, PublishDelete)
    ensures var wr := w.writer;
            var after := Bumped(w.metas, VersionsOf(wr.base, wr.plan.value));
            && Visible(w.store, w.metas)[x]
               == Visible(w.store, after)[x] + Sum(HitCopies(w.store, wr.test, x), wr.base)
            && |Visible(w.store, w.metas)| == |Visible(w.store, after)| + Sum(HitCount(w.store, wr.test), wr.base)
  {
    Ready(w.store, w.metas, w.writer);
    WholeBumpShows(w.store, w.metas, w.writer.base, w.writer.test, w.writer.plan.value, x);
  }

  lemma WholeBumpShows(st: Store, metas: seq<SegmentMeta>, base: seq<SegmentMeta>, p: Test,
                       plan: map<string, set<u32>>, x: Doc)
    requires ReadyToBump(st, metas, base, p, plan)
    ensures var after := Bumped(metas, VersionsOf(base, plan));
            && Visible(st, metas)[x] == Visible(st, after)[x] + Sum(HitCopies(st, p, x), base)
            && |Visible(st, metas)| == |Visible(st, after)| + Sum(HitCount(st, p), base)
  {
    var after, n := Bumped(metas, VersionsOf(base, plan)), |metas|;
    Whole(metas);
    Whole(after);
    assert Visible(st, metas)[x] == Visible(st, after)[x] + Sum(HitCopies(st, p, x), base) by {
      BumpShows(st, metas, base, p, plan, n, x);
      PickedSum(HitCopies(st, p, x), metas, base);
    }
    assert |Visible(st, metas)| == |Visible(st, after)| + Sum(HitCount(st, p), base) by {
      BumpCounts(st, metas, base, p, plan, n);
      PickedSum(HitCount(st, p), metas, base);
    }
  }

  lemma BumpIds(metas: seq<SegmentMeta>, versions: map<string, nat>)
    ensures IdsOf(Bumped(metas, versions)) == IdsOf(metas)
  {
    var after := Bumped(metas, versions);
    forall id
      ensures id in IdsOf(after) <==> id in IdsOf(metas)
    {
      if id in IdsOf(after) {
        var i := IdOf(after, id);
        IdIn(metas, i);
      }
      if id in IdsOf(metas) {
        var i := IdOf(metas, id);
        IdIn(after, i);
      }
    }
  }

  lemma BumpKeeps(st: Store, metas: seq<SegmentMeta>, base: seq<SegmentMeta>, p: Test, plan: map<string, set<u32>>)
    requires ReadyToBump(st, metas, base, p, plan)
    ensures var after := Bumped(metas, VersionsOf(base, plan));
            DistinctIds(after) && Backed(st, after)
  {
    var vs := VersionsOf(base, plan);
    var after := Bumped(metas, vs);
    forall k | 0 <= k < |metas| && !after[k].deleted && metas[k].id in vs
      ensures DelKey(metas[k].id, vs[metas[k].id]) in st.dels
    {
      VersionsExact(base, plan, metas[k].id);
      var i := IdOf(base, metas[k].id);
      VersionAt(base, plan, i);
      assert BitmapWritten(st, base[i], plan[base[i].id]);
    }
  }

  lemma PublishDeleteKeeps(keep: Filter, w: World)
    requires Inv(keep, w) && Enabled(w, PublishDelete)
    ensures Inv(keep, w.(metas := Bumped(w.metas, VersionsOf(w.writer.base, w.writer.plan.value)), writer := Idle))
  {
    var wr := w.writer;
    var vs := VersionsOf(wr.base, wr.plan.value);
    BumpKeeps(w.store, w.metas, wr.base, wr.test, wr.plan.value);
    BumpIds(w.metas, vs);
    FlushesSee(w.store, w.metas, Bumped(w.metas, vs), w.flushes);
    BumpedActive(w.metas, vs);
    SweepSeesWriter(w.metas, Bumped(w.metas, vs), w.flushes, wr, w.sweep);
  }


  // ----- Runs -----

  lemma BeginFlushKeeps(keep: Filter, w: World, job: nat, id: string, docs: seq<Doc>)
    requires Inv(keep, w) && Enabled(w, BeginFlush(job, id, docs))
    ensures Inv(keep, w.(flushes := w.flushes[job := Flush(id, docs, false)]))
  {
    var now := w.flushes[job := Flush(id, docs, false)];
    forall j <- w.flushes
      ensures w.flushes[j].id != id
    {
      assert w.flushes[j].id in FlushIds(w.flushes);
    }
    NewPending(w.store, id);
    assert FlushIds(now) <= FlushIds(w.flushes) + {id};
  }

  /** A fresh id has no objects yet. */
  lemma NewPending(st: Store, id: string)
    requires id !in st.segs && id !in DelIds(st.dels.Keys)
    ensures Pending(st, id, false, [])
  {
    forall k <- st.dels
      ensures k.id != id
    {
      assert k.id in DelIds(st.dels.Keys);
    }
  }

  lemma BeginDeleteKeeps(keep: Filter, w: World, p: Test)
    requires Inv(keep, w) && w.writer.Idle?
    ensures Inv(keep, w.(writer := Deleting(ActiveSegments(w.metas), p, None, {})))
  {
    ActiveArePicked(w.metas);
  }

  lemma ReadDeleteKeeps(keep: Filter, w: World)
    requires Inv(keep, w) && Enabled(w, ReadDelete)
    ensures Inv(keep, w.(writer := w.writer.(plan := Some(PlanOf(w.store, w.writer.base, w.writer.test)))))
  {
    PlanIsPlanned(w.store, w.writer.base, w.writer.test);
  }

  lemma BeginMergeKeeps(keep: Filter, w: World, picked: seq<SegmentMeta>, newId: string)
    requires Inv(keep, w) && Enabled(w, BeginMerge(picked, newId))
    ensures Inv(keep, w.(writer := Merging(picked, newId, None, false)))
  {
    forall j <- w.flushes
      ensures w.flushes[j].id != newId
    {
      assert w.flushes[j].id in FlushIds(w.flushes);
    }
    NewPending(w.store, newId);
  }

  lemma AbandonFlushKeeps(keep: Filter, w: World, job: nat)
    requires Inv(keep, w)
    ensures Inv(keep, w.(flushes := w.flushes - {job}))
  {
    assert FlushIds(w.flushes - {job}) <= FlushIds(w.flushes);
  }

  /** Every careful step keeps the invariant. */
  lemma StepKeeps(keep: Filter, w: World, s: Step)
    requires Inv(keep, w) && Enabled(w, s) && Careful(w, s)
    ensures Inv(keep, Apply(keep, w, s))
  {
    match s
    case BeginFlush(job, id, docs) => BeginFlushKeeps(keep, w, job, id, docs);
    case UploadFlush(job) => UploadFlushKeeps(keep, w, job);
    case PublishFlush(job, meta) => PublishFlushKeeps(keep, w, job, meta);
    case BeginMerge(picked, newId) => BeginMergeKeeps(keep, w, picked, newId);
    case ReadMerge =>
    case UploadMerge => UploadMergeKeeps(keep, w);
    case PublishMerge(meta) => PublishMergeKeeps(keep, w, meta);
    case BeginDelete(test) => BeginDeleteKeeps(keep, w, test);
    case ReadDelete => ReadDeleteKeeps(keep, w);
    case WriteDel(id) => WriteDelKeeps(keep, w, id);
    case PublishDelete => PublishDeleteKeeps(keep, w);
    case AbandonFlush(job) => AbandonFlushKeeps(keep, w, job);
    case AbandonWriter =>
    case Crash =>
    case BeginSweep =>
    case ListSweep => ListKeeps(keep, w);
    case RemoveSeg(_) => RemoveKeeps(keep, w, s);
    case RemoveDel(_) => RemoveKeeps(keep, w, s);
    case EndSweep =>
  }

  ghost predicate Publishes(s: Step) {
    s.PublishFlush? || s.PublishMerge? || s.PublishDelete?
  }

  /** The objects of the active segments change only when a manifest is published. */
  lemma ObjectsStay(keep: Filter, w: World, s: Step)
    requires Inv(keep, w) && Enabled(w, s) && Careful(w, s) && !Publishes(s)
    ensures Apply(keep, w, s).metas == w.metas && Agree(w.store, Apply(keep, w, s).store, w.metas)
  {
    if s.UploadFlush? {
      UploadFlushKeeps(keep, w, s.job);
    } else if s.UploadMerge? {
      UploadMergeKeeps(keep, w);
    } else if s.WriteDel? {
      WriteDelKeeps(keep, w, s.id);
    } else if s.RemoveSeg? || s.RemoveDel? {
      RemoveKeeps(keep, w, s);
    }
  }

  /** Uploads, bitmap writes, crashes and collections change nothing that is visible. */
  lemma OnlyPublishingShows(keep: Filter, w: World, s: Step)
    requires Inv(keep, w) && Enabled(w, s) && Careful(w, s) && !Publishes(s)
    ensures Visible(Apply(keep, w, s).store, Apply(keep, w, s).metas) == Visible(w.store, w.metas)
  {
    ObjectsStay(keep, w, s);
    AgreeShowsSame(w.store, Apply(keep, w, s).store, w.metas);
  }

  /** How often a step adds a document and how often it removes it. */
  ghost function Added(w: World, s: Step, x: Doc): nat
    requires Enabled(w, s)
  {
    match s
    case PublishFlush(job, _) => multiset(w.flushes[job].docs)[x]
    case PublishMerge(_) => multiset(w.writer.merged.value)[x]
    case _ => 0
  }

  ghost function Taken(w: World, s: Step, x: Doc): nat
    requires Enabled(w, s)
  {
    match s
    case PublishMerge(_) => multiset(AllLive(w.store, w.writer.picked))[x]
    case PublishDelete => Sum(HitCopies(w.store, w.writer.test, x), w.writer.base)
    case _ => 0
  }

  ghost predicate Balanced(keep: Filter, w: World, s: Step, x: Doc)
    requires Enabled(w, s)
  {
    var w' := Apply(keep, w, s);
    Visible(w.store, w.metas)[x] + Added(w, s, x) == Visible(w'.store, w'.metas)[x] + Taken(w, s, x)
  }

  lemma FlushBalances(keep: Filter, w: World, job: nat, meta: SegmentMeta, x: Doc)
    requires Inv(keep, w) && Enabled(w, PublishFlush(job, meta))
    ensures Balanced(keep, w, PublishFlush(job, meta), x)
  {
    PublishFlushKeeps(keep, w, job, meta);
  }

  lemma MergeBalances(keep: Filter, w: World, meta: SegmentMeta, x: Doc)
    requires Inv(keep, w) && Enabled(w, PublishMerge(meta))
    ensures Balanced(keep, w, PublishMerge(meta), x)
  {
    MergeShows(keep, w, meta, x);
  }

  lemma DeleteBalances(keep: Filter, w: World, x: Doc)
    requires Inv(keep, w) && Enabled(w, PublishDelete)
    ensures Balanced(keep, w, PublishDelete, x)
  {
    DeleteApplied(keep, w);
    DeleteShows(keep, w, x);
  }

  lemma DeleteApplied(keep: Filter, w: World)
    requires Enabled(w, PublishDelete)
    ensures Apply(keep, w, PublishDelete).store == w.store
    ensures Apply(keep, w, PublishDelete).metas == Bumped(w.metas, VersionsOf(w.writer.base, w.writer.plan.value))
  {
  }

  /** What becomes visible, step by step. */
  lemma StepShows(keep: Filter, w: World, s: Step, x: Doc)
    requires Inv(keep, w) && Enabled(w, s) && Careful(w, s)
    ensures Balanced(keep, w, s, x)
  {
    if s.PublishFlush? {
      FlushBalances(keep, w, s.job, s.meta, x);
    } else if s.PublishMerge? {
      MergeBalances(keep, w, s.meta, x);
    } else if s.PublishDelete? {
      DeleteBalances(keep, w, x);
    } else {
      OnlyPublishingShows(keep, w, s);
    }
  }

  ghost predicate Run(keep: Filter, states: seq<World>, steps: seq<Step>) {
    && |states| == |steps| + 1
    && forall i | 0 <= i < |steps| ::
         && Enabled(states[i], steps[i]) && Careful(states[i], steps[i])
         && states[i + 1] == Apply(keep, states[i], steps[i])
  }

  ghost predicate Starts(w: World) {
    w == World(Store(map[], map[]), [], map[], Idle, NoSweep)
  }

  lemma RunKeeps(keep: Filter, states: seq<World>, steps: seq<Step>, n: nat)
    requires Run(keep, states, steps) && Starts(states[0]) && n < |states|
    ensures Inv(keep, states[n])
  {
    for i := 0 to n
      invariant Inv(keep, states[i])
    {
      StepKeeps(keep, states[i], steps[i]);
    }
  }

  /** Everything flushed and everything deleted in the first n steps of a run. */
  ghost function Flushed(states: seq<World>, steps: seq<Step>, n: nat, x: Doc): nat
    requires n <= |steps| < |states| && forall i | 0 <= i < |steps| :: Enabled(states[i], steps[i])
  {
    if n == 0 then 0
    else
      Flushed(states, steps, n - 1, x)
      + if steps[n - 1].PublishFlush? then Added(states[n - 1], steps[n - 1], x) else 0
  }

  ghost function Deleted(states: seq<World>, steps: seq<Step>, n: nat, x: Doc): nat
    requires n <= |steps| < |states| && forall i | 0 <= i < |steps| :: Enabled(states[i], steps[i])
  {
    if n == 0 then 0
    else
      Deleted(states, steps, n - 1, x)
      + if steps[n - 1].PublishDelete? then Taken(states[n - 1], steps[n - 1], x) else 0
  }

  /** Merging without an id field keeps every live document. */
  ghost predicate KeepsAll(keep: Filter) {
    forall ds: seq<Doc> {:trigger keep(ds)} :: keep(ds) == ds
  }

  /**
   * In every run, however flushes, merges, deletes, collections and crashes interleave, a document is visible
   * as often as published flushes brought it in and published deletes did not take it out.
   */
  lemma DocumentsConserved(keep: Filter, states: seq<World>, steps: seq<Step>, n: nat, x: Doc)
    requires Run(keep, states, steps) && Starts(states[0]) && KeepsAll(keep) && n < |states|
    ensures Visible(states[n].store, states[n].metas)[x] + Deleted(states, steps, n, x)
         == Flushed(states, steps, n, x)
  {
    for i := 0 to n
      invariant Visible(states[i].store, states[i].metas)[x] + Deleted(states, steps, i, x)
             == Flushed(states, steps, i, x)
    {
      RunKeeps(keep, states, steps, i);
      StepShows(keep, states[i], steps[i], x);
      MergeTakesWhatItAdds(keep, states[i], steps[i], x);
    }
  }

  lemma MergeTakesWhatItAdds(keep: Filter, w: World, s: Step, x: Doc)
    requires Inv(keep, w) && Enabled(w, s) && KeepsAll(keep)
    ensures s.PublishMerge? ==> Added(w, s, x) == Taken(w, s, x)
  {
  }
}
