/** Two writers at once: merges and deletes by query that are not serialised with each other. */
module TwoWriters {
  import opened Bytes
  import opened Manifest
  import opened Visibility
  import opened Catalog
  import opened Conservation

  // ----- The machine -----

  /** A world whose writer is the first one, and a second writer on the same index. */
  datatype Duo = Duo(world: World, second: Writer)

  datatype DuoStep = First(s: Step) | Second(s: Step)

  function Other(d: Duo): World {
    d.world.(writer := d.second)
  }

  predicate IsWriterStep(s: Step) {
    || s.BeginMerge? || s.ReadMerge? || s.UploadMerge? || s.PublishMerge?
    || s.BeginDelete? || s.ReadDelete? || s.WriteDel? || s.PublishDelete? || s.AbandonWriter?
  }

  /** New ids are also new to the other writer. */
  ghost predicate FreshFor(wr: Writer, s: Step) {
    (s.BeginFlush? ==> s.id !in NewIds(wr)) && (s.BeginMerge? ==> s.newId !in NewIds(wr))
  }

  ghost predicate DuoEnabled(d: Duo, step: DuoStep) {
    match step
    case First(s) => Enabled(d.world, s) && FreshFor(d.second, s)
    case Second(s) => IsWriterStep(s) && Enabled(Other(d), s) && FreshFor(d.world.writer, s)
  }

  ghost function DuoApply(keep: Filter, d: Duo, step: DuoStep): Duo
    requires DuoEnabled(d, step)
  {
    match step
    case First(s) => Duo(Apply(keep, d.world, s), if s.Crash? then Idle else d.second)
    case Second(s) =>
      var w := Apply(keep, Other(d), s);
      Duo(w.(writer := d.world.writer), w.writer)
  }

  /** The other writer is idle when this one publishes, and its bitmaps are not overwritten. */
  ghost predicate Serialised(wr: Writer, s: Step) {
    && (s.WriteDel? ==> wr.Deleting? ==> s.id !in wr.written)
    && (s.PublishMerge? || s.PublishDelete? ==> wr.Idle?)
    && (s.BeginSweep? ==> wr.Merging? ==> !wr.uploaded)
  }

  ghost predicate DuoCareful(d: Duo, step: DuoStep) {
    match step
    case First(s) => Careful(d.world, s) && Serialised(d.second, s)
    case Second(s) => Careful(Other(d), s) && Serialised(d.world.writer, s)
  }

  /** Two merges upload under different ids. */
  ghost predicate OwnIds(a: Writer, b: Writer) {
    a.Merging? && b.Merging? ==> a.newId != b.newId
  }

  ghost predicate DuoInv(keep: Filter, d: Duo) {
    Inv(keep, d.world) && Inv(keep, Other(d)) && OwnIds(d.world.writer, d.second)
  }

  /** What one writer does, the other does not notice. */
  lemma OtherKeeps(keep: Filter, w: World, other: Writer, s: Step)
    requires Inv(keep, w) && Inv(keep, w.(writer := other)) && OwnIds(w.writer, other)
    requires Enabled(w, s) && FreshFor(other, s) && Careful(w, s) && Serialised(other, s)
    ensures Inv(keep, Apply(keep, w, s).(writer := if s.Crash? then Idle else other))
  {
    if s.UploadMerge? {
      UploadMergeKeeps(keep, w);
      WriterSeesUpload(keep, w.store, w.metas, other, w.writer.newId, w.writer.merged.value);
    } else if s.WriteDel? {
      OtherSeesDel(keep, w, other, s.id);
    } else if IsWriterStep(s) || s.Crash? {
      StepKeeps(keep, w, s);
    } else {
      SharedStep(keep, w, other, s);
    }
  }

  /** Flushes and collections are steps of either world. */
  lemma SharedStep(keep: Filter, w: World, other: Writer, s: Step)
    requires Inv(keep, w.(writer := other)) && !IsWriterStep(s) && !s.Crash?
    requires Enabled(w, s) && FreshFor(other, s) && Careful(w, s) && Serialised(other, s)
    ensures Inv(keep, Apply(keep, w, s).(writer := other))
  {
    var v := w.(writer := other);
    assert Enabled(v, s) && Careful(v, s);
    StepKeeps(keep, v, s);
    assert Apply(keep, v, s) == Apply(keep, w, s).(writer := other);
  }

  lemma OtherSeesDel(keep: Filter, w: World, other: Writer, id: string)
    requires Inv(keep, w) && Inv(keep, w.(writer := other)) && Enabled(w, WriteDel(id))
    requires other.Deleting? ==> id !in other.written
    ensures Inv(keep, Apply(keep, w, WriteDel(id)).(writer := other))
  {
    var wr := w.writer;
    var st := DelWritten(w.store, DelTarget(wr, id), wr.plan.value[id]);
    WriteDelKeeps(keep, w, id);
    var i := IdOf(wr.base, id);
    var k := PickedAt(w.metas, wr.base, i);
    IdIn(w.metas, k);
    if other.Deleting? && other.plan.Some? {
      OtherBitmaps(w.store, other.base, other.plan.value, other.written, DelTarget(wr, id), wr.plan.value[id]);
    }
    WriterKept(keep, w.store, st, w.metas, other);
  }

  /** Bitmaps of other segments stay. */
  lemma OtherBitmaps(st: Store, base: seq<SegmentMeta>, plan: map<string, set<u32>>, written: set<string>, k: DelKey,
                     bm: set<u32>)
    requires written <= plan.Keys && k.id !in written
    requires forall i | 0 <= i < |base| && base[i].id in written :: BitmapWritten(st, base[i], plan[base[i].id])
    ensures forall i | 0 <= i < |base| && base[i].id in written ::
              BitmapWritten(DelWritten(st, k, bm), base[i], plan[base[i].id])
  {
    forall i | 0 <= i < |base| && base[i].id in written
      ensures BitmapWritten(DelWritten(st, k, bm), base[i], plan[base[i].id])
    {
      assert BitmapWritten(st, base[i], plan[base[i].id]);
    }
  }

  lemma DuoStepKeeps(keep: Filter, d: Duo, step: DuoStep)
    requires DuoInv(keep, d) && DuoEnabled(d, step) && DuoCareful(d, step)
    ensures DuoInv(keep, DuoApply(keep, d, step))
  {
    match step
    case First(s) =>
      StepKeeps(keep, d.world, s);
      OtherKeeps(keep, d.world, d.second, s);
    case Second(s) =>
      StepKeeps(keep, Other(d), s);
      OtherKeeps(keep, Other(d), d.world.writer, s);
      assert Other(d).(writer := d.world.writer) == d.world;
  }
}
