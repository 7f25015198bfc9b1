/**
 * Ingest and catalog together: a flush publishes what its snapshot held, and from then on merges, deletes and
 * collections of the catalog decide what stays visible.
 */
module EndToEnd {
  import opened Bytes
  import opened Sequences
  import opened Manifest
  import opened Visibility
  import opened Catalog
  import opened Conservation
  import opened Merging
  import opened Dedup
  import I = Ingest
  import D = Durability
  import WalLog

  /** Two histories: what published deletes removed, and what published merges dropped for a copy with the same id. */
  datatype State = State(ingest: I.State, world: World, deleted: multiset<Doc>, replaced: multiset<Doc>)

  datatype Step =
    | Local(ing: I.Step)
    | Remote(cat: Catalog.Step)
    | Publish(i: nat, job: nat, meta: SegmentMeta)
    | Crash(writing: seq<bytes>, cut: nat)

  ghost predicate Enabled(e: I.Engine, s: State, step: Step) {
    match step
    case Local(ing) => I.Enabled(e, s.ingest, ing) && !ing.Publish? && !ing.Crash?
    case Remote(cat) => Catalog.Enabled(s.world, cat) && !cat.PublishFlush? && !cat.Crash?
    case Publish(i, job, meta) =>
      && I.Enabled(e, s.ingest, I.Publish(i)) && Catalog.Enabled(s.world, PublishFlush(job, meta))
      && s.world.flushes[job].docs == s.ingest.flights[i].snap
    case Crash(writing, cut) => I.Enabled(e, s.ingest, I.Crash(writing, cut))
  }

  /** The hits of a test in several segments. */
  ghost function HitsOf(st: Store, p: Test, base: seq<SegmentMeta>): multiset<Doc> {
    if base == [] then multiset{}
    else HitsOf(st, p, base[..|base| - 1]) + multiset(HitDocs(st, base[|base| - 1], p))
  }

  ghost function NowDeleted(w: World, cat: Catalog.Step): multiset<Doc>
    requires Catalog.Enabled(w, cat)
  {
    if cat.PublishDelete? then HitsOf(w.store, w.writer.test, w.writer.base) else multiset{}
  }

  ghost function NowReplaced(w: World, cat: Catalog.Step): multiset<Doc>
    requires Catalog.Enabled(w, cat)
  {
    if cat.PublishMerge? then multiset(AllLive(w.store, w.writer.picked)) - multiset(w.writer.merged.value)
    else multiset{}
  }

  ghost function Apply(e: I.Engine, keep: Filter, s: State, step: Step): State
    requires Enabled(e, s, step)
  {
    match step
    case Local(ing) => s.(ingest := I.Apply(e, s.ingest, ing))
    case Remote(cat) =>
      State(s.ingest, Catalog.Apply(keep, s.world, cat),
            s.deleted + NowDeleted(s.world, cat), s.replaced + NowReplaced(s.world, cat))
    case Publish(i, job, meta) =>
      s.(ingest := I.Apply(e, s.ingest, I.Publish(i)),
         world := Catalog.Apply(keep, s.world, PublishFlush(job, meta)))
    case Crash(writing, cut) =>
      s.(ingest := I.Apply(e, s.ingest, I.Crash(writing, cut)),
         world := Catalog.Apply(keep, s.world, Catalog.Crash))
  }

  ghost predicate Careful(e: I.Engine, s: State, step: Step) {
    match step
    case Local(ing) => I.Careful(e, s.ingest, ing)
    case Remote(cat) => Catalog.Careful(s.world, cat)
    case Publish(_, _, _) => true
    case Crash(writing, cut) => I.Careful(e, s.ingest, I.Crash(writing, cut))
  }

  /** A merge keeps some of the documents it reads. */
  ghost predicate Selects(keep: Filter) {
    forall ds: seq<Doc> {:trigger keep(ds)} :: multiset(keep(ds)) <= multiset(ds)
  }

  lemma {:induction false} DedupedWithin(idOf: IdOf, docs: seq<Doc>, seen: set<string>)
    ensures multiset(Deduped(idOf, docs, seen)) <= multiset(docs)
  {
    if docs != [] {
      var id, later := idOf(docs[0]), docs[1..];
      DedupedWithin(idOf, later, seen);
      DedupedWithin(idOf, later, seen + {id});
      assert docs == [docs[0]] + later;
    }
  }

  /** The merges of the code do. */
  lemma MergesSelect(idOf: IdOf)
    ensures Selects(KeepOf(idOf))
  {
    forall docs: seq<Doc>
      ensures multiset(KeepOf(idOf)(docs)) <= multiset(docs)
    {
      DedupedWithin(idOf, docs, {});
    }
  }

  // ----- The account -----

  /** What was published is visible, deleted or replaced, as often as it was published. */
  ghost predicate Accounted(s: State) {
    multiset(s.ingest.published) == Visible(s.world.store, s.world.metas) + s.deleted + s.replaced
  }

  lemma {:induction false} HitsCount(st: Store, p: Test, base: seq<SegmentMeta>, x: Doc)
    ensures HitsOf(st, p, base)[x] == Sum(HitCopies(st, p, x), base)
  {
    if base != [] {
      HitsCount(st, p, base[..|base| - 1], x);
    }
  }

  /** What a step of the catalog adds to the histories, it takes from what is visible. */
  lemma RemoteBalances(keep: Filter, w: World, cat: Catalog.Step)
    requires Selects(keep) && Catalog.Inv(keep, w) && Catalog.Enabled(w, cat) && Catalog.Careful(w, cat)
    requires !cat.PublishFlush?
    ensures var w' := Catalog.Apply(keep, w, cat);
            Visible(w.store, w.metas) == Visible(w'.store, w'.metas) + NowDeleted(w, cat) + NowReplaced(w, cat)
  {
    var w' := Catalog.Apply(keep, w, cat);
    forall x: Doc
      ensures Visible(w.store, w.metas)[x]
           == Visible(w'.store, w'.metas)[x] + NowDeleted(w, cat)[x] + NowReplaced(w, cat)[x]
    {
      StepShows(keep, w, cat, x);
      Counted(keep, w, cat, x);
    }
  }

  lemma Counted(keep: Filter, w: World, cat: Catalog.Step, x: Doc)
    requires Selects(keep) && Catalog.Inv(keep, w) && Catalog.Enabled(w, cat) && !cat.PublishFlush?
    ensures Added(w, cat, x) + NowDeleted(w, cat)[x] + NowReplaced(w, cat)[x] == Taken(w, cat, x)
  {
    if cat.PublishDelete? {
      HitsCount(w.store, w.writer.test, w.writer.base, x);
    }
    if cat.PublishMerge? {
      var all := AllLive(w.store, w.writer.picked);
      assert w.writer.merged.value == keep(all);
    }
  }

  ghost predicate Inv(e: I.Engine, keep: Filter, s: State, l: D.Ledger) {
    D.Inv(e, s.ingest, l) && Catalog.Inv(keep, s.world) && Accounted(s)
  }

  lemma LocalPublishesNothing(e: I.Engine, s: I.State, ing: I.Step)
    requires I.Enabled(e, s, ing) && !ing.Publish?
    ensures I.Apply(e, s, ing).published == s.published
  {
  }

  lemma LocalKeeps(e: I.Engine, keep: Filter, s: State, l: D.Ledger, ing: I.Step) returns (l': D.Ledger)
    requires I.Sane(e) && Inv(e, keep, s, l) && Enabled(e, s, Local(ing)) && Careful(e, s, Local(ing))
    ensures Inv(e, keep, Apply(e, keep, s, Local(ing)), l')
  {
    l' := D.StepKeeps(e, s.ingest, l, ing);
    LocalPublishesNothing(e, s.ingest, ing);
  }

  lemma RemoteKeeps(e: I.Engine, keep: Filter, s: State, l: D.Ledger, cat: Catalog.Step)
    requires Selects(keep) && Inv(e, keep, s, l) && Enabled(e, s, Remote(cat)) && Careful(e, s, Remote(cat))
    ensures Inv(e, keep, Apply(e, keep, s, Remote(cat)), l)
  {
    Conservation.StepKeeps(keep, s.world, cat);
    RemoteBalances(keep, s.world, cat);
  }

  lemma PublishKeeps(e: I.Engine, keep: Filter, s: State, l: D.Ledger, i: nat, job: nat, meta: SegmentMeta)
    returns (l': D.Ledger)
    requires I.Sane(e) && Inv(e, keep, s, l) && Enabled(e, s, Publish(i, job, meta))
    ensures Inv(e, keep, Apply(e, keep, s, Publish(i, job, meta)), l')
  {
    l' := D.StepKeeps(e, s.ingest, l, I.Publish(i));
    Conservation.StepKeeps(keep, s.world, PublishFlush(job, meta));
    PublishAccounts(e, keep, s, i, job, meta);
  }

  /** What publishing changes of the account. */
  lemma PublishedBoth(e: I.Engine, keep: Filter, s: State, i: nat, job: nat, meta: SegmentMeta)
    requires Enabled(e, s, Publish(i, job, meta))
    ensures var s' := Apply(e, keep, s, Publish(i, job, meta));
            && s'.ingest.published == s.ingest.published + s.ingest.flights[i].snap
            && s'.world.store == s.world.store && s'.world.metas == s.world.metas + [meta]
            && s'.deleted == s.deleted && s'.replaced == s.replaced
  {
    var f := s.ingest.flights[i];
    assert I.Apply(e, s.ingest, I.Publish(i)) == I.AfterPublish(s.ingest, i);
  }

  lemma PublishAccounts(e: I.Engine, keep: Filter, s: State, i: nat, job: nat, meta: SegmentMeta)
    requires Catalog.Inv(keep, s.world) && Accounted(s) && Enabled(e, s, Publish(i, job, meta))
    ensures Accounted(Apply(e, keep, s, Publish(i, job, meta)))
  {
    var snap := s.ingest.flights[i].snap;
    PublishedBoth(e, keep, s, i, job, meta);
    PublishFlushKeeps(keep, s.world, job, meta);
    BagOfConcat(s.ingest.published, snap);
    JoinsFirst(Visible(s.world.store, s.world.metas), s.deleted, s.replaced, multiset(snap));
  }

  lemma CrashKeeps(e: I.Engine, keep: Filter, s: State, l: D.Ledger, writing: seq<bytes>, cut: nat)
    returns (l': D.Ledger)
    requires I.Sane(e) && Inv(e, keep, s, l)
    requires Enabled(e, s, Step.Crash(writing, cut)) && Careful(e, s, Step.Crash(writing, cut))
    ensures Inv(e, keep, Apply(e, keep, s, Step.Crash(writing, cut)), l')
  {
    l' := D.StepKeeps(e, s.ingest, l, I.Crash(writing, cut));
    LocalPublishesNothing(e, s.ingest, I.Crash(writing, cut));
    Conservation.StepKeeps(keep, s.world, Catalog.Crash);
  }

  lemma StepKeeps(e: I.Engine, keep: Filter, s: State, l: D.Ledger, step: Step) returns (l': D.Ledger)
    requires I.Sane(e) && Selects(keep) && Inv(e, keep, s, l) && Enabled(e, s, step) && Careful(e, s, step)
    ensures Inv(e, keep, Apply(e, keep, s, step), l')
  {
    l' := l;
    match step
    case Local(ing) => l' := LocalKeeps(e, keep, s, l, ing);
    case Remote(cat) => RemoteKeeps(e, keep, s, l, cat);
    case Publish(i, job, meta) => l' := PublishKeeps(e, keep, s, l, i, job, meta);
    case Crash(writing, cut) => l' := CrashKeeps(e, keep, s, l, writing, cut);
  }

  // ----- Runs -----

  ghost predicate Run(e: I.Engine, keep: Filter, states: seq<State>, steps: seq<Step>) {
    && |states| == |steps| + 1
    && states[0] == State(I.Initial, World(Store(map[], map[]), [], map[], Idle, NoSweep), multiset{}, multiset{})
    && forall i | 0 <= i < |steps| ::
         && Enabled(e, states[i], steps[i]) && Careful(e, states[i], steps[i])
         && states[i + 1] == Apply(e, keep, states[i], steps[i])
  }

  lemma RunKeeps(e: I.Engine, keep: Filter, states: seq<State>, steps: seq<Step>, n: nat) returns (l: D.Ledger)
    requires I.Sane(e) && Selects(keep) && Run(e, keep, states, steps) && n <= |steps|
    ensures Inv(e, keep, states[n], l)
  {
    l := D.Ledger([], 0);
    assert states[0].ingest.published == [];
    for i := 0 to n
      invariant Inv(e, keep, states[i], l)
    {
      l := StepKeeps(e, keep, states[i], l, steps[i]);
    }
  }

  /**
   * In every careful run, however ingest, flushes, merges, deletes, collections and crashes interleave: the
   * acknowledged documents are published or replayable, and the published ones are visible, deleted or replaced.
   */
  lemma NothingVanishes(e: I.Engine, keep: Filter, states: seq<State>, steps: seq<Step>, n: nat)
    requires I.Sane(e) && Selects(keep) && Run(e, keep, states, steps) && n <= |steps|
    ensures I.Durable(e, states[n].ingest) && Accounted(states[n])
  {
    var l := RunKeeps(e, keep, states, steps, n);
    WalLog.RecordsOfFrames(e.crc, l.recs);
  }

  /** Where one acknowledged document is, up to the whitespace that compaction of JSON removes. */
  lemma AcknowledgedIsSomewhere(e: I.Engine, keep: Filter, states: seq<State>, steps: seq<Step>, n: nat, a: Doc)
    requires I.Sane(e) && Selects(keep) && Run(e, keep, states, steps) && n <= |steps|
    requires a in states[n].ingest.acked
    ensures var s := states[n];
            && |s.ingest.file| >= WalLog.HEADER_SIZE
            && (|| I.Norm(e, a) in I.Replayable(e, s.ingest.file)
                || exists x: Doc ::
                     && I.Norm(e, x) == I.Norm(e, a)
                     && (x in Visible(s.world.store, s.world.metas) || x in s.deleted || x in s.replaced))
  {
    NothingVanishes(e, keep, states, steps, n);
    var s := states[n];
    var k :| 0 <= k < |s.ingest.acked| && s.ingest.acked[k] == a;
    assert I.NormAll(e, s.ingest.acked)[k] == I.Norm(e, a);
    assert I.Norm(e, a) in I.Bag(e, s.ingest.acked);
    if I.Norm(e, a) !in I.Replayable(e, s.ingest.file) {
      assert I.Norm(e, a) in I.Bag(e, s.ingest.published);
      var j :| 0 <= j < |s.ingest.published| && I.NormAll(e, s.ingest.published)[j] == I.Norm(e, a);
      assert s.ingest.published[j] in multiset(s.ingest.published);
    }
  }
}
