/** The documents a manifest makes visible, given the objects it names. */
module Visibility {
  import opened Bytes
  import opened Sequences
  import opened Manifest
  import Segment

  type Doc = bytes

  /** A query, as far as it concerns one document. */
  type Test = Doc -> bool

  // ----- One segment -----

  /** The documents from number d on that are not deleted. */
  ghost function LiveFrom(docs: seq<Doc>, del: set<u32>, d: nat): seq<Doc>
    decreases |docs| - d
  {
    if d >= |docs| then [] else (if d in del then [] else [docs[d]]) + LiveFrom(docs, del, d + 1)
  }

  ghost function LiveDocs(docs: seq<Doc>, del: set<u32>): seq<Doc> {
    LiveFrom(docs, del, 0)
  }

  /** The live documents that satisfy a test, as numbers and as documents. */
  ghost function HitsFrom(docs: seq<Doc>, del: set<u32>, p: Test, d: nat): set<u32>
    requires |docs| < 0x1_0000_0000
    decreases |docs| - d
  {
    if d >= |docs| then {} else (if d !in del && p(docs[d]) then {d} else {}) + HitsFrom(docs, del, p, d + 1)
  }

  ghost function HitDocsFrom(docs: seq<Doc>, del: set<u32>, p: Test, d: nat): seq<Doc>
    decreases |docs| - d
  {
    if d >= |docs| then []
    else (if d !in del && p(docs[d]) then [docs[d]] else []) + HitDocsFrom(docs, del, p, d + 1)
  }

  lemma {:induction false} HitsAre(docs: seq<Doc>, del: set<u32>, p: Test, d: nat, x: u32)
    requires |docs| < 0x1_0000_0000
    ensures x in HitsFrom(docs, del, p, d) <==> d <= x < |docs| && x !in del && p(docs[x])
    decreases |docs| - d
  {
    if d < |docs| {
      HitsAre(docs, del, p, d + 1, x);
    }
  }

  /** There are as many numbers as documents. */
  lemma {:induction false} HitsCounted(docs: seq<Doc>, del: set<u32>, p: Test, d: nat)
    requires |docs| < 0x1_0000_0000
    ensures |HitsFrom(docs, del, p, d)| == |HitDocsFrom(docs, del, p, d)|
    decreases |docs| - d
  {
    if d < |docs| {
      HitsCounted(docs, del, p, d + 1);
      HitsAre(docs, del, p, d + 1, d);
    }
  }

  /** Deleting the hits as well leaves exactly the live documents that fail the test. */
  lemma {:induction false} DeletingHits(docs: seq<Doc>, del: set<u32>, p: Test, d: nat, hits: set<u32>)
    requires |docs| < 0x1_0000_0000
    requires forall x: u32 | d <= x < |docs| :: x in hits <==> x !in del && p(docs[x])
    ensures multiset(LiveFrom(docs, del, d))
         == multiset(LiveFrom(docs, del + hits, d)) + multiset(HitDocsFrom(docs, del, p, d))
    decreases |docs| - d
  {
    if d < |docs| {
      DeletingHits(docs, del, p, d + 1, hits);
      var x: u32 := d;
      assert x in hits <==> x !in del && p(docs[x]);
    }
  }

  /** Nothing that is left satisfies the test. */
  lemma {:induction false} NothingHitsAgain(docs: seq<Doc>, del: set<u32>, p: Test, d: nat, hits: set<u32>)
    requires |docs| < 0x1_0000_0000
    requires forall x: u32 | d <= x < |docs| :: x in hits <==> x !in del && p(docs[x])
    ensures HitsFrom(docs, del + hits, p, d) == {}
    decreases |docs| - d
  {
    if d < |docs| {
      NothingHitsAgain(docs, del, p, d + 1, hits);
      var x: u32 := d;
      assert x in hits <==> x !in del && p(docs[x]);
    }
  }

  /** The three together, for a whole segment. */
  lemma HitsLeave(docs: seq<Doc>, del: set<u32>, p: Test)
    requires |docs| < 0x1_0000_0000
    ensures var hits, gone := HitsFrom(docs, del, p, 0), HitDocsFrom(docs, del, p, 0);
            && |hits| == |gone| && HitsFrom(docs, del + hits, p, 0) == {}
            && multiset(LiveDocs(docs, del)) == multiset(LiveDocs(docs, del + hits)) + multiset(gone)
  {
    var hits := HitsFrom(docs, del, p, 0);
    forall x: u32 | 0 <= x < |docs|
      ensures x in hits <==> x !in del && p(docs[x])
    {
      HitsAre(docs, del, p, 0, x);
    }
    HitsCounted(docs, del, p, 0);
    DeletingHits(docs, del, p, 0, hits);
    NothingHitsAgain(docs, del, p, 0, hits);
  }

  /** What IterateDocs hands to its callback are the live documents. */
  ghost function Raws(ds: seq<Segment.Delivered>): seq<Doc> {
    if ds == [] then [] else [ds[0].raw] + Raws(ds[1..])
  }

  lemma {:induction false} IteratedIsLive(docs: seq<Doc>, del: set<u32>, d: nat)
    requires |docs| < 0x1_0000_0000
    ensures Raws(Segment.Live(docs, del, d)) == LiveFrom(docs, del, d)
    decreases |docs| - d
  {
    if d < |docs| {
      IteratedIsLive(docs, del, d + 1);
      var rest := Segment.Live(docs, del, d + 1);
      if d !in del {
        assert ([Segment.Delivered(d, docs[d])] + rest)[1..] == rest;
      } else {
        NothingPlus(rest);
        NothingPlus(LiveFrom(docs, del, d + 1));
      }
    }
  }

  // ----- All segments -----

  datatype DelKey = DelKey(id: string, version: nat)

  /** The objects under the segments prefix: a segment's files as one, and the delete bitmaps. */
  datatype Store = Store(segs: map<string, seq<Doc>>, dels: map<DelKey, set<u32>>)

  function Content(st: Store, id: string): seq<Doc> {
    if id in st.segs then st.segs[id] else []
  }

  /** ReadDelBitmap: version 0 and a missing object both mean no deletes. */
  function DelOf(st: Store, m: SegmentMeta): set<u32> {
    var k := DelKey(m.id, m.delVersion);
    if m.delVersion == 0 || k !in st.dels then {} else st.dels[k]
  }

  ghost function LiveIn(st: Store, m: SegmentMeta): seq<Doc> {
    LiveDocs(Content(st, m.id), DelOf(st, m))
  }

  ghost function Shown(st: Store, m: SegmentMeta): multiset<Doc> {
    if m.deleted then multiset{} else multiset(LiveIn(st, m))
  }

  /** The live documents of the active segments. */
  ghost function Visible(st: Store, metas: seq<SegmentMeta>): multiset<Doc> {
    if metas == [] then multiset{} else Visible(st, metas[..|metas| - 1]) + Shown(st, metas[|metas| - 1])
  }

  /** Something counted per segment. */
  type Measure = SegmentMeta -> nat

  /** The sum over the segments with these ids. */
  ghost function SumIn(f: Measure, metas: seq<SegmentMeta>, ids: set<string>): nat {
    if metas == [] then 0
    else SumIn(f, metas[..|metas| - 1], ids) + if metas[|metas| - 1].id in ids then f(metas[|metas| - 1]) else 0
  }

  ghost function Sum(f: Measure, metas: seq<SegmentMeta>): nat {
    if metas == [] then 0 else Sum(f, metas[..|metas| - 1]) + f(metas[|metas| - 1])
  }

  /** How often a segment shows a document. */
  ghost function Copies(st: Store, x: Doc): Measure {
    (m: SegmentMeta) => Shown(st, m)[x]
  }

  ghost predicate DistinctIds(metas: seq<SegmentMeta>) {
    forall i, j | 0 <= i < j < |metas| :: metas[i].id != metas[j].id
  }

  /** Two stores that agree on what the active segments need show the same. */
  ghost predicate Agree(a: Store, b: Store, metas: seq<SegmentMeta>) {
    forall i | 0 <= i < |metas| && !metas[i].deleted ::
      Content(a, metas[i].id) == Content(b, metas[i].id) && DelOf(a, metas[i]) == DelOf(b, metas[i])
  }

  lemma {:induction false} AgreeShowsSame(a: Store, b: Store, metas: seq<SegmentMeta>)
    requires Agree(a, b, metas)
    ensures Visible(a, metas) == Visible(b, metas)
  {
    if metas != [] {
      AgreeShowsSame(a, b, metas[..|metas| - 1]);
    }
  }

  /** One segment more. */
  lemma NextVisible(st: Store, metas: seq<SegmentMeta>, n: nat, x: Doc)
    requires 0 < n <= |metas|
    ensures Visible(st, metas[..n])[x] == Visible(st, metas[..n - 1])[x] + Shown(st, metas[n - 1])[x]
    ensures |Visible(st, metas[..n])| == |Visible(st, metas[..n - 1])| + |Shown(st, metas[n - 1])|
  {
    assert metas[..n][..n - 1] == metas[..n - 1];
  }

  lemma NextSum(f: Measure, metas: seq<SegmentMeta>, ids: set<string>, n: nat)
    requires 0 < n <= |metas|
    ensures SumIn(f, metas[..n], ids)
         == SumIn(f, metas[..n - 1], ids) + if metas[n - 1].id in ids then f(metas[n - 1]) else 0
  {
    assert metas[..n][..n - 1] == metas[..n - 1];
  }

  lemma AppendShows(st: Store, metas: seq<SegmentMeta>, m: SegmentMeta)
    ensures Visible(st, metas + [m]) == Visible(st, metas) + Shown(st, m)
  {
    assert (metas + [m])[..|metas|] == metas;
  }

  /** Marking the sources deleted hides exactly their documents. */
  lemma {:induction false} MarkingHides(st: Store, metas: seq<SegmentMeta>, ids: set<string>, x: Doc)
    ensures Visible(st, metas)[x] == Visible(st, MarkDeleted(metas, ids))[x] + SumIn(Copies(st, x), metas, ids)
  {
    if metas != [] {
      var n := |metas| - 1;
      MarkingHides(st, metas[..n], ids, x);
      assert MarkDeleted(metas, ids)[..n] == MarkDeleted(metas[..n], ids);
    }
  }

  ghost function IdsOf(metas: seq<SegmentMeta>): set<string> {
    set m <- metas :: m.id
  }

  ghost function AllLive(st: Store, metas: seq<SegmentMeta>): seq<Doc> {
    if metas == [] then [] else AllLive(st, metas[..|metas| - 1]) + LiveIn(st, metas[|metas| - 1])
  }

  lemma {:induction false} NoneIn(f: Measure, metas: seq<SegmentMeta>)
    ensures SumIn(f, metas, {}) == 0
  {
    if metas != [] {
      NoneIn(f, metas[..|metas| - 1]);
    }
  }

  /** Taking one segment more into the set adds what it counts. */
  lemma {:induction false} OneIn(f: Measure, metas: seq<SegmentMeta>, ids: set<string>, k: nat)
    requires DistinctIds(metas) && k < |metas| && metas[k].id !in ids
    ensures SumIn(f, metas, ids + {metas[k].id}) == SumIn(f, metas, ids) + f(metas[k])
  {
    var n := |metas| - 1;
    var before := metas[..n];
    if k < n {
      assert before[k] == metas[k] && metas[n].id != metas[k].id;
      OneIn(f, before, ids, k);
    } else {
      NotAmong(f, before, ids, metas[k].id);
    }
  }

  lemma {:induction false} NotAmong(f: Measure, metas: seq<SegmentMeta>, ids: set<string>, id: string)
    requires forall i | 0 <= i < |metas| :: metas[i].id != id
    ensures SumIn(f, metas, ids + {id}) == SumIn(f, metas, ids)
  {
    if metas != [] {
      NotAmong(f, metas[..|metas| - 1], ids, id);
    }
  }

  /** Two measures that agree, or one that is nothing, sum up alike. */
  lemma {:induction false} SumsAgree(f: Measure, g: Measure, metas: seq<SegmentMeta>, ids: set<string>, on: bool)
    requires forall i | 0 <= i < |metas| ::
               (if metas[i].id in ids then f(metas[i]) else 0) == if on then g(metas[i]) else 0
    ensures SumIn(f, metas, ids) == if on then Sum(g, metas) else 0
  {
    if metas != [] {
      SumsAgree(f, g, metas[..|metas| - 1], ids, on);
    }
  }

  lemma {:induction false} VisibleSum(st: Store, metas: seq<SegmentMeta>, x: Doc)
    ensures Visible(st, metas)[x] == Sum(Copies(st, x), metas)
  {
    if metas != [] {
      VisibleSum(st, metas[..|metas| - 1], x);
    }
  }

  /** Distinct active segments of the manifest, in whatever order. */
  ghost predicate Picked(metas: seq<SegmentMeta>, picked: seq<SegmentMeta>) {
    DistinctIds(picked) && forall i | 0 <= i < |picked| :: picked[i] in metas && !picked[i].deleted
  }

  /** The sum over picked segments does not depend on the order they were picked in. */
  lemma {:induction false} PickedSum(f: Measure, metas: seq<SegmentMeta>, picked: seq<SegmentMeta>)
    requires DistinctIds(metas) && Picked(metas, picked)
    ensures SumIn(f, metas, IdsOf(picked)) == Sum(f, picked)
  {
    if picked == [] {
      assert IdsOf(picked) == {};
      NoneIn(f, metas);
    } else {
      var n := |picked| - 1;
      PickedLess(metas, picked);
      PickedSum(f, metas, picked[..n]);
      var k :| 0 <= k < |metas| && metas[k] == picked[n];
      OneIn(f, metas, IdsOf(picked[..n]), k);
    }
  }

  lemma {:induction false} LiveSum(st: Store, picked: seq<SegmentMeta>, x: Doc)
    requires forall i | 0 <= i < |picked| :: !picked[i].deleted
    ensures multiset(AllLive(st, picked))[x] == Sum(Copies(st, x), picked)
  {
    if picked != [] {
      LiveSum(st, picked[..|picked| - 1], x);
    }
  }

  lemma PickedLess(metas: seq<SegmentMeta>, picked: seq<SegmentMeta>)
    requires Picked(metas, picked) && picked != []
    ensures var n := |picked| - 1;
            && Picked(metas, picked[..n]) && picked[n] in metas && !picked[n].deleted
            && picked[n].id !in IdsOf(picked[..n]) && IdsOf(picked) == IdsOf(picked[..n]) + {picked[n].id}
  {
    var n := |picked| - 1;
    var before := picked[..n];
    assert picked == before + [picked[n]];
    forall m <- before
      ensures m.id != picked[n].id
    {
      var i :| 0 <= i < n && picked[i] == m;
    }
    forall id
      ensures id in IdsOf(picked) <==> id in IdsOf(before) || id == picked[n].id
    {
      if id in IdsOf(picked) {
        var m :| m in picked && m.id == id;
        assert m in before || m == picked[n];
      }
    }
  }
}
