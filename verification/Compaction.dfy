/** Choosing what to merge, and why repeated compaction ends. */
module Compaction {
  import opened Bytes
  import opened Sequences
  import opened Manifest
  import opened Visibility
  import opened Catalog
  import opened MetaOrder

  const MIN_MERGE: nat := 4

  /** bits.Len64. */
  function BitLength(n: nat): nat {
    if n == 0 then 0 else 1 + BitLength(n / 2)
  }

  /** A power of two. */
  function Pow2(k: nat): (p: nat)
    ensures p > 0
  {
    if k == 0 then 1 else 2 * Pow2(k - 1)
  }

  lemma {:induction false} BitLengthIs(n: nat)
    requires n > 0
    ensures BitLength(n) > 0 && Pow2(BitLength(n) - 1) <= n < 2 * Pow2(BitLength(n) - 1)
  {
    if n > 1 {
      BitLengthIs(n / 2);
    }
  }

  lemma {:induction false} PowersApart(j: nat, k: nat)
    requires j < k
    ensures 2 * Pow2(j) <= Pow2(k)
  {
    if j < k - 1 {
      PowersApart(j, k - 1);
    }
  }

  /** Two sizes have the same length if and only if they lie between the same two powers of two. */
  lemma SameLengthIff(a: nat, b: nat)
    requires a > 0 && b > 0
    ensures BitLength(a) == BitLength(b) <==> exists k: nat :: Pow2(k) <= a < 2 * Pow2(k) && Pow2(k) <= b < 2 * Pow2(k)
  {
    BitLengthIs(a);
    BitLengthIs(b);
    if k: nat :| Pow2(k) <= a < 2 * Pow2(k) && Pow2(k) <= b < 2 * Pow2(k) {
      OnlyPower(a, k);
      OnlyPower(b, k);
    }
  }

  lemma OnlyPower(n: nat, k: nat)
    requires n > 0 && Pow2(k) <= n < 2 * Pow2(k)
    ensures BitLength(n) == k + 1
  {
    BitLengthIs(n);
    var j := BitLength(n) - 1;
    if j < k {
      PowersApart(j, k);
    } else if k < j {
      PowersApart(k, j);
    }
  }

  function Tier(m: SegmentMeta): nat {
    BitLength(if m.size <= 0 then 1 else m.size)
  }

  ghost predicate OneTier(ms: seq<SegmentMeta>) {
    forall i, j | 0 <= i < |ms| && 0 <= j < |ms| :: Tier(ms[i]) == Tier(ms[j])
  }

  /** No segment outside is smaller than one inside. */
  ghost predicate Smallest(picked: seq<SegmentMeta>, rest: seq<SegmentMeta>) {
    forall i, j | 0 <= i < |picked| && 0 <= j < |rest| :: picked[i].size <= rest[j].size
  }

  function Size(): Key {
    (m: SegmentMeta) => m.size
  }

  // ----- Tiers -----

  /** The segments of one tier, in order. */
  ghost function InTier(ms: seq<SegmentMeta>, t: nat): seq<SegmentMeta> {
    if ms == [] then []
    else InTier(ms[..|ms| - 1], t) + if Tier(ms[|ms| - 1]) == t then [ms[|ms| - 1]] else []
  }

  function TierOf(tiers: map<nat, seq<SegmentMeta>>, t: nat): seq<SegmentMeta> {
    if t in tiers then tiers[t] else []
  }

  method Bucket(ms: seq<SegmentMeta>) returns (tiers: map<nat, seq<SegmentMeta>>)
    ensures forall t :: TierOf(tiers, t) == InTier(ms, t)
  {
    tiers := map[];
    for i := 0 to |ms|
      invariant forall t :: TierOf(tiers, t) == InTier(ms[..i], t)
    {
      var t := Tier(ms[i]);
      assert ms[..i + 1][..i] == ms[..i];
      tiers := tiers[t := TierOf(tiers, t) + [ms[i]]];
    }
    Whole(ms);
  }

  /** Two segments share a tier if and only if one power of two p has p <= size < 2p for both; 0 counts as 1. */
  lemma SameTierIff(a: SegmentMeta, b: SegmentMeta)
    ensures var x, y := if a.size <= 0 then 1 else a.size, if b.size <= 0 then 1 else b.size;
            Tier(a) == Tier(b) <==> exists k: nat :: Pow2(k) <= x < 2 * Pow2(k) && Pow2(k) <= y < 2 * Pow2(k)
  {
    SameLengthIff(if a.size <= 0 then 1 else a.size, if b.size <= 0 then 1 else b.size);
  }

  /** A tier has all its segments, as often as they are there. */
  lemma {:induction false} TierIsWhole(ms: seq<SegmentMeta>, t: nat, m: SegmentMeta)
    ensures multiset(InTier(ms, t))[m] == if Tier(m) == t then multiset(ms)[m] else 0
  {
    if ms != [] {
      var n := |ms| - 1;
      TierIsWhole(ms[..n], t, m);
      NextPrefix(ms, n);
      Whole(ms);
      BagOfConcat(ms[..n], [ms[n]]);
    }
  }

  lemma {:induction false} TierIsPart(ms: seq<SegmentMeta>, t: nat)
    ensures multiset(InTier(ms, t)) <= multiset(ms)
    ensures forall i | 0 <= i < |InTier(ms, t)| :: Tier(InTier(ms, t)[i]) == t
  {
    if ms != [] {
      var n := |ms| - 1;
      TierIsPart(ms[..n], t);
      NextPrefix(ms, n);
      Whole(ms);
    }
  }

  /** The fullest tier of at least four, in whatever order the tiers are visited. */
  method FullestTier(tiers: map<nat, seq<SegmentMeta>>) returns (best: seq<SegmentMeta>)
    ensures best == [] ==> forall t <- tiers :: |tiers[t]| < MIN_MERGE
    ensures best != [] ==> |best| >= MIN_MERGE && exists t <- tiers :: tiers[t] == best
    ensures best != [] ==> forall t <- tiers :: |tiers[t]| <= |best|
  {
    best := [];
    var rest := tiers.Keys;
    while rest != {}
      invariant rest <= tiers.Keys
      invariant best == [] ==> forall t <- tiers.Keys - rest :: |tiers[t]| < MIN_MERGE
      invariant best != [] ==> |best| >= MIN_MERGE && exists t <- tiers :: tiers[t] == best
      invariant best != [] ==> forall t <- tiers.Keys - rest :: |tiers[t]| <= |best|
      decreases |rest|
    {
      var t :| t in rest;
      if |tiers[t]| >= MIN_MERGE && |tiers[t]| > |best| {
        best := tiers[t];
      }
      rest := rest - {t};
    }
  }

  ghost predicate Fullest(ms: seq<SegmentMeta>, t: nat) {
    |InTier(ms, t)| >= MIN_MERGE && forall x: nat :: |InTier(ms, x)| <= |InTier(ms, t)|
  }

  ghost predicate NoFullTier(ms: seq<SegmentMeta>) {
    forall x: nat :: |InTier(ms, x)| < MIN_MERGE
  }

  /** Nothing below four segments; otherwise the whole of a fullest tier, or without one the four smallest. */
  method PickMergeCandidates(segs: seq<SegmentMeta>) returns (r: seq<SegmentMeta>)
    ensures multiset(r) <= multiset(segs)
    ensures r == [] <==> |segs| < MIN_MERGE
    ensures |segs| >= MIN_MERGE ==> |r| >= MIN_MERGE
    ensures r != [] ==>
              || (OneTier(r) && exists t :: r == InTier(segs, t) && Fullest(segs, t))
              || (NoFullTier(segs) && |r| == MIN_MERGE
                  && exists rest :: multiset(r + rest) == multiset(segs) && Smallest(r, rest))
  {
    if |segs| == 0 {
      return [];
    }
    var tiers := Bucket(segs);
    var best := FullestTier(tiers);
    if |best| > 0 {
      ghost var t :| t in tiers && tiers[t] == best;
      TierIsPart(segs, t);
      assert best == InTier(segs, t) by {
        assert TierOf(tiers, t) == InTier(segs, t);
      }
      PartIsSmaller(best, segs);
      forall x: nat
        ensures |InTier(segs, x)| <= |best|
      {
        assert TierOf(tiers, x) == InTier(segs, x);
      }
      return best;
    }
    forall x: nat
      ensures |InTier(segs, x)| < MIN_MERGE
    {
      assert TierOf(tiers, x) == InTier(segs, x);
    }
    if |segs| >= MIN_MERGE {
      var sorted := SortBy(Size(), segs);
      assert |multiset(sorted)| == |multiset(segs)|;
      Split(sorted, MIN_MERGE);
      ghost var rest := sorted[MIN_MERGE..];
      assert multiset(sorted[..MIN_MERGE] + rest) == multiset(segs) && Smallest(sorted[..MIN_MERGE], rest);
      return sorted[..MIN_MERGE];
    }
    return [];
  }

  lemma PartIsSmaller(a: seq<SegmentMeta>, b: seq<SegmentMeta>)
    requires multiset(a) <= multiset(b)
    ensures |a| <= |b|
  {
    var rest := multiset(b) - multiset(a);
    assert multiset(b) == multiset(a) + rest;
    assert |multiset(a)| == |a| && |multiset(b)| == |b|;
  }

  // ----- Termination -----

  lemma {:induction false} MarkingRetires(metas: seq<SegmentMeta>, ids: set<string>)
    ensures |ActiveSegments(MarkDeleted(metas, ids))| + SumIn(One(), metas, ids) == |ActiveSegments(metas)|
  {
    if metas != [] {
      var n := |metas| - 1;
      MarkingRetires(metas[..n], ids);
      ActiveSnoc(metas);
      ActiveSnoc(MarkDeleted(metas, ids));
      assert MarkDeleted(metas, ids)[..n] == MarkDeleted(metas[..n], ids);
    }
  }

  /** One for every active segment. */
  ghost function One(): Measure {
    (m: SegmentMeta) => if m.deleted then 0 else 1
  }

  lemma {:induction false} ActiveSnoc(metas: seq<SegmentMeta>)
    requires metas != []
    ensures var n := |metas| - 1;
            |ActiveSegments(metas)| == |ActiveSegments(metas[..n])| + if metas[n].deleted then 0 else 1
  {
    var n := |metas| - 1;
    if n > 0 {
      ActiveSnoc(metas[1..]);
      assert metas[..n][1..] == metas[1..][..n - 1];
    }
  }

  lemma {:induction false} SumOfOnes(picked: seq<SegmentMeta>)
    requires forall i | 0 <= i < |picked| :: !picked[i].deleted
    ensures Sum(One(), picked) == |picked|
  {
    if picked != [] {
      SumOfOnes(picked[..|picked| - 1]);
    }
  }

  /** Merging k segments leaves k - 1 active segments fewer, or k if no document is left. */
  lemma MergeShrinks(metas: seq<SegmentMeta>, wr: Writer, meta: SegmentMeta)
    requires DistinctIds(metas) && wr.Merging? && Picked(metas, wr.picked) && !meta.deleted
    ensures |ActiveSegments(Changed(MergeChange(wr, meta), metas))| + |wr.picked|
         == |ActiveSegments(metas)| + if wr.merged == Some([]) then 0 else 1
  {
    var ids := IdsOf(wr.picked);
    MarkingRetires(metas, ids);
    PickedSum(One(), metas, wr.picked);
    SumOfOnes(wr.picked);
    var marked := MarkDeleted(metas, ids);
    ActiveSnoc(marked + [meta]);
    assert (marked + [meta])[..|marked|] == marked;
  }

  /** Part of the active segments is a valid choice. */
  lemma PartIsPicked(metas: seq<SegmentMeta>, part: seq<SegmentMeta>)
    requires DistinctIds(metas) && multiset(part) <= multiset(ActiveSegments(metas))
    ensures Picked(metas, part)
  {
    var active := ActiveSegments(metas);
    ActiveArePicked(metas);
    forall i | 0 <= i < |part|
      ensures part[i] in metas && !part[i].deleted
    {
      var k := PartIn(part, active, i);
    }
    forall i, j | 0 <= i < j < |part|
      ensures part[i].id != part[j].id
    {
      TwicePicked(metas, part, i, j);
    }
  }

  lemma TwicePicked(metas: seq<SegmentMeta>, part: seq<SegmentMeta>, i: nat, j: nat)
    requires DistinctIds(metas) && multiset(part) <= multiset(ActiveSegments(metas)) && i < j < |part|
    ensures part[i].id != part[j].id
  {
    var active := ActiveSegments(metas);
    ActiveArePicked(metas);
    OnlyOnce(active, part[j]);
    TwiceCounts(part, i, j);
    var a := PartIn(part, active, i);
    var b := PartIn(part, active, j);
    assert a != b;
  }

  lemma {:induction false} OnlyOnce(ms: seq<SegmentMeta>, m: SegmentMeta)
    requires DistinctIds(ms)
    ensures multiset(ms)[m] <= 1
  {
    if ms != [] {
      var n := |ms| - 1;
      OnlyOnce(ms[..n], m);
      assert ms == ms[..n] + [ms[n]];
      if m == ms[n] {
        assert m !in ms[..n];
      }
    }
  }

  lemma FreshAppended(metas: seq<SegmentMeta>, ids: set<string>, m: SegmentMeta)
    requires DistinctIds(metas) && m.id !in IdsOf(metas)
    ensures DistinctIds(MarkDeleted(metas, ids)) && DistinctIds(MarkDeleted(metas, ids) + [m])
  {
    forall i | 0 <= i < |metas|
      ensures metas[i].id != m.id
    {
      IdIn(metas, i);
    }
  }

  /** The merge a round of compaction publishes when nobody else writes. */
  ghost predicate Fresh(next: seq<SegmentMeta> -> SegmentMeta) {
    forall ms: seq<SegmentMeta> {:trigger next(ms)} :: next(ms).id !in IdsOf(ms) && !next(ms).deleted
  }

  /** CompactOnce repeated: each round retires at least three segments, and it ends with fewer than four. */
  method CompactRepeatedly(start: seq<SegmentMeta>, next: seq<SegmentMeta> -> SegmentMeta,
                           anyLeft: seq<SegmentMeta> -> bool)
    returns (metas: seq<SegmentMeta>, rounds: nat)
    requires DistinctIds(start) && Fresh(next)
    ensures DistinctIds(metas) && |ActiveSegments(metas)| < MIN_MERGE
    ensures |ActiveSegments(metas)| + 3 * rounds <= |ActiveSegments(start)|
  {
    metas, rounds := start, 0;
    while true
      invariant DistinctIds(metas) && |ActiveSegments(metas)| + 3 * rounds <= |ActiveSegments(start)|
      decreases |ActiveSegments(metas)|
    {
      var candidates := PickMergeCandidates(ActiveSegments(metas));
      if |candidates| < 2 {
        break;
      }
      metas := Round(metas, candidates, next(metas), anyLeft(candidates));
      rounds := rounds + 1;
    }
  }

  method Round(metas: seq<SegmentMeta>, candidates: seq<SegmentMeta>, meta: SegmentMeta, anyLeft: bool)
    returns (r: seq<SegmentMeta>)
    requires DistinctIds(metas) && |candidates| >= MIN_MERGE && multiset(candidates) <= multiset(ActiveSegments(metas))
    requires meta.id !in IdsOf(metas) && !meta.deleted
    ensures DistinctIds(r) && |ActiveSegments(r)| + 3 <= |ActiveSegments(metas)|
  {
    PartIsPicked(metas, candidates);
    var ids := set c <- candidates :: c.id;
    FreshAppended(metas, ids, meta);
    ghost var wr := Merging(candidates, meta.id, Some(if anyLeft then [[]] else []), true);
    MergeShrinks(metas, wr, meta);
    r := Changed(if anyLeft then Merge(ids, meta) else Retire(ids), metas);
  }
}
