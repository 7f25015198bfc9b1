/** Search over many segments: the best hits of each, merged and cut to a window. */
module Paging {
  import opened Bytes
  import opened Sequences

  type Score = real

  datatype Hit = Hit(docID: u32, score: Score)

  // ----- Descending scores -----

  function Insert(x: Score, xs: seq<Score>): seq<Score> {
    if xs == [] || x > xs[0] then [x] + xs else [xs[0]] + Insert(x, xs[1..])
  }

  /** The scores of all hits, highest first. */
  function Sorted(xs: seq<Score>): seq<Score> {
    if xs == [] then [] else Insert(xs[|xs| - 1], Sorted(xs[..|xs| - 1]))
  }

  ghost predicate Descends(xs: seq<Score>) {
    forall i, j | 0 <= i < j < |xs| :: xs[i] >= xs[j]
  }

  lemma {:induction false} InsertDescends(x: Score, xs: seq<Score>)
    requires Descends(xs)
    ensures Descends(Insert(x, xs)) && |Insert(x, xs)| == |xs| + 1
    ensures Insert(x, xs)[0] == if xs == [] || x > xs[0] then x else xs[0]
    ensures multiset(Insert(x, xs)) == multiset(xs) + multiset{x}
  {
    if xs != [] && x <= xs[0] {
      var rest := Insert(x, xs[1..]);
      InsertDescends(x, xs[1..]);
      Ahead(xs[0], rest);
      HeadAndTail(xs);
    } else {
      Ahead(x, xs);
    }
  }

  lemma Ahead(x: Score, xs: seq<Score>)
    requires Descends(xs) && (xs == [] || x >= xs[0])
    ensures Descends([x] + xs)
  {
  }

  lemma {:induction false} SortedDescends(xs: seq<Score>)
    ensures Descends(Sorted(xs)) && |Sorted(xs)| == |xs| && multiset(Sorted(xs)) == multiset(xs)
  {
    if xs != [] {
      var n := |xs| - 1;
      SortedDescends(xs[..n]);
      InsertDescends(xs[n], Sorted(xs[..n]));
      NextPrefix(xs, n);
      Whole(xs);
    }
  }

  function Merge(a: seq<Score>, b: seq<Score>): seq<Score> {
    if a == [] then b
    else if b == [] then a
    else if a[0] >= b[0] then [a[0]] + Merge(a[1..], b)
    else [b[0]] + Merge(a, b[1..])
  }

  /** Inserting into one of two merged lists is inserting into the result. */
  lemma {:induction false} InsertMerge(x: Score, a: seq<Score>, b: seq<Score>)
    ensures Merge(a, Insert(x, b)) == Insert(x, Merge(a, b))
    decreases |a| + |b|
  {
    if a == [] {
    } else if b == [] {
      PlusNothing([x]);
      InsertAlone(x, a);
    } else if x > b[0] {
      if a[0] >= x {
        InsertMerge(x, a[1..], b);
      }
    } else if a[0] >= b[0] {
      InsertMerge(x, a[1..], b);
    } else {
      InsertMerge(x, a, b[1..]);
      assert ([b[0]] + Insert(x, b[1..]))[1..] == Insert(x, b[1..]);
    }
  }

  lemma {:induction false} InsertAlone(x: Score, a: seq<Score>)
    ensures Merge(a, [x]) == Insert(x, a)
  {
    if a != [] && a[0] >= x {
      InsertAlone(x, a[1..]);
    }
  }

  /** Sorting two lists together is merging them sorted. */
  lemma {:induction false} SortedConcat(a: seq<Score>, b: seq<Score>)
    ensures Sorted(a + b) == Merge(Sorted(a), Sorted(b))
    decreases |b|
  {
    if b == [] {
      PlusNothing(a);
      MergeNothing(Sorted(a));
    } else {
      var n := |b| - 1;
      assert (a + b)[..|a + b| - 1] == a + b[..n];
      SortedConcat(a, b[..n]);
      InsertMerge(b[n], Sorted(a), Sorted(b[..n]));
    }
  }

  lemma MergeNothing(a: seq<Score>)
    ensures Merge(a, []) == a
  {
  }

  lemma {:induction false} SortedStays(xs: seq<Score>)
    requires Descends(xs)
    ensures Sorted(xs) == xs
  {
    if xs != [] {
      var n := |xs| - 1;
      SortedStays(xs[..n]);
      InsertLast(xs[n], xs[..n]);
    }
  }

  lemma {:induction false} InsertLast(x: Score, xs: seq<Score>)
    requires forall i | 0 <= i < |xs| :: xs[i] >= x
    ensures Insert(x, xs) == xs + [x]
  {
    if xs != [] {
      InsertLast(x, xs[1..]);
    }
  }

  // ----- The best k -----

  function Take<T>(xs: seq<T>, k: nat): seq<T> {
    if k < |xs| then xs[..k] else xs
  }

  function Window<T>(xs: seq<T>, from: nat, size: nat): seq<T> {
    Take(xs[if from < |xs| then from else |xs|..], size)
  }

  /** The best k of a merge need only the best k of each side. */
  lemma {:induction false} MergeTake(a: seq<Score>, b: seq<Score>, ka: nat, kb: nat, k: nat)
    requires ka >= k && kb >= k
    ensures Take(Merge(Take(a, ka), Take(b, kb)), k) == Take(Merge(a, b), k)
    decreases k, |a| + |b|
  {
    if k > 0 && a != [] && b != [] {
      var a', b' := Take(a, ka), Take(b, kb);
      assert a'[0] == a[0] && b'[0] == b[0];
      if a[0] >= b[0] {
        assert a'[1..] == Take(a[1..], ka - 1);
        MergeTake(a[1..], b, ka - 1, kb, k - 1);
        TakeCons(a[0], Merge(a'[1..], b'), k);
        TakeCons(a[0], Merge(a[1..], b), k);
      } else {
        assert b'[1..] == Take(b[1..], kb - 1);
        MergeTake(a, b[1..], ka, kb - 1, k - 1);
        TakeCons(b[0], Merge(a', b'[1..]), k);
        TakeCons(b[0], Merge(a, b[1..]), k);
      }
    }
  }

  lemma TakeCons(x: Score, xs: seq<Score>, k: nat)
    requires k > 0
    ensures Take([x] + xs, k) == [x] + Take(xs, k - 1)
  {
  }

  // ----- Hits -----

  function Scores(hits: seq<Hit>): (r: seq<Score>)
    ensures |r| == |hits| && forall i | 0 <= i < |hits| :: r[i] == hits[i].score
  {
    seq(|hits|, i requires 0 <= i < |hits| => hits[i].score)
  }

  function InsertHit(h: Hit, hs: seq<Hit>): seq<Hit> {
    if hs == [] || h.score > hs[0].score then [h] + hs else [hs[0]] + InsertHit(h, hs[1..])
  }

  lemma {:induction false} InsertHitSorts(h: Hit, hs: seq<Hit>)
    ensures Scores(InsertHit(h, hs)) == Insert(h.score, Scores(hs))
    ensures multiset(InsertHit(h, hs)) == multiset(hs) + multiset{h}
  {
    if hs == [] || h.score > hs[0].score {
      ScoresCons(h, hs);
    } else {
      InsertHitSorts(h, hs[1..]);
      ScoresCons(hs[0], InsertHit(h, hs[1..]));
      ScoresCons(hs[0], hs[1..]);
      HeadAndTail(hs);
    }
  }

  lemma ScoresCons(h: Hit, hs: seq<Hit>)
    ensures Scores([h] + hs) == [h.score] + Scores(hs)
  {
  }

  /** sort.Slice by descending score; which of two equal scores comes first does not show in the scores. */
  method SortHits(hits: seq<Hit>) returns (r: seq<Hit>)
    ensures Scores(r) == Sorted(Scores(hits)) && multiset(r) == multiset(hits) && |r| == |hits|
  {
    r := [];
    for i := 0 to |hits|
      invariant Scores(r) == Sorted(Scores(hits[..i])) && multiset(r) == multiset(hits[..i])
    {
      InsertHitSorts(hits[i], r);
      assert Scores(hits[..i + 1])[..i] == Scores(hits[..i]);
      NextPrefix(hits, i);
      r := InsertHit(hits[i], r);
    }
    Whole(hits);
    assert |multiset(r)| == |r| && |multiset(hits)| == |hits|;
  }

  /** SegmentSearch: all hits are counted, the best topK are kept. */
  method SegmentTop(hits: seq<Hit>, topK: nat) returns (kept: seq<Hit>, total: nat)
    ensures Scores(kept) == Take(Sorted(Scores(hits)), topK) && total == |hits| && multiset(kept) <= multiset(hits)
    ensures |kept| == (if |hits| < topK then |hits| else topK)
    ensures forall i | 0 <= i < |kept| :: kept[i].score == Sorted(Scores(hits))[i]
  {
    total := |hits|;
    kept := SortHits(hits);
    ghost var all := kept;
    if |kept| > topK {
      kept := kept[..topK];
    }
    TopScores(all, kept, topK);
  }

  lemma TopScores(all: seq<Hit>, kept: seq<Hit>, k: nat)
    requires kept == if |all| > k then all[..k] else all
    ensures Scores(kept) == Take(Scores(all), k) && multiset(kept) <= multiset(all)
    ensures forall i | 0 <= i < |kept| :: kept[i].score == Scores(all)[i]
  {
    if |all| > k {
      Split(all, k);
      BagOfConcat(all[..k], all[k..]);
    }
  }

  /** The hits of the segments whose search succeeded. */
  function Flat(parts: seq<Option<seq<Hit>>>): seq<Hit> {
    if parts == [] then []
    else
      Flat(parts[..|parts| - 1])
      + match parts[|parts| - 1] { case None => [] case Some(hits) => hits }
  }

  /** Flat is the hits of the segments one after the other, and nothing of a failed one. */
  lemma FlatIs(hits: seq<Hit>)
    ensures Flat([]) == [] && Flat([None]) == [] && Flat([Some(hits)]) == hits
  {
    var none: seq<Option<seq<Hit>>>, one: seq<Option<seq<Hit>>> := [None], [Some(hits)];
    assert none[..0] == [] && one[..0] == [];
    NothingPlus(hits);
  }

  lemma {:induction false} FlatConcat(a: seq<Option<seq<Hit>>>, b: seq<Option<seq<Hit>>>)
    ensures Flat(a + b) == Flat(a) + Flat(b)
    decreases |b|
  {
    if b == [] {
      PlusNothing(a);
      PlusNothing(Flat(a));
    } else {
      var n := |b| - 1;
      assert (a + b)[..|a + b| - 1] == a + b[..n];
      FlatConcat(a, b[..n]);
      var last := match b[n] { case None => [] case Some(hits) => hits };
      Assoc(Flat(a), Flat(b[..n]), last);
    }
  }

  lemma ScoresConcat(a: seq<Hit>, b: seq<Hit>)
    ensures Scores(a + b) == Scores(a) + Scores(b)
  {
  }

  /** One segment's best k more keep the overall best k. */
  lemma BestKept(all: seq<Score>, kept: seq<Score>, hits: seq<Score>, top: seq<Score>, k: nat)
    requires Take(Sorted(kept), k) == Take(Sorted(all), k) && top == Take(Sorted(hits), k)
    ensures Take(Sorted(kept + top), k) == Take(Sorted(all + hits), k)
  {
    assert Sorted(top) == top by {
      SortedDescends(hits);
      SortedStays(top);
    }
    SortedConcat(kept, top);
    SortedConcat(all, hits);
    EitherTake(Sorted(kept), Sorted(all), Sorted(hits), k);
  }

  lemma EitherTake(x: seq<Score>, y: seq<Score>, z: seq<Score>, k: nat)
    requires Take(x, k) == Take(y, k)
    ensures Take(Merge(x, Take(z, k)), k) == Take(Merge(y, z), k)
  {
    MergeTake(x, Take(z, k), k, k, k);
    MergeTake(y, z, k, k, k);
  }

  /** The window of the merged best hits is the window of all hits sorted; every hit is counted. */
  method Search(parts: seq<Option<seq<Hit>>>, from: nat, size: nat) returns (window: seq<Hit>, totalHits: nat)
    ensures Scores(window) == Window(Sorted(Scores(Flat(parts))), from, size)
    ensures var all := Sorted(Scores(Flat(parts)));
            && |window| == (if |all| <= from then 0 else if |all| - from < size then |all| - from else size)
            && forall i | 0 <= i < |window| :: window[i].score == all[from + i]
    ensures totalHits == |Flat(parts)| && multiset(window) <= multiset(Flat(parts))
  {
    var allHits;
    allHits, totalHits := Gather(parts, from + size);
    window := SortHits(allHits);
    ghost var sorted := window;
    WindowWithin(Scores(sorted), Sorted(Scores(Flat(parts))), from, size);
    CutScores(sorted, from, size);
    WindowIs(Sorted(Scores(Flat(parts))), from, size);
    var start := if from > |window| then |window| else from;
    window := window[start..];
    if |window| > size {
      window := window[..size];
    }
  }

  /** The best hits of every segment that answered, which hold the best of all. */
  method Gather(parts: seq<Option<seq<Hit>>>, topK: nat) returns (allHits: seq<Hit>, totalHits: nat)
    ensures Take(Sorted(Scores(allHits)), topK) == Take(Sorted(Scores(Flat(parts))), topK)
    ensures totalHits == |Flat(parts)| && multiset(allHits) <= multiset(Flat(parts))
  {
    allHits, totalHits := [], 0;
    for i := 0 to |parts|
      invariant Take(Sorted(Scores(allHits)), topK) == Take(Sorted(Scores(Flat(parts[..i]))), topK)
      invariant totalHits == |Flat(parts[..i])| && multiset(allHits) <= multiset(Flat(parts[..i]))
    {
      assert parts[..i + 1][..i] == parts[..i];
      if parts[i].None? {
        PlusNothing(Flat(parts[..i]));
        continue;
      }
      var hits := parts[i].value;
      var kept, total := SegmentTop(hits, topK);
      BestKept(Scores(Flat(parts[..i])), Scores(allHits), Scores(hits), Scores(kept), topK);
      ScoresConcat(allHits, kept);
      ScoresConcat(Flat(parts[..i]), hits);
      allHits := allHits + kept;
      totalHits := totalHits + total;
    }
    Whole(parts);
  }

  /** A window is so many elements from a place on, as far as there are any. */
  lemma WindowIs<T>(xs: seq<T>, from: nat, size: nat)
    ensures |Window(xs, from, size)| == if |xs| <= from then 0 else if |xs| - from < size then |xs| - from else size
    ensures forall i | 0 <= i < |Window(xs, from, size)| :: Window(xs, from, size)[i] == xs[from + i]
  {
  }

  lemma CutScores(hits: seq<Hit>, from: nat, size: nat)
    ensures Scores(Window(hits, from, size)) == Window(Scores(hits), from, size)
    ensures multiset(Window(hits, from, size)) <= multiset(hits)
  {
    var start := if from < |hits| then from else |hits|;
    var rest := hits[start..];
    Split(hits, start);
    BagOfConcat(hits[..start], rest);
    ScoresFrom(hits, start);
    if size < |rest| {
      Split(rest, size);
      BagOfConcat(rest[..size], rest[size..]);
      ScoresTo(rest, size);
    }
  }

  lemma ScoresFrom(hits: seq<Hit>, k: nat)
    requires k <= |hits|
    ensures Scores(hits[k..]) == Scores(hits)[k..]
  {
  }

  lemma ScoresTo(hits: seq<Hit>, k: nat)
    requires k <= |hits|
    ensures Scores(hits[..k]) == Scores(hits)[..k]
  {
  }

  lemma WindowWithin(a: seq<Score>, b: seq<Score>, from: nat, size: nat)
    requires Take(a, from + size) == Take(b, from + size)
    ensures Window(a, from, size) == Window(b, from, size)
  {
    assert Window(a, from, size) == Window(Take(a, from + size), from, size);
    assert Window(b, from, size) == Window(Take(b, from + size), from, size);
  }
}
