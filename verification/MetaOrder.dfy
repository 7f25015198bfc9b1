/** Sorting segments by a number. */
module MetaOrder {
  import opened Sequences
  import opened Manifest

  type Key = SegmentMeta -> int

  ghost predicate Ordered(key: Key, ms: seq<SegmentMeta>) {
    forall i, j | 0 <= i < j < |ms| :: key(ms[i]) <= key(ms[j])
  }

  function Insert(key: Key, m: SegmentMeta, ms: seq<SegmentMeta>): seq<SegmentMeta> {
    if ms == [] || key(m) <= key(ms[0]) then [m] + ms else [ms[0]] + Insert(key, m, ms[1..])
  }

  lemma Ahead(key: Key, m: SegmentMeta, ms: seq<SegmentMeta>)
    requires Ordered(key, ms) && (ms == [] || key(m) <= key(ms[0]))
    ensures Ordered(key, [m] + ms)
  {
  }

  lemma {:induction false} InsertSorts(key: Key, m: SegmentMeta, ms: seq<SegmentMeta>)
    requires Ordered(key, ms)
    ensures Ordered(key, Insert(key, m, ms)) && multiset(Insert(key, m, ms)) == multiset(ms) + multiset{m}
    ensures Insert(key, m, ms) != []
    ensures key(Insert(key, m, ms)[0]) == if ms == [] || key(m) <= key(ms[0]) then key(m) else key(ms[0])
  {
    if ms == [] || key(m) <= key(ms[0]) {
      Ahead(key, m, ms);
    } else {
      InsertSorts(key, m, ms[1..]);
      Ahead(key, ms[0], Insert(key, m, ms[1..]));
      HeadAndTail(ms);
    }
  }

  /** sort.Slice by the key. */
  method SortBy(key: Key, ms: seq<SegmentMeta>) returns (r: seq<SegmentMeta>)
    ensures Ordered(key, r) && multiset(r) == multiset(ms)
  {
    r := [];
    for i := 0 to |ms|
      invariant Ordered(key, r) && multiset(r) == multiset(ms[..i])
    {
      InsertSorts(key, ms[i], r);
      NextPrefix(ms, i);
      r := Insert(key, ms[i], r);
    }
    Whole(ms);
  }
}
