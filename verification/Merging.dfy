/** A merge from its candidates to the documents of the new segment. */
module Merging {
  import opened Bytes
  import opened Sequences
  import opened Manifest
  import opened Visibility
  import opened Catalog
  import opened Conservation
  import opened MetaOrder
  import opened Dedup
  import opened Files
  import Compaction
  import Segment
  import B = Build
  import M = Memtable

  /** What a merge with this id field keeps. */
  ghost function KeepOf(idOf: IdOf): Filter {
    (docs: seq<Doc>) => Deduped(idOf, docs, {})
  }

  lemma NoIdFieldKeepsAll(idOf: IdOf)
    requires forall x: Doc {:trigger idOf(x)} :: idOf(x) == ""
    ensures KeepsAll(KeepOf(idOf))
  {
    forall docs: seq<Doc>
      ensures KeepOf(idOf)(docs) == docs
    {
      NoIdsKeepAll(idOf, docs, {});
    }
  }

  /** The live documents of a source with an id, in order. */
  ghost function CopiesIn(st: Store, idOf: IdOf, m: SegmentMeta, id: string): seq<Doc> {
    WithId(idOf, LiveIn(st, m), id)
  }

  /** A document is the first live copy in a source, and no younger source has one. */
  ghost predicate NewestCopy(st: Store, idOf: IdOf, sources: seq<SegmentMeta>, id: string, x: Doc) {
    exists m <- sources ::
      && CopiesIn(st, idOf, m, id) != [] && x == CopiesIn(st, idOf, m, id)[0]
      && forall n <- sources :: CopiesIn(st, idOf, n, id) != [] ==> n.createdAt <= m.createdAt
  }

  /** Of an id with live copies exactly one remains, a newest; of others none. */
  ghost predicate OneNewest(st: Store, idOf: IdOf, sources: seq<SegmentMeta>, added: seq<Doc>, id: string) {
    var left := WithId(idOf, added, id);
    if NoCopies(st, idOf, sources, id) then left == []
    else |left| == 1 && NewestCopy(st, idOf, sources, id, left[0])
  }

  ghost predicate NoCopies(st: Store, idOf: IdOf, ms: seq<SegmentMeta>, id: string) {
    forall i | 0 <= i < |ms| :: CopiesIn(st, idOf, ms[i], id) == []
  }

  lemma {:induction false} SomeCopy(st: Store, idOf: IdOf, ms: seq<SegmentMeta>, id: string)
    ensures WithId(idOf, Backwards(LiveLists(st, ms)), id) == [] <==> NoCopies(st, idOf, ms, id)
  {
    if ms != [] {
      var n := |ms| - 1;
      SomeCopy(st, idOf, ms[..n], id);
      NewestAhead(st, idOf, ms, id);
      OneSourceMore(st, idOf, ms, id);
      BothEmpty(CopiesIn(st, idOf, ms[n], id), WithId(idOf, Backwards(LiveLists(st, ms[..n])), id));
    }
  }

  lemma OneSourceMore(st: Store, idOf: IdOf, ms: seq<SegmentMeta>, id: string)
    requires ms != []
    ensures NoCopies(st, idOf, ms, id)
            <==> NoCopies(st, idOf, ms[..|ms| - 1], id) && CopiesIn(st, idOf, ms[|ms| - 1], id) == []
  {
    var n := |ms| - 1;
    if NoCopies(st, idOf, ms, id) {
      forall i | 0 <= i < n
        ensures CopiesIn(st, idOf, ms[..n][i], id) == []
      {
        assert ms[..n][i] == ms[i];
      }
    }
    if NoCopies(st, idOf, ms[..n], id) && CopiesIn(st, idOf, ms[n], id) == [] {
      forall i | 0 <= i < |ms|
        ensures CopiesIn(st, idOf, ms[i], id) == []
      {
        if i < n {
          assert ms[..n][i] == ms[i];
        }
      }
    }
  }

  /** What a merge keeps for an id. */
  lemma MergeKeepsNewest(st: Store, idOf: IdOf, candidates: seq<SegmentMeta>, sorted: seq<SegmentMeta>, id: string)
    requires ByCreation(sorted) && multiset(sorted) == multiset(candidates) && id != ""
    ensures OneNewest(st, idOf, candidates, KeepOf(idOf)(AllLive(st, Reversed(sorted))), id)
  {
    var all := WithId(idOf, Backwards(LiveLists(st, sorted)), id);
    NewestFirst(st, sorted);
    FirstOfEachId(idOf, Backwards(LiveLists(st, sorted)), {}, id);
    SomeCopy(st, idOf, sorted, id);
    SameMembers(sorted, candidates);
    SameCopies(st, idOf, sorted, candidates, id);
    if all != [] {
      var k := SurvivorIsNewest(st, idOf, sorted, id);
      YoungerEverywhere(st, idOf, candidates, sorted, id, k);
    }
  }

  lemma SameCopies(st: Store, idOf: IdOf, a: seq<SegmentMeta>, b: seq<SegmentMeta>, id: string)
    requires forall m :: m in a <==> m in b
    ensures NoCopies(st, idOf, a, id) <==> NoCopies(st, idOf, b, id)
  {
    forall x <- a
      ensures NoCopies(st, idOf, b, id) ==> CopiesIn(st, idOf, x, id) == []
    {
      var i :| 0 <= i < |b| && b[i] == x;
    }
    forall x <- b
      ensures NoCopies(st, idOf, a, id) ==> CopiesIn(st, idOf, x, id) == []
    {
      var i :| 0 <= i < |a| && a[i] == x;
    }
  }

  lemma SameMembers(a: seq<SegmentMeta>, b: seq<SegmentMeta>)
    requires multiset(a) == multiset(b)
    ensures forall m :: m in a <==> m in b
  {
    forall m
      ensures m in a <==> m in b
    {
      assert m in a <==> m in multiset(a);
      assert m in b <==> m in multiset(b);
    }
  }

  lemma YoungerEverywhere(st: Store, idOf: IdOf, candidates: seq<SegmentMeta>, sorted: seq<SegmentMeta>, id: string,
                          k: nat)
    requires k < |sorted| && (forall m :: m in sorted <==> m in candidates)
    requires CopiesIn(st, idOf, sorted[k], id) != []
    requires forall j | 0 <= j < |sorted| && CopiesIn(st, idOf, sorted[j], id) != [] ::
               sorted[j].createdAt <= sorted[k].createdAt
    ensures NewestCopy(st, idOf, candidates, id, CopiesIn(st, idOf, sorted[k], id)[0])
  {
    forall n <- candidates
      ensures CopiesIn(st, idOf, n, id) != [] ==> n.createdAt <= sorted[k].createdAt
    {
      var j :| 0 <= j < |sorted| && sorted[j] == n;
    }
    assert sorted[k] in candidates;
  }

  /** Documents without an id are all kept. */
  lemma MergeKeepsNameless(st: Store, idOf: IdOf, sorted: seq<SegmentMeta>)
    ensures var all := AllLive(st, Reversed(sorted));
            WithId(idOf, KeepOf(idOf)(all), "") == WithId(idOf, all, "")
  {
    FirstOfEachId(idOf, AllLive(st, Reversed(sorted)), {}, "");
  }

  /**
   * Sorts the candidates by creation and reads their files newest first: every id that is live in one of them
   * remains once, in its newest copy.
   */
  method MergeSources(c: Segment.Codecs, files: map<string, B.Result>, dels: map<DelKey, set<u32>>,
                      candidates: seq<SegmentMeta>, idOf: IdOf,
                      ghost cfg: M.Config, ghost schema: seq<M.FieldDef>, ghost st: Store)
    returns (sorted: seq<SegmentMeta>, added: seq<Doc>)
    requires AllBuilt(c, cfg, schema, files, st, candidates) && dels == st.dels
    ensures ByCreation(sorted) && multiset(sorted) == multiset(candidates)
    ensures added == KeepOf(idOf)(AllLive(st, Reversed(sorted)))
    ensures forall id | id != "" :: OneNewest(st, idOf, candidates, added, id)
    ensures WithId(idOf, added, "") == WithId(idOf, AllLive(st, Reversed(sorted)), "")
  {
    sorted := SortBy(Creation(), candidates);
    SameMembers(sorted, candidates);
    var lists: seq<seq<Doc>> := [];
    for i := 0 to |sorted|
      invariant lists == LiveLists(st, sorted[..i])
    {
      var meta := sorted[i];
      assert meta in candidates;
      var live := LiveOf(c, files[meta.id], DelOf(Store(map[], dels), meta), cfg, schema, Content(st, meta.id));
      assert sorted[..i + 1][..i] == sorted[..i];
      lists := lists + [live];
    }
    Whole(sorted);
    added := MergeDocs(idOf, lists);
    NewestFirst(st, sorted);
    forall id | id != ""
      ensures OneNewest(st, idOf, candidates, added, id)
    {
      MergeKeepsNewest(st, idOf, candidates, sorted, id);
    }
    MergeKeepsNameless(st, idOf, sorted);
  }

  lemma {:induction false} ReversedSame<T>(s: seq<T>)
    ensures multiset(Reversed(s)) == multiset(s)
  {
    if s != [] {
      var n := |s| - 1;
      ReversedSame(s[..n]);
      NextPrefix(s, n);
      Whole(s);
    }
  }

  /** Candidates chosen from the active segments can be merged in the order they are read. */
  lemma CandidatesPicked(metas: seq<SegmentMeta>, candidates: seq<SegmentMeta>, sorted: seq<SegmentMeta>)
    requires DistinctIds(metas) && multiset(candidates) <= multiset(ActiveSegments(metas))
    requires multiset(sorted) == multiset(candidates)
    ensures Picked(metas, Reversed(sorted))
  {
    ReversedSame(sorted);
    Compaction.PartIsPicked(metas, Reversed(sorted));
  }
}
