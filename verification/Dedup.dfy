/** Merging live documents, newest segment first, one document per id. */
module Dedup {
  import opened Sequences
  import opened Manifest
  import opened Visibility
  import opened MetaOrder

  /** The value of the id field, empty if the document has none or the schema names no id field. */
  type IdOf = Doc -> string

  /** What the merge adds to the new segment. */
  ghost function Deduped(idOf: IdOf, docs: seq<Doc>, seen: set<string>): seq<Doc> {
    if docs == [] then []
    else
      var id := idOf(docs[0]);
      if id == "" then [docs[0]] + Deduped(idOf, docs[1..], seen)
      else if id in seen then Deduped(idOf, docs[1..], seen)
      else [docs[0]] + Deduped(idOf, docs[1..], seen + {id})
  }

  /** The documents with a given id, in order. */
  ghost function WithId(idOf: IdOf, docs: seq<Doc>, id: string): seq<Doc> {
    if docs == [] then []
    else (if idOf(docs[0]) == id then [docs[0]] else []) + WithId(idOf, docs[1..], id)
  }

  lemma {:induction false} WithIdSplits(idOf: IdOf, a: seq<Doc>, b: seq<Doc>, id: string)
    ensures WithId(idOf, a + b, id) == WithId(idOf, a, id) + WithId(idOf, b, id)
  {
    if a == [] {
      NothingPlus(b);
    } else {
      assert (a + b)[1..] == a[1..] + b;
      WithIdSplits(idOf, a[1..], b, id);
    }
  }

  /** Without an id field every live document is kept. */
  lemma {:induction false} NoIdsKeepAll(idOf: IdOf, docs: seq<Doc>, seen: set<string>)
    requires forall x: Doc {:trigger idOf(x)} :: idOf(x) == ""
    ensures Deduped(idOf, docs, seen) == docs
  {
    if docs != [] {
      NoIdsKeepAll(idOf, docs[1..], seen);
    }
  }

  /** What is to remain of the documents with one id. */
  ghost function Remaining(all: seq<Doc>, id: string, seen: set<string>): seq<Doc> {
    if id == "" then all else if id in seen || all == [] then [] else [all[0]]
  }

  lemma WithIdCons(idOf: IdOf, x: Doc, rest: seq<Doc>, id: string)
    ensures WithId(idOf, [x] + rest, id) == (if idOf(x) == id then [x] else []) + WithId(idOf, rest, id)
  {
    assert ([x] + rest)[1..] == rest;
  }

  /** Each id occurs once, in its first document; documents without an id are all kept. */
  lemma {:induction false} FirstOfEachId(idOf: IdOf, docs: seq<Doc>, seen: set<string>, id: string)
    ensures WithId(idOf, Deduped(idOf, docs, seen), id) == Remaining(WithId(idOf, docs, id), id, seen)
  {
    if docs != [] {
      var x, here, later := docs[0], idOf(docs[0]), docs[1..];
      var seen' := if here == "" then seen else seen + {here};
      FirstOfEachId(idOf, later, seen', id);
      WithIdCons(idOf, x, Deduped(idOf, later, seen'), id);
      if here != "" && here in seen {
        assert seen' == seen;
        NothingPlus(WithId(idOf, later, id));
      }
    }
  }

  // ----- The loops -----

  /** The callback of reindexSegment, over the documents of one segment. */
  method Reindex(idOf: IdOf, docs: seq<Doc>, seenIn: set<string>, addedIn: seq<Doc>, ghost rest: seq<Doc>)
    returns (seen: set<string>, added: seq<Doc>)
    ensures added + Deduped(idOf, rest, seen) == addedIn + Deduped(idOf, docs + rest, seenIn)
  {
    seen, added := seenIn, addedIn;
    for i := 0 to |docs|
      invariant added + Deduped(idOf, docs[i..] + rest, seen) == addedIn + Deduped(idOf, docs + rest, seenIn)
    {
      var raw := docs[i];
      ghost var later := docs[i + 1..] + rest;
      assert (docs[i..] + rest)[0] == raw && (docs[i..] + rest)[1..] == later;
      var id := idOf(raw);
      if id != "" {
        if id in seen {
          continue;
        }
        seen := seen + {id};
      }
      Assoc(added, [raw], Deduped(idOf, later, seen));
      added := added + [raw];
    }
    NothingPlus(rest);
  }

  function Reversed<T>(s: seq<T>): seq<T> {
    if s == [] then [] else [s[|s| - 1]] + Reversed(s[..|s| - 1])
  }

  /** The documents of several lists, the last list first. */
  ghost function Backwards(lists: seq<seq<Doc>>): seq<Doc> {
    if lists == [] then [] else lists[|lists| - 1] + Backwards(lists[..|lists| - 1])
  }

  /** The loop of merge from the newest candidate to the oldest. */
  method MergeDocs(idOf: IdOf, lists: seq<seq<Doc>>) returns (added: seq<Doc>)
    ensures added == Deduped(idOf, Backwards(lists), {})
  {
    var seen: set<string> := {};
    added := [];
    NothingPlus(Deduped(idOf, Backwards(lists), {}));
    var i: nat := |lists|;
    Whole(lists);
    while i > 0
      invariant i <= |lists|
      invariant added + Deduped(idOf, Backwards(lists[..i]), seen) == Deduped(idOf, Backwards(lists), {})
    {
      i := i - 1;
      assert lists[..i + 1][..i] == lists[..i];
      seen, added := Reindex(idOf, lists[i], seen, added, Backwards(lists[..i]));
    }
    assert lists[..0] == [];
    PlusNothing(added);
  }

  // ----- Newest first -----

  function Creation(): Key {
    (m: SegmentMeta) => m.createdAt
  }

  ghost predicate ByCreation(ms: seq<SegmentMeta>) {
    Ordered(Creation(), ms)
  }

  ghost function LiveLists(st: Store, ms: seq<SegmentMeta>): seq<seq<Doc>> {
    if ms == [] then [] else LiveLists(st, ms[..|ms| - 1]) + [LiveIn(st, ms[|ms| - 1])]
  }

  lemma {:induction false} NewestFirst(st: Store, ms: seq<SegmentMeta>)
    ensures Backwards(LiveLists(st, ms)) == AllLive(st, Reversed(ms))
  {
    if ms != [] {
      var n := |ms| - 1;
      NewestFirst(st, ms[..n]);
      var lists := LiveLists(st, ms[..n]);
      assert (lists + [LiveIn(st, ms[n])])[..|lists|] == lists;
      AllLiveCons(st, ms[n], Reversed(ms[..n]));
    }
  }

  lemma {:induction false} AllLiveCons(st: Store, m: SegmentMeta, ms: seq<SegmentMeta>)
    ensures AllLive(st, [m] + ms) == LiveIn(st, m) + AllLive(st, ms)
  {
    if ms == [] {
      assert [m] + ms == [m] && [m][..0] == [];
      assert AllLive(st, [m]) == AllLive(st, []) + LiveIn(st, m);
    } else {
      var n := |ms| - 1;
      assert ([m] + ms)[..n + 1] == [m] + ms[..n];
      AllLiveCons(st, m, ms[..n]);
      Assoc(LiveIn(st, m), AllLive(st, ms[..n]), LiveIn(st, ms[n]));
    }
  }

  lemma NewestAhead(st: Store, idOf: IdOf, ms: seq<SegmentMeta>, id: string)
    requires ms != []
    ensures var n := |ms| - 1;
            WithId(idOf, Backwards(LiveLists(st, ms)), id)
            == WithId(idOf, LiveIn(st, ms[n]), id) + WithId(idOf, Backwards(LiveLists(st, ms[..n])), id)
  {
    var n := |ms| - 1;
    var lists, newest := LiveLists(st, ms[..n]), LiveIn(st, ms[n]);
    assert (lists + [newest])[..|lists|] == lists;
    WithIdSplits(idOf, newest, Backwards(lists), id);
  }

  /** The survivor of an id is the first live copy in a newest source that holds one. */
  lemma {:induction false} SurvivorIsNewest(st: Store, idOf: IdOf, ms: seq<SegmentMeta>, id: string) returns (k: nat)
    requires ByCreation(ms) && WithId(idOf, Backwards(LiveLists(st, ms)), id) != []
    ensures k < |ms|
    ensures WithId(idOf, LiveIn(st, ms[k]), id) != []
    ensures WithId(idOf, Backwards(LiveLists(st, ms)), id)[0] == WithId(idOf, LiveIn(st, ms[k]), id)[0]
    ensures forall j | 0 <= j < |ms| && WithId(idOf, LiveIn(st, ms[j]), id) != [] ::
              ms[j].createdAt <= ms[k].createdAt
  {
    var n := |ms| - 1;
    NewestAhead(st, idOf, ms, id);
    if WithId(idOf, LiveIn(st, ms[n]), id) != [] {
      k := n;
    } else {
      k := SurvivorIsNewest(st, idOf, ms[..n], id);
      forall j | 0 <= j < |ms| && WithId(idOf, LiveIn(st, ms[j]), id) != []
        ensures ms[j].createdAt <= ms[k].createdAt
      {
        assert j < n && ms[..n][j] == ms[j];
      }
    }
  }
}
