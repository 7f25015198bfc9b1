/** The loops of delete-by-query and garbage collection, and the object keys they rely on. */
module Maintenance {
  import opened Bytes
  import opened Sequences
  import opened Manifest
  import opened Visibility
  import opened Catalog
  import opened Query
  import opened CatalogAnswers
  import opened Files
  import Conservation
  import Segment
  import B = Build
  import M = Memtable
  import S = Store

  // ----- Keys -----

  function SegmentsPrefix(index: string): string {
    index + "/segments/"
  }

  function SegmentKey(index: string, id: string, ext: string): string {
    SegmentsPrefix(index) + (id + ext)
  }

  function DelName(index: string, id: string, version: nat): string {
    SegmentKey(index, id, ".del." + Decimal(version))
  }

  /** What follows the last slash; nothing if there is none. */
  function AfterLastSlash(key: string): Option<string> {
    if key == "" then None
    else if key[|key| - 1] == '/' then Some("")
    else
      match AfterLastSlash(key[..|key| - 1])
      case None => None
      case Some(name) => Some(name + [key[|key| - 1]])
  }

  /** What comes before the first dot. */
  function BeforeDot(name: string): string {
    if name == "" || name[0] == '.' then "" else [name[0]] + BeforeDot(name[1..])
  }

  function ExtractSegID(key: string): string {
    match AfterLastSlash(key)
    case None => ""
    case Some(name) => BeforeDot(name)
  }

  lemma {:induction false} NameFound(dir: string, name: string)
    requires forall i | 0 <= i < |name| :: name[i] != '/'
    ensures AfterLastSlash(dir + ['/'] + name) == Some(name)
  {
    var key := dir + ['/'] + name;
    if name == "" {
      PlusNothing(dir + ['/']);
    } else {
      var n := |name| - 1;
      assert key[..|key| - 1] == dir + ['/'] + name[..n];
      NameFound(dir, name[..n]);
      assert name == name[..n] + [name[n]];
    }
  }

  lemma {:induction false} DotFound(id: string, ext: string)
    requires (forall i | 0 <= i < |id| :: id[i] != '.') && ext != "" && ext[0] == '.'
    ensures BeforeDot(id + ext) == id
  {
    if id == "" {
      NothingPlus(ext);
    } else {
      assert (id + ext)[1..] == id[1..] + ext;
      DotFound(id[1..], ext);
    }
  }

  /** A segment's id is read back from the key of any of its objects. */
  lemma IdExtracted(index: string, id: string, ext: string)
    requires forall i | 0 <= i < |id| :: id[i] != '.' && id[i] != '/'
    requires ext != "" && ext[0] == '.' && forall i | 0 <= i < |ext| :: ext[i] != '/'
    ensures ExtractSegID(SegmentKey(index, id, ext)) == id
  {
    var dir := index + "/segments";
    assert SegmentKey(index, id, ext) == dir + ['/'] + (id + ext);
    NameFound(dir, id + ext);
    DotFound(id, ext);
  }

  lemma {:induction false} DecimalHasDigits(v: nat, i: nat)
    requires i < |Decimal(v)|
    ensures '0' <= Decimal(v)[i] <= '9'
  {
    if v >= 10 && i < |Decimal(v)| - 1 {
      DecimalHasDigits(v / 10, i);
    }
  }

  // ----- Garbage collection -----

  /** An object GC removes. */
  ghost predicate Garbage(index: string, active: set<string>, key: string) {
    S.HasPrefix(key, SegmentsPrefix(index)) && ExtractSegID(key) != "" && ExtractSegID(key) !in active
  }

  /** The three kinds of objects of a segment are garbage exactly when it is not active. */
  lemma GarbageIffInactive(index: string, active: set<string>, id: string, version: nat)
    requires id != "" && forall i | 0 <= i < |id| :: id[i] != '.' && id[i] != '/'
    ensures Garbage(index, active, SegmentKey(index, id, ".seg")) <==> id !in active
    ensures Garbage(index, active, SegmentKey(index, id, ".hotcache")) <==> id !in active
    ensures Garbage(index, active, DelName(index, id, version)) <==> id !in active
  {
    IdExtracted(index, id, ".seg");
    IdExtracted(index, id, ".hotcache");
    var ext := ".del." + Decimal(version);
    forall i | 0 <= i < |ext|
      ensures ext[i] != '/'
    {
      if i >= 5 {
        DecimalHasDigits(version, i - 5);
      }
    }
    IdExtracted(index, id, ext);
  }

  /** No manifest is garbage, and nothing that another index has stored. */
  lemma OthersStay(index: string, active: set<string>, version: nat, other: string, rest: string)
    requires '/' !in index && '/' !in other && index != other
    ensures !Garbage(index, active, Key(index, version)) && !Garbage(index, active, other + ("/" + rest))
  {
    var n := |index|;
    var own, manifest, foreign := SegmentsPrefix(index), Key(index, version), other + ("/" + rest);
    assert own[n] == '/' && own[n + 1] == 's' && manifest[n + 1] == 'm';
    assert own[..n] == index && foreign[|other|] == '/';
    assert foreign[..|other|] == other;
  }

  method ProtectedIds(segs: seq<SegmentMeta>) returns (ids: set<string>)
    ensures ids == IdsOf(segs)
  {
    ids := {};
    for i := 0 to |segs|
      invariant ids == IdsOf(segs[..i])
    {
      NextPrefix(segs, i);
      IdsAppended(segs[..i], segs[i]);
      ids := ids + {segs[i].id};
    }
    Whole(segs);
  }

  /** Removes exactly the objects of segments that are not active, and keeps everything else as it is. */
  method GC(bs: S.MemStore<bytes>, index: string, segments: seq<SegmentMeta>)
    modifies bs
    ensures forall k :: k in bs.objects <==> k in old(bs.objects) && !Garbage(index, ActiveIds(segments), k)
    ensures forall k <- bs.objects :: bs.objects[k] == old(bs.objects)[k]
  {
    var protected_ := ProtectedIds(ActiveSegments(segments));
    var keys := bs.List(SegmentsPrefix(index));
    for i := 0 to |keys|
      invariant forall k :: k in bs.objects <==>
                            k in old(bs.objects) && !(k in keys[..i] && Garbage(index, protected_, k))
      invariant forall k <- bs.objects :: bs.objects[k] == old(bs.objects)[k]
    {
      NextPrefix(keys, i);
      var segID := ExtractSegID(keys[i]);
      if segID != "" && segID !in protected_ {
        bs.Delete(keys[i]);
      }
    }
    Whole(keys);
  }

  // ----- Delete by query -----

  /**
   * The loop over the active segments, each opened and queried: the bitmaps to write, the versions to publish
   * and the number deleted, or an error.
   */
  method PlanDelete(c: Segment.Codecs, cfg: M.Config, files: map<string, B.Result>, dels: map<DelKey, set<u32>>,
                    base: seq<SegmentMeta>, q: Node, ghost schema: seq<M.FieldDef>, ghost st: Store)
    returns (ok: bool, plan: map<string, set<u32>>, versions: map<string, nat>, total: nat)
    requires DistinctIds(base) && AllBuilt(c, cfg, schema, files, st, base) && dels == st.dels
    ensures ok <==> base == [] || !HasUnknown(q)
    ensures ok ==> plan == PlanOf(st, base, TestOf(cfg, schema, q)) && versions == VersionsOf(base, plan)
    ensures ok ==> total == Sum(Conservation.HitCount(st, TestOf(cfg, schema, q)), base)
  {
    ghost var p := TestOf(cfg, schema, q);
    ok, plan, versions, total := true, map[], map[], 0;
    for i := 0 to |base|
      invariant Planning(st, base, p, i, plan, versions, total) && (i > 0 ==> !HasUnknown(q))
    {
      var existing, newMatches := NewMatches(c, cfg, files, dels, base, i, q, schema, st);
      if newMatches.None? {
        ok := false;
        return;
      }
      plan, versions, total := PlanSegment(base, i, existing, newMatches.value, plan, versions, total, st, p);
    }
    Whole(base);
  }

  /** Reads the deletes of a segment, opens it and evaluates the query on it. */
  method NewMatches(c: Segment.Codecs, cfg: M.Config, files: map<string, B.Result>, dels: map<DelKey, set<u32>>,
                    base: seq<SegmentMeta>, i: nat, q: Node, ghost schema: seq<M.FieldDef>, ghost st: Store)
    returns (existing: set<u32>, hits: Option<set<u32>>)
    requires i < |base| && AllBuilt(c, cfg, schema, files, st, base) && dels == st.dels
    ensures existing == DelOf(st, base[i]) && (hits.None? <==> HasUnknown(q))
    ensures hits.Some? ==> hits.value == Hits(st, base[i], TestOf(cfg, schema, q))
  {
    var meta := base[i];
    existing := DelOf(Store(map[], dels), meta);
    hits := MatchingDocs(c, cfg, files[meta.id], q, existing, schema, Content(st, meta.id));
  }

  /** One round: the next segment's matches join its deletes under the next version. */
  method PlanSegment(base: seq<SegmentMeta>, i: nat, existing: set<u32>, newMatches: set<u32>,
                     plan: map<string, set<u32>>, versions: map<string, nat>, total: nat,
                     ghost st: Store, ghost p: Test)
    returns (plan': map<string, set<u32>>, versions': map<string, nat>, total': nat)
    requires i < |base| && DistinctIds(base) && Planning(st, base, p, i, plan, versions, total)
    requires existing == DelOf(st, base[i]) && newMatches == Hits(st, base[i], p)
    ensures Planning(st, base, p, i + 1, plan', versions', total')
  {
    var meta := base[i];
    PlanNext(st, base, p, i, plan, versions, total, newMatches);
    if newMatches == {} {
      return plan, versions, total;
    }
    plan' := plan[meta.id := existing + newMatches];
    versions' := versions[meta.id := meta.delVersion + 1];
    total' := total + |newMatches|;
  }

  /** What the loop has gathered from the first i segments. */
  ghost predicate Planning(st: Store, base: seq<SegmentMeta>, p: Test, i: nat, plan: map<string, set<u32>>,
                           versions: map<string, nat>, total: nat)
    requires i <= |base|
  {
    && plan == PlanOf(st, base[..i], p) && versions == VersionsOf(base[..i], plan)
    && total == Sum(Conservation.HitCount(st, p), base[..i])
  }

  /** One round of the loop. */
  lemma PlanNext(st: Store, base: seq<SegmentMeta>, p: Test, i: nat, plan: map<string, set<u32>>,
                 versions: map<string, nat>, total: nat, hits: set<u32>)
    requires DistinctIds(base) && i < |base| && hits == Hits(st, base[i], p)
    requires Planning(st, base, p, i, plan, versions, total)
    ensures hits == {} ==> Planning(st, base, p, i + 1, plan, versions, total)
    ensures var m := base[i];
            hits != {} ==> Planning(st, base, p, i + 1, plan[m.id := DelOf(st, m) + hits],
                                    versions[m.id := m.delVersion + 1], total + |hits|)
  {
    var m, before := base[i], base[..i];
    assert base[..i + 1][..i] == before;
    assert m.id !in plan by {
      PlanKeys(st, before, p);
      NotYetIn(base, i);
    }
    forall x <- before
      ensures x.id != m.id
    {
      var k :| 0 <= k < i && base[k] == x;
    }
    OtherPlan(before, plan, PlanOf(st, base[..i + 1], p));
  }

  lemma NotYetIn(base: seq<SegmentMeta>, i: nat)
    requires DistinctIds(base) && i < |base|
    ensures base[i].id !in IdsOf(base[..i])
  {
    if base[i].id in IdsOf(base[..i]) {
      var k := IdOf(base[..i], base[i].id);
    }
  }

  /** Versions depend on the plan only for the segments at hand. */
  lemma {:induction false} OtherPlan(base: seq<SegmentMeta>, a: map<string, set<u32>>, b: map<string, set<u32>>)
    requires forall m <- base :: m.id in a <==> m.id in b
    ensures VersionsOf(base, a) == VersionsOf(base, b)
  {
    if base != [] {
      OtherPlan(base[..|base| - 1], a, b);
    }
  }
}
