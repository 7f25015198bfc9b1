/** Reading the latest manifest and publishing the next one, as the code's retry loop does it. */
module ManifestStore {
  import opened Bytes
  import opened Lex
  import opened Manifest
  import opened Store
  import opened Sequences
  import P = Publishing

  /** Manifests 1 to n of an index, as Publishing describes them. */
  ghost function Manifests(index: string, log: seq<Change>): map<string, Manifest> {
    P.Objects((v: nat) => Key(index, v), log)
  }

  /** The version Latest returns when n exist. */
  function Newest(n: nat): nat {
    if n <= LAST then n else LAST
  }

  lemma ManifestKeysOnly(index: string, log: seq<Change>, k: string)
    requires k in Manifests(index, log)
    ensures HasPrefix(k, index + "/manifest-")
  {
    var v := P.ObjectsOnly((v: nat) => Key(index, v), log, k);
    assert k == index + "/manifest-" + (Padded(v) + ".json");
  }

  /** The last of the sorted keys is the greatest. */
  lemma LastIsGreatest(keys: seq<string>, sorted: seq<string>, all: set<string>)
    requires keys != [] && multiset(sorted) == multiset(keys) && Sorted(sorted)
    requires forall k :: k in keys <==> k in all
    ensures |sorted| == |keys| && Greatest(sorted[|sorted| - 1], all)
  {
    assert |multiset(sorted)| == |multiset(keys)|;
    var top := sorted[|sorted| - 1];
    assert top in multiset(sorted);
    forall x <- all
      ensures AtMost(x, top)
    {
      assert x in multiset(keys);
      var i :| 0 <= i < |sorted| && sorted[i] == x;
    }
  }

  lemma LatestFound(index: string, log: seq<Change>, found: string)
    requires |log| <= LAST + 1 && Greatest(found, Manifests(index, log).Keys)
    ensures |log| > 0
    ensures var v := Newest(|log|);
            Manifests(index, log)[found] == Manifest(v, Outcome(log[..v]))
  {
    var key := (v: nat) => Key(index, v);
    P.ManifestKeysLawful(index);
    P.GreatestVersion(key, log, found);
    P.ObjectsAt(key, log, Newest(|log|));
  }

  lemma NextKeyFree(index: string, log: seq<Change>, v: nat)
    requires 1 <= v <= LAST + 1 && |log| <= LAST + 1
    ensures Key(index, v) in Manifests(index, log) <==> v <= |log|
  {
    P.ManifestKeysLawful(index);
    P.TakenIffExists((v: nat) => Key(index, v), log, v);
  }

  lemma NextManifest(index: string, log: seq<Change>, c: Change)
    requires |log| <= LAST
    ensures Manifests(index, log + [c])
            == Manifests(index, log)[Key(index, |log| + 1) := Manifest(|log| + 1, Changed(c, Outcome(log)))]
  {
    P.NextObject((v: nat) => Key(index, v), log, c);
  }

  /** Objects that are no manifests of the index: its segments, and whatever other indexes have stored. */
  ghost predicate Foreign(index: string, rest: map<string, Manifest>) {
    forall k <- rest :: !HasPrefix(k, index + "/manifest-")
  }

  lemma OwnKey(index: string, rest: map<string, Manifest>, v: nat)
    requires Foreign(index, rest)
    ensures Key(index, v) !in rest
  {
    var k := Key(index, v);
    assert k[..|index + "/manifest-"|] == index + "/manifest-";
  }

  lemma PutAmong<V>(a: map<string, V>, rest: map<string, V>, k: string, v: V)
    requires k !in rest
    ensures (a + rest)[k := v] == a[k := v] + rest
  {
  }

  /** The manifests of a history among foreign objects. */
  ghost function Among(index: string, log: seq<Change>, rest: map<string, Manifest>): map<string, Manifest> {
    Manifests(index, log) + rest
  }

  /** The PUT of the version after the one seen: refused if it is taken, otherwise the change is published. */
  lemma NextPut(index: string, log: seq<Change>, c: Change, rest: map<string, Manifest>, seen: nat)
    requires seen <= |log| <= LAST && Foreign(index, rest)
    ensures Key(index, seen + 1) in Among(index, log, rest) <==> seen < |log|
    ensures Among(index, log + [c], rest)
            == Among(index, log, rest)[Key(index, |log| + 1) := Manifest(|log| + 1, Changed(c, Outcome(log)))]
  {
    NextManifest(index, log, c);
    NextKeyFree(index, log, seen + 1);
    OwnKey(index, rest, seen + 1);
    OwnKey(index, rest, |log| + 1);
    PutAmong(Manifests(index, log), rest, Key(index, |log| + 1), Manifest(|log| + 1, Changed(c, Outcome(log))));
  }

  class ManifestStore {
    const index: string
    const bs: MemStore<Manifest>

    /** The store holds the manifests of a history and some foreign objects. */
    ghost predicate Holds(log: seq<Change>, rest: map<string, Manifest>)
      reads bs
    {
      Foreign(index, rest) && bs.objects == Among(index, log, rest)
    }

    constructor (index: string, bs: MemStore<Manifest>)
      ensures this.index == index && this.bs == bs
    {
      this.index, this.bs := index, bs;
    }

    /** The highest version, as long as version numbers have at most six digits. */
    method Latest(ghost log: seq<Change>, ghost rest: map<string, Manifest>) returns (m: Option<Manifest>)
      requires |log| <= LAST + 1 && Holds(log, rest)
      ensures log == [] ==> m == None
      ensures log != [] ==> var v := Newest(|log|); m == Some(Manifest(v, Outcome(log[..v])))
    {
      var keys := bs.List(index + "/manifest-");
      forall k
        ensures k in keys <==> k in Manifests(index, log)
      {
        if k in Manifests(index, log) {
          ManifestKeysOnly(index, log, k);
        }
      }
      if |keys| == 0 {
        if log != [] {
          NextKeyFree(index, log, 1);
        }
        return None;
      }
      var sorted := SortStrings(keys);
      LastIsGreatest(keys, sorted, Manifests(index, log).Keys);
      LatestFound(index, log, sorted[|sorted| - 1]);
      m := bs.Get(sorted[|sorted| - 1]);
    }

    /** Conditional PUT of the next version: it succeeds exactly when that version is new. */
    method PublishNext(current: Option<Manifest>, segments: seq<SegmentMeta>) returns (m: Option<Manifest>)
      modifies bs
      ensures var next := Manifest(if current.Some? then current.value.version + 1 else 1, segments);
              var key := Key(index, next.version);
              if key in old(bs.objects) then m == None && bs.objects == old(bs.objects)
              else m == Some(next) && bs.objects == old(bs.objects)[key := next]
    {
      var nextVersion := 1;
      if current.Some? {
        nextVersion := current.value.version + 1;
      }
      var next := Manifest(nextVersion, segments);
      var ok := bs.Put(Key(index, nextVersion), next, true);
      m := if ok then Some(next) else None;
    }

    /** One attempt: it lands exactly when nobody has published since the manifest was read. */
    method Attempt(c: Change, current: Option<Manifest>, ghost seen: nat, ghost log: seq<Change>,
                   ghost rest: map<string, Manifest>)
      returns (m: Option<Manifest>)
      requires seen <= |log| <= LAST && Holds(log, rest)
      requires current == if seen == 0 then None else Some(Manifest(seen, Outcome(log[..seen])))
      modifies bs
      ensures seen < |log| ==> m == None && Holds(log, rest)
      ensures seen == |log| ==> m == Some(Manifest(|log| + 1, Changed(c, Outcome(log))))
      ensures seen == |log| ==> Holds(log + [c], rest)
    {
      var segs := if current.Some? then current.value.segments else [];
      NextPut(index, log, c, rest, seen);
      Whole(log);
      m := PublishNext(current, Changed(c, segs));
    }

    /**
     * PublishTransform against rivals: rivals[a] are the changes others publish
     * between this call's read and its PUT in attempt a. The change lands in the
     * first attempt without rivals, on top of everything published before it, or
     * not at all when every attempt has some.
     */
    method PublishTransform(c: Change, maxRetries: nat, rivals: seq<seq<Change>>, ghost log: seq<Change>,
                            ghost rest: map<string, Manifest>)
      returns (m: Option<Manifest>)
      requires |log| + |Flat(rivals)| <= LAST && Holds(log, rest)
      modifies bs
      ensures var a := Contested(rivals, maxRetries);
              var base := log + Flat(rivals[..a]);
              if a < maxRetries then
                m == Some(Manifest(|base| + 1, Outcome(base + [c]))) && Holds(base + [c], rest)
              else
                m == None && Holds(base, rest)
    {
      var attempt := 0;
      PlusNothing(log);
      while attempt < maxRetries
        invariant attempt <= maxRetries && attempt <= |rivals| && attempt <= Contested(rivals, maxRetries)
        invariant Holds(log + Flat(rivals[..attempt]), rest)
        invariant |log| + |Flat(rivals[..attempt])| + |Flat(rivals[attempt..])| <= LAST
      {
        FlatStep(rivals, attempt);
        ContestedStep(rivals, maxRetries, attempt);
        var others := if attempt < |rivals| then rivals[attempt] else [];
        m := TryOnce(c, others, log + Flat(rivals[..attempt]), rest);
        if m.Some? {
          return;
        }
        Assoc(log, Flat(rivals[..attempt]), others);
        attempt := attempt + 1;
      }
      m := None;
    }

    /** Read, let others publish, PUT: the body of the retry loop. */
    method TryOnce(c: Change, others: seq<Change>, ghost log: seq<Change>, ghost rest: map<string, Manifest>)
      returns (m: Option<Manifest>)
      requires |log| + |others| <= LAST && Holds(log, rest)
      modifies bs
      ensures others == [] ==> m == Some(Manifest(|log| + 1, Outcome(log + [c])))
      ensures others == [] ==> Holds(log + [c], rest)
      ensures others != [] ==> m == None && Holds(log + others, rest)
    {
      var current := Latest(log, rest);
      Interfere(others, log, rest);
      FirstPart(log, others);
      OutcomeNext(log, c);
      m := Attempt(c, current, |log|, log + others, rest);
    }

    /** Other writers publish these changes one after the other. */
    method Interfere(changes: seq<Change>, ghost log: seq<Change>, ghost rest: map<string, Manifest>)
      requires |log| + |changes| <= LAST && Holds(log, rest)
      modifies bs
      ensures Holds(log + changes, rest)
    {
      PlusNothing(log);
      for i := 0 to |changes|
        invariant Holds(log + changes[..i], rest)
      {
        PublishAlone(changes[i], log + changes[..i], rest);
        NextBehind(log, changes, i);
      }
      Whole(changes);
    }

    method PublishAlone(c: Change, ghost log: seq<Change>, ghost rest: map<string, Manifest>)
      requires |log| <= LAST && Holds(log, rest)
      modifies bs
      ensures Holds(log + [c], rest)
    {
      var current := Latest(log, rest);
      Whole(log);
      var _ := Attempt(c, current, |log|, log, rest);
    }
  }

  lemma OutcomeNext(log: seq<Change>, c: Change)
    ensures Outcome(log + [c]) == Changed(c, Outcome(log))
  {
    SliceOfConcat(log, [c], |log|);
    Whole(log);
  }

  function Flat(groups: seq<seq<Change>>): seq<Change> {
    if groups == [] then [] else groups[0] + Flat(groups[1..])
  }

  /** How many attempts meet a rival before one does not. */
  function Contested(rivals: seq<seq<Change>>, maxRetries: nat): (n: nat)
    ensures n <= maxRetries && n <= |rivals|
  {
    if maxRetries == 0 || rivals == [] || rivals[0] == [] then 0 else 1 + Contested(rivals[1..], maxRetries - 1)
  }

  lemma {:induction false} FlatConcat(a: seq<seq<Change>>, b: seq<seq<Change>>)
    ensures Flat(a + b) == Flat(a) + Flat(b)
  {
    if a == [] {
      assert a + b == b;
    } else {
      assert (a + b)[1..] == a[1..] + b;
      FlatConcat(a[1..], b);
    }
  }

  lemma FlatStep(rivals: seq<seq<Change>>, i: nat)
    requires i <= |rivals|
    ensures i < |rivals| ==> Flat(rivals[..i + 1]) == Flat(rivals[..i]) + rivals[i]
    ensures i < |rivals| ==> Flat(rivals[i..]) == rivals[i] + Flat(rivals[i + 1..])
  {
    if i < |rivals| {
      assert rivals[..i + 1] == rivals[..i] + [rivals[i]];
      FlatConcat(rivals[..i], [rivals[i]]);
      assert Flat([rivals[i]]) == rivals[i] + Flat([]) by {
        assert [rivals[i]][1..] == [];
      }
      assert rivals[i..][1..] == rivals[i + 1..];
    }
  }

  lemma {:induction false} ContestedStep(rivals: seq<seq<Change>>, maxRetries: nat, i: nat)
    requires i < maxRetries && i <= Contested(rivals, maxRetries)
    ensures i < |rivals| && rivals[i] != [] ==> i + 1 <= Contested(rivals, maxRetries)
    ensures i >= |rivals| || rivals[i] == [] ==> i == Contested(rivals, maxRetries)
  {
    if i > 0 {
      ContestedStep(rivals[1..], maxRetries - 1, i - 1);
    }
  }
}
