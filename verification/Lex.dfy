/** Strings in byte order, as sort.Strings and the term dictionary keep them. */
module Lex {
  import opened Sequences

  predicate Less(a: string, b: string) {
    b != [] && (a == [] || a[0] < b[0] || (a[0] == b[0] && Less(a[1..], b[1..])))
  }

  lemma FirstDecides(a: string, b: string)
    requires a != [] && b != [] && a[0] < b[0]
    ensures Less(a, b)
  {
  }

  predicate AtMost(a: string, b: string) {
    a == b || Less(a, b)
  }

  lemma {:induction false} Irreflexive(a: string)
    ensures !Less(a, a)
  {
    if a != [] {
      Irreflexive(a[1..]);
    }
  }

  lemma {:induction false} Total(a: string, b: string)
    ensures a == b || Less(a, b) || Less(b, a)
  {
    if a != [] && b != [] && a[0] == b[0] {
      Total(a[1..], b[1..]);
      if a[1..] == b[1..] {
        assert a == [a[0]] + a[1..] && b == [b[0]] + b[1..];
      }
    }
  }

  lemma {:induction false} Transitive(a: string, b: string, c: string)
    requires Less(a, b) && Less(b, c)
    ensures Less(a, c)
  {
    if a != [] && a[0] == b[0] && b[0] == c[0] {
      Transitive(a[1..], b[1..], c[1..]);
    }
  }

  /** Order is decided behind a common prefix. */
  lemma {:induction false} CommonPrefix(p: string, a: string, b: string)
    ensures Less(p + a, p + b) == Less(a, b)
  {
    if p == [] {
      assert p + a == a && p + b == b;
    } else {
      assert (p + a)[1..] == p[1..] + a && (p + b)[1..] == p[1..] + b;
      CommonPrefix(p[1..], a, b);
    }
  }

  /** Between strings of one length, what follows does not matter. */
  lemma {:induction false} EqualLength(a: string, b: string, x: string, y: string)
    requires |a| == |b| && Less(a, b)
    ensures Less(a + x, b + y)
  {
    assert (a + x)[1..] == a[1..] + x && (b + y)[1..] == b[1..] + y;
    if a[0] == b[0] {
      EqualLength(a[1..], b[1..], x, y);
    }
  }

  ghost predicate Sorted(ks: seq<string>) {
    forall i, j | 0 <= i < j < |ks| :: AtMost(ks[i], ks[j])
  }

  ghost predicate StrictlySorted(ks: seq<string>) {
    forall i, j | 0 <= i < j < |ks| :: Less(ks[i], ks[j])
  }

  /** The greatest of a set of keys. */
  ghost predicate Greatest(k: string, keys: set<string>) {
    k in keys && forall x <- keys :: AtMost(x, k)
  }

  function Insert(k: string, ks: seq<string>): seq<string> {
    if ks == [] || AtMost(k, ks[0]) then [k] + ks else [ks[0]] + Insert(k, ks[1..])
  }

  lemma {:induction false} InsertSorts(k: string, ks: seq<string>)
    requires Sorted(ks)
    ensures Sorted(Insert(k, ks)) && multiset(Insert(k, ks)) == multiset(ks) + multiset{k}
  {
    if ks == [] {
    } else if AtMost(k, ks[0]) {
      forall j | 0 <= j < |ks|
        ensures AtMost(k, ks[j])
      {
        if k != ks[0] && ks[0] != ks[j] {
          Transitive(k, ks[0], ks[j]);
        }
      }
    } else {
      Total(k, ks[0]);
      InsertSorts(k, ks[1..]);
      assert ks == [ks[0]] + ks[1..];
      var rest := Insert(k, ks[1..]);
      forall j | 0 <= j < |rest|
        ensures AtMost(ks[0], rest[j])
      {
        assert rest[j] in multiset(rest);
        if rest[j] != k {
          assert rest[j] in multiset(ks[1..]);
          var i :| 0 <= i < |ks[1..]| && ks[1..][i] == rest[j];
          assert AtMost(ks[0], ks[1 + i]);
        }
      }
    }
  }

  /** sort.Strings. */
  method SortStrings(ks: seq<string>) returns (r: seq<string>)
    ensures Sorted(r) && multiset(r) == multiset(ks)
  {
    r := [];
    for i := 0 to |ks|
      invariant Sorted(r) && multiset(r) == multiset(ks[..i])
    {
      InsertSorts(ks[i], r);
      r := Insert(ks[i], r);
      assert ks[..i + 1] == ks[..i] + [ks[i]];
    }
    assert ks[..|ks|] == ks;
  }

  /** Sorting keys that are all different puts them in strict order. */
  lemma DistinctSorted(ks: seq<string>, r: seq<string>)
    requires Sorted(r) && multiset(r) == multiset(ks)
    requires forall i, j | 0 <= i < j < |ks| :: ks[i] != ks[j]
    ensures StrictlySorted(r)
  {
    forall i, j | 0 <= i < j < |r|
      ensures Less(r[i], r[j])
    {
      NoRepeats(ks, r[j]);
      TwiceCounts(r, i, j);
    }
  }

  lemma {:induction false} NoRepeats(ks: seq<string>, k: string)
    requires forall i, j | 0 <= i < j < |ks| :: ks[i] != ks[j]
    ensures multiset(ks)[k] <= 1
  {
    if ks != [] {
      var n := |ks| - 1;
      assert ks == ks[..n] + [ks[n]];
      NoRepeats(ks[..n], k);
      assert k == ks[n] ==> k !in ks[..n];
    }
  }
}
