/** Small facts about sequences and multisets that the verifier needs pointed out. */
module Sequences {

  lemma SliceOfConcat<T>(a: seq<T>, b: seq<T>, k: nat)
    requires k <= |a|
    ensures (a + b)[k..] == a[k..] + b
    ensures (a + b)[..k] == a[..k]
  {
  }

  lemma Split<T>(a: seq<T>, k: nat)
    requires k <= |a|
    ensures a[..k] + a[k..] == a
  {
  }

  lemma HeadAndTail<T>(a: seq<T>)
    requires a != []
    ensures [a[0]] + a[1..] == a
  {
  }

  lemma Whole<T>(a: seq<T>)
    ensures a[..|a|] == a
  {
  }

  lemma FirstPart<T>(a: seq<T>, b: seq<T>)
    ensures (a + b)[..|a|] == a && a[..|a|] == a && (b == [] ==> a + b == a)
  {
  }

  /** Taking one more element of b behind a. */
  lemma NextBehind<T>(a: seq<T>, b: seq<T>, i: nat)
    requires i < |b|
    ensures a + b[..i] + [b[i]] == a + b[..i + 1]
  {
  }

  lemma NextPrefix<T>(a: seq<T>, i: nat)
    requires i < |a|
    ensures a[..i + 1] == a[..i] + [a[i]]
  {
  }

  lemma BothEmpty<T>(a: seq<T>, b: seq<T>)
    ensures a + b == [] <==> a == [] && b == []
  {
    assert |a + b| == |a| + |b|;
  }

  lemma PlusNothing<T>(a: seq<T>)
    ensures a + [] == a
  {
  }

  lemma NothingPlus<T>(a: seq<T>)
    ensures [] + a == a
  {
  }

  lemma Assoc<T>(a: seq<T>, b: seq<T>, c: seq<T>)
    ensures (a + b) + c == a + (b + c)
  {
  }

  lemma SubBagGrows<T>(a: multiset<T>, p: multiset<T>, t: multiset<T>, x: multiset<T>)
    requires a <= p + t
    ensures a + x <= p + (t + x)
  {
  }

  lemma BagOfConcat<T>(a: seq<T>, b: seq<T>)
    ensures multiset(a + b) == multiset(a) + multiset(b)
  {
  }

  lemma JoinsFirst<T>(a: multiset<T>, b: multiset<T>, c: multiset<T>, x: multiset<T>)
    ensures a + b + c + x == (a + x) + b + c
  {
  }

  /** What stands at two places is counted twice. */
  lemma TwiceCounts<T>(r: seq<T>, i: nat, j: nat)
    requires i < j < |r|
    ensures r[i] == r[j] ==> multiset(r)[r[j]] >= 2
  {
    assert r == r[..j] + r[j..];
    assert r[..j][i] in multiset(r[..j]) && r[j..][0] in multiset(r[j..]);
  }

  /** An element of a part is an element of the whole. */
  lemma PartIn<T>(part: seq<T>, whole: seq<T>, i: nat) returns (k: nat)
    requires multiset(part) <= multiset(whole) && i < |part|
    ensures k < |whole| && whole[k] == part[i]
  {
    assert part[i] in multiset(part);
    assert part[i] in multiset(whole);
    k :| 0 <= k < |whole| && whole[k] == part[i];
  }
}
