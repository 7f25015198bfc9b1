/** Ascending lists of uint32 values. */
module Numbers {
  import opened Bytes

  ghost predicate Ascending(ns: seq<u32>) {
    forall i, j | 0 <= i < j < |ns| :: ns[i] < ns[j]
  }

  function Insert(n: u32, ns: seq<u32>): seq<u32> {
    if ns == [] || n <= ns[0] then [n] + ns else [ns[0]] + Insert(n, ns[1..])
  }

  /** Insertion sort: sort.Slice by value gives the same list, since equal values are alike. */
  function InOrder(ns: seq<u32>): seq<u32> {
    if ns == [] then [] else Insert(ns[|ns| - 1], InOrder(ns[..|ns| - 1]))
  }

  method SortNumbers(ns: seq<u32>) returns (r: seq<u32>)
    ensures r == InOrder(ns)
  {
    r := [];
    for i := 0 to |ns|
      invariant r == InOrder(ns[..i])
    {
      assert ns[..i + 1][..i] == ns[..i];
      r := Insert(ns[i], r);
    }
    assert ns[..|ns|] == ns;
  }

  lemma {:induction false} InsertLast(n: u32, ns: seq<u32>)
    requires forall i | 0 <= i < |ns| :: ns[i] < n
    ensures Insert(n, ns) == ns + [n]
  {
    if ns != [] {
      InsertLast(n, ns[1..]);
    }
  }

  /** A list already in order stays as it is. */
  lemma {:induction false} AscendingStays(ns: seq<u32>)
    requires Ascending(ns)
    ensures InOrder(ns) == ns
  {
    if ns != [] {
      var n := |ns| - 1;
      AscendingStays(ns[..n]);
      InsertLast(ns[n], ns[..n]);
    }
  }

  lemma Ahead(x: u32, xs: seq<u32>)
    requires Ascending(xs) && (xs == [] || x < xs[0])
    ensures Ascending([x] + xs)
  {
  }

  lemma {:induction false} InsertNew(n: u32, ns: seq<u32>)
    requires Ascending(ns) && n !in ns
    ensures Ascending(Insert(n, ns)) && Insert(n, ns) != []
    ensures Insert(n, ns)[0] == if ns == [] || n <= ns[0] then n else ns[0]
    ensures forall x: u32 :: x in Insert(n, ns) <==> x == n || x in ns
  {
    if ns == [] || n <= ns[0] {
      Ahead(n, ns);
    } else {
      var rest := Insert(n, ns[1..]);
      assert ns == [ns[0]] + ns[1..];
      InsertNew(n, ns[1..]);
      Ahead(ns[0], rest);
    }
  }

  /** Distinct numbers come out in order and none is lost. */
  lemma {:induction false} DistinctInOrder(ns: seq<u32>)
    requires Distinct(ns)
    ensures Ascending(InOrder(ns)) && forall x: u32 :: x in InOrder(ns) <==> x in ns
  {
    if ns != [] {
      var n := |ns| - 1;
      DistinctInOrder(ns[..n]);
      assert ns == ns[..n] + [ns[n]];
      InsertNew(ns[n], InOrder(ns[..n]));
    }
  }

  ghost predicate NonDescending(ns: seq<u32>) {
    forall i, j | 0 <= i < j < |ns| :: ns[i] <= ns[j]
  }

  lemma InFront(n: u32, ns: seq<u32>)
    requires NonDescending(ns) && (ns == [] || n <= ns[0])
    ensures NonDescending([n] + ns)
  {
  }

  lemma {:induction false} InsertSorts(n: u32, ns: seq<u32>)
    requires NonDescending(ns)
    ensures NonDescending(Insert(n, ns))
    ensures Insert(n, ns) != [] && Insert(n, ns)[0] == if ns == [] || n <= ns[0] then n else ns[0]
  {
    if ns == [] || n <= ns[0] {
      InFront(n, ns);
    } else {
      InsertSorts(n, ns[1..]);
      InFront(ns[0], Insert(n, ns[1..]));
    }
  }

  lemma {:induction false} InsertAdds(n: u32, ns: seq<u32>)
    ensures multiset(Insert(n, ns)) == multiset(ns) + multiset{n}
  {
    if ns != [] && n > ns[0] {
      InsertAdds(n, ns[1..]);
      assert ns == [ns[0]] + ns[1..];
    }
  }

  /** Any list comes out sorted, with every number as often as before. */
  lemma {:induction false} InOrderSorts(ns: seq<u32>)
    ensures NonDescending(InOrder(ns)) && multiset(InOrder(ns)) == multiset(ns)
  {
    if ns != [] {
      var n := |ns| - 1;
      InOrderSorts(ns[..n]);
      InsertSorts(ns[n], InOrder(ns[..n]));
      InsertAdds(ns[n], InOrder(ns[..n]));
      assert ns == ns[..n] + [ns[n]];
    }
  }

  ghost predicate Distinct<T(!new)>(xs: seq<T>) {
    forall i, j | 0 <= i < j < |xs| :: xs[i] != xs[j]
  }

  /** The members of a set, in the order a map iteration happens to give them. */
  method Listed<T(!new)>(s: set<T>) returns (r: seq<T>)
    ensures Distinct(r) && forall x :: x in r <==> x in s
  {
    r := [];
    var rest := s;
    while rest != {}
      invariant rest <= s && Distinct(r) && forall x :: x in r <==> x in s && x !in rest
      decreases |rest|
    {
      var x :| x in rest;
      r, rest := r + [x], rest - {x};
    }
  }
}
