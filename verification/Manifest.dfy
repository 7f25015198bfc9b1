/** Manifests, the keys they are stored under and the changes writers make to them. */
module Manifest {
  import opened Lex

  datatype SegmentMeta = SegmentMeta(
    id: string, docCount: nat, size: int, createdAt: int, delVersion: nat, deleted: bool)

  datatype Manifest = Manifest(version: nat, segments: seq<SegmentMeta>)

  /** The segments that are not marked deleted, in order. */
  function ActiveSegments(segs: seq<SegmentMeta>): seq<SegmentMeta> {
    if segs == [] then []
    else (if segs[0].deleted then [] else [segs[0]]) + ActiveSegments(segs[1..])
  }

  /** What a writer publishes: the transforms of flush, compaction and delete-by-query by name, or any other. */
  datatype Change =
    | AppendSegment(meta: SegmentMeta)
    | Merge(sources: set<string>, merged: SegmentMeta)
    | Retire(sources: set<string>)
    | BumpDeletes(versions: map<string, nat>)
    | Transform(fn: seq<SegmentMeta> -> seq<SegmentMeta>)

  function MarkDeleted(segs: seq<SegmentMeta>, sources: set<string>): (r: seq<SegmentMeta>)
    ensures |r| == |segs|
  {
    seq(|segs|, i requires 0 <= i < |segs| =>
      if segs[i].id in sources then segs[i].(deleted := true) else segs[i])
  }

  function Bumped(segs: seq<SegmentMeta>, versions: map<string, nat>): (r: seq<SegmentMeta>)
    ensures |r| == |segs|
  {
    seq(|segs|, i requires 0 <= i < |segs| =>
      if segs[i].id in versions then segs[i].(delVersion := versions[segs[i].id]) else segs[i])
  }

  function Changed(c: Change, segs: seq<SegmentMeta>): seq<SegmentMeta> {
    match c
    case AppendSegment(meta) => segs + [meta]
    case Merge(sources, merged) => MarkDeleted(segs, sources) + [merged]
    case Retire(sources) => MarkDeleted(segs, sources)
    case BumpDeletes(versions) => Bumped(segs, versions)
    case Transform(fn) => fn(segs)
  }

  /** The segment list after a history of changes. */
  function Outcome(log: seq<Change>): seq<SegmentMeta> {
    if log == [] then [] else Changed(log[|log| - 1], Outcome(log[..|log| - 1]))
  }

  // ----- Keys -----

  function Digit(d: nat): char
    requires d < 10
  {
    '0' + d as char
  }

  function Decimal(v: nat): (s: string)
    ensures |s| > 0
  {
    if v < 10 then [Digit(v)] else Decimal(v / 10) + [Digit(v % 10)]
  }

  function Zeros(n: nat): (s: string)
    ensures |s| == n
  {
    if n == 0 then "" else ['0'] + Zeros(n - 1)
  }

  const WIDTH: nat := 6

  /** The last version whose key has six digits. */
  const LAST: nat := 999_999

  /** The format %06d. */
  function Padded(v: nat): string {
    var d := Decimal(v);
    if |d| < WIDTH then Zeros(WIDTH - |d|) + d else d
  }

  function Key(index: string, v: nat): string {
    index + "/manifest-" + (Padded(v) + ".json")
  }

  /** The low w decimal digits. */
  function Fixed(v: nat, w: nat): (s: string)
    ensures |s| == w
    decreases w
  {
    if w == 0 then "" else Fixed(v / 10, w - 1) + [Digit(v % 10)]
  }

  function Pow10(w: nat): (n: nat)
    ensures n > 0
  {
    if w == 0 then 1 else 10 * Pow10(w - 1)
  }

  lemma {:induction false} ZerosSnoc(n: nat)
    ensures Zeros(n + 1) == Zeros(n) + ['0']
  {
    if n > 0 {
      ZerosSnoc(n - 1);
    }
  }

  lemma {:induction false} FixedZero(w: nat)
    ensures Fixed(0, w) == Zeros(w)
  {
    if w > 0 {
      FixedZero(w - 1);
      ZerosSnoc(w - 1);
    }
  }

  lemma {:induction false} FixedIsPadded(v: nat, w: nat)
    requires 0 < w && v < Pow10(w)
    ensures |Decimal(v)| <= w && Fixed(v, w) == Zeros(w - |Decimal(v)|) + Decimal(v)
  {
    if v < 10 {
      FixedZero(w - 1);
    } else {
      FixedIsPadded(v / 10, w - 1);
    }
  }

  lemma {:induction false} FixedOrder(a: nat, b: nat, w: nat)
    requires a < b < Pow10(w)
    ensures Less(Fixed(a, w), Fixed(b, w))
  {
    var x, y := Fixed(a / 10, w - 1), Fixed(b / 10, w - 1);
    if a / 10 < b / 10 {
      FixedOrder(a / 10, b / 10, w - 1);
      EqualLength(x, y, [Digit(a % 10)], [Digit(b % 10)]);
    } else {
      CommonPrefix(x, [Digit(a % 10)], [Digit(b % 10)]);
    }
  }

  lemma PaddedFixed(v: nat)
    requires v <= LAST
    ensures Padded(v) == Fixed(v, WIDTH)
  {
    assert Pow10(3) == 1000 && Pow10(6) == 1_000_000;
    FixedIsPadded(v, WIDTH);
  }

  /** Up to 999999, key order is version order. */
  lemma KeyOrder(index: string, a: nat, b: nat)
    requires a < b <= LAST
    ensures Less(Key(index, a), Key(index, b))
  {
    assert Pow10(3) == 1000 && Pow10(6) == 1_000_000;
    PaddedFixed(a);
    PaddedFixed(b);
    FixedOrder(a, b, WIDTH);
    EqualLength(Padded(a), Padded(b), ".json", ".json");
    CommonPrefix(index + "/manifest-", Padded(a) + ".json", Padded(b) + ".json");
  }

  lemma LastPadded()
    ensures Padded(LAST) == "999999"
  {
    PaddedFixed(LAST);
    assert Fixed(99, 2) == "99";
    assert Fixed(9999, 4) == "9999";
  }

  lemma SevenPadded()
    ensures Padded(LAST + 1) == "1000000"
  {
    assert Decimal(100) == "100";
    assert Decimal(10_000) == "10000";
    assert Decimal(1_000_000) == "1000000";
  }

  /** The first key with seven digits sorts before the last with six. */
  lemma SevenDigitsSortFirst(index: string)
    ensures Less(Key(index, LAST + 1), Key(index, LAST))
  {
    LastPadded();
    SevenPadded();
    FirstDecides("1000000" + ".json", "999999" + ".json");
    CommonPrefix(index + "/manifest-", "1000000" + ".json", "999999" + ".json");
  }

  /** A key of six digits is not one of seven. */
  lemma SevenDigits(index: string, x: nat)
    requires x <= LAST
    ensures Key(index, x) != Key(index, LAST + 1)
  {
    PaddedFixed(x);
    assert |Decimal(1_000_000)| == 7 by {
      assert |Decimal(100)| == 3;
      assert |Decimal(10_000)| == 5;
    }
    assert |Key(index, x)| == |index + "/manifest-"| + WIDTH + 5;
    assert |Key(index, LAST + 1)| == |index + "/manifest-"| + 7 + 5;
  }
}
