/** Bytes and the fixed-width little-endian integers of encoding/binary. */
module Bytes {

  type byte = b: int | 0 <= b < 0x100
  type u32 = n: int | 0 <= n < 0x1_0000_0000
  type u64 = n: int | 0 <= n < 0x1_0000_0000_0000_0000
  type bytes = seq<byte>

  datatype Option<+T> = None | Some(value: T)

  /** 256 to the power width. */
  function Span(width: nat): (n: nat)
    ensures n > 0
  {
    if width == 0 then 1 else 0x100 * Span(width - 1)
  }

  lemma Spans()
    ensures Span(4) == 0x1_0000_0000 && Span(8) == 0x1_0000_0000_0000_0000
  {
    assert Span(2) == 0x1_0000;
    assert Span(4) == 0x1_0000_0000;
    assert Span(6) == 0x1_0000_0000_0000;
  }

  /** The low width bytes of v, least significant byte first. */
  function PutLE(v: nat, width: nat): (s: bytes)
    ensures |s| == width
    decreases v, width
  {
    if width == 0 then [] else [v % 0x100] + PutLE(v / 0x100, width - 1)
  }

  function GetLE(s: bytes): (v: nat)
    ensures v < Span(|s|)
  {
    if s == [] then 0 else (s[0] as int) + 0x100 * GetLE(s[1..])
  }

  function PutU32(v: u32): bytes { PutLE(v, 4) }

  function GetU32(s: bytes): u32
    requires |s| >= 4
  {
    Spans();
    GetLE(s[..4])
  }

  function PutU64(v: u64): bytes { PutLE(v, 8) }

  function GetU64(s: bytes): u64
    requires |s| >= 8
  {
    Spans();
    GetLE(s[..8])
  }

  /** Conversion of a length to uint32 or uint64 keeps its low bits. */
  function Low32(n: nat): u32 {
    if n < 0x1_0000_0000 then n else Low32(n - 0x1_0000_0000)
  }

  function Low64(n: nat): u64 {
    if n < 0x1_0000_0000_0000_0000 then n else Low64(n - 0x1_0000_0000_0000_0000)
  }

  lemma {:induction false} LERoundTrip(v: nat, width: nat)
    requires v < Span(width)
    ensures GetLE(PutLE(v, width)) == v
    decreases width
  {
    if width != 0 {
      LERoundTrip(v / 0x100, width - 1);
      assert PutLE(v, width)[1..] == PutLE(v / 0x100, width - 1);
    }
  }

  lemma {:induction false} LEInjective(s: bytes)
    ensures PutLE(GetLE(s), |s|) == s
  {
    if s != [] {
      LEInjective(s[1..]);
      var low: int := s[0];
      assert GetLE(s) == low + 0x100 * GetLE(s[1..]);
      assert GetLE(s) % 0x100 == low && GetLE(s) / 0x100 == GetLE(s[1..]);
    }
  }

  /** Reading back what was put, whatever follows it. */
  lemma U32RoundTrip(v: u32, rest: bytes)
    ensures GetU32(PutU32(v) + rest) == v
  {
    Spans();
    LERoundTrip(v, 4);
    assert (PutU32(v) + rest)[..4] == PutLE(v, 4);
  }

  lemma U64RoundTrip(v: u64, rest: bytes)
    ensures GetU64(PutU64(v) + rest) == v
  {
    Spans();
    LERoundTrip(v, 8);
    assert (PutU64(v) + rest)[..8] == PutLE(v, 8);
  }

  /** Four bytes are determined by the integer they spell. */
  lemma U32Injective(s: bytes)
    requires |s| >= 4
    ensures PutU32(GetU32(s)) == s[..4]
  {
    LEInjective(s[..4]);
  }

  /** The elements at an offset are those of s. */
  ghost predicate At<T>(data: seq<T>, off: nat, s: seq<T>) {
    off + |s| <= |data| && forall i | 0 <= i < |s| :: data[off + i] == s[i]
  }

  lemma AtSplits<T>(data: seq<T>, off: nat, a: seq<T>, b: seq<T>)
    requires At(data, off, a + b)
    ensures At(data, off, a) && At(data, off + |a|, b)
  {
    forall i | 0 <= i < |a|
      ensures data[off + i] == a[i]
    {
      assert (a + b)[i] == a[i];
    }
    forall i | 0 <= i < |b|
      ensures data[off + |a| + i] == b[i]
    {
      assert data[off + (|a| + i)] == (a + b)[|a| + i] == b[i];
    }
  }

  lemma AtGrows(data: bytes, off: nat, s: bytes, more: bytes)
    requires At(data, off, s)
    ensures At(data + more, off, s)
  {
  }

  /** What is written behind other bytes is there. */
  lemma AtEnd(data: bytes, s: bytes, more: bytes)
    ensures At(data + s + more, |data|, s)
  {
  }

  lemma AtWithin(data: bytes, base: nat, section: bytes, off: nat, s: bytes)
    requires At(data, base, section) && At(section, off, s)
    ensures At(data, base + off, s)
  {
    forall i | 0 <= i < |s|
      ensures data[base + off + i] == s[i]
    {
      assert data[base + (off + i)] == section[off + i];
    }
  }

  lemma AtSlice(data: bytes, off: nat, s: bytes)
    requires At(data, off, s)
    ensures data[off..off + |s|] == s
  {
  }

  /** An integer found at an offset. */
  lemma U32At(data: bytes, off: nat, v: u32)
    requires At(data, off, PutU32(v))
    ensures off + 4 <= |data| && GetU32(data[off..]) == v
  {
    AtSlice(data, off, PutU32(v));
    var tail := data[off..];
    assert tail == PutU32(v) + tail[4..];
    U32RoundTrip(v, tail[4..]);
  }

  lemma U64At(data: bytes, off: nat, v: u64)
    requires At(data, off, PutU64(v))
    ensures off + 8 <= |data| && GetU64(data[off..]) == v
  {
    AtSlice(data, off, PutU64(v));
    var tail := data[off..];
    assert tail == PutU64(v) + tail[8..];
    U64RoundTrip(v, tail[8..]);
  }

  /** A range read of an object, clamped to its end. */
  function GetRange(body: bytes, off: nat, length: nat): bytes
    requires off <= |body|
  {
    body[off..if off + length <= |body| then off + length else |body|]
  }

  lemma RangeAt(body: bytes, off: nat, s: bytes)
    requires At(body, off, s)
    ensures GetRange(body, off, |s|) == s
  {
  }

  // ----- Arrays of fixed-width items -----

  function Laid<T>(put: T -> bytes, xs: seq<T>): bytes {
    if xs == [] then [] else put(xs[0]) + Laid(put, xs[1..])
  }

  /** The items of width w that data holds from its start; what is left over is dropped. */
  function Unlaid<T>(get: bytes -> T, w: nat, data: bytes): seq<T>
    requires w > 0
  {
    if |data| < w then [] else [get(data[..w])] + Unlaid(get, w, data[w..])
  }

  lemma {:induction false} LaidRoundTrip<T>(put: T -> bytes, get: bytes -> T, w: nat, xs: seq<T>)
    requires w > 0 && forall x: T {:trigger put(x)} :: |put(x)| == w && get(put(x)) == x
    ensures Unlaid(get, w, Laid(put, xs)) == xs && |Laid(put, xs)| == w * |xs|
  {
    if xs != [] {
      var data, rest := Laid(put, xs), Laid(put, xs[1..]);
      LaidRoundTrip(put, get, w, xs[1..]);
      assert data[..w] == put(xs[0]) && data[w..] == rest;
      assert xs == [xs[0]] + xs[1..];
    }
  }

  method Lay<T>(put: T -> bytes, xs: seq<T>) returns (buf: bytes)
    ensures buf == Laid(put, xs)
  {
    buf := [];
    for i := 0 to |xs|
      invariant buf + Laid(put, xs[i..]) == Laid(put, xs)
    {
      assert xs[i..][1..] == xs[i + 1..];
      assert buf + (put(xs[i]) + Laid(put, xs[i + 1..])) == (buf + put(xs[i])) + Laid(put, xs[i + 1..]);
      buf := buf + put(xs[i]);
    }
  }

  method Unlay<T>(get: bytes -> T, w: nat, data: bytes) returns (xs: seq<T>)
    requires w > 0
    ensures xs == Unlaid(get, w, data)
  {
    xs := [];
    var base := 0;
    while base + w <= |data|
      invariant base <= |data|
      invariant xs + Unlaid(get, w, data[base..]) == Unlaid(get, w, data)
    {
      var rest := data[base..];
      assert rest[w..] == data[base + w..];
      xs := xs + [get(rest[..w])];
      base := base + w;
    }
  }
}
