/** What opening does with a file: new, version 2, or the older log of one document per line. */
module Migration {
  import opened Bytes
  import opened Sequences
  import opened WalLog

  const MAGIC: u32 := 0x53334C57

  /** The scanner's buffer: a line of this length or more is an error. */
  const MAX_LINE: nat := 0x40_0000

  /** The position of the first line feed, or the end. */
  function LineEnd(s: bytes): (n: nat)
    ensures n <= |s|
  {
    if s == [] || s[0] == 10 then 0 else 1 + LineEnd(s[1..])
  }

  function DropCR(line: bytes): bytes {
    if line != [] && line[|line| - 1] == 13 then line[..|line| - 1] else line
  }

  /** What follows the first line. */
  function NextLines(s: bytes): bytes {
    var n := LineEnd(s);
    if n < |s| then s[n + 1..] else []
  }

  /** The lines that are valid JSON, unless one is too long. */
  function ValidLines(valid: bytes -> bool, s: bytes): Option<seq<bytes>>
    decreases |s|
  {
    if s == [] then Some([])
    else if LineEnd(s) >= MAX_LINE then None
    else
      match ValidLines(valid, NextLines(s))
      case None => None
      case Some(rest) =>
        var line := DropCR(s[..LineEnd(s)]);
        Some((if line != [] && valid(line) then [line] else []) + rest)
  }

  /** The compact forms, if every payload has one. */
  function CompactAll(compact: bytes -> Option<bytes>, ps: seq<bytes>): Option<seq<bytes>> {
    if ps == [] then Some([])
    else
      var n := |ps| - 1;
      match CompactAll(compact, ps[..n])
      case None => None
      case Some(cs) =>
        match compact(ps[n])
        case None => None
        case Some(c) => Some(cs + [c])
  }

  /** The records of the migrated log. */
  function Migrated(compact: bytes -> Option<bytes>, valid: bytes -> bool, s: bytes): Option<seq<bytes>> {
    match ValidLines(valid, s)
    case None => None
    case Some(ps) => CompactAll(compact, ps)
  }

  /** The file after opening: fresh, as it was, or migrated; None is an error. */
  function OpenedFile(crc: Checksum, compact: bytes -> Option<bytes>, valid: bytes -> bool, existing: bytes):
    (r: Option<bytes>)
    ensures r.Some? ==> |r.value| >= HEADER_SIZE
  {
    if existing == [] then Some(HEADER)
    else if |existing| < HEADER_SIZE then None
    else if GetU32(existing) == MAGIC then Some(existing)
    else
      match Migrated(compact, valid, existing)
      case None => None
      case Some(cs) => Some(HEADER + Frames(crc, cs))
  }

  // ----- What is promised -----

  /** Record i is the compact form of line i, and one line without a compact form fails the migration. */
  lemma {:induction false} CompactedEach(compact: bytes -> Option<bytes>, ps: seq<bytes>)
    ensures CompactAll(compact, ps).Some? <==> forall i | 0 <= i < |ps| :: compact(ps[i]).Some?
    ensures CompactAll(compact, ps).Some? ==> |CompactAll(compact, ps).value| == |ps|
    ensures CompactAll(compact, ps).Some? ==>
              forall i | 0 <= i < |ps| :: compact(ps[i]) == Some(CompactAll(compact, ps).value[i])
  {
    if ps != [] {
      CompactedEach(compact, ps[..|ps| - 1]);
    }
  }

  lemma HeaderHasMagic(rest: bytes)
    ensures GetU32(HEADER + rest) == MAGIC
  {
    U32RoundTrip(MAGIC, [2, 0, 0, 0] + rest);
    Assoc(PutU32(MAGIC), [2, 0, 0, 0], rest);
  }

  /** Opening again changes nothing: a migrated log is not migrated twice. */
  lemma OpenIdempotent(crc: Checksum, compact: bytes -> Option<bytes>, valid: bytes -> bool, existing: bytes)
    requires OpenedFile(crc, compact, valid, existing).Some?
    ensures var file := OpenedFile(crc, compact, valid, existing).value;
            OpenedFile(crc, compact, valid, file) == Some(file)
  {
    var file := OpenedFile(crc, compact, valid, existing).value;
    if existing == [] {
      HeaderHasMagic([]);
      PlusNothing(HEADER);
    } else if GetU32(existing) != MAGIC {
      HeaderHasMagic(Frames(crc, Migrated(compact, valid, existing).value));
    }
  }

  /** Replay of a migrated log delivers the migrated records, and nothing is torn. */
  lemma MigratedReplays(crc: Checksum, compact: bytes -> Option<bytes>, valid: bytes -> bool, existing: bytes)
    requires |existing| >= HEADER_SIZE && GetU32(existing) != MAGIC
    requires Migrated(compact, valid, existing).Some? && AllLoggable(Migrated(compact, valid, existing).value)
    ensures var file := OpenedFile(crc, compact, valid, existing).value;
            Records(crc, file) == Migrated(compact, valid, existing).value && Repaired(crc, file) == file
  {
    var cs := Migrated(compact, valid, existing).value;
    ScanFrames(crc, cs, []);
    PlusNothing(Frames(crc, cs));
    PlusNothing(cs);
    assert (HEADER + Frames(crc, cs))[HEADER_SIZE..] == Frames(crc, cs);
  }

  /** The older log: every document on a line of its own. */
  function OnLines(docs: seq<bytes>): bytes {
    if docs == [] then [] else docs[0] + [10] + OnLines(docs[1..])
  }

  /** A document that one line can hold. */
  ghost predicate OneLine(doc: bytes) {
    doc != [] && |doc| < MAX_LINE && doc[|doc| - 1] != 13 && NoFeed(doc)
  }

  ghost predicate NoFeed(line: bytes) {
    forall i | 0 <= i < |line| :: line[i] != 10
  }

  lemma {:induction false} LineFound(line: bytes, rest: bytes)
    requires NoFeed(line)
    ensures LineEnd(line + [10] + rest) == |line| && NextLines(line + [10] + rest) == rest
    ensures (line + [10] + rest)[..|line|] == line
  {
    var s := line + [10] + rest;
    if line != [] {
      assert s[1..] == line[1..] + [10] + rest;
      LineFound(line[1..], rest);
    }
    assert s[|line| + 1..] == rest;
  }

  lemma {:induction false} LastLineFound(line: bytes)
    requires NoFeed(line)
    ensures LineEnd(line) == |line|
  {
    if line != [] {
      LastLineFound(line[1..]);
    }
  }

  /** A line without the carriage return it may end in is kept if it is a document. */
  function Cleaned(valid: bytes -> bool, lines: seq<bytes>): seq<bytes> {
    if lines == [] then [] else Kept(valid, DropCR(lines[0])) + Cleaned(valid, lines[1..])
  }

  function Kept(valid: bytes -> bool, doc: bytes): seq<bytes> {
    if doc == [] then [] else if valid(doc) then [doc] else []
  }

  ghost predicate AllShort(lines: seq<bytes>) {
    forall i | 0 <= i < |lines| :: |lines[i]| < MAX_LINE
  }

  lemma AllShortOf(line: bytes, lines: seq<bytes>)
    ensures AllShort([line] + lines) <==> |line| < MAX_LINE && AllShort(lines)
  {
    var all := [line] + lines;
    assert all[0] == line;
    if AllShort(all) {
      forall i | 0 <= i < |lines|
        ensures |lines[i]| < MAX_LINE
      {
        assert all[i + 1] == lines[i];
      }
    }
  }

  lemma LineTaken(valid: bytes -> bool, line: bytes, rest: bytes)
    requires NoFeed(line)
    ensures ValidLines(valid, line + [10] + rest)
         == if |line| >= MAX_LINE then None else Behind(Kept(valid, DropCR(line)), ValidLines(valid, rest))
  {
    LineFound(line, rest);
  }

  lemma LastLineTaken(valid: bytes -> bool, line: bytes)
    requires NoFeed(line)
    ensures ValidLines(valid, line) == if |line| >= MAX_LINE then None else Some(Kept(valid, DropCR(line)))
  {
    LastLineFound(line);
    Whole(line);
    PlusNothing(Kept(valid, DropCR(line)));
  }

  /**
   * Whatever a log's lines are, with or without a line feed behind the last: migration fails if and only if one is
   * too long, and otherwise leaves out the empty and invalid ones and goes on behind them.
   */
  lemma {:induction false} LinesCleaned(valid: bytes -> bool, lines: seq<bytes>, last: bytes)
    requires NoFeed(last) && forall i | 0 <= i < |lines| :: NoFeed(lines[i])
    ensures ValidLines(valid, OnLines(lines) + last)
         == if AllShort(lines + [last]) then Some(Cleaned(valid, lines + [last])) else None
    decreases |lines|
  {
    if lines == [] {
      NothingPlus(last);
      NothingPlus([last]);
      LastLineTaken(valid, last);
      PlusNothing(Kept(valid, DropCR(last)));
      assert AllShort([last]) <==> |[last][0]| < MAX_LINE;
    } else {
      var line, later := lines[0], lines[1..];
      LinesCleaned(valid, later, last);
      HeadAndTail(lines);
      Assoc([line], later, [last]);
      Assoc(line + [10], OnLines(later), last);
      LineTaken(valid, line, OnLines(later) + last);
      AllShortOf(line, later + [last]);
      CleanedNext(valid, line, later + [last]);
    }
  }

  lemma CleanedNext(valid: bytes -> bool, line: bytes, lines: seq<bytes>)
    ensures Cleaned(valid, [line] + lines) == Kept(valid, DropCR(line)) + Cleaned(valid, lines)
  {
    assert ([line] + lines)[1..] == lines;
  }

  /** The documents of the older log are the lines that migration keeps, in order. */
  lemma {:induction false} LinesRead(valid: bytes -> bool, docs: seq<bytes>)
    requires forall i | 0 <= i < |docs| :: OneLine(docs[i]) && valid(docs[i])
    ensures ValidLines(valid, OnLines(docs)) == Some(docs)
  {
    if docs != [] {
      LinesRead(valid, docs[1..]);
      LineFound(docs[0], OnLines(docs[1..]));
      HeadAndTail(docs);
    }
  }

  /** A log of the older format is opened as the same documents in their compact form. */
  lemma OldLogReplays(crc: Checksum, compact: bytes -> Option<bytes>, valid: bytes -> bool, docs: seq<bytes>)
    requires forall i | 0 <= i < |docs| :: OneLine(docs[i]) && valid(docs[i])
    requires CompactAll(compact, docs).Some? && AllLoggable(CompactAll(compact, docs).value)
    requires |OnLines(docs)| >= HEADER_SIZE && GetU32(OnLines(docs)) != MAGIC
    ensures OpenedFile(crc, compact, valid, OnLines(docs)).Some?
    ensures Records(crc, OpenedFile(crc, compact, valid, OnLines(docs)).value) == CompactAll(compact, docs).value
  {
    LinesRead(valid, docs);
    MigratedReplays(crc, compact, valid, OnLines(docs));
  }

  // ----- The loops -----

  /** Lines kept so far in front of those to come. */
  function Behind(records: seq<bytes>, rest: Option<seq<bytes>>): Option<seq<bytes>> {
    if rest.None? then None else Some(records + rest.value)
  }

  method ScanLines(valid: bytes -> bool, s: bytes) returns (r: Option<seq<bytes>>)
    ensures r == ValidLines(valid, s)
  {
    var records: seq<bytes> := [];
    var rest := s;
    if ValidLines(valid, s).Some? {
      NothingPlus(ValidLines(valid, s).value);
    }
    while rest != []
      invariant Behind(records, ValidLines(valid, rest)) == ValidLines(valid, s)
      decreases |rest|
    {
      var n := LineEnd(rest);
      if n >= MAX_LINE {
        return None;
      }
      ghost var later := ValidLines(valid, NextLines(rest));
      var line := DropCR(rest[..n]);
      if line != [] && valid(line) {
        if later.Some? {
          Assoc(records, [line], later.value);
        }
        records := records + [line];
      } else if later.Some? {
        NothingPlus(later.value);
      }
      rest := NextLines(rest);
    }
    PlusNothing(records);
    return Some(records);
  }

  lemma {:induction false} CompactFails(compact: bytes -> Option<bytes>, ps: seq<bytes>, i: nat)
    requires i <= |ps| && CompactAll(compact, ps[..i]).None?
    ensures CompactAll(compact, ps).None?
    decreases |ps|
  {
    if i == |ps| {
      Whole(ps);
    } else {
      var n := |ps| - 1;
      assert ps[..n][..i] == ps[..i];
      CompactFails(compact, ps[..n], i);
    }
  }
}
