/** The write-ahead log object: a file, its write cursor and a 64 KiB write buffer. */
module Wal {
  import opened Bytes
  import opened Sequences
  import opened WalLog
  import opened Migration

  const BUFFER_SIZE: nat := 0x1_0000

  /** encoding/json, as far as the log uses it: whitespace removal and validity. */
  datatype Json = Json(compact: bytes -> Option<bytes>, valid: bytes -> bool)

  /** The payloads among ps that are valid JSON, in order. */
  function ValidOnly(valid: bytes -> bool, ps: seq<bytes>): seq<bytes> {
    if ps == [] then [] else (if valid(ps[0]) then [ps[0]] else []) + ValidOnly(valid, ps[1..])
  }

  /** The outcome of a scan: what it delivers, where it stops and whether it must cut the file. */
  datatype Outcome = Outcome(delivered: seq<bytes>, good: nat, torn: bool)

  /** Going on with the scan at a good offset, after delivering some records. */
  function Resume(crc: Checksum, valid: bytes -> bool, file: bytes, at: nat, delivered: seq<bytes>): Outcome
    requires at <= |file|
  {
    var rest := ScanTail(crc, file[at..]);
    Outcome(delivered + ValidOnly(valid, rest.payloads), at + rest.good, rest.torn)
  }

  lemma ResumeStep(crc: Checksum, valid: bytes -> bool, file: bytes, at: nat, delivered: seq<bytes>)
    requires at <= |file| && NextRecord(crc, file[at..]).Record?
    ensures var p := NextRecord(crc, file[at..]).payload;
            Resume(crc, valid, file, at, delivered)
            == Resume(crc, valid, file, at + RECORD_OVERHEAD + |p|, delivered + if valid(p) then [p] else [])
  {
    var tail := file[at..];
    var p := NextRecord(crc, tail).payload;
    var next := tail[RECORD_OVERHEAD + |p|..];
    assert next == file[at + RECORD_OVERHEAD + |p|..];
    var here, rest := ScanTail(crc, tail), ScanTail(crc, next);
    assert here.payloads[1..] == rest.payloads;
    assert delivered + ValidOnly(valid, here.payloads)
        == delivered + (if valid(p) then [p] else []) + ValidOnly(valid, rest.payloads);
  }

  /** What the whole scan amounts to once no further record follows. */
  lemma ResumeStop(crc: Checksum, valid: bytes -> bool, file: bytes, at: nat, delivered: seq<bytes>)
    requires HEADER_SIZE <= at <= |file| && !NextRecord(crc, file[at..]).Record?
    requires Resume(crc, valid, file, at, delivered) == Resume(crc, valid, file, HEADER_SIZE, [])
    ensures delivered == ValidOnly(valid, Records(crc, file))
    ensures Repaired(crc, file) == if NextRecord(crc, file[at..]).Bad? then file[..at] else file
  {
    assert ValidOnly(valid, []) == [];
    assert delivered + [] == delivered;
  }

  /** Writing p at a cursor: a gap is filled with zeros, later bytes survive. */
  function Overwritten(file: bytes, pos: nat, p: bytes): bytes {
    var room := if pos > |file| then file + seq(pos - |file|, _ => 0) else file;
    room[..pos] + p + (if pos + |p| < |room| then room[pos + |p|..] else [])
  }

  lemma WrittenAtEnd(file: bytes, p: bytes)
    ensures Overwritten(file, |file|, p) == file + p
  {
  }

  lemma FilledUp(file: bytes, buf: bytes, rest: bytes, n: nat)
    requires n <= |rest|
    ensures file + buf + rest == (file + (buf + rest[..n])) + [] + rest[n..]
  {
  }

  class WAL {
    var file: bytes
    var pos: nat
    var buf: bytes
    const crc: Checksum
    const json: Json

    /** Between operations the cursor is at the end of a file that has its header. */
    ghost predicate Valid()
      reads this
    {
      pos == |file| && |file| >= HEADER_SIZE && |buf| <= BUFFER_SIZE
    }

    constructor (existing: bytes, crc: Checksum, json: Json)
      ensures file == existing && pos == 0 && buf == [] && this.crc == crc && this.json == json
    {
      file, pos, buf := existing, 0, [];
      this.crc, this.json := crc, json;
    }

    /** Open: a fresh file gets its header, an older log is migrated, and the cursor is at the end; null is an error. */
    static method Open(existing: bytes, crc: Checksum, json: Json) returns (w: WAL?)
      ensures w == null <==> OpenedFile(crc, json.compact, json.valid, existing).None?
      ensures w != null ==> fresh(w) && w.Valid() && w.buf == [] && w.crc == crc && w.json == json
      ensures w != null ==> Some(w.file) == OpenedFile(crc, json.compact, json.valid, existing)
    {
      var log := new WAL(existing, crc, json);
      if |existing| == 0 {
        log.WriteHeader();
        NothingPlus(HEADER);
        return log;
      }
      if |existing| < HEADER_SIZE {
        return null;
      }
      if GetU32(existing) != MAGIC {
        var ok := log.MigrateV1ToV2();
        if !ok {
          return null;
        }
      }
      log.pos := |log.file|;
      return log;
    }

    /** Rewrites the lines that are valid JSON as records. */
    method MigrateV1ToV2() returns (ok: bool)
      modifies this
      ensures ok <==> Migrated(json.compact, json.valid, old(file)).Some?
      ensures ok ==> Valid() && buf == []
      ensures ok ==> file == HEADER + Frames(crc, Migrated(json.compact, json.valid, old(file)).value)
      ensures !ok ==> if ValidLines(json.valid, old(file)).None? then file == old(file) else HEADER <= file
    {
      var records := ScanLines(json.valid, file);
      if records.None? {
        return false;
      }
      Reset();
      ok := AppendAll(records.value);
      if ok {
        Flush();
      }
    }

    /** Empties the file and writes the header. */
    method Reset()
      modifies this
      ensures Valid() && file == HEADER && buf == []
    {
      file, pos, buf := [], 0, [];
      WriteHeader();
      NothingPlus(HEADER);
    }

    method AppendAll(records: seq<bytes>) returns (ok: bool)
      requires Valid() && file == HEADER && buf == []
      modifies this
      ensures ok <==> CompactAll(json.compact, records).Some?
      ensures ok ==> Valid() && file + buf == HEADER + Frames(crc, CompactAll(json.compact, records).value)
      ensures HEADER <= file
    {
      ghost var logged: seq<bytes> := [];
      for i := 0 to |records|
        invariant Valid() && CompactAll(json.compact, records[..i]) == Some(logged)
        invariant file + buf == HEADER + Frames(crc, logged) && HEADER <= file
      {
        assert records[..i + 1][..i] == records[..i];
        ok := Append(records[i]);
        if !ok {
          CompactFails(json.compact, records, i + 1);
          return;
        }
        ghost var c := json.compact(records[i]).value;
        FramesSnoc(crc, logged, c);
        Assoc(HEADER, Frames(crc, logged), Frame(crc, c));
        logged := logged + [c];
      }
      Whole(records);
      return true;
    }

    method FileWrite(p: bytes)
      modifies this`file, this`pos
      ensures file == Overwritten(old(file), old(pos), p) && pos == old(pos) + |p|
    {
      file := Overwritten(file, pos, p);
      pos := pos + |p|;
    }

    /**
     * bufio.Writer.Write. Nothing reaches the file exactly when the bytes fit
     * beside those already buffered.
     */
    method BufWrite(p: bytes)
      requires pos == |file| && |buf| <= BUFFER_SIZE
      modifies this
      ensures pos == |file| && |buf| <= BUFFER_SIZE
      ensures file + buf == old(file) + old(buf) + p && old(file) <= file
      ensures file == old(file) <==> |old(buf)| + |p| <= BUFFER_SIZE
    {
      var rest := p;
      while |rest| > BUFFER_SIZE - |buf|
        invariant pos == |file| && |buf| <= BUFFER_SIZE
        invariant file + buf + rest == old(file) + old(buf) + p && old(file) <= file
        invariant file == old(file) ==> rest == p && buf == old(buf)
        invariant file != old(file) ==> |old(buf)| + |p| > BUFFER_SIZE
        decreases |rest|, |buf|
      {
        if |buf| == 0 {
          FileWrite(rest);
          rest := [];
        } else {
          var n := BUFFER_SIZE - |buf|;
          var chunk := buf + rest[..n];
          FilledUp(file, buf, rest, n);
          FileWrite(chunk);
          buf, rest := [], rest[n..];
        }
      }
      buf := buf + rest;
    }

    method BufFlush()
      requires pos == |file|
      modifies this
      ensures file == old(file) + old(buf) && buf == [] && pos == |file|
    {
      FileWrite(buf);
      buf := [];
    }

    /** A framed record is buffered; invalid JSON is refused and leaves everything as it was. */
    method Append(rawJSON: bytes) returns (ok: bool)
      requires Valid()
      modifies this
      ensures Valid() && ok == json.compact(rawJSON).Some?
      ensures !ok ==> file == old(file) && buf == old(buf)
      ensures ok ==>
                var frame := Frame(crc, json.compact(rawJSON).value);
                && file + buf == old(file) + old(buf) + frame && old(file) <= file
                && (file == old(file) <==> |old(buf)| + |frame| <= BUFFER_SIZE)
    {
      var compact := json.compact(rawJSON);
      if compact.None? {
        return false;
      }
      var payload := compact.value;
      BufWrite(PutU32(|payload| % 0x1_0000_0000) + PutU32(crc(payload)));
      BufWrite(payload);
      return true;
    }

    method Flush()
      requires Valid()
      modifies this
      ensures Valid() && file == old(file) + old(buf) && buf == []
    {
      BufFlush();
    }

    /** Delivers the valid records in order and repairs the file. */
    method Replay() returns (delivered: seq<bytes>)
      requires Valid() && buf == []
      modifies this
      ensures Valid() && buf == [] && file == Repaired(crc, old(file))
      ensures delivered == ValidOnly(json.valid, Records(crc, old(file)))
    {
      delivered := [];
      var goodOffset := HEADER_SIZE;
      while true
        invariant Valid() && file == old(file) && buf == [] && HEADER_SIZE <= goodOffset <= |file|
        invariant Resume(crc, json.valid, file, goodOffset, delivered) == Resume(crc, json.valid, file, HEADER_SIZE, [])
        decreases |file| - goodOffset
      {
        match NextRecord(crc, file[goodOffset..])
        case End =>
          ResumeStop(crc, json.valid, file, goodOffset, delivered);
          // Reading up to the end of the file has left the cursor there.
          pos := |file|;
          return;
        case Bad =>
          ResumeStop(crc, json.valid, file, goodOffset, delivered);
          TruncateToOffset(goodOffset);
          return;
        case Record(payload) =>
          ResumeStep(crc, json.valid, file, goodOffset, delivered);
          goodOffset := goodOffset + RECORD_OVERHEAD + |payload|;
          delivered := delivered + if json.valid(payload) then [payload] else [];
      }
    }

    method DiscardBuffer()
      requires Valid()
      modifies this`buf
      ensures Valid() && buf == []
    {
      buf := [];
    }

    method Truncate()
      requires Valid()
      modifies this
      ensures Valid() && file == HEADER && buf == []
    {
      BufFlush();
      Reset();
    }

    method WriteHeader()
      requires pos == |file| && |buf| <= BUFFER_SIZE
      modifies this
      ensures pos == |file| && buf == [] && file == old(file) + old(buf) + HEADER
    {
      BufWrite(HEADER);
      BufFlush();
    }

    /** The size of the file once everything buffered is in it. */
    method Position() returns (off: nat)
      requires Valid()
      modifies this
      ensures Valid() && file == old(file) + old(buf) && buf == [] && off == |file|
    {
      BufFlush();
      off := |file|;
    }

    method TruncatePrefix(off: nat)
      requires Valid()
      modifies this
      ensures Valid()
      ensures off <= HEADER_SIZE ==> file == old(file) && buf == old(buf)
      ensures off > HEADER_SIZE ==> file == PrefixRemoved(old(file) + old(buf), off) && buf == []
    {
      if off <= HEADER_SIZE {
        return;
      }
      BufFlush();
      var size := |file|;
      if off >= size {
        Truncate();
        return;
      }
      var tail := file[off..];
      Reset();
      WrittenAtEnd(HEADER, tail);
      FileWrite(tail);
      pos := |file|;
    }

    method IsEmpty() returns (empty: bool)
      ensures empty == (|file| <= HEADER_SIZE)
    {
      empty := |file| <= HEADER_SIZE;
    }

    method TruncateToOffset(off: nat)
      requires off <= |file|
      modifies this
      ensures file == old(file)[..off] && pos == off && buf == []
    {
      file := file[..off];
      pos := off;
      buf := [];
    }
  }
}
