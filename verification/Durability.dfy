/** Durability of acknowledged documents over every careful run. */
module Durability {
  import opened Bytes
  import opened WalLog
  import opened Ingest
  import opened Sequences

  /**
   * The records in the log and how many of them precede the current memtable.
   */
  datatype Ledger = Ledger(recs: seq<bytes>, base: nat)

  /** The snapshots still to be published. */
  function Unpublished(s: State): seq<bytes> {
    if |s.flights| == 1 && !s.flights[0].published then s.flights[0].snap else []
  }

  /** The log is exactly its records, each loggable and in compact form. */
  ghost predicate WellFormed(e: Engine, s: State, l: Ledger) {
    && s.file == HEADER + Frames(e.crc, l.recs)
    && AllLoggable(l.recs)
    && (forall i | 0 <= i < |l.recs| :: e.json.compact(l.recs[i]) == Some(l.recs[i]))
    && l.base <= |l.recs|
  }

  /** At most one flush is in the air, and its offset is where the memtable's records begin. */
  ghost predicate Aligned(e: Engine, s: State, l: Ledger)
    requires l.base <= |l.recs|
  {
    && |s.flights| <= 1
    && (|s.flights| == 1 ==> s.flights[0].off == HEADER_SIZE + |Frames(e.crc, l.recs[..l.base])|)
  }

  /** The memtable holds what its part of the log would replay, in order unless a batch failed. */
  ghost predicate Mirrored(e: Engine, s: State, l: Ledger)
    requires l.base <= |l.recs|
  {
    && multiset(Taken(e, l.recs[l.base..])) <= Bag(e, s.memtable)
    && (!s.strays ==> Taken(e, l.recs[l.base..]) == NormAll(e, s.memtable))
  }

  /** Where the acknowledged documents are. */
  ghost predicate Covered(e: Engine, s: State, l: Ledger)
    requires l.base <= |l.recs|
  {
    && Bag(e, s.acked) <= Bag(e, s.published) + multiset(Taken(e, l.recs))
    && Bag(e, s.acked)
       <= Bag(e, s.published) + Bag(e, s.lost) + Bag(e, Unpublished(s)) + multiset(Taken(e, l.recs[l.base..]))
  }

  /** Without crashes and failed batches the account balances: nothing is held twice. */
  ghost predicate Exact(e: Engine, s: State, l: Ledger)
    requires l.base <= |l.recs|
  {
    && !s.strays
    && Bag(e, s.acked)
       == Bag(e, s.published) + Bag(e, s.lost) + Bag(e, Unpublished(s)) + multiset(Taken(e, l.recs[l.base..]))
  }

  ghost predicate Inv(e: Engine, s: State, l: Ledger) {
    WellFormed(e, s, l) && Aligned(e, s, l) && Mirrored(e, s, l) && Covered(e, s, l)
  }

  // ----- Sequences of documents -----

  lemma NormAllConcat(e: Engine, a: seq<bytes>, b: seq<bytes>)
    ensures NormAll(e, a + b) == NormAll(e, a) + NormAll(e, b)
    ensures Bag(e, a + b) == Bag(e, a) + Bag(e, b)
  {
    assert NormAll(e, a + b) == NormAll(e, a) + NormAll(e, b);
  }

  lemma {:induction false} TakenConcat(e: Engine, a: seq<bytes>, b: seq<bytes>)
    ensures Taken(e, a + b) == Taken(e, a) + Taken(e, b)
  {
    if a == [] {
      assert a + b == b;
    } else {
      assert (a + b)[1..] == a[1..] + b;
      TakenConcat(e, a[1..], b);
    }
  }

  /** Documents both parsers accept are all taken back from the log. */
  lemma {:induction false} AcceptedAreTaken(e: Engine, docs: seq<bytes>)
    requires Sane(e) && forall i | 0 <= i < |docs| :: Accepted(e, docs[i])
    ensures Taken(e, NormAll(e, docs)) == NormAll(e, docs)
  {
    if docs != [] {
      assert NormAll(e, docs)[1..] == NormAll(e, docs[1..]);
      AcceptedAreTaken(e, docs[1..]);
      assert NormAll(e, docs) == [Norm(e, docs[0])] + NormAll(e, docs[1..]);
    }
  }

  /** What is taken from compact records is already in compact form. */
  lemma {:induction false} TakenIsNormal(e: Engine, ps: seq<bytes>)
    requires forall i | 0 <= i < |ps| :: e.json.compact(ps[i]) == Some(ps[i])
    ensures NormAll(e, Taken(e, ps)) == Taken(e, ps)
  {
    if ps == [] {
      assert NormAll(e, Taken(e, ps)) == [];
    } else {
      TakenIsNormal(e, ps[1..]);
      var head := if e.json.valid(ps[0]) && e.parse(ps[0]) then [ps[0]] else [];
      NormAllConcat(e, head, Taken(e, ps[1..]));
      assert NormAll(e, head) == head;
    }
  }

  /** The documents before the failure are accepted. */
  lemma {:induction false} GoodPrefixAccepted(e: Engine, docs: seq<bytes>)
    ensures forall i | 0 <= i < GoodPrefix(e, docs) :: Accepted(e, docs[i])
    ensures GoodPrefix(e, docs) < |docs| ==> !Accepted(e, docs[GoodPrefix(e, docs)])
  {
    if docs != [] && Accepted(e, docs[0]) {
      GoodPrefixAccepted(e, docs[1..]);
      forall i | 0 <= i < GoodPrefix(e, docs)
        ensures Accepted(e, docs[i])
      {
        if i > 0 {
          assert docs[i] == docs[1..][i - 1];
        }
      }
    }
  }

  // ----- One step at a time -----

  /** Appending records that the memtable takes if and only if the documents were added to it. */
  lemma LogMore(e: Engine, s: State, l: Ledger, docs: seq<bytes>, added: seq<bytes>, s': State)
    requires Sane(e) && Inv(e, s, l) && Fits(e, docs)
    requires forall i | 0 <= i < |docs| :: e.json.compact(docs[i]).Some?
    requires Taken(e, NormAll(e, docs)) == NormAll(e, added)
    requires s' == s.(file := s.file + Encoded(e, docs), memtable := s.memtable + added, acked := s.acked + added)
    ensures Inv(e, s', Ledger(l.recs + NormAll(e, docs), l.base))
    ensures Exact(e, s, l) ==> Exact(e, s', Ledger(l.recs + NormAll(e, docs), l.base))
  {
    var more := NormAll(e, docs);
    var l' := Ledger(l.recs + more, l.base);
    LogMoreWellFormed(e, s, l, more, s');
    SliceOfConcat(l.recs, more, l.base);
    TakenConcat(e, l.recs[l.base..], more);
    NormAllConcat(e, s.memtable, added);
    CoveredGrows(e, s, l, more, added, s');
  }

  lemma LogMoreWellFormed(e: Engine, s: State, l: Ledger, more: seq<bytes>, s': State)
    requires WellFormed(e, s, l) && AllLoggable(more)
    requires forall i | 0 <= i < |more| :: e.json.compact(more[i]) == Some(more[i])
    requires s'.file == s.file + Frames(e.crc, more)
    ensures WellFormed(e, s', Ledger(l.recs + more, l.base))
  {
    FramesConcat(e.crc, l.recs, more);
    Assoc(HEADER, Frames(e.crc, l.recs), Frames(e.crc, more));
    CompactConcat(e, l.recs, more);
  }

  lemma CompactConcat(e: Engine, a: seq<bytes>, b: seq<bytes>)
    requires AllLoggable(a) && AllLoggable(b)
    requires forall i | 0 <= i < |a| :: e.json.compact(a[i]) == Some(a[i])
    requires forall i | 0 <= i < |b| :: e.json.compact(b[i]) == Some(b[i])
    ensures AllLoggable(a + b) && forall i | 0 <= i < |a + b| :: e.json.compact((a + b)[i]) == Some((a + b)[i])
  {
  }

  lemma CoveredGrows(e: Engine, s: State, l: Ledger, more: seq<bytes>, added: seq<bytes>, s': State)
    requires l.base <= |l.recs| && Covered(e, s, l) && Taken(e, more) == NormAll(e, added)
    requires s'.acked == s.acked + added && s'.published == s.published && s'.lost == s.lost
    requires s'.flights == s.flights && s'.strays == s.strays
    ensures Covered(e, s', Ledger(l.recs + more, l.base))
    ensures Exact(e, s, l) ==> Exact(e, s', Ledger(l.recs + more, l.base))
  {
    NormAllConcat(e, s.acked, added);
    TakenConcat(e, l.recs, more);
    TakenConcat(e, l.recs[l.base..], more);
    SliceOfConcat(l.recs, more, l.base);
    var a, p, x := Bag(e, s.acked), Bag(e, s.published), Bag(e, added);
    SubBagGrows(a, p, multiset(Taken(e, l.recs)), x);
    SubBagGrows(a, p + Bag(e, s.lost) + Bag(e, Unpublished(s)), multiset(Taken(e, l.recs[l.base..])), x);
  }

  /** Taking the snapshot moves the whole memtable into the flight. */
  lemma LaunchKeeps(e: Engine, s: State, l: Ledger, background: bool)
    requires Inv(e, s, l) && s.flights == []
    ensures Inv(e, Launch(s, background), Ledger(l.recs, |l.recs|))
    ensures Exact(e, s, l) ==> Exact(e, Launch(s, background), Ledger(l.recs, |l.recs|))
  {
    var l', s' := Ledger(l.recs, |l.recs|), Launch(s, background);
    assert l'.recs[..|l.recs|] == l.recs;
    assert l'.recs[|l.recs|..] == [];
    assert Unpublished(s) == [] && Unpublished(s') == s.memtable;
    assert Bag(e, []) == multiset{};
  }

  lemma LaunchIfDueKeeps(e: Engine, s: State, l: Ledger, due: bool)
    requires Inv(e, s, l) && (due ==> s.flights == [] || Background(s))
    ensures var l' := if due && !Background(s) then Ledger(l.recs, |l.recs|) else l;
            Inv(e, LaunchIfDue(s, due), l') && (Exact(e, s, l) ==> Exact(e, LaunchIfDue(s, due), l'))
  {
    if due && !Background(s) {
      LaunchKeeps(e, s, l, true);
    }
  }

  lemma AddKeeps(e: Engine, s: State, l: Ledger, raw: bytes, due: bool) returns (l': Ledger)
    requires Sane(e) && Inv(e, s, l) && Careful(e, s, Add(raw, due))
    ensures Inv(e, AfterAdd(e, s, raw, due), l')
    ensures Exact(e, s, l) ==> Exact(e, AfterAdd(e, s, raw, due), l')
  {
    l' := l;
    if !s.flushErr && e.json.compact(raw).Some? {
      EncodedOne(e, raw);
      if e.parse(raw) {
        l' := AcceptedKeeps(e, s, l, [raw], due);
      } else {
        RefusedKeeps(e, s, l, raw);
        l' := Ledger(l.recs + NormAll(e, [raw]), l.base);
      }
    }
  }

  lemma EncodedOne(e: Engine, raw: bytes)
    ensures Encoded(e, [raw]) == Frame(e.crc, Norm(e, raw))
  {
    FramesOne(e.crc, Norm(e, raw));
    assert NormAll(e, [raw]) == [Norm(e, raw)];
  }

  /** Documents that everyone accepts are logged, added and acknowledged, and may start a flush. */
  lemma AcceptedKeeps(e: Engine, s: State, l: Ledger, docs: seq<bytes>, due: bool) returns (l': Ledger)
    requires Sane(e) && Inv(e, s, l) && Fits(e, docs) && (due ==> s.flights == [] || Background(s))
    requires forall i | 0 <= i < |docs| :: Accepted(e, docs[i])
    ensures var s' := s.(file := s.file + Encoded(e, docs), memtable := s.memtable + docs, acked := s.acked + docs);
            Inv(e, LaunchIfDue(s', due), l') && (Exact(e, s, l) ==> Exact(e, LaunchIfDue(s', due), l'))
  {
    AcceptedAreTaken(e, docs);
    var s' := s.(file := s.file + Encoded(e, docs), memtable := s.memtable + docs, acked := s.acked + docs);
    l' := Ledger(l.recs + NormAll(e, docs), l.base);
    LogMore(e, s, l, docs, docs, s');
    LaunchIfDueKeeps(e, s', l', due);
    l' := if due && !Background(s') then Ledger(l'.recs, |l'.recs|) else l';
  }

  /** A document only the memtable refuses stays in the log, where replay will skip it. */
  lemma RefusedKeeps(e: Engine, s: State, l: Ledger, raw: bytes)
    requires Sane(e) && Inv(e, s, l) && Fits(e, [raw])
    requires e.json.compact(raw).Some? && !e.parse(raw)
    ensures var s', l' := s.(file := s.file + Encoded(e, [raw])), Ledger(l.recs + NormAll(e, [raw]), l.base);
            Inv(e, s', l') && (Exact(e, s, l) ==> Exact(e, s', l'))
  {
    TakenNone(e, raw);
    PlusNothing(s.memtable);
    PlusNothing(s.acked);
    LogMore(e, s, l, [raw], [], s.(file := s.file + Encoded(e, [raw])));
  }

  lemma TakenNone(e: Engine, raw: bytes)
    requires Sane(e) && e.json.compact(raw).Some? && !e.parse(raw)
    ensures Taken(e, NormAll(e, [raw])) == NormAll(e, [])
  {
    assert NormAll(e, [raw]) == [Norm(e, raw)];
    assert Taken(e, [Norm(e, raw)][1..]) == [];
  }

  lemma AddBatchKeeps(e: Engine, s: State, l: Ledger, docs: seq<bytes>, due: bool, spill: nat) returns (l': Ledger)
    requires Sane(e) && Inv(e, s, l)
    requires Enabled(e, s, AddBatch(docs, due, spill)) && Careful(e, s, AddBatch(docs, due, spill))
    ensures Inv(e, AfterAddBatch(e, s, docs, due, spill), l')
    ensures Exact(e, s, l) && GoodPrefix(e, docs) == |docs| ==> Exact(e, AfterAddBatch(e, s, docs, due, spill), l')
  {
    l' := l;
    var k := GoodPrefix(e, docs);
    GoodPrefixAccepted(e, docs);
    if s.flushErr {
    } else if k < |docs| {
      l' := RefusedBatchKeeps(e, s, l, docs, due, spill);
    } else {
      l' := AcceptedKeeps(e, s, l, docs, due);
    }
  }

  /** A refused batch leaves whole records, of which replay takes no more than the memtable got. */
  lemma RefusedBatchKeeps(e: Engine, s: State, l: Ledger, docs: seq<bytes>, due: bool, spill: nat) returns (l': Ledger)
    requires Sane(e) && Inv(e, s, l) && !s.flushErr && GoodPrefix(e, docs) < |docs|
    requires Enabled(e, s, AddBatch(docs, due, spill)) && Careful(e, s, AddBatch(docs, due, spill))
    ensures Inv(e, AfterAddBatch(e, s, docs, due, spill), l')
  {
    var k, appended := GoodPrefix(e, docs), Appended(e, docs);
    var j: nat :| j <= |appended| && spill == |Encoded(e, appended[..j])|;
    var whole, s' := appended[..j], AfterAddBatch(e, s, docs, due, spill);
    assert s'.file == s.file + Encoded(e, whole) by {
      FirstEncoded(e, appended, j);
    }
    AppendedTaken(e, docs, j);
    AppendedCompact(e, docs, j);
    CompactRecords(e, whole);
    l' := Ledger(l.recs + NormAll(e, whole), l.base);
    LoggedOnly(e, s, l, NormAll(e, whole), docs[..if j <= k then j else k], docs[..k], s');
  }

  lemma FirstEncoded(e: Engine, docs: seq<bytes>, j: nat)
    requires j <= |docs|
    ensures Encoded(e, docs[..j]) <= Encoded(e, docs)
  {
    Split(docs, j);
    NormAllConcat(e, docs[..j], docs[j..]);
    FramesConcat(e.crc, NormAll(e, docs[..j]), NormAll(e, docs[j..]));
  }

  /** Of what a refused batch has appended, replay takes the documents before the refused one. */
  lemma AppendedTaken(e: Engine, docs: seq<bytes>, j: nat)
    requires Sane(e) && GoodPrefix(e, docs) < |docs| && j <= |Appended(e, docs)|
    ensures var k := GoodPrefix(e, docs);
            Taken(e, NormAll(e, Appended(e, docs)[..j])) == NormAll(e, docs[..if j <= k then j else k])
  {
    var k := GoodPrefix(e, docs);
    GoodPrefixAccepted(e, docs);
    if j <= k {
      assert Appended(e, docs)[..j] == docs[..j];
      AcceptedAreTaken(e, docs[..j]);
    } else {
      assert Appended(e, docs)[..j] == docs[..k] + [docs[k]];
      TakenButLast(e, docs[..k], docs[k]);
    }
  }

  lemma TakenButLast(e: Engine, docs: seq<bytes>, last: bytes)
    requires Sane(e) && (forall i | 0 <= i < |docs| :: Accepted(e, docs[i]))
    requires e.json.compact(last).Some? && !e.parse(last)
    ensures Taken(e, NormAll(e, docs + [last])) == NormAll(e, docs)
  {
    NormAllConcat(e, docs, [last]);
    TakenConcat(e, NormAll(e, docs), NormAll(e, [last]));
    AcceptedAreTaken(e, docs);
    TakenNone(e, last);
    PlusNothing(NormAll(e, docs));
  }

  lemma AppendedCompact(e: Engine, docs: seq<bytes>, j: nat)
    requires GoodPrefix(e, docs) < |docs| && j <= |Appended(e, docs)| && Fits(e, docs)
    ensures Fits(e, Appended(e, docs)[..j]) && forall d <- Appended(e, docs)[..j] :: e.json.compact(d).Some?
  {
    GoodPrefixAccepted(e, docs);
    var whole := Appended(e, docs)[..j];
    assert forall i | 0 <= i < j :: whole[i] == docs[i];
  }

  /** Records that were not acknowledged, and documents the memtable got with them. */
  lemma LoggedOnly(e: Engine, s: State, l: Ledger, more: seq<bytes>, taken: seq<bytes>, added: seq<bytes>, s': State)
    requires Inv(e, s, l) && AllLoggable(more)
    requires forall i | 0 <= i < |more| :: e.json.compact(more[i]) == Some(more[i])
    requires Taken(e, more) == NormAll(e, taken) && taken <= added
    requires s' == s.(file := s.file + Frames(e.crc, more), memtable := s.memtable + added,
                      strays := s.strays || |added| > 0)
    ensures Inv(e, s', Ledger(l.recs + more, l.base))
  {
    LogMoreWellFormed(e, s, l, more, s');
    SliceOfConcat(l.recs, more, l.base);
    TakenConcat(e, l.recs, more);
    TakenConcat(e, l.recs[l.base..], more);
    MirrorsMore(e, s, l, more, taken, added, s');
  }

  lemma MirrorsMore(e: Engine, s: State, l: Ledger, more: seq<bytes>, taken: seq<bytes>, added: seq<bytes>, s': State)
    requires l.base <= |l.recs| && Mirrored(e, s, l) && Taken(e, more) == NormAll(e, taken) && taken <= added
    requires s'.memtable == s.memtable + added && s'.strays == (s.strays || |added| > 0)
    ensures Mirrored(e, s', Ledger(l.recs + more, l.base))
  {
    var have := Taken(e, l.recs[l.base..]);
    SliceOfConcat(l.recs, more, l.base);
    TakenConcat(e, l.recs[l.base..], more);
    NormAllConcat(e, s.memtable, added);
    BagOfFirst(e, taken, added);
    BagsGrow(multiset(have), Bag(e, s.memtable), Bag(e, taken), Bag(e, added));
    BagOfConcat(have, NormAll(e, taken));
    assert multiset(Taken(e, (l.recs + more)[l.base..])) <= Bag(e, s'.memtable);
    if added == [] {
      PlusNothing(s.memtable);
      PlusNothing(have);
    }
  }

  lemma BagOfFirst(e: Engine, first: seq<bytes>, docs: seq<bytes>)
    requires first <= docs
    ensures Bag(e, first) <= Bag(e, docs)
  {
    assert docs == first + docs[|first|..];
    NormAllConcat(e, first, docs[|first|..]);
  }

  lemma BagsGrow<T>(a: multiset<T>, b: multiset<T>, x: multiset<T>, y: multiset<T>)
    requires a <= b && x <= y
    ensures a + x <= b + y
  {
  }

  lemma PublishKeeps(e: Engine, s: State, l: Ledger, i: nat)
    requires Inv(e, s, l) && Enabled(e, s, Publish(i))
    ensures Inv(e, AfterPublish(s, i), l)
    ensures Exact(e, s, l) ==> Exact(e, AfterPublish(s, i), l)
  {
    NormAllConcat(e, s.published, s.flights[i].snap);
    assert Bag(e, []) == multiset{};
  }

  lemma FailKeeps(e: Engine, s: State, l: Ledger, i: nat)
    requires Inv(e, s, l) && Enabled(e, s, Fail(i))
    ensures Inv(e, AfterFail(s, i), l)
    ensures Exact(e, s, l) ==> Exact(e, AfterFail(s, i), l)
  {
    var f := s.flights[i];
    NothingOwed(e);
    if f.published {
      PlusNothing(s.lost);
    } else {
      NormAllConcat(e, s.lost, f.snap);
    }
    MovedToLost(Bag(e, s.published), Bag(e, s.lost), Bag(e, Unpublished(s)), multiset(Taken(e, l.recs[l.base..])));
    assert Bag(e, AfterFail(s, i).lost) == Bag(e, s.lost) + Bag(e, Unpublished(s));
    assert Unpublished(AfterFail(s, i)) == [];
  }

  lemma NothingOwed(e: Engine)
    ensures Bag(e, []) == multiset{}
  {
  }

  /** The documents of a failed flush are counted as lost instead of unpublished. */
  lemma MovedToLost(p: multiset<bytes>, lost: multiset<bytes>, x: multiset<bytes>, t: multiset<bytes>)
    ensures p + (lost + x) + multiset{} + t == p + lost + x + t
    ensures x == multiset{} ==> lost + x == lost
  {
  }

  /** Cutting the log drops records that are published, unless a failed flush left some behind. */
  lemma TruncateKeeps(e: Engine, s: State, l: Ledger, i: nat)
    requires Inv(e, s, l) && Enabled(e, s, Truncate(i)) && s.lost == []
    ensures Inv(e, AfterTruncate(s, i), Ledger(l.recs[l.base..], 0))
    ensures Exact(e, s, l) ==> Exact(e, AfterTruncate(s, i), Ledger(l.recs[l.base..], 0))
  {
    var s', l' := AfterTruncate(s, i), Ledger(l.recs[l.base..], 0);
    CutLog(e.crc, l.recs, l.base);
    Split(l'.recs, 0);
    assert Bag(e, s.lost) == multiset{};
    assert Unpublished(s) == [] && Unpublished(s') == [];
    assert Bag(e, []) == multiset{};
  }

  /** A crash keeps the records wholly on disk, and reopening takes them all back. */
  lemma CrashKeeps(e: Engine, s: State, l: Ledger, writing: seq<bytes>, cut: nat) returns (l': Ledger)
    requires Sane(e) && Inv(e, s, l)
    requires Enabled(e, s, Crash(writing, cut)) && Careful(e, s, Crash(writing, cut))
    ensures Inv(e, AfterCrash(e, s, writing, cut), l')
  {
    var kept := CrashReplays(e, s, l, writing, cut);
    l' := Ledger(l.recs + kept, 0);
    CrashCovered(e, s, l, kept, AfterCrash(e, s, writing, cut));
  }

  /** The records that reached the disk before a crash are replayed behind those already there. */
  lemma CrashReplays(e: Engine, s: State, l: Ledger, writing: seq<bytes>, cut: nat) returns (kept: seq<bytes>)
    requires Sane(e) && WellFormed(e, s, l)
    requires Enabled(e, s, Crash(writing, cut)) && Careful(e, s, Crash(writing, cut))
    ensures AllLoggable(kept) && forall i | 0 <= i < |kept| :: e.json.compact(kept[i]) == Some(kept[i])
    ensures var recs := l.recs + kept;
            AfterCrash(e, s, writing, cut)
            == State(HEADER + Frames(e.crc, recs), Taken(e, recs), [], false, s.published, s.acked, [], false)
  {
    var docs := NormAll(e, writing);
    var k := SomeWhollyBefore(e.crc, docs, cut);
    kept := docs[..k];
    CompactRecords(e, writing);
    ReplayAfterCut(e.crc, HEADER, l.recs, docs, k, cut);
  }

  /** Documents with a compact form are logged in it. */
  lemma CompactRecords(e: Engine, docs: seq<bytes>)
    requires Sane(e) && Fits(e, docs) && forall d <- docs :: e.json.compact(d).Some?
    ensures AllLoggable(NormAll(e, docs))
    ensures forall i | 0 <= i < |docs| :: e.json.compact(NormAll(e, docs)[i]) == Some(NormAll(e, docs)[i])
  {
    forall i | 0 <= i < |docs|
      ensures e.json.compact(NormAll(e, docs)[i]) == Some(NormAll(e, docs)[i])
    {
      assert docs[i] in docs;
    }
  }

  /** The invariant holds afresh once the memtable is what the log replays. */
  lemma CrashCovered(e: Engine, s: State, l: Ledger, kept: seq<bytes>, s': State)
    requires Inv(e, s, l) && AllLoggable(kept)
    requires forall i | 0 <= i < |kept| :: e.json.compact(kept[i]) == Some(kept[i])
    requires var recs := l.recs + kept;
             s' == State(HEADER + Frames(e.crc, recs), Taken(e, recs), [], false, s.published, s.acked, [], false)
    ensures Inv(e, s', Ledger(l.recs + kept, 0))
  {
    var recs := l.recs + kept;
    TakenIsNormal(e, recs);
    TakenConcat(e, l.recs, kept);
    assert recs[0..] == recs;
    assert Bag(e, []) == multiset{};
  }

  /** The process does not die and no batch fails. */
  predicate Smooth(e: Engine, step: Step) {
    !step.Crash? && (step.AddBatch? ==> GoodPrefix(e, step.docs) == |step.docs|)
  }

  lemma StepKeeps(e: Engine, s: State, l: Ledger, step: Step) returns (l': Ledger)
    requires Sane(e) && Inv(e, s, l) && Enabled(e, s, step) && Careful(e, s, step)
    ensures Inv(e, Apply(e, s, step), l')
    ensures Exact(e, s, l) && Smooth(e, step) ==> Exact(e, Apply(e, s, step), l')
  {
    l' := l;
    match step
    case Add(raw, due) =>
      l' := AddKeeps(e, s, l, raw, due);
    case AddBatch(docs, due, spill) =>
      l' := AddBatchKeeps(e, s, l, docs, due, spill);
    case FlushNow =>
      if !s.flushErr && s.memtable != [] {
        LaunchKeeps(e, s, l, false);
        l' := Ledger(l.recs, |l.recs|);
      }
    case Publish(i) =>
      PublishKeeps(e, s, l, i);
    case Fail(i) =>
      FailKeeps(e, s, l, i);
    case Truncate(i) =>
      TruncateKeeps(e, s, l, i);
      l' := Ledger(l.recs[l.base..], 0);
    case Crash(writing, cut) =>
      l' := CrashKeeps(e, s, l, writing, cut);
  }

  lemma {:induction false} RunKeeps(e: Engine, states: seq<State>, steps: seq<Step>, n: nat) returns (l: Ledger)
    requires Sane(e) && CarefulRun(e, states, steps) && n <= |steps|
    ensures Inv(e, states[n], l)
    ensures (forall i | 0 <= i < n :: Smooth(e, steps[i])) ==> Exact(e, states[n], l)
  {
    l := Ledger([], 0);
    assert HEADER + [] == HEADER;
    assert Bag(e, []) == multiset{};
    for i := 0 to n
      invariant Inv(e, states[i], l)
      invariant (forall j | 0 <= j < i :: Smooth(e, steps[j])) ==> Exact(e, states[i], l)
    {
      l := StepKeeps(e, states[i], l, steps[i]);
    }
  }

  // ----- The theorems -----

  /** In every state of every careful run, no acknowledged document is lost. */
  lemma AcknowledgedIsDurable(e: Engine, states: seq<State>, steps: seq<Step>, n: nat)
    requires Sane(e) && CarefulRun(e, states, steps) && n <= |steps|
    ensures Durable(e, states[n])
  {
    var l := RunKeeps(e, states, steps, n);
    RecordsOfFrames(e.crc, l.recs);
  }

  /**
   * While a flush is in flight, its offset is a record boundary of the log and
   * the records from there on are the memtable's documents, in order; cutting
   * the log there leaves exactly those records.
   */
  lemma FlightOffsetSplitsLog(e: Engine, states: seq<State>, steps: seq<Step>, n: nat) returns (k: nat)
    requires Sane(e) && CarefulRun(e, states, steps) && n <= |steps|
    requires |states[n].flights| > 0
    ensures |states[n].flights| == 1 && |states[n].file| >= HEADER_SIZE
    ensures var s := states[n];
            var recs := Records(e.crc, s.file);
            var f := s.flights[0];
            && k <= |recs| && s.file == HEADER + Frames(e.crc, recs)
            && f.off == HEADER_SIZE + |Frames(e.crc, recs[..k])|
            && (!s.strays ==> Taken(e, recs[k..]) == NormAll(e, s.memtable))
            && PrefixRemoved(s.file, f.off) == HEADER + Frames(e.crc, recs[k..])
            && Records(e.crc, PrefixRemoved(s.file, f.off)) == recs[k..]
  {
    var l := RunKeeps(e, states, steps, n);
    k := l.base;
    RecordsOfFrames(e.crc, l.recs);
    CutLog(e.crc, l.recs, k);
  }

  lemma CutLog(crc: Checksum, recs: seq<bytes>, k: nat)
    requires AllLoggable(recs) && k <= |recs|
    ensures var file := PrefixRemoved(HEADER + Frames(crc, recs), HEADER_SIZE + |Frames(crc, recs[..k])|);
            file == HEADER + Frames(crc, recs[k..]) && Records(crc, file) == recs[k..]
  {
    assert recs == recs[..k] + recs[k..];
    PrefixRemovedAtBoundary(crc, recs[..k], recs[k..]);
    RecordsOfFrames(crc, recs[k..]);
  }

  /**
   * When the process has not died and no batch has failed, cutting the log after
   * a published flush keeps every acknowledged document if and only if no
   * earlier flush was dropped unpublished with documents in its snapshot.
   */
  lemma TruncateSafeIff(e: Engine, states: seq<State>, steps: seq<Step>, n: nat)
    requires Sane(e) && CarefulRun(e, states, steps) && n <= |steps|
    requires forall i | 0 <= i < n :: Smooth(e, steps[i])
    requires Enabled(e, states[n], Truncate(0))
    ensures Durable(e, AfterTruncate(states[n], 0)) <==> states[n].lost == []
  {
    var s := states[n];
    var l := RunKeeps(e, states, steps, n);
    CutLog(e.crc, l.recs, l.base);
    assert Unpublished(s) == [] && Bag(e, []) == multiset{};
    assert |Bag(e, s.lost)| == |s.lost|;
    BagShort(Bag(e, s.published), Bag(e, s.lost), multiset(Taken(e, l.recs[l.base..])));
  }

  lemma BagShort<T>(p: multiset<T>, x: multiset<T>, t: multiset<T>)
    ensures p + x + t <= p + t <==> x == multiset{}
  {
    if x != multiset{} {
      var y :| y in x;
      assert (p + x + t)[y] > (p + t)[y];
    }
  }
}
