/** The standard tokenizer: folded maximal runs of word characters, numbered consecutively. */
module Analyze {

  /** The character classes and foldings of the Unicode libraries. */
  datatype Analyzer = Analyzer(isWord: char -> bool, fold: string -> string, lower: string -> string)

  datatype Run = Run(start: nat, end: nat)

  datatype Token = Token(term: string, position: nat, start: nat, end: nat)

  type WordClass = char -> bool

  /** A run of word characters that cannot be extended on either side. */
  ghost predicate Maximal(isWord: WordClass, text: string, r: Run) {
    && r.start < r.end <= |text| && (forall i | r.start <= i < r.end :: isWord(text[i]))
    && (r.start == 0 || !isWord(text[r.start - 1])) && (r.end == |text| || !isWord(text[r.end]))
  }

  /** Where the word characters from i on end. */
  ghost function RunEnd(isWord: WordClass, text: string, i: nat): (e: nat)
    requires i <= |text|
    ensures i <= e <= |text| && (forall j | i <= j < e :: isWord(text[j])) && (e == |text| || !isWord(text[e]))
    decreases |text| - i
  {
    if i < |text| && isWord(text[i]) then RunEnd(isWord, text, i + 1) else i
  }

  ghost function Runs(isWord: WordClass, text: string, i: nat): seq<Run>
    requires i <= |text|
    decreases |text| - i
  {
    if i == |text| then []
    else if !isWord(text[i]) then Runs(isWord, text, i + 1)
    else
      var e := RunEnd(isWord, text, i);
      [Run(i, e)] + Runs(isWord, text, e)
  }

  ghost predicate Boundary(isWord: WordClass, text: string, i: nat)
    requires i <= |text|
  {
    i == 0 || i == |text| || !isWord(text[i - 1]) || !isWord(text[i])
  }

  /** The runs are exactly the maximal ones. */
  lemma {:induction false} RunsExact(isWord: WordClass, text: string, i: nat, r: Run)
    requires i <= |text| && Boundary(isWord, text, i)
    ensures r in Runs(isWord, text, i) <==> Maximal(isWord, text, r) && r.start >= i
    decreases |text| - i
  {
    if i < |text| {
      if !isWord(text[i]) {
        RunsExact(isWord, text, i + 1, r);
      } else {
        var e := RunEnd(isWord, text, i);
        RunsExact(isWord, text, e, r);
      }
    }
  }

  /** They come in the order of the text. */
  lemma {:induction false} RunsOrdered(isWord: WordClass, text: string, i: nat, k: nat)
    requires i <= |text| && k < |Runs(isWord, text, i)|
    ensures i <= Runs(isWord, text, i)[k].start
    ensures forall l | k < l < |Runs(isWord, text, i)| ::
              Runs(isWord, text, i)[k].end <= Runs(isWord, text, i)[l].start
    decreases |text| - i
  {
    var runs := Runs(isWord, text, i);
    if !isWord(text[i]) {
      RunsOrdered(isWord, text, i + 1, k);
    } else {
      var e := RunEnd(isWord, text, i);
      var rest := Runs(isWord, text, e);
      if k > 0 {
        RunsOrdered(isWord, text, e, k - 1);
        assert forall l | k < l < |runs| :: runs[l] == rest[l - 1];
      } else {
        forall l | 0 < l < |runs|
          ensures e <= runs[l].start
        {
          RunsOrdered(isWord, text, e, l - 1);
        }
      }
    }
  }

  /** The tokens of some runs, numbered from pos on; a run that folds to nothing has none. */
  ghost function Kept(fold: string -> string, text: string, runs: seq<Run>, pos: nat): seq<Token>
    decreases |runs|
  {
    if runs == [] then []
    else
      var r := runs[0];
      if r.start <= r.end <= |text| then
        var term := fold(text[r.start..r.end]);
        if term == "" then Kept(fold, text, runs[1..], pos)
        else [Token(term, pos, r.start, r.end)] + Kept(fold, text, runs[1..], pos + 1)
      else []
  }

  ghost function Tokens(an: Analyzer, text: string): seq<Token> {
    Kept(an.fold, text, Runs(an.isWord, text, 0), 0)
  }

  ghost function TermsOf(ts: seq<Token>): (r: seq<string>)
    ensures |r| == |ts| && forall i | 0 <= i < |ts| :: r[i] == ts[i].term
  {
    seq(|ts|, i requires 0 <= i < |ts| => ts[i].term)
  }

  /** Token k is at position k, for a maximal run of the text. */
  lemma {:induction false} PositionsConsecutive(fold: string -> string, text: string, runs: seq<Run>, pos: nat, k: nat)
    requires k < |Kept(fold, text, runs, pos)|
    ensures var t := Kept(fold, text, runs, pos)[k];
            && t.position == pos + k && Run(t.start, t.end) in runs
            && t.start <= t.end <= |text| && t.term == fold(text[t.start..t.end]) && t.term != ""
    decreases |runs|
  {
    var r := runs[0];
    var term := fold(text[r.start..r.end]);
    if term == "" {
      PositionsConsecutive(fold, text, runs[1..], pos, k);
    } else if k > 0 {
      PositionsConsecutive(fold, text, runs[1..], pos + 1, k - 1);
    }
  }

  lemma TokensAreWords(an: Analyzer, text: string, k: nat)
    requires k < |Tokens(an, text)|
    ensures var t := Tokens(an, text)[k];
            && t.position == k && Maximal(an.isWord, text, Run(t.start, t.end))
            && t.term == an.fold(text[t.start..t.end]) && t.term != ""
  {
    PositionsConsecutive(an.fold, text, Runs(an.isWord, text, 0), 0, k);
    var t := Tokens(an, text)[k];
    RunsExact(an.isWord, text, 0, Run(t.start, t.end));
  }

  /** Runs in the order of the text, none overlapping another. */
  ghost predicate Ahead(runs: seq<Run>) {
    forall i, j | 0 <= i < j < |runs| :: runs[i].end <= runs[j].start
  }

  lemma {:induction false} KeptInOrder(fold: string -> string, text: string, runs: seq<Run>, pos: nat, i: nat, j: nat)
    requires Ahead(runs) && i < j < |Kept(fold, text, runs, pos)|
    ensures Kept(fold, text, runs, pos)[i].end <= Kept(fold, text, runs, pos)[j].start
    decreases |runs|
  {
    var kept, later := Kept(fold, text, runs, pos), runs[1..];
    var r := runs[0];
    if fold(text[r.start..r.end]) == "" {
      KeptInOrder(fold, text, later, pos, i, j);
    } else if i > 0 {
      KeptInOrder(fold, text, later, pos + 1, i - 1, j - 1);
    } else {
      PositionsConsecutive(fold, text, later, pos + 1, j - 1);
      var t := kept[j];
      var k :| 0 <= k < |later| && later[k] == Run(t.start, t.end);
      assert runs[k + 1] == later[k];
    }
  }

  /** The tokens come in the order of the text. */
  lemma TokensInOrder(an: Analyzer, text: string, i: nat, j: nat)
    requires i < j < |Tokens(an, text)|
    ensures Tokens(an, text)[i].end <= Tokens(an, text)[j].start
  {
    var runs := Runs(an.isWord, text, 0);
    forall k, l | 0 <= k < l < |runs|
      ensures runs[k].end <= runs[l].start
    {
      RunsOrdered(an.isWord, text, 0, k);
    }
    KeptInOrder(an.fold, text, runs, 0, i, j);
  }

  lemma {:induction false} NonEmptyKept(fold: string -> string, text: string, runs: seq<Run>, pos: nat, r: Run)
    requires r in runs && forall x <- runs :: x.start <= x.end <= |text|
    requires fold(text[r.start..r.end]) != ""
    ensures exists k | 0 <= k < |Kept(fold, text, runs, pos)| ::
              Run(Kept(fold, text, runs, pos)[k].start, Kept(fold, text, runs, pos)[k].end) == r
    decreases |runs|
  {
    var kept := Kept(fold, text, runs, pos);
    var h := runs[0];
    assert runs == [h] + runs[1..];
    if fold(text[h.start..h.end]) == "" {
      NonEmptyKept(fold, text, runs[1..], pos, r);
    } else if h == r {
      assert Run(kept[0].start, kept[0].end) == r;
    } else {
      NonEmptyKept(fold, text, runs[1..], pos + 1, r);
      var rest := Kept(fold, text, runs[1..], pos + 1);
      var k :| 0 <= k < |rest| && Run(rest[k].start, rest[k].end) == r;
      assert kept[k + 1] == rest[k];
    }
  }

  /** No word with a non-empty folding is missed. */
  lemma WordsAreTokens(an: Analyzer, text: string, r: Run)
    requires Maximal(an.isWord, text, r) && an.fold(text[r.start..r.end]) != ""
    ensures exists k | 0 <= k < |Tokens(an, text)| :: Run(Tokens(an, text)[k].start, Tokens(an, text)[k].end) == r
  {
    var runs := Runs(an.isWord, text, 0);
    RunsExact(an.isWord, text, 0, r);
    forall x <- runs
      ensures x.start <= x.end <= |text|
    {
      RunsExact(an.isWord, text, 0, x);
    }
    NonEmptyKept(an.fold, text, runs, 0, r);
    var kept := Kept(an.fold, text, runs, 0);
    var k :| 0 <= k < |kept| && Run(kept[k].start, kept[k].end) == r;
    assert Tokens(an, text)[k] == kept[k];
  }

  lemma {:induction false} RunsFew(isWord: WordClass, text: string, i: nat)
    requires i <= |text|
    ensures |Runs(isWord, text, i)| <= |text| - i
    decreases |text| - i
  {
    if i < |text| {
      RunsFew(isWord, text, if isWord(text[i]) then RunEnd(isWord, text, i) else i + 1);
    }
  }

  lemma {:induction false} KeptFew(fold: string -> string, text: string, runs: seq<Run>, pos: nat)
    ensures |Kept(fold, text, runs, pos)| <= |runs|
    decreases |runs|
  {
    if runs != [] {
      KeptFew(fold, text, runs[1..], pos);
      KeptFew(fold, text, runs[1..], pos + 1);
    }
  }

  lemma TokensFew(an: Analyzer, text: string)
    ensures |Tokens(an, text)| <= |text|
  {
    RunsFew(an.isWord, text, 0);
    KeptFew(an.fold, text, Runs(an.isWord, text, 0), 0);
  }

  method Tokenize(an: Analyzer, text: string) returns (tokens: seq<Token>)
    ensures tokens == Tokens(an, text)
  {
    tokens := Scan(an.isWord, an.fold, text);
  }

  /** The loop over the characters. */
  method Scan(isWord: WordClass, fold: string -> string, text: string) returns (tokens: seq<Token>)
    ensures tokens == Kept(fold, text, Runs(isWord, text, 0), 0)
  {
    tokens := [];
    var pos: nat, inWord, wordStart: nat := 0, false, 0;
    ghost var whole := Kept(fold, text, Runs(isWord, text, 0), 0);
    for i := 0 to |text|
      invariant inWord ==> wordStart < i && forall j | wordStart <= j < i :: isWord(text[j])
      invariant tokens + Kept(fold, text, Runs(isWord, text, if inWord then wordStart else i), pos) == whole
    {
      if isWord(text[i]) {
        if !inWord {
          wordStart, inWord := i, true;
        }
      } else if inWord {
        WordEnds(isWord, fold, text, wordStart, i, pos, tokens);
        var term := fold(text[wordStart..i]);
        if term != "" {
          tokens := tokens + [Token(term, pos, wordStart, i)];
          pos := pos + 1;
        }
        inWord := false;
      }
    }
    if inWord {
      LastWord(isWord, fold, text, wordStart, pos, tokens);
      var term := fold(text[wordStart..]);
      if term != "" {
        tokens := tokens + [Token(term, pos, wordStart, |text|)];
      }
    } else {
      NothingLeft(isWord, fold, text, pos, tokens);
    }
  }

  lemma NothingLeft(isWord: WordClass, fold: string -> string, text: string, pos: nat, before: seq<Token>)
    ensures before + Kept(fold, text, Runs(isWord, text, |text|), pos) == before
  {
  }

  lemma LastWord(isWord: WordClass, fold: string -> string, text: string, a: nat, pos: nat, before: seq<Token>)
    requires a < |text| && forall j | a <= j < |text| :: isWord(text[j])
    ensures before + Kept(fold, text, Runs(isWord, text, a), pos) ==
            if fold(text[a..]) == "" then before else before + [Token(fold(text[a..]), pos, a, |text|)]
  {
    assert text[a..] == text[a..|text|];
    WordEnds(isWord, fold, text, a, |text|, pos, before);
    NothingLeft(isWord, fold, text, pos, before);
    NothingLeft(isWord, fold, text, pos + 1, before + [Token(fold(text[a..]), pos, a, |text|)]);
  }

  lemma WordEnds(isWord: WordClass, fold: string -> string, text: string, a: nat, e: nat, pos: nat, before: seq<Token>)
    requires a < e <= |text| && (forall j | a <= j < e :: isWord(text[j])) && (e == |text| || !isWord(text[e]))
    ensures var term := fold(text[a..e]);
            var next := if e == |text| then e else e + 1;
            before + Kept(fold, text, Runs(isWord, text, a), pos) ==
            if term == "" then before + Kept(fold, text, Runs(isWord, text, next), pos)
            else before + [Token(term, pos, a, e)] + Kept(fold, text, Runs(isWord, text, next), pos + 1)
  {
    assert RunEnd(isWord, text, a) == e;
    var runs, rest := Runs(isWord, text, a), Runs(isWord, text, e);
    assert runs == [Run(a, e)] + rest && runs[1..] == rest;
  }
}
