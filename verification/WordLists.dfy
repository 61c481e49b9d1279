// The word-list loaders of src/Analysis/Analyzer.cpp.
module WordLists {
  import opened Wrappers
  import opened CharClasses
  import opened TextFields
  import opened Splitter
  import opened CharSets
  import opened StringReaders

  // The lines that a read loop `while (!reader.Eof()) reader.ReadLine(line)` sees.
  ghost function Lines(reader: StringReader): seq<string>
    requires reader.Valid()
    reads reader
  {
    if reader.eof then [] else Fields(reader.Remaining(), IsNewline())
  }

  function FoldAll(words: seq<string>, ignoreCase: bool): set<string> {
    set w | w in words :: Fold(w, ignoreCase)
  }

  lemma FoldAllSnoc(s: seq<string>, w: string, ignoreCase: bool)
    ensures FoldAll(s + [w], ignoreCase) == FoldAll(s, ignoreCase) + {Fold(w, ignoreCase)}
  {
  }

  lemma FoldAllConcat(a: seq<string>, b: seq<string>, ignoreCase: bool)
    ensures FoldAll(a + b, ignoreCase) == FoldAll(a, ignoreCase) + FoldAll(b, ignoreCase)
  {
  }

  method NextLine(reader: StringReader, line0: string) returns (line: string)
    requires reader.Valid() && !reader.eof
    modifies reader
    ensures reader.Valid() && reader.text == old(reader.text)
    ensures old(Lines(reader)) == [line] + Lines(reader)
    ensures reader.eof || |reader.Remaining()| < |old(reader.Remaining())|
  {
    ghost var all := reader.Remaining();
    line := reader.ReadLine(line0);
    FieldsStep(all, IsNewline());
    assert all[..|all|] == all;
    assert [line] + [] == [line];
  }

  // ---------- one word a line ----------

  predicate Trimmable(str: string) { str == "" || !White(str) }

  lemma TrimmableHolds(str: string)
    requires Trimmable(str) && str != ""
    ensures exists i :: 0 <= i < |str| && !IsSpace(str[i])
  {
    var i :| 0 <= i < |str| && !(str[i] as int == 32 || 9 <= str[i] as int <= 13);
    ClassesAreRanges(str[i]);
  }

  // characterutil::Trim.  On a non-empty text of nothing but white space the source builds a
  // string from a reversed range, which is undefined.
  method TrimWord(str: string) returns (r: string)
    requires Trimmable(str)
    ensures r == Trim(str) && Trimmed(str, r)
    ensures r == "" <==> str == ""
  {
    TrimMeans(str);
    if str != "" {
      TrimmableHolds(str);
    }
    hide Trimmed, White;
    var l := 0;
    while l < |str| && IsSpace(str[l])
      invariant 0 <= l <= |str|
      invariant forall i :: 0 <= i < l ==> IsSpace(str[i])
    {
      l := l + 1;
    }
    var e := |str|;
    while e > 0 && IsSpace(str[e - 1])
      invariant l <= e <= |str|
      invariant forall i :: e <= i < |str| ==> IsSpace(str[i])
    {
      e := e - 1;
    }
    TrimStartIs(str, l);
    TrimEndIs(str[l..], e - l);
    r := str[l..e];
  }

  // What is added: the trimmed lines, up to the first line that trims to nothing.
  function UntilEmpty(lines: seq<string>): seq<string> {
    if lines == [] || Trim(lines[0]) == "" then [] else [Trim(lines[0])] + UntilEmpty(lines[1..])
  }

  // Without the scanners: f is, up to case, a line without the white space at its ends, and
  // neither that line nor one before it is white.
  ghost predicate LineGives(lines: seq<string>, f: string, ignoreCase: bool) {
    exists l, w :: 0 <= l < |lines| && NoWhiteLine(lines[..l + 1]) && Trimmed(lines[l], w) && Fold(w, ignoreCase) == f
  }

  predicate NoWhiteLine(lines: seq<string>) { forall k :: 0 <= k < |lines| ==> !White(lines[k]) }

  lemma WhiteTrimsToNothing(line: string)
    ensures Trim(line) == "" <==> White(line)
  {
    hide Trim, White;
    TrimMeans(line);
    var u, v :| line == u + Trim(line) + v && White(u) && White(v);
    WhiteOnlyIfEmpty(line, u, Trim(line), v);
  }

  lemma {:induction false} InUntilEmptyIff(lines: seq<string>, w: string)
    ensures w in UntilEmpty(lines) <==>
            exists l :: 0 <= l < |lines| && NoWhiteLine(lines[..l + 1]) && Trimmed(lines[l], w)
    decreases |lines|
  {
    hide Trim, White, Trimmed, NoWhiteLine;
    if lines == [] {
    } else {
      var rest := lines[1..];
      WhiteTrimsToNothing(lines[0]);
      TrimIff(lines[0], w);
      InUntilEmptyIff(rest, w);
      forall l | 0 <= l < |lines|
        ensures NoWhiteLine(lines[..l + 1]) <==> !White(lines[0]) && NoWhiteLine(lines[1..][..l])
      {
        NoWhiteStep(lines, l);
      }
      if l :| 0 <= l < |lines| && NoWhiteLine(lines[..l + 1]) && Trimmed(lines[l], w) {
        if l > 0 {
          assert rest[l - 1] == lines[l] && NoWhiteLine(rest[..l - 1 + 1]);
        }
      }
      if l :| 0 <= l < |rest| && NoWhiteLine(rest[..l + 1]) && Trimmed(rest[l], w) {
        if !White(lines[0]) {
          assert lines[l + 1] == rest[l] && NoWhiteLine(lines[..l + 1 + 1]);
        }
      }
      if !White(lines[0]) && Trimmed(lines[0], w) {
        NothingWhite(lines[1..][..0]);
        assert NoWhiteLine(lines[..0 + 1]);
      }
    }
  }

  lemma NothingWhite(lines: seq<string>)
    ensures lines == [] ==> NoWhiteLine(lines)
  {
  }

  lemma NoWhiteStep(lines: seq<string>, l: nat)
    requires l < |lines|
    ensures NoWhiteLine(lines[..l + 1]) <==> !White(lines[0]) && NoWhiteLine(lines[1..][..l])
  {
    hide White;
    assert lines[..l + 1] == [lines[0]] + lines[1..][..l];
  }

  lemma LineGivesIff(lines: seq<string>, f: string, ignoreCase: bool)
    ensures f in FoldAll(UntilEmpty(lines), ignoreCase) <==> LineGives(lines, f, ignoreCase)
  {
    hide Trimmed, NoWhiteLine, UntilEmpty, Fold;
    if f in FoldAll(UntilEmpty(lines), ignoreCase) {
      var w :| w in UntilEmpty(lines) && Fold(w, ignoreCase) == f;
      InUntilEmptyIff(lines, w);
    }
    if l, w :| 0 <= l < |lines| && NoWhiteLine(lines[..l + 1]) && Trimmed(lines[l], w) && Fold(w, ignoreCase) == f {
      InUntilEmptyIff(lines, w);
    }
  }

  // Every line up to the first empty one.
  ghost predicate TrimmableUntilEmpty(lines: seq<string>) {
    forall i :: 0 <= i < |lines| && "" !in lines[..i] ==> Trimmable(lines[i])
  }

  lemma LinesGive(lines: seq<string>, before: set<string>, after: set<string>, ignoreCase: bool)
    requires after == before + FoldAll(UntilEmpty(lines), ignoreCase)
    ensures forall f :: f in after <==> f in before || LineGives(lines, f, ignoreCase)
  {
    hide FoldAll, UntilEmpty, LineGives;
    forall f ensures f in FoldAll(UntilEmpty(lines), ignoreCase) <==> LineGives(lines, f, ignoreCase) {
      LineGivesIff(lines, f, ignoreCase);
    }
  }

  // WordlistLoader::GetWordSet.  Trimming a non-empty line of nothing but white space is
  // undefined in the source.  Adding the empty string throws, so an empty line does.
  method GetWordSet(reader: StringReader, words: CharSet) returns (r: Result<(), string>)
    requires reader.Valid() && words.Valid()
    requires TrimmableUntilEmpty(Lines(reader))
    modifies reader, words
    ensures reader.Valid() && words.Valid()
    ensures r.Success? <==> "" !in old(Lines(reader))
    ensures words.Folded == old(words.Folded) + FoldAll(UntilEmpty(old(Lines(reader))), words.ignoreCase)
    ensures r.Success? ==> reader.eof && |UntilEmpty(old(Lines(reader)))| == |old(Lines(reader))|
    ensures forall f :: f in words.Folded <==>
              f in old(words.Folded) || LineGives(old(Lines(reader)), f, words.ignoreCase)
  {
    hide Fold, FoldAll, Trim, Table, UntilEmpty, Fields, LineGives, Trimmed, White;
    ghost var all := Lines(reader);
    ghost var done: seq<string> := [];
    UntilEmptyStart(all, words.ignoreCase);
    var word := "";
    while !reader.Eof()
      invariant reader.Valid() && words.Valid()
      invariant all == done + Lines(reader)
      invariant "" !in done && |UntilEmpty(done)| == |done|
      invariant words.Folded == old(words.Folded) + FoldAll(UntilEmpty(done), words.ignoreCase)
      decreases |reader.Remaining()|, !reader.eof
    {
      word := NextLine(reader, word);
      ghost var line, rest := word, Lines(reader);
      assert all[|done|] == line && all[..|done|] == done;
      word := TrimWord(word);
      UntilEmptyStep(done, line, rest);
      FoldAllSnoc(UntilEmpty(done), word, words.ignoreCase);
      var added := words.Add(word);
      if added.Failure? {
        LinesGive(all, old(words.Folded), words.Folded, words.ignoreCase);
        return Failure(added.error);
      }
      done := done + [line];
    }
    assert done + [] == done;
    LinesGive(all, old(words.Folded), words.Folded, words.ignoreCase);
    return Success(());
  }

  lemma UntilEmptyStart(all: seq<string>, ignoreCase: bool)
    ensures all == [] + all && UntilEmpty([]) == [] && FoldAll([], ignoreCase) == {}
  {
  }

  lemma UntilEmptyStep(done: seq<string>, line: string, rest: seq<string>)
    requires |UntilEmpty(done)| == |done|
    ensures done + ([line] + rest) == done + [line] + rest
    ensures Trim(line) == "" ==> UntilEmpty(done + ([line] + rest)) == UntilEmpty(done)
    ensures Trim(line) != "" ==> UntilEmpty(done + [line]) == UntilEmpty(done) + [Trim(line)]
  {
    hide Trim;
    UntilEmptyConcat(done, [line] + rest);
    UntilEmptyConcat(done, [line]);
    assert [line][1..] == [];
  }

  lemma {:induction false} UntilEmptyConcat(a: seq<string>, b: seq<string>)
    requires |UntilEmpty(a)| == |a|
    ensures UntilEmpty(a + b) == UntilEmpty(a) + UntilEmpty(b)
    decreases |a|
  {
    hide Trim;
    if a == [] {
      assert a + b == b;
    } else {
      assert (a + b)[1..] == a[1..] + b;
      UntilEmptyConcat(a[1..], b);
    }
  }

  // When a text has an empty line, and the loader throws: it is empty, or has a newline at
  // one of its ends, or two in a row.
  lemma {:induction false} EmptyLineIff(text: string)
    ensures "" in Fields(text, IsNewline()) <==>
            || text == ""
            || text[0] == '\n'
            || text[|text| - 1] == '\n'
            || exists i :: 0 < i < |text| && text[i - 1] == '\n' && text[i] == '\n'
    decreases |text|
  {
    hide Fields, NextSeparator;
    var k := NextSeparator(text, IsNewline(), 0);
    FieldsStep(text, IsNewline());
    if k == |text| {
    } else {
      var rest := text[k + 1..];
      EmptyLineIff(rest);
      if i :| 0 < i < |rest| && rest[i - 1] == '\n' && rest[i] == '\n' {
        assert text[i + k] == '\n' && text[i + k + 1] == '\n';
      }
      if i :| 0 < i < |text| && text[i - 1] == '\n' && text[i] == '\n' {
        assert i - 1 >= k;
        if i - 1 > k {
          assert rest[i - k - 2] == '\n' && rest[i - k - 1] == '\n';
        } else {
          assert rest[0] == '\n';
        }
      }
      if rest != "" {
        assert rest[|rest| - 1] == text[|text| - 1];
        assert rest[0] == '\n' ==> text[k] == '\n' && text[k + 1] == '\n';
      }
      assert text[..k] == "" <==> k == 0;
    }
  }

  // ---------- Snowball lists: several words a line, '|' starts a comment ----------

  function BeforeBar(line: string): string { line[..NextSeparator(line, Is('|'), 0)] }

  function SnowballWords(lines: seq<string>): seq<string> {
    if lines == [] then [] else Runs(BeforeBar(lines[0]), IsSpace) + SnowballWords(lines[1..])
  }

  lemma {:induction false} NonEmptyHoldsNoEmpty(fields: seq<string>)
    ensures "" !in NonEmpty(fields)
    decreases |fields|
  {
    if fields == [] {
    } else {
      NonEmptyHoldsNoEmpty(fields[1..]);
    }
  }

  // line[i..j] stands in front of the first bar, holds no white space, and stands between white
  // space, the ends of the line, or the bar.
  predicate WordAt(line: string, i: nat, j: nat) {
    && i < j <= |line|
    && (forall m :: 0 <= m < j ==> line[m] != '|')
    && (forall m :: i <= m < j ==> !White([line[m]]))
    && (i == 0 || White([line[i - 1]]))
    && (j == |line| || line[j] == '|' || White([line[j]]))
  }

  lemma WordAtIff(line: string, i: nat, j: nat)
    ensures WordAt(line, i, j) <==> RunAt(BeforeBar(line), IsSpace, i, j)
    ensures WordAt(line, i, j) ==> line[i..j] == BeforeBar(line)[i..j]
  {
    forall m | 0 <= m < |line| ensures IsSpace(line[m]) <==> White([line[m]]) {
      ClassesAreRanges(line[m]);
    }
    hide White, IsSpace;
    var b := BeforeBar(line);
    assert forall m :: 0 <= m < |b| ==> b[m] == line[m] && line[m] != '|';
    assert |b| < |line| ==> line[|b|] == '|';
    if i > 0 && i <= |b| {
      assert line[i - 1] == b[i - 1];
    }
  }

  lemma {:induction false} InSnowballWordsIff(lines: seq<string>, w: string)
    ensures w in SnowballWords(lines) <==> exists l :: 0 <= l < |lines| && w in Runs(BeforeBar(lines[l]), IsSpace)
    decreases |lines|
  {
    hide Runs, BeforeBar;
    if lines == [] {
    } else {
      InSnowballWordsIff(lines[1..], w);
      if l :| 0 <= l < |lines| && w in Runs(BeforeBar(lines[l]), IsSpace) {
        if l > 0 {
          assert lines[1..][l - 1] == lines[l];
        }
      }
    }
  }

  ghost predicate WordOf(line: string, w: string) { exists i: nat, j: nat :: WordAt(line, i, j) && w == line[i..j] }

  // Without the scanners: f is, up to case, a word in front of the bar of some line.
  ghost predicate SnowballGives(lines: seq<string>, f: string, ignoreCase: bool) {
    exists l, w :: 0 <= l < |lines| && WordOf(lines[l], w) && Fold(w, ignoreCase) == f
  }

  lemma WordBounds(line: string)
    ensures forall i: nat, j: nat :: WordAt(line, i, j) ==> i < j <= |line|
  {
  }

  lemma WordOfIff(line: string, w: string)
    ensures WordOf(line, w) <==> w in Runs(BeforeBar(line), IsSpace)
  {
    hide WordAt, RunAt, BeforeBar, Runs;
    InRunsIff(BeforeBar(line), IsSpace, w);
    WordBounds(line);
    if WordOf(line, w) {
      var i: nat, j: nat :| WordAt(line, i, j) && w == line[i..j];
      WordAtIff(line, i, j);
    }
    if RunIn(BeforeBar(line), IsSpace, w) {
      RunBounds(BeforeBar(line), IsSpace);
      var i: nat, j: nat :| RunAt(BeforeBar(line), IsSpace, i, j) && w == BeforeBar(line)[i..j];
      WordAtIff(line, i, j);
    }
  }

  lemma SnowballGivesIff(lines: seq<string>, f: string, ignoreCase: bool)
    ensures f in FoldAll(SnowballWords(lines), ignoreCase) <==> SnowballGives(lines, f, ignoreCase)
  {
    hide WordOf, Fold, SnowballWords, Runs, BeforeBar;
    if f in FoldAll(SnowballWords(lines), ignoreCase) {
      var w :| w in SnowballWords(lines) && Fold(w, ignoreCase) == f;
      InSnowballWordsIff(lines, w);
      var l :| 0 <= l < |lines| && w in Runs(BeforeBar(lines[l]), IsSpace);
      WordOfIff(lines[l], w);
    }
    if l, w :| 0 <= l < |lines| && WordOf(lines[l], w) && Fold(w, ignoreCase) == f {
      WordOfIff(lines[l], w);
      InSnowballWordsIff(lines, w);
    }
  }

  lemma SnowballsGive(lines: seq<string>, before: set<string>, after: set<string>, ignoreCase: bool)
    requires after == before + FoldAll(SnowballWords(lines), ignoreCase)
    ensures forall f :: f in after <==> f in before || SnowballGives(lines, f, ignoreCase)
  {
    hide FoldAll, SnowballWords, SnowballGives;
    forall f ensures f in FoldAll(SnowballWords(lines), ignoreCase) <==> SnowballGives(lines, f, ignoreCase) {
      SnowballGivesIff(lines, f, ignoreCase);
    }
  }

  // GetSnowballWordSet: never throws, and adds exactly the white-space-separated words in
  // front of the first '|' of each line.
  method GetSnowballWordSet(reader: StringReader, words: CharSet) returns (r: Result<(), string>)
    requires reader.Valid() && words.Valid()
    modifies reader, words
    ensures r.Success?
    ensures reader.Valid() && reader.eof && words.Valid()
    ensures words.Folded == old(words.Folded) + FoldAll(SnowballWords(old(Lines(reader))), words.ignoreCase)
    ensures forall f :: f in words.Folded <==>
              f in old(words.Folded) || SnowballGives(old(Lines(reader)), f, words.ignoreCase)
  {
    hide Fold, FoldAll, Runs, Table, Fields, SnowballWords, SnowballGives;
    ghost var all := Lines(reader);
    ghost var done: seq<string> := [];
    SnowballStart(all, words.ignoreCase);
    var line := "";
    while !reader.Eof()
      invariant reader.Valid() && words.Valid()
      invariant SnowballWords(all) == done + SnowballWords(Lines(reader))
      invariant words.Folded == old(words.Folded) + FoldAll(done, words.ignoreCase)
      decreases |reader.Remaining()|, !reader.eof
    {
      line := NextLine(reader, line);
      SnowballStep(done, line, Lines(reader));
      FoldAllConcat(done, Runs(BeforeBar(line), IsSpace), words.ignoreCase);
      ghost var whole := line;
      var pos := Find(line, '|', 0);
      if pos.Some? {
        line := line[..pos.value];
      }
      assert whole[..|whole|] == whole;
      r := AddWords(line, words);
      assert r.Success?;
      done := done + Runs(BeforeBar(whole), IsSpace);
    }
    SnowballStart([], words.ignoreCase);
    assert done + [] == done;
    SnowballsGive(all, old(words.Folded), words.Folded, words.ignoreCase);
    return Success(());
  }

  lemma SnowballStart(all: seq<string>, ignoreCase: bool)
    ensures SnowballWords(all) == [] + SnowballWords(all)
    ensures SnowballWords([]) == [] && FoldAll([], ignoreCase) == {}
  {
  }

  lemma SnowballStep(done: seq<string>, line: string, rest: seq<string>)
    ensures done + SnowballWords([line] + rest) == done + Runs(BeforeBar(line), IsSpace) + SnowballWords(rest)
  {
  }

  method AddWords(line: string, words: CharSet) returns (r: Result<(), string>)
    requires words.Valid()
    modifies words
    ensures r.Success? && words.Valid()
    ensures words.Folded == old(words.Folded) + FoldAll(Runs(line, IsSpace), words.ignoreCase)
  {
    NonEmptyHoldsNoEmpty(Fields(line, IsSpace));
    hide Fold, FoldAll, Table, Fields, NonEmpty;
    assert "" !in Runs(line, IsSpace);
    hide Runs;
    SnowballStart([], words.ignoreCase);
    var parts := SplitWhitespace(line);
    var i := 0;
    assert parts[..0] == [];
    while i < |parts|
      invariant 0 <= i <= |parts|
      invariant words.Valid()
      invariant words.Folded == old(words.Folded) + FoldAll(parts[..i], words.ignoreCase)
    {
      var word := parts[i];
      FoldAllSnoc(parts[..i], word, words.ignoreCase);
      if |word| > 0 {
        var added := words.Add(word);
        assert added.Success?;
      }
      assert parts[..i + 1] == parts[..i] + [word];
      i := i + 1;
    }
    assert parts[..i] == parts;
    return Success(());
  }
}
