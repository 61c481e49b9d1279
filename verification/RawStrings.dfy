// CleanseRawStrings of bin/cpplint.py: C++11 raw strings, section 2.14.5 [lex.string] of
// the standard, are replaced by empty strings, across lines.
//
// The test whether a prefix of a line ends inside a // comment is a parameter: every
// statement here holds for any such test.
module RawStrings {
  import opened Wrappers
  import opened CharClasses

  predicate StartsAt(s: string, k: nat, pattern: string) {
    k + |pattern| <= |s| && s[k..k + |pattern|] == pattern
  }

  // s.find(pattern), from k on
  function FindFrom(s: string, pattern: string, k: nat): (r: Option<nat>)
    requires k <= |s|
    ensures r.Some? ==> k <= r.value && StartsAt(s, r.value, pattern)
    ensures r.Some? ==> forall m :: k <= m < r.value ==> !StartsAt(s, m, pattern)
    ensures r.None? ==> forall m :: k <= m <= |s| ==> !StartsAt(s, m, pattern)
    decreases |s| - k
  {
    if StartsAt(s, k, pattern) then Some(k)
    else if k == |s| then None
    else FindFrom(s, pattern, k + 1)
  }

  // The length of an encoding prefix with its R in front of a quote: R, u8R, uR, UR or LR.
  function PrefixLength(line: string, k: nat): (n: nat)
    ensures n > 0 ==> k + n < |line| && line[k + n - 1] == 'R' && line[k + n] == '"' && IsWord(line[k])
  {
    if k + 1 < |line| && line[k] == 'R' && line[k + 1] == '"' then 1
    else if k + 3 < |line| && line[k] == 'u' && line[k + 1] == '8' && line[k + 2] == 'R' && line[k + 3] == '"' then 3
    else if k + 2 < |line| && (line[k] == 'u' || line[k] == 'U' || line[k] == 'L')
            && line[k + 1] == 'R' && line[k + 2] == '"' then 2
    else 0
  }

  // The characters that [^\s\\()]* stops at.
  predicate Stops(c: char) { IsSpace(c) || c == '\\' || c == '(' || c == ')' }

  function RunEnd(line: string, i: nat): (r: nat)
    requires i <= |line|
    ensures i <= r <= |line|
    ensures forall m :: i <= m < r ==> !Stops(line[m])
    ensures r < |line| ==> Stops(line[r])
    decreases |line| - i
  {
    if i < |line| && !Stops(line[i]) then RunEnd(line, i + 1) else i
  }

  // \b(?:R|u8R|uR|UR|LR)"([^\s\\()]*)\( matches at k.
  predicate OpensAt(line: string, k: nat) {
    && k < |line|
    && (k == 0 || !IsWord(line[k - 1]))
    && PrefixLength(line, k) > 0
    && var paren := RunEnd(line, k + PrefixLength(line, k) + 1);
       paren < |line| && line[paren] == '('
  }

  function FirstOpener(line: string, k: nat): (r: nat)
    requires k <= |line|
    ensures k <= r <= |line|
    ensures forall m :: k <= m < r ==> !OpensAt(line, m)
    ensures r < |line| ==> OpensAt(line, r)
    decreases |line| - k
  {
    if k < |line| && !OpensAt(line, k) then FirstOpener(line, k + 1) else k
  }

  function DelimiterStart(line: string, k: nat): nat { k + PrefixLength(line, k) + 1 }

  function Paren(line: string, k: nat): (p: nat)
    requires OpensAt(line, k)
    ensures DelimiterStart(line, k) <= p < |line|
  {
    RunEnd(line, DelimiterStart(line, k))
  }

  // The end marker of the raw string that opens at k.
  function Closing(line: string, k: nat): string
    requires OpensAt(line, k)
  {
    ")" + line[DelimiterStart(line, k)..Paren(line, k)] + "\""
  }

  // One round of the inner loop, on a line that starts outside raw strings.
  datatype Round =
    | Unchanged
    | Elided(line: string)                    // a raw string that ended on the line is gone
    | Awaiting(line: string, closing: string) // a raw string is left open

  function CutOnce(line: string, inComment: string -> bool): (r: Round)
    ensures r.Elided? ==> |r.line| < |line|
  {
    var k := FirstOpener(line, 0);
    if k == |line| || inComment(line[..k]) then Unchanged
    else
      var rest := line[Paren(line, k) + 1..];
      var closing := Closing(line, k);
      match FindFrom(rest, closing, 0)
      case Some(e) => Elided(line[..k] + "\"\"" + rest[e + |closing|..])
      case None => Awaiting(line[..k] + "\"\"", closing)
  }

  // The whole inner loop: the rewritten line, and the end marker that is still awaited.
  function CleanOpen(line: string, inComment: string -> bool): (string, Option<string>)
    decreases |line|
  {
    match CutOnce(line, inComment)
    case Unchanged => (line, None)
    case Elided(shorter) => CleanOpen(shorter, inComment)
    case Awaiting(cut, closing) => (cut, Some(closing))
  }

  // ^(\s*)\S
  function LeadingSpace(line: string): (r: string)
    ensures |r| <= |line| && line[..|r|] == r && (|r| < |line| ==> !IsSpace(line[|r|]))
    ensures forall i :: 0 <= i < |r| ==> IsSpace(r[i])
  {
    if line != "" && IsSpace(line[0]) then [line[0]] + LeadingSpace(line[1..]) else ""
  }

  // One line, given the awaited end marker.
  function CleanLine(line: string, delimiter: Option<string>, inComment: string -> bool): (string, Option<string>) {
    match delimiter
    case None => CleanOpen(line, inComment)
    case Some(d) =>
      match FindFrom(line, d, 0)
      case Some(e) => CleanOpen(LeadingSpace(line) + "\"\"" + line[e + |d|..], inComment)
      case None => ("\"\"", delimiter)
  }

  function CleanLines(lines: seq<string>, delimiter: Option<string>, inComment: string -> bool): (r: seq<string>)
    ensures |r| == |lines|
    decreases |lines|
  {
    if lines == [] then []
    else
      var (line, d) := CleanLine(lines[0], delimiter, inComment);
      [line] + CleanLines(lines[1..], d, inComment)
  }

  // ---------- the algorithm ----------

  // `while delimiter is None`
  method CleanseLine(line0: string, inComment: string -> bool) returns (line: string, delimiter: Option<string>)
    ensures (line, delimiter) == CleanOpen(line0, inComment)
  {
    hide CutOnce;
    line, delimiter := line0, None;
    while delimiter == None
      invariant CleanOpen(line0, inComment) == if delimiter == None
        then CleanOpen(line, inComment) else (line, delimiter)
      decreases delimiter == None, |line|
    {
      match CutOnce(line, inComment) {
        case Unchanged => break;
        case Elided(shorter) => line := shorter;
        case Awaiting(cut, closing) => line, delimiter := cut, Some(closing);
      }
    }
  }

  // One turn of the outer loop.
  method CleanseNext(line0: string, delimiter0: Option<string>, inComment: string -> bool)
      returns (line: string, delimiter: Option<string>)
    ensures (line, delimiter) == CleanLine(line0, delimiter0, inComment)
  {
    hide CleanOpen, FindFrom, LeadingSpace;
    line, delimiter := line0, delimiter0;
    if delimiter.Some? {
      var end := FindFrom(line, delimiter.value, 0);
      if end.Some? {
        line := LeadingSpace(line) + "\"\"" + line[end.value + |delimiter.value|..];
        delimiter := None;
      } else {
        line := "\"\"";
      }
    }
    if delimiter == None {
      line, delimiter := CleanseLine(line, inComment);
    }
  }

  method CleanseRawStrings(rawLines: seq<string>, inComment: string -> bool) returns (result: seq<string>)
    ensures result == CleanLines(rawLines, None, inComment)
    ensures |result| == |rawLines|
    ensures CleanLines(result, None, inComment) == result
    ensures forall i :: 0 <= i < |result| ==> OpensNone(result[i], inComment)
    ensures result == rawLines <==> forall i :: 0 <= i < |rawLines| ==> OpensNone(rawLines[i], inComment)
  {
    hide CleanLine, CleanLines, OpensNone;
    UntouchedIff(rawLines, inComment);
    UntouchedIff(CleanLines(rawLines, None, inComment), inComment);
    CleanLinesStable(rawLines, None, inComment);
    Idempotent(rawLines, inComment);
    var delimiter: Option<string> := None;
    result := [];
    CleanLinesFrom(rawLines, 0, None, inComment);
    var i := 0;
    while i < |rawLines|
      invariant 0 <= i <= |rawLines|
      invariant result + CleanLines(rawLines[i..], delimiter, inComment) == CleanLines(rawLines, None, inComment)
    {
      CleanLinesFrom(rawLines, i, delimiter, inComment);
      var line;
      line, delimiter := CleanseNext(rawLines[i], delimiter, inComment);
      ghost var tail := CleanLines(rawLines[i + 1..], delimiter, inComment);
      assert result + ([line] + tail) == (result + [line]) + tail;
      result := result + [line];
      i := i + 1;
    }
    CleanLinesFrom(rawLines, i, delimiter, inComment);
  }

  lemma CleanLinesFrom(lines: seq<string>, i: nat, d: Option<string>, inComment: string -> bool)
    requires i <= |lines|
    ensures i == 0 ==> lines[i..] == lines
    ensures CleanLines(lines[i..], d, inComment) ==
            if i == |lines| then []
            else [CleanLine(lines[i], d, inComment).0] +
                 CleanLines(lines[i + 1..], CleanLine(lines[i], d, inComment).1, inComment)
  {
  }

  // ---------- where a raw string opens, without the scanners ----------

  // The text of a line on which a raw string opens behind `pre`.
  function Opened(pre: string, prefix: string, d: string, body: string): string {
    pre + prefix + "\"" + d + "(" + body
  }

  // No white space, backslash or parenthesis.
  predicate Delimiter(d: string) { forall i :: 0 <= i < |d| ==> !White([d[i]]) && d[i] !in "\\()" }

  // An encoding prefix at a word boundary, a quote, an admissible delimiter and a parenthesis.
  predicate Opener(pre: string, prefix: string, d: string) {
    prefix in {"R", "u8R", "uR", "UR", "LR"} && EndsOutsideWord(pre) && Delimiter(d)
  }

  ghost predicate OpenerAt(line: string, k: nat) {
    k <= |line| &&
    exists prefix, d, body :: Opener(line[..k], prefix, d) && line == Opened(line[..k], prefix, d, body)
  }

  lemma OpenedShape(pre: string, prefix: string, d: string, body: string)
    ensures var line, q := Opened(pre, prefix, d, body), |pre| + |prefix| + 1;
            && |line| == q + |d| + 1 + |body|
            && line[..|pre|] == pre
            && (forall i :: 0 <= i < |pre| ==> line[i] == pre[i])
            && line[|pre|..q] == prefix + "\""
            && (forall m :: q <= m < q + |d| ==> line[m] == d[m - q])
            && line[q..q + |d|] == d
            && line[q + |d|] == '('
            && line[q + |d| + 1..] == body
  {
  }

  lemma PrefixAt(line: string, k: nat, prefix: string)
    requires prefix in {"R", "u8R", "uR", "UR", "LR"}
    requires k + |prefix| < |line| && line[k..k + |prefix| + 1] == prefix + "\""
    ensures PrefixLength(line, k) == |prefix|
  {
  }

  lemma RunOver(line: string, i: nat, r: nat)
    requires i <= r < |line| && Stops(line[r]) && forall m :: i <= m < r ==> !Stops(line[m])
    ensures RunEnd(line, i) == r
    decreases r - i
  {
  }

  lemma DelimiterIff(d: string)
    ensures Delimiter(d) <==> forall i :: 0 <= i < |d| ==> !Stops(d[i])
  {
    forall i | 0 <= i < |d| ensures !Stops(d[i]) <==> !White([d[i]]) && d[i] !in "\\()" {
      ClassesAreRanges(d[i]);
    }
  }

  lemma OpenerOpens(pre: string, prefix: string, d: string, body: string)
    requires Opener(pre, prefix, d)
    ensures var line := Opened(pre, prefix, d, body);
            && |pre| < |line| && OpensAt(line, |pre|)
            && PrefixLength(line, |pre|) == |prefix|
            && RunEnd(line, DelimiterStart(line, |pre|)) == |pre| + |prefix| + 1 + |d|
  {
    hide Opened, PrefixLength, RunEnd, Delimiter;
    var line := Opened(pre, prefix, d, body);
    var q := |pre| + |prefix| + 1;
    OpenedShape(pre, prefix, d, body);
    PrefixAt(line, |pre|, prefix);
    DelimiterIff(d);
    RunOver(line, q, q + |d|);
    EndsOutsideIff(pre);
  }

  lemma PrefixIs(line: string, k: nat)
    requires PrefixLength(line, k) > 0
    ensures var n := PrefixLength(line, k);
            k + n < |line| && line[k..k + n] in {"R", "u8R", "uR", "UR", "LR"} && line[k + n] == '"'
  {
    var n := PrefixLength(line, k);
    if n == 1 {
      assert line[k..k + n] == "R";
    } else if n == 3 {
      assert line[k..k + n] == "u8R";
    } else {
      assert line[k..k + n] == [line[k], 'R'];
    }
  }

  lemma CutLine(line: string, k: nat, q: nat, paren: nat)
    requires k < q <= paren < |line| && line[q - 1] == '"' && line[paren] == '('
    ensures line == Opened(line[..k], line[k..q - 1], line[q..paren], line[paren + 1..])
  {
  }

  lemma OpensCut(line: string, k: nat)
    requires OpensAt(line, k)
    ensures OpenerAt(line, k)
  {
    hide PrefixLength, RunEnd, Stops, White, IsWord, EndsOutsideWord, Delimiter, Opened;
    var n := PrefixLength(line, k);
    PrefixIs(line, k);
    var q, paren := k + n + 1, RunEnd(line, k + n + 1);
    var d := line[q..paren];
    DelimiterIff(d);
    assert forall i :: 0 <= i < |d| ==> d[i] == line[q + i];
    EndsOutsideIff(line[..k]);
    CutLine(line, k, q, paren);
    assert Opener(line[..k], line[k..k + n], d);
  }

  // The scanner for the opener finds exactly those places.
  lemma OpensAtIff(line: string, k: nat)
    ensures OpensAt(line, k) <==> OpenerAt(line, k)
  {
    hide OpensAt;
    if OpensAt(line, k) {
      OpensCut(line, k);
    }
    if OpenerAt(line, k) {
      var prefix, d, body :| Opener(line[..k], prefix, d) && line == Opened(line[..k], prefix, d, body);
      OpenerOpens(line[..k], prefix, d, body);
    }
  }

  // ---------- idempotence ----------

  // No raw string opens on the line, unless in a comment.
  ghost predicate NoLiveOpener(line: string, inComment: string -> bool) {
    var k := FirstOpener(line, 0);
    k == |line| || inComment(line[..k])
  }

  // A prefix that ends just before a raw string, with "" put in its place, opens nothing:
  // the new quotes neither complete an R" nor lengthen a delimiter up to a parenthesis.
  lemma CutOpensNothing(line: string, k: nat, m: nat)
    requires OpensAt(line, k) && forall j :: 0 <= j < k ==> !OpensAt(line, j)
    ensures !OpensAt(line[..k] + "\"\"", m)
  {
    var t := line[..k] + "\"\"";
    if OpensAt(t, m) {
      assert forall i :: 0 <= i < k ==> t[i] == line[i];
      var q := m + PrefixLength(t, m);
      if q < k {
        OpensInBoth(line, t, m, k);
      }
      assert false;
    }
  }

  // What lies before k decides, where the parenthesis does.
  lemma OpensInBoth(line: string, t: string, m: nat, k: nat)
    requires k <= |line| && k <= |t| && forall j :: 0 <= j < k ==> t[j] == line[j]
    requires OpensAt(t, m) && RunEnd(t, DelimiterStart(t, m)) < k
    ensures OpensAt(line, m)
  {
  }

  lemma CutOnceStable(line: string, inComment: string -> bool)
    ensures match CutOnce(line, inComment)
            case Unchanged => NoLiveOpener(line, inComment)
            case Elided(_) => true
            case Awaiting(cut, _) => NoLiveOpener(cut, inComment)
  {
    var k := FirstOpener(line, 0);
    if k < |line| {
      var t := line[..k] + "\"\"";
      if FirstOpener(t, 0) < |t| {
        CutOpensNothing(line, k, FirstOpener(t, 0));
      }
    }
  }

  lemma {:induction false} CleanOpenStable(line: string, inComment: string -> bool)
    ensures NoLiveOpener(CleanOpen(line, inComment).0, inComment)
    decreases |line|
  {
    hide CutOnce, NoLiveOpener;
    CutOnceStable(line, inComment);
    match CutOnce(line, inComment) {
      case Elided(shorter) => CleanOpenStable(shorter, inComment);
      case _ =>
    }
  }

  lemma CleanLineStable(line: string, delimiter: Option<string>, inComment: string -> bool)
    ensures NoLiveOpener(CleanLine(line, delimiter, inComment).0, inComment)
  {
    hide OpensAt, FirstOpener, FindFrom, CleanOpen;
    match delimiter {
      case None => CleanOpenStable(line, inComment);
      case Some(d) =>
        match FindFrom(line, d, 0) {
          case Some(e) => CleanOpenStable(LeadingSpace(line) + "\"\"" + line[e + |d|..], inComment);
          case None => EmptyStringOpensNothing();
        }
    }
  }

  lemma EmptyStringOpensNothing()
    ensures FirstOpener("\"\"", 0) == 2
  {
  }

  lemma {:induction false} CleanLinesStable(lines: seq<string>, delimiter: Option<string>, inComment: string -> bool)
    ensures forall i :: 0 <= i < |lines| ==> NoLiveOpener(CleanLines(lines, delimiter, inComment)[i], inComment)
    decreases |lines|
  {
    hide CleanLine, NoLiveOpener;
    if lines == [] {
    } else {
      CleanLineStable(lines[0], delimiter, inComment);
      CleanLinesStable(lines[1..], CleanLine(lines[0], delimiter, inComment).1, inComment);
    }
  }

  // Lines without live openers are left alone.
  lemma {:induction false} StableFixed(lines: seq<string>, inComment: string -> bool)
    requires forall i :: 0 <= i < |lines| ==> NoLiveOpener(lines[i], inComment)
    ensures CleanLines(lines, None, inComment) == lines
    decreases |lines|
  {
    if lines == [] {
    } else {
      assert CleanLine(lines[0], None, inComment) == (lines[0], None);
      StableFixed(lines[1..], inComment);
    }
  }

  // The first raw string that opens on the line, if there is one, is in a comment.
  ghost predicate OpensNone(line: string, inComment: string -> bool) {
    || (forall k :: 0 <= k <= |line| ==> !OpenerAt(line, k))
    || exists k :: 0 <= k <= |line| && OpenerAt(line, k) && inComment(line[..k])
                   && forall j :: 0 <= j < k ==> !OpenerAt(line, j)
  }

  lemma NoLiveOpenerIff(line: string, inComment: string -> bool)
    ensures NoLiveOpener(line, inComment) <==> OpensNone(line, inComment)
  {
    hide OpensAt, OpenerAt;
    forall k: nat | k <= |line| ensures OpensAt(line, k) <==> OpenerAt(line, k) {
      OpensAtIff(line, k);
    }
    var first := FirstOpener(line, 0);
    NoneAtEnd(line);
  }

  lemma NoneAtEnd(line: string)
    ensures !OpensAt(line, |line|)
  {
  }

  // The pass leaves a file alone exactly if no raw string opens on it outside comments.
  lemma UntouchedIff(lines: seq<string>, inComment: string -> bool)
    ensures CleanLines(lines, None, inComment) == lines <==>
            forall i :: 0 <= i < |lines| ==> OpensNone(lines[i], inComment)
  {
    hide NoLiveOpener, OpensNone;
    CleanLinesStable(lines, None, inComment);
    forall i | 0 <= i < |lines| ensures NoLiveOpener(lines[i], inComment) <==> OpensNone(lines[i], inComment) {
      NoLiveOpenerIff(lines[i], inComment);
    }
    if forall i :: 0 <= i < |lines| ==> NoLiveOpener(lines[i], inComment) {
      StableFixed(lines, inComment);
    }
  }

  // A second pass changes nothing, whatever the lines, whatever the comment test, and even
  // if a raw string is left open at the end.
  lemma Idempotent(lines: seq<string>, inComment: string -> bool)
    ensures CleanLines(CleanLines(lines, None, inComment), None, inComment) == CleanLines(lines, None, inComment)
  {
    CleanLinesStable(lines, None, inComment);
    StableFixed(CleanLines(lines, None, inComment), inComment);
  }

  // ---------- what the pass is for: a raw string literal becomes "" ----------

  // The opener is not in a comment, and no raw string opens earlier on the line.
  ghost predicate Literal(pre: string, prefix: string, d: string, body: string, inComment: string -> bool) {
    && Opener(pre, prefix, d)
    && !inComment(pre)
    && forall j :: 0 <= j < |pre| ==> !OpenerAt(Opened(pre, prefix, d, body), j)
  }

  // The end marker stands nowhere in the text.
  predicate NeverEnds(text: string, marker: string) {
    forall m :: 0 <= m <= |text| ==> !StartsAt(text, m, marker)
  }

  // The end marker stands behind `inside` for the first time.
  predicate EndsFirst(inside: string, marker: string, after: string) {
    forall m :: 0 <= m < |inside| ==> !StartsAt(inside + marker + after, m, marker)
  }

  lemma NeverFound(text: string, marker: string)
    requires NeverEnds(text, marker)
    ensures FindFrom(text, marker, 0) == None
  {
    hide FindFrom;
  }

  lemma MarkerFound(inside: string, marker: string, after: string)
    requires EndsFirst(inside, marker, after)
    ensures FindFrom(inside + marker + after, marker, 0) == Some(|inside|)
    ensures (inside + marker + after)[|inside| + |marker|..] == after
  {
    hide EndsFirst;
    var text := inside + marker + after;
    assert StartsAt(text, |inside|, marker);
    match FindFrom(text, marker, 0) {
      case None =>
      case Some(e) => NotBefore(inside, marker, after, e);
    }
  }

  lemma NotBefore(inside: string, marker: string, after: string, e: nat)
    requires EndsFirst(inside, marker, after) && StartsAt(inside + marker + after, e, marker)
    ensures e >= |inside|
  {
  }

  lemma LiteralOpens(pre: string, prefix: string, d: string, body: string, inComment: string -> bool)
    requires Literal(pre, prefix, d, body, inComment)
    ensures var line := Opened(pre, prefix, d, body);
            && FirstOpener(line, 0) == |pre| < |line| && line[..|pre|] == pre && !inComment(pre)
            && OpensAt(line, |pre|)
            && Closing(line, |pre|) == ")" + d + "\""
            && line[Paren(line, |pre|) + 1..] == body
  {
    hide OpensAt, Opened, PrefixLength, RunEnd, OpenerAt;
    var line := Opened(pre, prefix, d, body);
    OpenedShape(pre, prefix, d, body);
    OpenerOpens(pre, prefix, d, body);
    forall j: nat | j < |pre| ensures !OpensAt(line, j) {
      OpensAtIff(line, j);
    }
    assert FirstOpener(line, 0) == |pre|;
  }

  lemma CleanOpenOnce(line: string, inComment: string -> bool)
    ensures CleanOpen(line, inComment) ==
            match CutOnce(line, inComment)
            case Unchanged => (line, None)
            case Elided(shorter) => CleanOpen(shorter, inComment)
            case Awaiting(cut, closing) => (cut, Some(closing))
  {
  }

  // A raw string that ends on its line: the line is treated as if it held "" instead.
  lemma LiteralOnOneLine(pre: string, prefix: string, d: string, inside: string, after: string,
                         inComment: string -> bool)
    requires Literal(pre, prefix, d, inside + (")" + d + "\"") + after, inComment)
    requires EndsFirst(inside, ")" + d + "\"", after)
    ensures CleanOpen(pre + prefix + "\"" + d + "(" + (inside + (")" + d + "\"") + after), inComment) ==
            CleanOpen(pre + "\"\"" + after, inComment)
  {
    hide OpensAt, FirstOpener, FindFrom, Literal, CleanOpen, EndsFirst;
    var body := inside + (")" + d + "\"") + after;
    LiteralOpens(pre, prefix, d, body, inComment);
    MarkerFound(inside, ")" + d + "\"", after);
    CleanOpenOnce(Opened(pre, prefix, d, body), inComment);
  }

  // A raw string that does not end on its line: the line is cut, and the end marker awaited.
  lemma LiteralStaysOpen(pre: string, prefix: string, d: string, first: string, inComment: string -> bool)
    requires Literal(pre, prefix, d, first, inComment) && NeverEnds(first, ")" + d + "\"")
    ensures CleanOpen(Opened(pre, prefix, d, first), inComment) == (pre + "\"\"", Some(")" + d + "\""))
  {
    hide OpensAt, FirstOpener, FindFrom, Literal, NeverEnds, CleanOpen, Opened;
    var line := Opened(pre, prefix, d, first);
    LiteralOpens(pre, prefix, d, first, inComment);
    NeverFound(first, ")" + d + "\"");
    CleanOpenOnce(line, inComment);
  }

  // A raw string over several lines: the first line keeps what precedes it, the lines inside
  // become "", and the last line keeps its indentation and what follows.
  lemma LiteralOverLines(pre: string, prefix: string, d: string, first: string, middle: seq<string>,
                         inside: string, after: string, more: seq<string>, inComment: string -> bool)
    requires Literal(pre, prefix, d, first, inComment) && NeverEnds(first, ")" + d + "\"")
    requires forall i :: 0 <= i < |middle| ==> NeverEnds(middle[i], ")" + d + "\"")
    requires EndsFirst(inside, ")" + d + "\"", after)
    ensures var last := inside + (")" + d + "\"") + after;
            CleanLines([pre + prefix + "\"" + d + "(" + first] + middle + [last] + more, None, inComment) ==
            [pre + "\"\""] + seq(|middle|, i => "\"\"")
            + CleanLines([LeadingSpace(last) + "\"\"" + after] + more, None, inComment)
  {
    hide Literal, LeadingSpace, EndsFirst, NeverEnds, CleanOpen, FindFrom;
    var marker := ")" + d + "\"";
    var line, last := Opened(pre, prefix, d, first), inside + marker + after;
    LiteralStaysOpen(pre, prefix, d, first, inComment);
    var lines := [line] + middle + [last] + more;
    assert lines[1..] == middle + [last] + more;
    assert CleanLine(line, None, inComment) == (pre + "\"\"", Some(marker));
    InsideLiteral(marker, middle, inside, after, more, inComment);
  }

  lemma {:induction false} InsideLiteral(marker: string, middle: seq<string>, inside: string, after: string,
                                         more: seq<string>, inComment: string -> bool)
    requires forall i :: 0 <= i < |middle| ==> NeverEnds(middle[i], marker)
    requires EndsFirst(inside, marker, after)
    ensures var last := inside + marker + after;
            CleanLines(middle + [last] + more, Some(marker), inComment) ==
            seq(|middle|, i => "\"\"") + CleanLines([LeadingSpace(last) + "\"\"" + after] + more, None, inComment)
    decreases |middle|
  {
    hide FindFrom, CleanOpen, LeadingSpace, EndsFirst, StartsAt;
    var last := inside + marker + after;
    var lines, unquoted := middle + [last] + more, [LeadingSpace(last) + "\"\"" + after] + more;
    if middle == [] {
      MarkerFound(inside, marker, after);
      assert lines[0] == last && lines[1..] == more == unquoted[1..];
    } else {
      NeverFound(middle[0], marker);
      assert lines[0] == middle[0] && lines[1..] == middle[1..] + [last] + more;
      InsideLiteral(marker, middle[1..], inside, after, more, inComment);
      assert seq(|middle|, i => "\"\"") == ["\"\""] + seq(|middle| - 1, i => "\"\"");
    }
  }

  // The white space at the start of a line.
  lemma LeadingSpaceIs(line: string)
    ensures var u := LeadingSpace(line);
            u <= line && White(u) && (|u| < |line| ==> !White([line[|u|]]))
  {
    var u := LeadingSpace(line);
    forall i | 0 <= i < |u| ensures White([u[i]]) {
      ClassesAreRanges(u[i]);
    }
    assert forall i :: 0 <= i < |u| ==> u[i] == [u[i]][0];
    if |u| < |line| {
      ClassesAreRanges(line[|u|]);
    }
  }
}
