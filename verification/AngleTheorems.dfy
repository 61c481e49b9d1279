// When the two scanners are inverse to each other on angle brackets.
module AngleTheorems {
  import opened Wrappers
  import opened CharClasses
  import opened Lines
  import opened ForwardMatcher
  import opened BackwardMatcher
  import opened AngleCounter
  import opened AngleText
  import opened AngleReadings

  // A '<' or '>' that both scans read alike.  A '<' must not follow the word "operator", and
  // may stand together with one other '<' at most.  A '>' that is not that of "->" must not
  // be taken for an operator by one scan only: the forward scan looks for "operator" in front
  // of the character before it, the backward scan in front of it and for " >= ".
  predicate PlainAngle(line: string, i: nat)
    requires i < |line|
  {
    if line[i] == '<' then
      || (Role(line, i) == Opens && !(i + 1 < |line| && line[i + 1] == '<'))
      || LoneShift(line, i)
      || (i > 0 && LoneShift(line, i - 1))
    else if line[i] == '>' then
      || i == 0 || line[i - 1] == '-'
      || (EndsWithOperator(line[..i - 1]) <==> SpacedGreaterEqual(line, i) || EndsWithOperator(line[..i]))
    else true
  }

  predicate ReadAlike(line: string, i: nat)
    requires i < |line|
  {
    Forwards(line, i) == Backwards(line, i)
  }

  // That is exactly where the scans agree: a '<' or '>' that is not plain is read in two ways,
  // or the '<' behind it is.
  lemma PlainIff(line: string, i: nat)
    requires i < |line|
    ensures PlainAngle(line, i) ==> ReadAlike(line, i)
    ensures !PlainAngle(line, i) ==>
              !ReadAlike(line, i) || (i + 1 < |line| && line[i + 1] == '<' && !ReadAlike(line, i + 1))
  {
    hide EndsWithOperator, SpacedGreaterEqual;
    if line[i] == '<' {
      assert ShiftRun(line, i) == 1 + ShiftRun(line, i + 1);
      if i + 1 < |line| && line[i + 1] == '<' {
        assert ShiftRun(line, i + 1) == 1 + ShiftRun(line, i + 2);
      }
    }
  }

  // The places from one to another, both included.
  ghost predicate PlainBetween(lines: seq<string>, from: nat, to: nat) {
    forall m: nat, i: nat :: InText(lines, m, i) && from <= At(lines, m, i) <= to ==> PlainAngle(lines[m], i)
  }

  lemma {:induction false} PlaceAt(lines: seq<string>, n: nat, k: nat) returns (m: nat, i: nat)
    requires n <= |lines| && k < |TextBefore(lines, n)|
    ensures InText(lines, m, i) && At(lines, m, i) == k
  {
    if k < |TextBefore(lines, n - 1)| {
      m, i := PlaceAt(lines, n - 1, k);
    } else {
      m, i := n - 1, k - |TextBefore(lines, n - 1)|;
    }
  }

  lemma ReadAt(lines: seq<string>, l: nat, p: nat)
    requires InText(lines, l, p)
    ensures At(lines, l, p) < |Flatten(ReadForwards(lines))| && At(lines, l, p) < |Flatten(ReadBackwards(lines))|
    ensures Flatten(ReadForwards(lines))[At(lines, l, p)] == Forwards(lines[l], p)
    ensures Flatten(ReadBackwards(lines))[At(lines, l, p)] == Backwards(lines[l], p)
  {
    hide Forwards, Backwards;
    var f, b := ReadForwards(lines), ReadBackwards(lines);
    SamePositions(lines, f, l);
    SamePositions(lines, b, l);
    CharAt(f, l, p);
    CharAt(b, l, p);
  }

  // Where all angle brackets are plain, the two readings are one text.
  lemma SameReading(lines: seq<string>, from: nat, to: nat)
    requires from <= to < |Flatten(lines)| && PlainBetween(lines, from, to)
    ensures |Flatten(ReadForwards(lines))| == |Flatten(ReadBackwards(lines))| == |Flatten(lines)|
    ensures forall k :: from <= k <= to ==> Flatten(ReadForwards(lines))[k] == Flatten(ReadBackwards(lines))[k]
  {
    hide TextBefore, PlainAngle, Forwards, Backwards;
    var f, b := ReadForwards(lines), ReadBackwards(lines);
    SamePositions(lines, f, |lines|);
    SamePositions(lines, b, |lines|);
    forall k | from <= k <= to ensures Flatten(f)[k] == Flatten(b)[k] {
      var m, i := PlaceAt(lines, |lines|, k);
      ReadAt(lines, m, i);
      PlainIff(lines[m], i);
    }
  }

  // The two scans are inverse to each other on angle brackets of their own, over any number
  // of lines, if every angle bracket from the one to the other is plain.
  lemma AngleInverse(lines: seq<string>, l: nat, p: nat, l': nat, q: nat)
    requires InText(lines, l, p) && lines[l][p] == '<' && CanOpen(lines[l], p) && Owns(lines[l], p)
    requires InText(lines, l', q) && lines[l'][q] == '>' && !OperatorAngle(lines[l'], q)
    requires PlainBetween(lines, At(lines, l, p), At(lines, l', q))
    ensures Close(lines, l, p) == Some(Place(l', q + 1)) <==> ReverseClose(lines, l', q) == Some(Place(l, p))
  {
    hide Close, ReverseClose, CanOpen, Owns, OperatorAngle, Flatten, TextBefore, PlainBetween, Enclosed;
    AngleCloseIff(lines, l, p, l', q);
    AngleOpenIff(lines, l, p, l', q);
    var i, j := At(lines, l, p), At(lines, l', q);
    CharAt(lines, l', q);
    if i < j {
      SameReading(lines, i, j);
      assert Flatten(ReadForwards(lines))[i + 1..j] == Flatten(ReadBackwards(lines))[i + 1..j];
    }
  }

  // There and back, from a '<' that is closed: its closer is no operator.
  lemma AngleRoundTrip(lines: seq<string>, l: nat, p: nat)
    requires InText(lines, l, p) && lines[l][p] == '<' && CanOpen(lines[l], p) && Owns(lines[l], p)
    requires Close(lines, l, p).Some?
    requires var e := Close(lines, l, p).value;
             InText(lines, e.line, e.pos - 1) ==> PlainBetween(lines, At(lines, l, p), At(lines, e.line, e.pos - 1))
    ensures var e := Close(lines, l, p).value;
            && InText(lines, e.line, e.pos - 1) && lines[e.line][e.pos - 1] == '>'
            && ReverseClose(lines, e.line, e.pos - 1) == Some(Place(l, p))
  {
    hide ScanLines, Owns, OperatorAngle, Flatten, TextBefore, Forwards, ReverseClose, Enclosed;
    var e := Close(lines, l, p).value;
    OwnedAngleAnswer(lines, l, p);
    PlainIff(lines[e.line], e.pos - 1);
    ReadAt(lines, e.line, e.pos - 1);
    AngleInverse(lines, l, p, e.line, e.pos - 1);
  }

  // Back and there, from a '>' that is opened by a '<' on which the forward scan can start.
  lemma AngleRoundTripBack(lines: seq<string>, l': nat, q: nat)
    requires InText(lines, l', q) && lines[l'][q] == '>' && !OperatorAngle(lines[l'], q)
    requires ReverseClose(lines, l', q).Some?
    requires var s := ReverseClose(lines, l', q).value;
             InText(lines, s.line, s.pos) ==>
               CanOpen(lines[s.line], s.pos) && PlainBetween(lines, At(lines, s.line, s.pos), At(lines, l', q))
    ensures var s := ReverseClose(lines, l', q).value;
            && InText(lines, s.line, s.pos) && lines[s.line][s.pos] == '<'
            && Close(lines, s.line, s.pos) == Some(Place(l', q + 1))
  {
    hide Close, OperatorAngle, Flatten, TextBefore, ReverseClose, Enclosed, EndsWithOperator;
    var s := ReverseClose(lines, l', q).value;
    OwnedAngleStart(lines, l', q);
    PlainIff(lines[s.line], s.pos);
    ReadAt(lines, s.line, s.pos);
    AngleInverse(lines, s.line, s.pos, l', q);
  }

  // ---------- no hypothesis of AngleInverse can be dropped ----------

  // The forward scan of a single line from its first '<'.
  lemma ForwardFrom(line: string)
    requires |line| > 1 && line[0] == '<' && line[1] != '<' && line[1] != '='
    ensures Close([line], 0, 0) == match CountLine(line, 1, [], 1) { case Found(q) => Some(Place(0, q)) case _ => None }
  {
    hide CountLine;
    AngleCloseCounts([line], 0, 0);
  }

  // The backward scan of a single line from a '>'.
  lemma BackwardFrom(line: string, q: nat)
    requires q < |line| && line[q] == '>' && !OperatorAngle(line, q)
    ensures ReverseClose([line], 0, q) ==
            match CountLineBack(line, q, [], 1) { case FoundStart(i) => Some(Place(0, i)) case _ => None }
  {
    hide CountLineBack, OperatorAngle;
    AngleOpenCounts([line], 0, q);
  }

  lemma CountOnce(line: string, i: nat, n: nat, role: Angle)
    requires i < |line| && n > 0 && (line[i] == '<' || line[i] == '>') && Role(line, i) == role
    ensures CountLine(line, i, [], n) ==
            match role
            case Opens => CountLine(line, i + 1, [], n + 1)
            case Shifts => if n == 1 then NoEnd else CountLine(line, i + 1, [], n - 1)
            case Closes => if n == 1 then Found(i + 1) else CountLine(line, i + 1, [], n - 1)
            case Neither => CountLine(line, i + 1, [], n)
  {
    hide Role;
  }

  lemma CountBackOnce(line: string, i: nat, n: nat)
    requires i < |line| && n > 0 && (line[i] == '<' || line[i] == '>')
    ensures CountLineBack(line, i + 1, [], n) ==
            if StepsOverTwo(line, i) then CountLineBack(line, i - 1, [], n)
            else if line[i] == '>' then CountLineBack(line, i, [], n + 1)
            else if n == 1 then FoundStart(i)
            else CountLineBack(line, i, [], n - 1)
  {
    hide StepsOverTwo;
  }

  lemma {:induction false} CountPasses(line: string, i: nat, j: nat, n: nat)
    requires i <= j <= |line| && n > 0 && forall k :: i <= k < j ==> Passed(line[k])
    ensures CountLine(line, i, [], n) == CountLine(line, j, [], n)
    decreases j - i
  {
    if i == j {
    } else {
      assert CountStep(line, i, [], n) == Counting([], n);
      CountPasses(line, i + 1, j, n);
    }
  }

  lemma {:induction false} CountBackPasses(line: string, i: nat, j: nat, n: nat)
    requires i <= j <= |line| && n > 0 && forall k :: i <= k < j ==> Passed(line[k])
    ensures CountLineBack(line, j, [], n) == CountLineBack(line, i, [], n)
    decreases j - i
  {
    if i == j {
    } else {
      assert CountBackStep(line, j - 1, [], n) == CountingBack(j - 1, [], n);
      CountBackPasses(line, i, j - 1, n);
    }
  }

  lemma NoOperator(s: string)
    requires s != "" ==> !IsSpace(s[|s| - 1]) && s[|s| - 1] != 'r'
    ensures !EndsWithOperator(s)
  {
  }

  lemma EndsInOperator(s: string)
    requires |s| == 9 && s[1..] == "operator" && s[8] == 'r' && s[0] == '<'
    ensures EndsWithOperator(s)
  {
    assert TrimEnd(s) == s;
  }

  predicate StartsWithOperator(line: string) { |line| > 9 && line[..9] == "<operator" }

  lemma BehindLess(line: string)
    requires StartsWithOperator(line)
    ensures |line| > 9
    ensures EndsWithOperator(line[..9]) && !EndsWithOperator(line[..8])
    ensures line[0] == '<' && IsWord(line[1]) && line[8] == 'r' && forall k :: 1 <= k < 9 ==> Passed(line[k])
  {
    hide EndsWithOperator, Passed;
    var s := "<operator";
    Letters(s);
    assert line[..9] == s;
    EndsInOperator(s);
    NoOperator(line[..8]) by { assert line[7] == s[7]; }
    forall k | 1 <= k < 9 ensures Passed(line[k]) {
      assert line[k] == s[k];
      LetterIsPassed(s[k]);
    }
  }

  lemma Letters(s: string)
    requires s == "<operator"
    ensures s[0] == '<' && s[1..] == "operator" && s[7] == 'o' && s[8] == 'r'
    ensures forall k :: 1 <= k < 9 ==> IsWord(s[k])
  {
  }

  lemma LetterIsPassed(c: char)
    requires IsWord(c)
    ensures Passed(c)
  {
  }

  // " >= " is a closer for the forward scan only.
  lemma SpacedGreaterEqualMatters(line: string)
    requires line == "< >= a>"
    ensures Close([line], 0, 0) == Some(Place(0, 3))
    ensures ReverseClose([line], 0, 6) == Some(Place(0, 0))
  {
    hide EndsWithOperator, CountLine, CountLineBack, Close, ReverseClose;
    NoOperator(line[..1]);
    NoOperator(line[..6]);
    ForwardFrom(line);
    CountPasses(line, 1, 2, 1);
    CountOnce(line, 2, 1, Closes);
    BackwardFrom(line, 6);
    CountBackPasses(line, 3, 6, 1);
    CountBackOnce(line, 2, 1);
    CountBackOnce(line, 0, 1);
  }

  // The common start of the following lines.
  lemma AfterLess(line: string)
    requires |line| > 9 && line[0] == '<' && IsWord(line[1]) && forall k :: 1 <= k < 9 ==> Passed(line[k])
    ensures Close([line], 0, 0) == match CountLine(line, 9, [], 1) { case Found(q) => Some(Place(0, q)) case _ => None }
    ensures CountLineBack(line, 9, [], 1) == CountLineBack(line, 8, [], 1) == FoundStart(0)
  {
    hide CountLine, CountLineBack, Close;
    assert Passed(line[1]);
    ForwardFrom(line);
    hide Passed;
    CountPasses(line, 1, 9, 1);
    CountBackPasses(line, 1, 9, 1);
    CountBackPasses(line, 1, 8, 1);
    CountBackOnce(line, 0, 1);
  }

  // So is the '>' of "operator>": "<operator>>".
  lemma OperatorGreaterMatters(line: string)
    requires StartsWithOperator(line) && |line| == 11 && line[9] == '>' && line[10] == '>'
    ensures Close([line], 0, 0) == Some(Place(0, 10))
    ensures ReverseClose([line], 0, 10) == Some(Place(0, 0))
  {
    hide StartsWithOperator, EndsWithOperator, CountLine, CountLineBack, Close, ReverseClose;
    BehindLess(line);
    AfterLess(line);
    NoOperator(line[..10]);
    CountOnce(line, 9, 1, Closes);
    BackwardFrom(line, 10);
    CountBackOnce(line, 9, 1);
  }

  // A '>' one character behind "operator" is a closer for the backward scan only: "<operator*>".
  lemma BehindOperatorMatters(line: string)
    requires StartsWithOperator(line) && |line| == 11 && line[9] == '*' && line[10] == '>'
    ensures Close([line], 0, 0) == None
    ensures ReverseClose([line], 0, 10) == Some(Place(0, 0))
  {
    hide StartsWithOperator, EndsWithOperator, CountLineBack, Close, ReverseClose;
    BehindLess(line);
    AfterLess(line);
    NoOperator(line[..10]);
    CountPasses(line, 9, 10, 1);
    CountOnce(line, 10, 1, Neither);
    BackwardFrom(line, 10);
    CountBackPasses(line, 9, 10, 1);
  }

  // The '<' of "operator<" is an opener for the backward scan only: "<operator<a>".
  lemma OperatorLessMatters(line: string)
    requires StartsWithOperator(line) && |line| == 12 && line[9] == '<' && line[10] == 'a' && line[11] == '>'
    ensures Close([line], 0, 0) == Some(Place(0, 12))
    ensures ReverseClose([line], 0, 11) == Some(Place(0, 9))
  {
    hide StartsWithOperator, EndsWithOperator, CountLine, CountLineBack, Close, ReverseClose;
    BehindLess(line);
    AfterLess(line);
    NoOperator(line[..10]);
    NoOperator(line[..11]);
    CountOnce(line, 9, 1, Neither);
    CountPasses(line, 10, 11, 1);
    CountOnce(line, 11, 1, Closes);
    BackwardFrom(line, 11);
    CountBackPasses(line, 10, 11, 1);
    CountBackOnce(line, 9, 1);
  }

  // The "<<" of "operator<<" pops a mark in the forward scan only: "<operator<<a>".
  lemma OperatorShiftMatters(line: string)
    requires StartsWithOperator(line) && |line| == 13
    requires line[9] == '<' && line[10] == '<' && line[11] == 'a' && line[12] == '>'
    ensures Close([line], 0, 0) == None
    ensures ReverseClose([line], 0, 12) == Some(Place(0, 0))
  {
    hide StartsWithOperator, EndsWithOperator, CountLine, CountLineBack, Close, ReverseClose;
    BehindLess(line);
    AfterLess(line);
    NoOperator(line[..12]);
    CountOnce(line, 9, 1, Neither);
    CountOnce(line, 10, 1, Shifts);
    BackwardFrom(line, 12);
    CountBackPasses(line, 11, 12, 1);
    CountBackOnce(line, 10, 1);
  }

  // So do three '<' in a row.
  lemma TripleShiftMatters(line: string)
    requires line == "<a<<<b>>"
    ensures Close([line], 0, 0) == None
    ensures ReverseClose([line], 0, 7) == Some(Place(0, 0))
  {
    hide EndsWithOperator, CountLine, CountLineBack, Close, ReverseClose;
    NoOperator(line[..2]);
    NoOperator(line[..6]);
    NoOperator(line[..7]);
    ForwardFrom(line);
    CountPasses(line, 1, 2, 1);
    CountOnce(line, 2, 1, Opens);
    CountOnce(line, 3, 2, Shifts);
    CountOnce(line, 4, 1, Shifts);
    BackwardFrom(line, 7);
    CountBackOnce(line, 6, 1);
    CountBackPasses(line, 5, 6, 2);
    CountBackOnce(line, 4, 2);
    CountBackOnce(line, 2, 2);
    CountBackPasses(line, 1, 2, 1);
    CountBackOnce(line, 0, 1);
  }

  lemma ScanOnce(line: string, i: nat, stack: seq<char>, next: Outcome)
    requires i < |line| && Step(line, i, stack) == next
    ensures Scan(line, i, stack) == if next.Running? then Scan(line, i + 1, next.stack) else next
  {
  }

  lemma ScanBackOnce(line: string, i: nat, stack: seq<char>, next: BackStep)
    requires i < |line| && StepBack(line, i, stack) == next
    ensures ScanBack(line, i + 1, stack) ==
            match next
            case Next(k, s) => ScanBack(line, k, s)
            case Opened(q) => Start(q)
            case Lost => NoStart
  {
  }

  // The forward scan refuses to start on "<<" and "<=".
  lemma CanOpenMatters(line: string)
    requires line == "<=>"
    ensures Close([line], 0, 0) == None && ReverseClose([line], 0, 2) == Some(Place(0, 0))
  {
    hide EndsWithOperator, CountLineBack;
    NoOperator(line[..2]);
    BackwardFrom(line, 2);
    CountBackPasses(line, 1, 2, 1);
    CountBackOnce(line, 0, 1);
  }

  // The second '<' of "<<" is not pushed: it gets the answer of a later one.
  lemma OwnsMatters(line: string)
    requires line == "<<a<>"
    ensures PlainAngle(line, 1) && CanOpen(line, 1)
    ensures Close([line], 0, 1) == Some(Place(0, 5)) && ReverseClose([line], 0, 4) == Some(Place(0, 3))
  {
    hide EndsWithOperator, Scan, ScanBack;
    NoOperator(line[..3]);
    NoOperator(line[..4]);
    assert LoneShift(line, 0);
    ScanOnce(line, 1, [], Running([]));
    ScanOnce(line, 2, [], Running([]));
    ScanOnce(line, 3, [], Running(['<']));
    ScanOnce(line, 4, ['<'], Closed(5));
    ScanBackOnce(line, 4, [], Next(4, ['>']));
    ScanBackOnce(line, 3, ['>'], Opened(3));
  }

  // A '>' that is an operator is not pushed: it gets the answer of an earlier one.
  lemma OperatorAngleMatters(line: string)
    requires line == "<>->"
    ensures PlainAngle(line, 3) && OperatorAngle(line, 3)
    ensures Close([line], 0, 0) == Some(Place(0, 2)) && ReverseClose([line], 0, 3) == Some(Place(0, 0))
  {
    hide EndsWithOperator, Scan, ScanBack;
    assert line[0] == '<' && line[1] == '>' && line[2] == '-' && line[3] == '>';
    NoOperator(line[..0]);
    NoOperator(line[..1]);
    ScanOnce(line, 0, [], Running(['<']));
    ScanOnce(line, 1, ['<'], Closed(2));
    ScanBackOnce(line, 3, [], Next(2, []));
    ScanBackOnce(line, 1, [], Next(1, ['>']));
    ScanBackOnce(line, 0, ['>'], Opened(0));
  }

  // The '>' of " >= " is the closer for the one scan and no start for the other.
  lemma AnglesAreNotInverse(line: string)
    requires line == "<a >= b>"
    ensures Close([line], 0, 0) == Some(Place(0, 4)) && ReverseClose([line], 0, 3) == None
  {
    hide EndsWithOperator, CountLine, ScanBack;
    NoOperator(line[..2]);
    ForwardFrom(line);
    CountPasses(line, 1, 3, 1);
    CountOnce(line, 3, 1, Closes);
    ScanBackOnce(line, 3, [], Next(2, []));
    ScanBackOnce(line, 1, [], Next(1, []));
    ScanBackOnce(line, 0, [], Next(0, []));
    NothingBefore(line, []);
  }

  lemma NothingBefore(line: string, stack: seq<char>)
    ensures ScanBack(line, 0, stack) == Pending(stack)
  {
  }

  // ---------- answers that belong to another bracket ----------

  // A '<' that is not pushed may be answered with a bracket of another kind: CloseExpression
  // on the second '<' of "<<()" returns the place past ')'.
  lemma UnownedAngleExample(line: string)
    requires line == "<<()"
    ensures CanOpen(line, 1) && !Owns(line, 1)
    ensures Close([line], 0, 1) == Some(Place(0, 4)) && line[3] == ')'
  {
    hide EndsWithOperator, Scan;
    ScanOnce(line, 1, [], Running([]));
    ScanOnce(line, 2, [], Running(['(']));
    ScanOnce(line, 3, ['('], Closed(4));
  }

  // So may a '>' that is not: ReverseCloseExpression on the '>' of "[]->" returns the place of '['.
  lemma OperatorStartExample(line: string)
    requires line == "[]->"
    ensures OperatorAngle(line, 3)
    ensures ReverseClose([line], 0, 3) == Some(Place(0, 0)) && line[0] == '['
  {
    hide EndsWithOperator, ScanBack;
    ScanBackOnce(line, 3, [], Next(2, []));
    ScanBackOnce(line, 1, [], Next(1, [']']));
    ScanBackOnce(line, 0, [']'], Opened(0));
  }
}
