// How each scanner reads the '<' and '>' of a file: as angle brackets or as nothing.
//
// Each scanner, started on an angle bracket of its own, finds exactly the partner of
// `AngleText` in the file as it reads it.
module AngleReadings {
  import opened Wrappers
  import opened CharClasses
  import opened Lines
  import opened ForwardMatcher
  import opened BackwardMatcher
  import opened AngleCounter
  import opened AngleText

  // "<<" on its own: the forward scan pushes a mark and pops it at once.
  predicate LoneShift(line: string, i: nat)
    requires i < |line|
  {
    && i + 1 < |line| && line[i + 1] == '<' && Role(line, i) == Opens
    && !(i + 2 < |line| && line[i + 2] == '<')
  }

  function Forwards(line: string, i: nat): char
    requires i < |line|
  {
    if LoneShift(line, i) || (i > 0 && LoneShift(line, i - 1)) then ' '
    else if line[i] != '<' && line[i] != '>' then line[i]
    else match Role(line, i)
      case Opens => '<'
      case Shifts => '>'
      case Closes => '>'
      case Neither => ' '
  }

  // The number of '<' that stand together from column i on.
  function ShiftRun(line: string, i: nat): nat
    decreases |line| - i
  {
    if i < |line| && line[i] == '<' then 1 + ShiftRun(line, i + 1) else 0
  }

  // The backward scan skips '<' in pairs.
  function Backwards(line: string, i: nat): char
    requires i < |line|
  {
    if line[i] == '<' then
      if (i == 0 || line[i - 1] != '<') && ShiftRun(line, i) % 2 == 1 then '<' else ' '
    else if line[i] == '>' && OperatorAngle(line, i) then ' '
    else line[i]
  }

  function ForwardsLine(line: string): (r: string)
    ensures |r| == |line| && forall i :: 0 <= i < |line| ==> r[i] == Forwards(line, i)
  {
    seq(|line|, i requires 0 <= i < |line| => Forwards(line, i))
  }

  function BackwardsLine(line: string): (r: string)
    ensures |r| == |line| && forall i :: 0 <= i < |line| ==> r[i] == Backwards(line, i)
  {
    seq(|line|, i requires 0 <= i < |line| => Backwards(line, i))
  }

  function ReadForwards(lines: seq<string>): (r: seq<string>)
    ensures |r| == |lines| && forall l :: 0 <= l < |lines| ==> r[l] == ForwardsLine(lines[l])
  {
    seq(|lines|, l requires 0 <= l < |lines| => ForwardsLine(lines[l]))
  }

  function ReadBackwards(lines: seq<string>): (r: seq<string>)
    ensures |r| == |lines| && forall l :: 0 <= l < |lines| ==> r[l] == BackwardsLine(lines[l])
  {
    seq(|lines|, l requires 0 <= l < |lines| => BackwardsLine(lines[l]))
  }

  ghost predicate SameLengths(lines: seq<string>, r: seq<string>) {
    |r| == |lines| && forall l :: 0 <= l < |lines| ==> |r[l]| == |lines[l]|
  }

  lemma {:induction false} SamePositions(lines: seq<string>, r: seq<string>, l: nat)
    requires SameLengths(lines, r) && l <= |lines|
    ensures |TextBefore(r, l)| == |TextBefore(lines, l)|
  {
    if l == 0 {
    } else {
      SamePositions(lines, r, l - 1);
    }
  }

  // ---------- the forward scan ----------

  // Outside lone shifts, one character moves the counter as its reading moves the reference.
  lemma StepForwards(line: string, i: nat, open: seq<char>, n: nat)
    requires i < |line| && n > 0 && !LoneShift(line, i) && !(i > 0 && LoneShift(line, i - 1))
    ensures var c, s := Forwards(line, i), Level(open, n - 1);
            match CountStep(line, i, open, n)
            case Counting(o, a) => a > 0 && !(s == BASE && c == '>') && Forth(s, c) == Some(Level(o, a - 1))
            case Found(q) => q == i + 1 && line[i] == '>' && c == '>' && s == BASE
            case NoEnd => if s == BASE && c == '>' then line[i] == '<' else Forth(s, c) == None
  {
    hide EndsWithOperator, LoneShift;
  }

  lemma {:induction false} LineForwards(text: string, base: nat, line: string, i: nat, open: seq<char>, n: nat)
    requires base + |line| <= |text| && text[base..base + |line|] == ForwardsLine(line)
    requires i <= |line| && n > 0 && !(0 < i < |line| && LoneShift(line, i - 1))
    ensures var here := SeekRight(text, base + i, Level(open, n - 1));
            match CountLine(line, i, open, n)
            case Counting(o, a) =>
              && here == SeekRight(text, base + |line|, Level(o, a - 1))
              && (base + |line| == |text| ==> here == None)
            case Found(q) => i < q <= |line| && line[q - 1] == '>' && here == Some(base + q - 1)
            case NoEnd => here.Some? ==> base <= here.value < base + |line| && line[here.value - base] == '<'
    decreases |line| - i
  {
    hide CountStep, Forth, Forwards, LoneShift;
    if i == |line| {
    } else if LoneShift(line, i) {
      ShiftPassed(line, i, open, n);
      assert text[base + i] == Forwards(line, i);
      assert text[base + i + 1] == Forwards(line, i + 1);
      LineForwards(text, base, line, i + 2, open, n);
      PassBlanks(text, base + i, Level(open, n - 1));
    } else {
      assert text[base + i] == Forwards(line, i);
      StepForwards(line, i, open, n);
      var out := CountStep(line, i, open, n);
      if out.Counting? {
        LineForwards(text, base, line, i + 1, out.open, out.angles);
      }
    }
  }

  lemma ShiftPassed(line: string, i: nat, open: seq<char>, n: nat)
    requires i < |line| && n > 0 && LoneShift(line, i)
    ensures i + 2 <= |line| && Forwards(line, i) == ' ' && Forwards(line, i + 1) == ' '
    ensures CountLine(line, i, open, n) == CountLine(line, i + 2, open, n)
    ensures i + 2 < |line| ==> !LoneShift(line, i + 1)
  {
    hide EndsWithOperator;
    var up := if open == [] then n + 1 else n;
    assert CountStep(line, i, open, n) == Counting(open, up);
    assert CountStep(line, i + 1, open, up) == Counting(open, n);
  }

  lemma PassBlanks(text: string, k: nat, s: Level)
    requires k + 2 <= |text| && text[k] == ' ' && text[k + 1] == ' '
    ensures SeekRight(text, k, s) == SeekRight(text, k + 2, s)
  {
    assert Forth(s, ' ') == Some(s);
  }

  lemma {:induction false} FileForwards(lines: seq<string>, l: nat, i: nat, open: seq<char>, n: nat)
    requires l < |lines| && i <= |lines[l]| && n > 0 && !(0 < i < |lines[l]| && LoneShift(lines[l], i - 1))
    ensures At(lines, l, i) <= |Flatten(ReadForwards(lines))|
    ensures var here := SeekRight(Flatten(ReadForwards(lines)), At(lines, l, i), Level(open, n - 1));
            match CountLines(lines, l, i, open, n)
            case Some(e) =>
              && InText(lines, e.line, e.pos - 1) && lines[e.line][e.pos - 1] == '>'
              && here == Some(At(lines, e.line, e.pos - 1))
            case None => forall l', q :: InText(lines, l', q) && lines[l'][q] == '>' ==> here != Some(At(lines, l', q))
    decreases |lines| - l
  {
    hide CountLine, SeekRight, TextBefore, Flatten;
    var r := ReadForwards(lines);
    var text := Flatten(r);
    LineAt(r, l);
    SamePositions(lines, r, l);
    SamePositions(lines, r, l + 1);
    LineForwards(text, At(lines, l, 0), lines[l], i, open, n);
    var here := SeekRight(text, At(lines, l, i), Level(open, n - 1));
    match CountLine(lines[l], i, open, n) {
      case Counting(o, a) =>
        if l + 1 < |lines| {
          FileForwards(lines, l + 1, 0, o, a);
        }
      case Found(q) =>
      case NoEnd =>
        forall l', q | InText(lines, l', q) && lines[l'][q] == '>' ensures here != Some(At(lines, l', q)) {
          if here.Some? {
            AtInjective(lines, l, here.value - At(lines, l, 0), l', q);
          }
        }
    }
  }

  // ---------- the backward scan ----------

  // A character that nothing depends on.
  predicate Passed(c: char) { Silent(c) && c != '<' && c != '>' }

  lemma SkippedBeforeAngle(line: string, i: nat)
    requires 0 < i < |line| && line[i] == '>' && OperatorAngle(line, i)
    ensures Passed(line[i - 1])
  {
  }

  // Where the backward scan can stand: not between the two '<' of a pair that it skips.
  predicate Stands(line: string, k: nat)
    requires k <= |line|
  {
    k > 0 && line[k - 1] == '<' ==> ShiftRun(line, k) % 2 == 0
  }

  // Two characters at once: nothing to be read in either.
  lemma StepBackwardsTwo(line: string, i: nat, open: seq<char>, n: nat)
    requires i < |line| && n > 0 && Stands(line, i + 1) && StepsOverTwo(line, i)
    ensures CountBackStep(line, i, open, n) == CountingBack(i - 1, open, n)
    ensures i > 0 && Stands(line, i - 1) && Passed(Backwards(line, i)) && Passed(Backwards(line, i - 1))
  {
    if line[i] == '>' {
      SkippedBeforeAngle(line, i);
      hide OperatorAngle;
      assert Backwards(line, i - 1) == line[i - 1];
    } else {
      assert ShiftRun(line, i - 1) == 1 + ShiftRun(line, i) == 2 + ShiftRun(line, i + 1);
    }
  }

  // Otherwise one character moves the counter as its reading moves the reference.
  lemma StepBackwardsOne(line: string, i: nat, open: seq<char>, n: nat)
    requires i < |line| && n > 0 && Stands(line, i + 1) && !StepsOverTwo(line, i)
    ensures Stands(line, i)
    ensures var c, s := Backwards(line, i), Level(open, n - 1);
            match CountBackStep(line, i, open, n)
            case CountingBack(k, o, a) =>
              k == i && a > 0 && !(s == BASE && c == '<') && Back(s, c) == Some(Level(o, a - 1))
            case FoundStart(q) => q == i && line[i] == '<' && c == '<' && s == BASE
            case NoBeginning => !(s == BASE && c == '<') && Back(s, c) == None
  {
    hide OperatorAngle;
    assert Backwards(line, i) == line[i];
    hide Backwards, ShiftRun;
  }

  lemma {:induction false} LineBackwards(text: string, base: nat, line: string, k: nat, open: seq<char>, n: nat)
    requires base + |line| <= |text| && text[base..base + |line|] == BackwardsLine(line)
    requires k <= |line| && n > 0 && Stands(line, k)
    ensures var here := SeekLeft(text, base + k, Level(open, n - 1));
            match CountLineBack(line, k, open, n)
            case CountingBack(_, o, a) =>
              here == SeekLeft(text, base, Level(o, a - 1)) && (base == 0 ==> here == None)
            case FoundStart(q) => q < k && line[q] == '<' && here == Some(base + q)
            case NoBeginning => here == None
    decreases k
  {
    hide Back, Backwards, Passed, Stands, StepsOverTwo, CountBackStep;
    if k == 0 {
    } else if StepsOverTwo(line, k - 1) {
      StepBackwardsTwo(line, k - 1, open, n);
      assert text[base + k - 1] == Backwards(line, k - 1);
      assert text[base + k - 2] == Backwards(line, k - 2);
      PassTwo(text, base + k, Level(open, n - 1));
      LineBackwards(text, base, line, k - 2, open, n);
    } else {
      assert text[base + k - 1] == Backwards(line, k - 1);
      StepBackwardsOne(line, k - 1, open, n);
      var out := CountBackStep(line, k - 1, open, n);
      if out.CountingBack? {
        LineBackwards(text, base, line, k - 1, out.open, out.angles);
      }
    }
  }

  lemma PassTwo(text: string, k: nat, s: Level)
    requires 2 <= k <= |text| && Passed(text[k - 1]) && Passed(text[k - 2])
    ensures SeekLeft(text, k, s) == SeekLeft(text, k - 2, s)
  {
    assert Back(s, text[k - 1]) == Some(s) == Back(s, text[k - 2]);
  }

  lemma {:induction false} FileBackwards(lines: seq<string>, l: nat, k: nat, open: seq<char>, n: nat)
    requires l < |lines| && k <= |lines[l]| && n > 0 && Stands(lines[l], k)
    ensures At(lines, l, k) <= |Flatten(ReadBackwards(lines))|
    ensures var here := SeekLeft(Flatten(ReadBackwards(lines)), At(lines, l, k), Level(open, n - 1));
            match CountLinesBack(lines, l, k, open, n)
            case Some(e) =>
              InText(lines, e.line, e.pos) && lines[e.line][e.pos] == '<' && here == Some(At(lines, e.line, e.pos))
            case None => here == None
    decreases l
  {
    hide CountLineBack, SeekLeft, TextBefore, Flatten;
    var r := ReadBackwards(lines);
    var text := Flatten(r);
    LineAt(r, l);
    SamePositions(lines, r, l);
    SamePositions(lines, r, l + 1);
    LineBackwards(text, At(lines, l, 0), lines[l], k, open, n);
    match CountLineBack(lines[l], k, open, n) {
      case CountingBack(_, o, a) =>
        if l > 0 {
          LineAt(r, l - 1);
          SamePositions(lines, r, l - 1);
          FileBackwards(lines, l - 1, |lines[l - 1]|, o, a);
        }
      case _ =>
    }
  }

  // ---------- what the scanners find ----------

  lemma {:induction false} TextAlike(lines: seq<string>, r: seq<string>, n: nat)
    requires SameLengths(lines, r) && n <= |lines|
    requires forall l, i :: InText(lines, l, i) ==> AlikeChars(r[l][i], lines[l][i])
    ensures Alike(TextBefore(r, n), TextBefore(lines, n))
  {
    if n == 0 {
    } else {
      hide AlikeChars;
      TextAlike(lines, r, n - 1);
      var reading, line := r[n - 1], lines[n - 1];
      forall i | 0 <= i < |line| ensures AlikeChars(reading[i], line[i]) {
        assert InText(lines, n - 1, i);
      }
    }
  }

  // A reading changes nothing but '<' and '>'.
  lemma ReadingsAlike(lines: seq<string>)
    ensures Alike(Flatten(ReadForwards(lines)), Flatten(lines))
    ensures Alike(Flatten(ReadBackwards(lines)), Flatten(lines))
  {
    forall l, i | InText(lines, l, i)
      ensures AlikeChars(Forwards(lines[l], i), lines[l][i]) && AlikeChars(Backwards(lines[l], i), lines[l][i])
    {
      hide Role, ShiftRun, OperatorAngle;
    }
    hide Forwards, Backwards, AlikeChars;
    TextAlike(lines, ReadForwards(lines), |lines|);
    TextAlike(lines, ReadBackwards(lines), |lines|);
  }

  // A '<' that is pushed and not popped by the next character is read as one.
  lemma ReadsStart(lines: seq<string>, l: nat, p: nat)
    requires InText(lines, l, p) && lines[l][p] == '<' && Owns(lines[l], p)
    requires p + 1 < |lines[l]| ==> lines[l][p + 1] != '<'
    ensures At(lines, l, p) < |Flatten(ReadForwards(lines))| && Flatten(ReadForwards(lines))[At(lines, l, p)] == '<'
  {
    hide EndsWithOperator;
    var r := ReadForwards(lines);
    assert Forwards(lines[l], p) == '<';
    hide Forwards;
    CharAt(r, l, p);
    SamePositions(lines, r, l);
  }

  // The forward scan from a '<' of its own finds exactly the partner in the file as it reads it.
  lemma OwnedAngleIff(lines: seq<string>, l: nat, p: nat, l': nat, q: nat)
    requires InText(lines, l, p) && lines[l][p] == '<' && Owns(lines[l], p)
    requires p + 1 < |lines[l]| ==> lines[l][p + 1] != '<'
    requires InText(lines, l', q) && lines[l'][q] == '>'
    ensures ScanLines(lines, l, p, []) == Some(Place(l', q + 1)) <==>
            AnglePartners(Flatten(ReadForwards(lines)), At(lines, l, p), At(lines, l', q))
  {
    ReadsStart(lines, l, p);
    OwnedAngleCounts(lines, l, p);
    hide ScanLines, CountLines, SeekRight, Owns, Flatten, TextBefore, AnglePartners;
    assert !(0 < p + 1 < |lines[l]| && LoneShift(lines[l], p));
    FileForwards(lines, l, p + 1, [], 1);
    SeekRightIff(Flatten(ReadForwards(lines)), At(lines, l, p), At(lines, l', q));
    match CountLines(lines, l, p + 1, [], 1) {
      case None =>
      case Some(e) => AtInjective(lines, e.line, e.pos - 1, l', q);
    }
  }

  // A '<' that the next character pops again is given up.
  lemma ShiftedAway(lines: seq<string>, l: nat, p: nat)
    requires InText(lines, l, p) && lines[l][p] == '<' && Owns(lines[l], p)
    requires p + 1 < |lines[l]| && lines[l][p + 1] == '<'
    ensures ScanLines(lines, l, p, []) == None
  {
    assert Step(lines[l], p + 1, ['<']) == Stuck;
    hide Step;
    assert Scan(lines[l], p, []) == Scan(lines[l], p + 1, ['<']) == Stuck;
  }

  lemma OwnedAngleAnswer(lines: seq<string>, l: nat, p: nat)
    requires InText(lines, l, p) && lines[l][p] == '<' && Owns(lines[l], p)
    requires ScanLines(lines, l, p, []).Some?
    ensures var e := ScanLines(lines, l, p, []).value;
            && InText(lines, e.line, e.pos - 1) && lines[e.line][e.pos - 1] == '>'
            && AnglePartners(Flatten(ReadForwards(lines)), At(lines, l, p), At(lines, e.line, e.pos - 1))
  {
    hide ScanLines, CountLines, SeekRight, Owns, Flatten, TextBefore, AnglePartners;
    if p + 1 < |lines[l]| && lines[l][p + 1] == '<' {
      ShiftedAway(lines, l, p);
    } else {
      var e := ScanLines(lines, l, p, []).value;
      OwnedAngleCounts(lines, l, p);
      assert !(0 < p + 1 < |lines[l]| && LoneShift(lines[l], p));
      FileForwards(lines, l, p + 1, [], 1);
      OwnedAngleIff(lines, l, p, e.line, e.pos - 1);
    }
  }

  lemma AngleCloseIff(lines: seq<string>, l: nat, p: nat, l': nat, q: nat)
    requires InText(lines, l, p) && lines[l][p] == '<' && CanOpen(lines[l], p) && Owns(lines[l], p)
    requires InText(lines, l', q) && lines[l'][q] == '>'
    ensures Close(lines, l, p) == Some(Place(l', q + 1)) <==>
            AnglePartners(Flatten(ReadForwards(lines)), At(lines, l, p), At(lines, l', q))
  {
    hide ScanLines, Owns, Flatten, AnglePartners;
    OwnedAngleIff(lines, l, p, l', q);
  }

  lemma ReadsEnd(lines: seq<string>, l: nat, p: nat)
    requires InText(lines, l, p) && lines[l][p] == '>' && !OperatorAngle(lines[l], p)
    ensures At(lines, l, p) < |Flatten(ReadBackwards(lines))| && Flatten(ReadBackwards(lines))[At(lines, l, p)] == '>'
  {
    var r := ReadBackwards(lines);
    assert Backwards(lines[l], p) == '>';
    hide Backwards;
    CharAt(r, l, p);
    SamePositions(lines, r, l);
  }

  // The backward scan from a '>' of its own finds exactly the partner in the file as it reads it.
  lemma AngleOpenIff(lines: seq<string>, l: nat, p: nat, l': nat, q: nat)
    requires InText(lines, l, p)
    requires InText(lines, l', q) && lines[l'][q] == '>' && !OperatorAngle(lines[l'], q)
    ensures ReverseClose(lines, l', q) == Some(Place(l, p)) <==>
            AnglePartners(Flatten(ReadBackwards(lines)), At(lines, l, p), At(lines, l', q))
  {
    ReadsEnd(lines, l', q);
    hide OperatorAngle, ReverseClose, CountLinesBack, SeekLeft, Flatten, TextBefore, AnglePartners;
    AngleOpenCounts(lines, l', q);
    FileBackwards(lines, l', q, [], 1);
    SeekLeftIff(Flatten(ReadBackwards(lines)), At(lines, l, p), At(lines, l', q));
    match CountLinesBack(lines, l', q, [], 1) {
      case None =>
      case Some(e) => AtInjective(lines, e.line, e.pos, l, p);
    }
  }

  lemma OwnedAngleStart(lines: seq<string>, l': nat, q: nat)
    requires InText(lines, l', q) && lines[l'][q] == '>' && !OperatorAngle(lines[l'], q)
    requires ReverseClose(lines, l', q).Some?
    ensures var s := ReverseClose(lines, l', q).value;
            && InText(lines, s.line, s.pos) && lines[s.line][s.pos] == '<'
            && AnglePartners(Flatten(ReadBackwards(lines)), At(lines, s.line, s.pos), At(lines, l', q))
  {
    hide OperatorAngle, ReverseClose, CountLinesBack, SeekLeft, Flatten, TextBefore, AnglePartners;
    var s := ReverseClose(lines, l', q).value;
    AngleOpenCounts(lines, l', q);
    FileBackwards(lines, l', q, [], 1);
    AngleOpenIff(lines, s.line, s.pos, l', q);
  }
}
