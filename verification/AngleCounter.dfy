// What the scanners of bin/cpplint.py decide about angle brackets.
//
// Started on a '<' or a '>' of their own, they behave as a machine without any mixed stack:
// plain brackets, and one counter of angle brackets that stands still inside brackets.  The
// marks that the scanners push and pop inside nested brackets never matter.
module AngleCounter {
  import opened Wrappers
  import opened CharClasses
  import opened Brackets
  import opened Lines
  import opened Marks
  import opened ForwardMatcher
  import opened BackwardMatcher

  // ---------- forwards: from a '<' ----------

  // `open` are the brackets opened since, `angles` the angle brackets that wait to be closed.
  datatype Count = Counting(open: seq<char>, angles: nat) | Found(end: nat) | NoEnd

  datatype Angle = Opens | Shifts | Closes | Neither

  // The part that an angle bracket plays, from what stands in front of it on its line.
  function Role(line: string, i: nat): Angle
    requires i < |line|
  {
    if line[i] == '<' then
      if i > 0 && line[i - 1] == '<' then Shifts
      else if i > 0 && EndsWithOperator(line[..i]) then Neither
      else Opens
    else if line[i] == '>' && !(i > 0 && (line[i - 1] == '-' || EndsWithOperator(line[..i - 1]))) then Closes
    else Neither
  }

  // The same in terms of the text in front.
  lemma RoleIff(line: string, i: nat)
    requires i < |line|
    ensures Role(line, i) == Opens <==>
            line[i] == '<' && !(i > 0 && (line[i - 1] == '<' || AfterOperator(line[..i])))
    ensures Role(line, i) == Shifts <==> line[i] == '<' && i > 0 && line[i - 1] == '<'
    ensures Role(line, i) == Closes <==>
            line[i] == '>' && !(i > 0 && (line[i - 1] == '-' || AfterOperator(line[..i - 1])))
  {
    hide EndsWithOperator, AfterOperator;
    EndsWithOperatorIff(line[..i]);
    if i > 0 {
      EndsWithOperatorIff(line[..i - 1]);
    }
  }

  function CountStep(line: string, i: nat, open: seq<char>, angles: nat): Count
    requires i < |line| && angles > 0
  {
    match Advance(open, line[i])
    case None => NoEnd
    case Some(open') =>
      if IsOpener(line[i]) || IsCloser(line[i]) || open != [] then Counting(open', angles)
      else if line[i] == ';' then NoEnd
      else match Role(line, i)
        case Opens => Counting([], angles + 1)
        case Shifts => if angles == 1 then NoEnd else Counting([], angles - 1)
        case Closes => if angles == 1 then Found(i + 1) else Counting([], angles - 1)
        case Neither => Counting([], angles)
  }

  function CountLine(line: string, i: nat, open: seq<char>, angles: nat): (r: Count)
    requires i <= |line| && angles > 0
    ensures r.Counting? ==> r.angles > 0
    decreases |line| - i
  {
    if i == |line| then Counting(open, angles)
    else match CountStep(line, i, open, angles)
      case Counting(o, a) => CountLine(line, i + 1, o, a)
      case other => other
  }

  function CountLines(lines: seq<string>, l: nat, i: nat, open: seq<char>, angles: nat): Option<Place>
    requires l < |lines| && i <= |lines[l]| && angles > 0
    decreases |lines| - l
  {
    match CountLine(lines[l], i, open, angles)
    case Found(q) => Some(Place(l, q))
    case NoEnd => None
    case Counting(o, a) => if l + 1 < |lines| then CountLines(lines, l + 1, 0, o, a) else None
  }

  // One character: the mixed stack and the counter machine move together.
  lemma StepCounts(line: string, i: nat, stack: seq<char>, n: nat) returns (n': nat)
    requires i < |line| && Marked(stack, '<', n)
    ensures n' > 0
    ensures match Step(line, i, stack)
            case Running(s) =>
              Marked(s, '<', n') && CountStep(line, i, Real(stack, '<'), n) == Counting(Real(s, '<'), n')
            case Closed(q) => CountStep(line, i, Real(stack, '<'), n) == Found(q)
            case Stuck => CountStep(line, i, Real(stack, '<'), n) == NoEnd
  {
    hide EndsWithOperator, Real, Drop;
    var c, out := line[i], Step(line, i, stack);
    n' := n;
    RealSnoc(stack, '<', c);
    MarkedReal(stack, '<', n);
    MarkedDrop(stack, '<', n);
    if stack[|stack| - 1] == '<' {
      RealPop(stack, '<');
    }
    if out.Running? {
      var s := out.stack;
      n' := if n < |stack| || |s| == n || IsOpener(c) then n else |s|;
      assert Marked(s, '<', n');
      MarkedReal(s, '<', n');
    }
  }

  lemma {:induction false} LineCounts(line: string, i: nat, stack: seq<char>, n: nat) returns (n': nat)
    requires i <= |line| && Marked(stack, '<', n)
    ensures match Scan(line, i, stack)
            case Running(s) =>
              Marked(s, '<', n') && CountLine(line, i, Real(stack, '<'), n) == Counting(Real(s, '<'), n')
            case Closed(q) => CountLine(line, i, Real(stack, '<'), n) == Found(q)
            case Stuck => CountLine(line, i, Real(stack, '<'), n) == NoEnd
    decreases |line| - i
  {
    hide Step, CountStep, Real;
    n' := n;
    if i == |line| {
    } else {
      n' := StepCounts(line, i, stack, n);
      var out := Step(line, i, stack);
      if out.Running? {
        n' := LineCounts(line, i + 1, out.stack, n');
      }
    }
  }

  lemma {:induction false} LinesCount(lines: seq<string>, l: nat, i: nat, stack: seq<char>, n: nat)
    requires l < |lines| && i <= |lines[l]| && Marked(stack, '<', n)
    ensures ScanLines(lines, l, i, stack) == CountLines(lines, l, i, Real(stack, '<'), n)
    decreases |lines| - l
  {
    var n' := LineCounts(lines[l], i, stack, n);
    hide Scan, CountLine, Real;
    var out := Scan(lines[l], i, stack);
    if out.Running? && l + 1 < |lines| {
      LinesCount(lines, l + 1, 0, out.stack, n');
    }
  }

  // Scanning on from a '<' that is pushed.
  lemma OwnedAngleCounts(lines: seq<string>, l: nat, p: nat)
    requires InText(lines, l, p) && lines[l][p] == '<' && Owns(lines[l], p)
    ensures ScanLines(lines, l, p, []) == CountLines(lines, l, p + 1, [], 1)
  {
    hide Step, CountLines;
    assert Scan(lines[l], p, []) == Scan(lines[l], p + 1, ['<']);
    assert ScanLines(lines, l, p, []) == ScanLines(lines, l, p + 1, ['<']);
    hide Scan, ScanLines;
    LinesCount(lines, l, p + 1, ['<'], 1);
    RealPop(['<'], '<');
  }

  // CloseExpression on a '<' that it pushes is the counter machine: same answer, same failures.
  lemma AngleCloseCounts(lines: seq<string>, l: nat, p: nat)
    requires InText(lines, l, p) && lines[l][p] == '<' && CanOpen(lines[l], p) && Owns(lines[l], p)
    ensures Close(lines, l, p) == CountLines(lines, l, p + 1, [], 1)
  {
    hide Owns, CountLines;
    OwnedAngleCounts(lines, l, p);
  }

  // ---------- backwards: from a '>' ----------

  datatype BackCount = CountingBack(k: nat, open: seq<char>, angles: nat) | FoundStart(start: nat) | NoBeginning

  // "->", " >= ", "operator>" and "<<" are stepped over two characters at once, also inside brackets.
  predicate StepsOverTwo(line: string, i: nat)
    requires i < |line|
  {
    (line[i] == '>' && OperatorAngle(line, i)) || (line[i] == '<' && i > 0 && line[i - 1] == '<')
  }

  function CountBackStep(line: string, i: nat, open: seq<char>, angles: nat): (r: BackCount)
    requires i < |line| && angles > 0
    ensures r.CountingBack? ==> r.k <= i && r.angles > 0
  {
    if StepsOverTwo(line, i) then CountingBack(i - 1, open, angles)
    else match Retreat(open, line[i])
      case None => NoBeginning
      case Some(open') =>
        if IsOpener(line[i]) || IsCloser(line[i]) || open != [] then CountingBack(i, open', angles)
        else if line[i] == ';' then NoBeginning
        else if line[i] == '>' then CountingBack(i, [], angles + 1)
        else if line[i] != '<' then CountingBack(i, [], angles)
        else if angles == 1 then FoundStart(i)
        else CountingBack(i, [], angles - 1)
  }

  function CountLineBack(line: string, k: nat, open: seq<char>, angles: nat): (r: BackCount)
    requires k <= |line| && angles > 0
    ensures r.CountingBack? ==> r.angles > 0
    decreases k
  {
    if k == 0 then CountingBack(0, open, angles)
    else match CountBackStep(line, k - 1, open, angles)
      case CountingBack(k', o, a) => CountLineBack(line, k', o, a)
      case other => other
  }

  function CountLinesBack(lines: seq<string>, l: nat, k: nat, open: seq<char>, angles: nat): Option<Place>
    requires l < |lines| && k <= |lines[l]| && angles > 0
    decreases l
  {
    match CountLineBack(lines[l], k, open, angles)
    case FoundStart(i) => Some(Place(l, i))
    case NoBeginning => None
    case CountingBack(_, o, a) => if l > 0 then CountLinesBack(lines, l - 1, |lines[l - 1]|, o, a) else None
  }

  lemma StepBackCounts(line: string, i: nat, stack: seq<char>, n: nat) returns (n': nat)
    requires i < |line| && Marked(stack, '>', n)
    ensures n' > 0
    ensures match StepBack(line, i, stack)
            case Next(k, s) =>
              Marked(s, '>', n') && CountBackStep(line, i, Real(stack, '>'), n) == CountingBack(k, Real(s, '>'), n')
            case Opened(q) => CountBackStep(line, i, Real(stack, '>'), n) == FoundStart(q)
            case Lost => CountBackStep(line, i, Real(stack, '>'), n) == NoBeginning
  {
    hide OperatorAngle, Real, Drop;
    var c, out := line[i], StepBack(line, i, stack);
    n' := n;
    RealSnoc(stack, '>', c);
    MarkedReal(stack, '>', n);
    MarkedDrop(stack, '>', n);
    if stack[|stack| - 1] == '>' {
      RealPop(stack, '>');
    }
    if out.Next? {
      var s := out.stack;
      n' := if n < |stack| || |s| == n || IsCloser(c) then n else |s|;
      assert Marked(s, '>', n');
      MarkedReal(s, '>', n');
    }
  }

  lemma {:induction false} LineCountsBack(line: string, k: nat, stack: seq<char>, n: nat) returns (n': nat)
    requires k <= |line| && Marked(stack, '>', n)
    ensures match ScanBack(line, k, stack)
            case Pending(s) => Marked(s, '>', n') &&
                   CountLineBack(line, k, Real(stack, '>'), n) == CountingBack(0, Real(s, '>'), n')
            case Start(q) => CountLineBack(line, k, Real(stack, '>'), n) == FoundStart(q)
            case NoStart => CountLineBack(line, k, Real(stack, '>'), n) == NoBeginning
    decreases k
  {
    hide StepBack, CountBackStep, Real;
    n' := n;
    if k == 0 {
    } else {
      n' := StepBackCounts(line, k - 1, stack, n);
      var out := StepBack(line, k - 1, stack);
      if out.Next? {
        n' := LineCountsBack(line, out.k, out.stack, n');
      }
    }
  }

  lemma {:induction false} LinesCountBack(lines: seq<string>, l: nat, k: nat, stack: seq<char>, n: nat)
    requires l < |lines| && k <= |lines[l]| && Marked(stack, '>', n)
    ensures ScanLinesBack(lines, l, k, stack) == CountLinesBack(lines, l, k, Real(stack, '>'), n)
    decreases l
  {
    var n' := LineCountsBack(lines[l], k, stack, n);
    hide ScanBack, CountLineBack, Real;
    var out := ScanBack(lines[l], k, stack);
    if out.Pending? && l > 0 {
      LinesCountBack(lines, l - 1, |lines[l - 1]|, out.stack, n');
    }
  }

  // Scanning on from a '>' that is pushed.
  lemma OwnedAngleCountsBack(lines: seq<string>, l: nat, p: nat)
    requires InText(lines, l, p) && lines[l][p] == '>' && !OperatorAngle(lines[l], p)
    ensures ScanLinesBack(lines, l, p + 1, []) == CountLinesBack(lines, l, p, [], 1)
  {
    hide OperatorAngle, CountLinesBack;
    assert [] + ['>'] == ['>'];
    assert ScanBack(lines[l], p + 1, []) == ScanBack(lines[l], p, ['>']);
    assert ScanLinesBack(lines, l, p + 1, []) == ScanLinesBack(lines, l, p, ['>']);
    hide ScanBack, ScanLinesBack;
    LinesCountBack(lines, l, p, ['>'], 1);
    RealPop(['>'], '>');
  }

  // ReverseCloseExpression on a '>' that is no operator is the counter machine.
  lemma AngleOpenCounts(lines: seq<string>, l: nat, p: nat)
    requires InText(lines, l, p) && lines[l][p] == '>' && !OperatorAngle(lines[l], p)
    ensures ReverseClose(lines, l, p) == CountLinesBack(lines, l, p, [], 1)
  {
    hide OperatorAngle, CountLinesBack;
    OwnedAngleCountsBack(lines, l, p);
  }
}
