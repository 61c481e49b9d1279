// FindStartOfExpressionInLine and ReverseCloseExpression of bin/cpplint.py.
//
// "Almost the reverse" of the forward scan: the marks are '>' here, the heuristics differ,
// and "->", " >= ", "operator>" and "<<" make the scan step over two characters at once.
module BackwardMatcher {
  import opened Wrappers
  import opened CharClasses
  import opened Brackets
  import opened Lines
  import opened Marks
  import opened ForwardMatcher

  // After one step the scan goes on below column `k`, or has found the start of the
  // expression, or has given up.
  datatype BackStep = Next(k: nat, stack: seq<char>) | Opened(start: nat) | Lost

  datatype BackOutcome = Pending(stack: seq<char>) | Start(start: nat) | NoStart

  // Match(r'\s>=\s', line[i - 1:]), given line[i] == '>'
  predicate SpacedGreaterEqual(line: string, i: nat)
    requires 0 < i < |line|
  {
    i + 2 < |line| && IsSpace(line[i - 1]) && line[i] == '>' && line[i + 1] == '=' && IsSpace(line[i + 2])
  }

  // '>' that is not the end of a template argument list
  predicate OperatorAngle(line: string, i: nat)
    requires i < |line|
  {
    i > 0 && (line[i - 1] == '-' || SpacedGreaterEqual(line, i) || EndsWithOperator(line[..i]))
  }

  // That is: the end of "->", the '>' of ">=" between white space, or what follows the word
  // "operator" and white space.
  lemma OperatorAngleIff(line: string, i: nat)
    requires i < |line| && line[i] == '>'
    ensures OperatorAngle(line, i) <==>
            i > 0 &&
            (|| line[i - 1] == '-'
             || (i + 2 < |line| && White([line[i - 1]]) && line[i + 1] == '=' && White([line[i + 2]]))
             || AfterOperator(line[..i]))
  {
    hide EndsWithOperator, AfterOperator, White;
    EndsWithOperatorIff(line[..i]);
    if i > 0 {
      ClassesAreRanges(line[i - 1]);
    }
    if i + 2 < |line| {
      ClassesAreRanges(line[i + 2]);
    }
  }

  function PopBack(stack: seq<char>, i: nat, otherwise: BackStep): BackStep
    requires stack != []
  {
    if |stack| == 1 then otherwise else Next(i, stack[..|stack| - 1])
  }

  function StepBack(line: string, i: nat, stack: seq<char>): (r: BackStep)
    requires i < |line|
    ensures r.Next? ==> r.k <= i
  {
    var c := line[i];
    if IsCloser(c) then
      Next(i, stack + [c])
    else if c == '>' then
      if OperatorAngle(line, i) then Next(i - 1, stack) else Next(i, stack + ['>'])
    else if c == '<' then
      if i > 0 && line[i - 1] == '<' then
        Next(i - 1, stack)
      else if stack != [] && stack[|stack| - 1] == '>' then
        PopBack(stack, i, Opened(i))
      else
        Next(i, stack)
    else if IsOpener(c) then
      var s := Drop(stack, '>');
      if s != [] && Pair(c, s[|s| - 1]) then PopBack(s, i, Opened(i)) else Lost
    else if c == ';' then
      var s := Drop(stack, '>');
      if s == [] then Lost else Next(i, s)
    else
      Next(i, stack)
  }

  // The scan of line[..k], right to left.
  function ScanBack(line: string, k: nat, stack: seq<char>): BackOutcome
    requires k <= |line|
  {
    if k == 0 then Pending(stack)
    else match StepBack(line, k - 1, stack)
      case Next(k', s) => ScanBack(line, k', s)
      case Opened(i) => Start(i)
      case Lost => NoStart
  }

  function ScanLinesBack(lines: seq<string>, l: nat, k: nat, stack: seq<char>): Option<Place>
    requires l < |lines| && k <= |lines[l]|
  {
    match ScanBack(lines[l], k, stack)
    case Start(i) => Some(Place(l, i))
    case NoStart => None
    case Pending(s) =>
      if s != [] && l > 0 then ScanLinesBack(lines, l - 1, |lines[l - 1]|, s) else None
  }

  // The answer of ReverseCloseExpression: the place of the opening character.
  function ReverseClose(lines: seq<string>, l: nat, p: nat): Option<Place>
    requires InText(lines, l, p)
  {
    if IsCloser(lines[l][p]) || lines[l][p] == '>' then ScanLinesBack(lines, l, p + 1, []) else None
  }

  // ---------- the algorithm ----------

  method FindStartOfExpressionInLine(line: string, endpos: int, stack0: seq<char>)
      returns (r: BackOutcome)
    requires -1 <= endpos < |line|
    ensures r == ScanBack(line, endpos + 1, stack0)
  {
    var stack := stack0;
    var i := endpos;
    while i >= 0
      invariant -1 <= i <= endpos
      invariant ScanBack(line, endpos + 1, stack0) == ScanBack(line, i + 1, stack)
    {
      var c := line[i];
      if IsCloser(c) {
        stack := stack + [c];
      } else if c == '>' {
        if OperatorAngle(line, i) {
          i := i - 1;
        } else {
          stack := stack + ['>'];
        }
      } else if c == '<' {
        if i > 0 && line[i - 1] == '<' {
          i := i - 1;
        } else {
          if stack != [] && stack[|stack| - 1] == '>' {
            stack := stack[..|stack| - 1];
            if stack == [] {
              return Start(i);
            }
          }
        }
      } else if IsOpener(c) {
        stack := PopMarks(stack, '>');
        if stack == [] {
          return NoStart;
        }
        if Pair(c, stack[|stack| - 1]) {
          stack := stack[..|stack| - 1];
          if stack == [] {
            return Start(i);
          }
        } else {
          return NoStart;
        }
      } else if c == ';' {
        stack := PopMarks(stack, '>');
        if stack == [] {
          return NoStart;
        }
      }
      i := i - 1;
    }
    return Pending(stack);
  }

  // The source returns line 0 and -1 for "not found".
  method ReverseCloseExpression(lines: seq<string>, linenum: nat, pos: nat)
      returns (startLine: nat, startPos: int)
    requires InText(lines, linenum, pos)
    ensures match ReverseClose(lines, linenum, pos)
            case None => startLine == 0 && startPos == -1
            case Some(place) => startLine == place.line && startPos == place.pos
    ensures IsCloser(lines[linenum][pos]) ==>
              AgreesWithPlainBack(lines, At(lines, linenum, pos), startLine, startPos)
  {
    var l := linenum;
    PlainDecidesBack(lines, linenum, pos);
    if !IsCloser(lines[l][pos]) && lines[l][pos] != '>' {
      return 0, -1;
    }
    var r := FindStartOfExpressionInLine(lines[l], pos, []);
    if r.Start? {
      return l, r.start;
    }
    while r.Pending? && r.stack != [] && l > 0
      invariant 0 <= l <= linenum
      invariant !r.Start?
      invariant ReverseClose(lines, linenum, pos) ==
        if r.Pending? && r.stack != [] && l > 0 then ScanLinesBack(lines, l - 1, |lines[l - 1]|, r.stack) else None
      decreases l
    {
      l := l - 1;
      r := FindStartOfExpressionInLine(lines[l], |lines[l]| - 1, r.stack);
      if r.Start? {
        return l, r.start;
      }
    }
    return 0, -1;
  }

  // ---------- refinement of the plain matcher ----------

  ghost predicate AgreesWithPlainBack(lines: seq<string>, from: nat, startLine: nat, startPos: int) {
    && from < |Flatten(lines)| && IsCloser(Flatten(lines)[from])
    && match PlainOpen(Flatten(lines), from)
       case None => startLine == 0 && startPos == -1
       case Some(i) => InText(lines, startLine, startPos) && At(lines, startLine, startPos) == i
  }

  // The character that is stepped over without being looked at is never a bracket.
  lemma SkippedIsNoBracket(line: string, i: nat)
    requires 0 < i < |line|
    requires OperatorAngle(line, i) || line[i - 1] == '<'
    ensures !IsOpener(line[i - 1]) && !IsCloser(line[i - 1])
  {
  }

  lemma StepBackRefines(line: string, i: nat, stack: seq<char>)
    requires i < |line| && stack != [] && stack[0] != '>'
    ensures match StepBack(line, i, stack)
            case Next(k, s) =>
              && s != [] && s[0] == stack[0] && Real(s, '>') != []
              && Retreat(Real(stack, '>'), line[i]) == Some(Real(s, '>'))
              && (k == i || (k == i - 1 && !IsOpener(line[k]) && !IsCloser(line[k])))
            case Opened(q) => q == i && Retreat(Real(stack, '>'), line[i]) == Some([])
            case Lost => Retreat(Real(stack, '>'), line[i]) == None
  {
    hide OperatorAngle, Real, Drop;
    var c := line[i];
    RealBottom(stack, '>');
    RealSnoc(stack, '>', c);
    RealDrop(stack, '>');
    if stack[|stack| - 1] == '>' {
      RealPop(stack, '>');
    }
    if i > 0 && (OperatorAngle(line, i) || line[i - 1] == '<') {
      SkippedIsNoBracket(line, i);
    }
  }

  lemma {:induction false} ScanBackRefines(text: string, base: nat, line: string, k: nat, stack: seq<char>)
    requires base + |line| <= |text| && text[base..base + |line|] == line
    requires k <= |line| && stack != [] && stack[0] != '>'
    ensures var here := SeekOpen(text, base + k, Real(stack, '>'));
            match ScanBack(line, k, stack)
            case Pending(s) =>
              && s != [] && s[0] == stack[0]
              && here == SeekOpen(text, base, Real(s, '>'))
              && (base == 0 ==> here == None)
            case Start(q) => q < |line| && here == Some(base + q)
            case NoStart => here == None
  {
    hide StepBack, Retreat, Real;
    if k == 0 {
    } else {
      assert text[base + k - 1] == line[k - 1];
      StepBackRefines(line, k - 1, stack);
      var out := StepBack(line, k - 1, stack);
      if out.Next? {
        ScanBackRefines(text, base, line, out.k, out.stack);
        if out.k == k - 2 {
          PassOver(text, base + k - 1, Real(out.stack, '>'));
          assert text[base + k - 2] == line[k - 2];
        }
      }
    }
  }

  lemma PassOver(text: string, k: nat, st: seq<char>)
    requires 0 < k <= |text| && st != []
    ensures !IsOpener(text[k - 1]) && !IsCloser(text[k - 1]) ==> SeekOpen(text, k, st) == SeekOpen(text, k - 1, st)
  {
  }

  ghost predicate SameStart(lines: seq<string>, r: Option<Place>, i: Option<nat>) {
    match r
    case None => i == None
    case Some(e) => InText(lines, e.line, e.pos) && i == Some(At(lines, e.line, e.pos))
  }

  lemma {:induction false} ScanLinesBackRefines(lines: seq<string>, l: nat, k: nat, stack: seq<char>)
    requires l < |lines| && k <= |lines[l]| && stack != [] && stack[0] != '>'
    ensures At(lines, l, k) <= |Flatten(lines)|
    ensures SameStart(lines, ScanLinesBack(lines, l, k, stack),
              SeekOpen(Flatten(lines), At(lines, l, k), Real(stack, '>')))
  {
    hide ScanBack, SeekOpen, Real, TextBefore, Flatten;
    var text := Flatten(lines);
    LineAt(lines, l);
    ScanBackRefines(text, At(lines, l, 0), lines[l], k, stack);
    match ScanBack(lines[l], k, stack) {
      case Pending(s) =>
        if l > 0 {
          LineAt(lines, l - 1);
          ScanLinesBackRefines(lines, l - 1, |lines[l - 1]|, s);
        }
      case _ =>
    }
  }

  // Started on a round, square or curly bracket, ReverseCloseExpression is the plain
  // backward matcher on the flattened text.
  lemma PlainDecidesBack(lines: seq<string>, l: nat, p: nat)
    requires InText(lines, l, p)
    ensures IsCloser(lines[l][p]) ==>
              match ReverseClose(lines, l, p)
              case None => AgreesWithPlainBack(lines, At(lines, l, p), 0, -1)
              case Some(e) => AgreesWithPlainBack(lines, At(lines, l, p), e.line, e.pos)
  {
    if IsCloser(lines[l][p]) {
      var c := lines[l][p];
      CharAt(lines, l, p);
      assert [] + [c] == [c];
      assert ScanBack(lines[l], p + 1, []) == ScanBack(lines[l], p, [c]);
      assert ScanLinesBack(lines, l, p + 1, []) == ScanLinesBack(lines, l, p, [c]);
      ScanLinesBackRefines(lines, l, p, [c]);
      assert Real([c], '>') == [c] by { assert [c][..0] == []; }
    }
  }
}
