// FindEndOfExpressionInLine and CloseExpression of bin/cpplint.py.
//
// The scanner's stack mixes real brackets with tentative '<' marks; `Real` is what is left
// when the marks are dropped, and it is all that the answer depends on when the scan was
// started on a real bracket.
module ForwardMatcher {
  import opened Wrappers
  import opened CharClasses
  import opened Brackets
  import opened Lines
  import opened Marks

  // Scanning has reached the end of the line with this stack, or has found the end of the
  // expression, or has given up.
  datatype Outcome = Running(stack: seq<char>) | Closed(end: nat) | Stuck

  function PopTo(stack: seq<char>, otherwise: Outcome): Outcome
    requires stack != []
  {
    if |stack| == 1 then otherwise else Running(stack[..|stack| - 1])
  }

  function Step(line: string, i: nat, stack: seq<char>): Outcome
    requires i < |line|
  {
    var c := line[i];
    if IsOpener(c) then
      Running(stack + [c])
    else if c == '<' then
      if i > 0 && line[i - 1] == '<' then
        if stack != [] && stack[|stack| - 1] == '<' then PopTo(stack, Stuck) else Running(stack)
      else if i > 0 && EndsWithOperator(line[..i]) then
        Running(stack)
      else
        Running(stack + ['<'])
    else if IsCloser(c) then
      var s := Drop(stack, '<');
      if s != [] && Pair(s[|s| - 1], c) then PopTo(s, Closed(i + 1)) else Stuck
    else if c == '>' then
      if i > 0 && (line[i - 1] == '-' || EndsWithOperator(line[..i - 1])) then
        Running(stack)
      else if stack != [] && stack[|stack| - 1] == '<' then
        PopTo(stack, Closed(i + 1))
      else
        Running(stack)
    else if c == ';' then
      var s := Drop(stack, '<');
      if s == [] then Stuck else Running(s)
    else
      Running(stack)
  }

  function Scan(line: string, i: nat, stack: seq<char>): Outcome
    requires i <= |line|
    decreases |line| - i
  {
    if i == |line| then Running(stack)
    else match Step(line, i, stack)
      case Running(s) => Scan(line, i + 1, s)
      case other => other
  }

  datatype Place = Place(line: nat, pos: nat)

  // Scanning goes on from column i of line l, over the following lines while the stack
  // is not empty.
  function ScanLines(lines: seq<string>, l: nat, i: nat, stack: seq<char>): Option<Place>
    requires l < |lines| && i <= |lines[l]|
    decreases |lines| - l
  {
    match Scan(lines[l], i, stack)
    case Closed(q) => Some(Place(l, q))
    case Stuck => None
    case Running(s) =>
      if s != [] && l + 1 < |lines| then ScanLines(lines, l + 1, 0, s) else None
  }

  predicate CanOpen(line: string, p: nat)
    requires p < |line|
  {
    && (IsOpener(line[p]) || line[p] == '<')
    && !(line[p] == '<' && p + 1 < |line| && (line[p + 1] == '<' || line[p + 1] == '='))
  }

  // The answer of CloseExpression: the place just past the closing character.
  function Close(lines: seq<string>, l: nat, p: nat): Option<Place>
    requires InText(lines, l, p)
  {
    if CanOpen(lines[l], p) then ScanLines(lines, l, p, []) else None
  }

  // The scan's first step puts this very bracket at the bottom of the stack.
  predicate Owns(line: string, p: nat)
    requires p < |line|
  {
    Step(line, p, []) == Running([line[p]])
  }

  // A '<' after another '<', or after the word "operator" and white space, is skipped by the
  // scan that was started on it; every other start is pushed.
  lemma OwnsIff(line: string, p: nat)
    requires p < |line| && (IsOpener(line[p]) || line[p] == '<')
    ensures Owns(line, p) <==>
            line[p] in "([{" || !(p > 0 && (line[p - 1] == '<' || AfterOperator(line[..p])))
  {
    hide EndsWithOperator, AfterOperator;
    EndsWithOperatorIff(line[..p]);
  }

  // The scan is started on a bracket or '<', but not on "<<" or "<=".
  lemma CanOpenIff(line: string, p: nat)
    requires p < |line|
    ensures CanOpen(line, p) <==> line[p] in "([{<" && !("<<" <= line[p..]) && !("<=" <= line[p..])
  {
  }

  // ---------- the algorithm ----------

  method FindEndOfExpressionInLine(line: string, startpos: nat, stack0: seq<char>)
      returns (r: Outcome)
    requires startpos <= |line|
    ensures r == Scan(line, startpos, stack0)
  {
    var stack := stack0;
    var i := startpos;
    while i < |line|
      invariant startpos <= i <= |line|
      invariant Scan(line, startpos, stack0) == Scan(line, i, stack)
    {
      var c := line[i];
      if IsOpener(c) {
        stack := stack + [c];
      } else if c == '<' {
        if i > 0 && line[i - 1] == '<' {
          if stack != [] && stack[|stack| - 1] == '<' {
            stack := stack[..|stack| - 1];
            if stack == [] {
              return Stuck;
            }
          }
        } else if i > 0 && EndsWithOperator(line[..i]) {
        } else {
          stack := stack + ['<'];
        }
      } else if IsCloser(c) {
        stack := PopMarks(stack, '<');
        if stack == [] {
          return Stuck;
        }
        if Pair(stack[|stack| - 1], c) {
          stack := stack[..|stack| - 1];
          if stack == [] {
            return Closed(i + 1);
          }
        } else {
          return Stuck;
        }
      } else if c == '>' {
        if i > 0 && (line[i - 1] == '-' || EndsWithOperator(line[..i - 1])) {
        } else if stack != [] {
          if stack[|stack| - 1] == '<' {
            stack := stack[..|stack| - 1];
            if stack == [] {
              return Closed(i + 1);
            }
          }
        }
      } else if c == ';' {
        stack := PopMarks(stack, '<');
        if stack == [] {
          return Stuck;
        }
      }
      i := i + 1;
    }
    return Running(stack);
  }

  // The source returns the number of lines and -1 for "not found".
  method CloseExpression(lines: seq<string>, linenum: nat, pos: nat)
      returns (endLine: nat, endPos: int)
    requires InText(lines, linenum, pos)
    ensures match Close(lines, linenum, pos)
            case None => endLine == |lines| && endPos == -1
            case Some(place) => endLine == place.line && endPos == place.pos
    ensures IsOpener(lines[linenum][pos]) ==>
              AgreesWithPlain(lines, At(lines, linenum, pos), endLine, endPos)
  {
    var l := linenum;
    PlainDecides(lines, linenum, pos);
    if !CanOpen(lines[l], pos) {
      return |lines|, -1;
    }
    var r := FindEndOfExpressionInLine(lines[l], pos, []);
    if r.Closed? {
      return l, r.end;
    }
    while r.Running? && r.stack != [] && l < |lines| - 1
      invariant linenum <= l < |lines|
      invariant !r.Closed?
      invariant Close(lines, linenum, pos) ==
        if r.Running? && r.stack != [] && l + 1 < |lines| then ScanLines(lines, l + 1, 0, r.stack) else None
      decreases |lines| - l
    {
      l := l + 1;
      r := FindEndOfExpressionInLine(lines[l], 0, r.stack);
      if r.Closed? {
        return l, r.end;
      }
    }
    return |lines|, -1;
  }

  // ---------- refinement of the plain matcher ----------

  // The answer in the source's own form, against the plain matcher on the flattened text.
  ghost predicate AgreesWithPlain(lines: seq<string>, from: nat, endLine: nat, endPos: int) {
    && from < |Flatten(lines)| && IsOpener(Flatten(lines)[from])
    && match PlainClose(Flatten(lines), from)
       case None => endLine == |lines| && endPos == -1
       case Some(j) => InText(lines, endLine, endPos - 1) && At(lines, endLine, endPos - 1) == j
  }

  // One character: whatever the '<', '>', ';' and operator heuristics do to the marks, the
  // brackets move as the plain matcher moves them.
  lemma StepRefines(line: string, i: nat, stack: seq<char>)
    requires i < |line| && stack != [] && stack[0] != '<'
    ensures match Step(line, i, stack)
            case Running(s) =>
              && s != [] && s[0] == stack[0] && Real(s, '<') != []
              && Advance(Real(stack, '<'), line[i]) == Some(Real(s, '<'))
            case Closed(q) => q == i + 1 && Advance(Real(stack, '<'), line[i]) == Some([])
            case Stuck => Advance(Real(stack, '<'), line[i]) == None
  {
    hide EndsWithOperator, Real, Drop;
    var c := line[i];
    RealBottom(stack, '<');
    RealSnoc(stack, '<', c);
    RealDrop(stack, '<');
    if stack[|stack| - 1] == '<' {
      RealPop(stack, '<');
    }
  }

  // One line, sitting at `base` in the text.
  lemma {:induction false} ScanRefines(text: string, base: nat, line: string, i: nat, stack: seq<char>)
    requires base + |line| <= |text| && text[base..base + |line|] == line
    requires i <= |line| && stack != [] && stack[0] != '<'
    ensures var here := SeekClose(text, base + i, Real(stack, '<'));
            match Scan(line, i, stack)
            case Running(s) =>
              && s != [] && s[0] == stack[0]
              && here == SeekClose(text, base + |line|, Real(s, '<'))
              && (base + |line| == |text| ==> here == None)
            case Closed(q) => 1 <= q <= |line| && here == Some(base + q - 1)
            case Stuck => here == None
    decreases |line| - i
  {
    hide Step, Advance, Real;
    if i == |line| {
    } else {
      assert text[base + i] == line[i];
      StepRefines(line, i, stack);
      var out := Step(line, i, stack);
      if out.Running? {
        ScanRefines(text, base, line, i + 1, out.stack);
      }
    }
  }

  // A place just past a character, against that character's position in the text.
  ghost predicate SameAnswer(lines: seq<string>, r: Option<Place>, j: Option<nat>) {
    match r
    case None => j == None
    case Some(e) => InText(lines, e.line, e.pos - 1) && j == Some(At(lines, e.line, e.pos - 1))
  }

  lemma {:induction false} ScanLinesRefines(lines: seq<string>, l: nat, i: nat, stack: seq<char>)
    requires l < |lines| && i <= |lines[l]| && stack != [] && stack[0] != '<'
    ensures At(lines, l, i) <= |Flatten(lines)|
    ensures SameAnswer(lines, ScanLines(lines, l, i, stack),
              SeekClose(Flatten(lines), At(lines, l, i), Real(stack, '<')))
    decreases |lines| - l
  {
    var text := Flatten(lines);
    hide Scan, SeekClose, Real, TextBefore, Flatten;
    LineAt(lines, l);
    ScanRefines(text, At(lines, l, 0), lines[l], i, stack);
    match Scan(lines[l], i, stack) {
      case Running(s) =>
        if l + 1 < |lines| {
          ScanLinesRefines(lines, l + 1, 0, s);
        }
      case _ =>
    }
  }

  // Started on a round, square or curly bracket, CloseExpression is the plain matcher on
  // the flattened text: same answer, same failures.
  lemma PlainDecides(lines: seq<string>, l: nat, p: nat)
    requires InText(lines, l, p)
    ensures IsOpener(lines[l][p]) ==>
              match Close(lines, l, p)
              case None => AgreesWithPlain(lines, At(lines, l, p), |lines|, -1)
              case Some(e) => AgreesWithPlain(lines, At(lines, l, p), e.line, e.pos)
  {
    if IsOpener(lines[l][p]) {
      var o := lines[l][p];
      CharAt(lines, l, p);
      assert [] + [o] == [o];
      assert Scan(lines[l], p, []) == Scan(lines[l], p + 1, [o]);
      assert ScanLines(lines, l, p, []) == ScanLines(lines, l, p + 1, [o]);
      ScanLinesRefines(lines, l, p + 1, [o]);
      assert Real([o], '<') == [o] by { assert [o][..0] == []; }
    }
  }
}
