// What the two scanners promise together, on every file.
module MatcherTheorems {
  import opened Wrappers
  import opened CharClasses
  import opened Brackets
  import opened Lines
  import opened ForwardMatcher
  import opened BackwardMatcher
  import opened AngleCounter
  import opened AngleText
  import opened AngleReadings

  // The forward scan finds exactly the partner in the flattened text.
  lemma CloseIff(lines: seq<string>, l: nat, p: nat, l': nat, q: nat)
    requires InText(lines, l, p) && IsOpener(lines[l][p]) && InText(lines, l', q)
    ensures Close(lines, l, p) == Some(Place(l', q + 1)) <==>
            Matches(Flatten(lines), At(lines, l, p), At(lines, l', q))
  {
    hide Close, Flatten;
    CharAt(lines, l, p);
    PlainDecides(lines, l, p);
    PlainCloseIff(Flatten(lines), At(lines, l, p), At(lines, l', q));
    match Close(lines, l, p) {
      case None =>
      case Some(e) => AtInjective(lines, e.line, e.pos - 1, l', q);
    }
  }

  // The backward scan finds exactly the partner in the flattened text.
  lemma ReverseCloseIff(lines: seq<string>, l: nat, p: nat, l': nat, q: nat)
    requires InText(lines, l, p) && InText(lines, l', q) && IsCloser(lines[l'][q])
    ensures ReverseClose(lines, l', q) == Some(Place(l, p)) <==>
            Matches(Flatten(lines), At(lines, l, p), At(lines, l', q))
  {
    hide ReverseClose, Flatten;
    CharAt(lines, l', q);
    PlainDecidesBack(lines, l', q);
    PlainOpenIff(Flatten(lines), At(lines, l, p), At(lines, l', q));
    match ReverseClose(lines, l', q) {
      case None =>
      case Some(e) => AtInjective(lines, e.line, e.pos, l, p);
    }
  }

  // The two scans are inverse to each other, over any number of lines.
  lemma ForwardBackwardInverse(lines: seq<string>, l: nat, p: nat, l': nat, q: nat)
    requires InText(lines, l, p) && IsOpener(lines[l][p])
    requires InText(lines, l', q) && IsCloser(lines[l'][q])
    ensures Close(lines, l, p) == Some(Place(l', q + 1)) <==> ReverseClose(lines, l', q) == Some(Place(l, p))
  {
    hide Close, ReverseClose;
    CloseIff(lines, l, p, l', q);
    ReverseCloseIff(lines, l, p, l', q);
  }

  // There and back, from an opening bracket that is closed.
  lemma RoundTrip(lines: seq<string>, l: nat, p: nat)
    requires InText(lines, l, p) && IsOpener(lines[l][p])
    requires Close(lines, l, p).Some?
    ensures var e := Close(lines, l, p).value;
            && InText(lines, e.line, e.pos - 1)
            && Pair(lines[l][p], lines[e.line][e.pos - 1])
            && ReverseClose(lines, e.line, e.pos - 1) == Some(Place(l, p))
  {
    hide Close, ReverseClose, Flatten;
    var e := Close(lines, l, p).value;
    PlainDecides(lines, l, p);
    CloseIff(lines, l, p, e.line, e.pos - 1);
    CharAt(lines, l, p);
    CharAt(lines, e.line, e.pos - 1);
    ReverseCloseIff(lines, l, p, e.line, e.pos - 1);
  }

  // Back and there, from a closing bracket that is opened.
  lemma RoundTripBack(lines: seq<string>, l': nat, q: nat)
    requires InText(lines, l', q) && IsCloser(lines[l'][q])
    requires ReverseClose(lines, l', q).Some?
    ensures var s := ReverseClose(lines, l', q).value;
            && InText(lines, s.line, s.pos)
            && Pair(lines[s.line][s.pos], lines[l'][q])
            && Close(lines, s.line, s.pos) == Some(Place(l', q + 1))
  {
    hide Close, ReverseClose, Flatten;
    var s := ReverseClose(lines, l', q).value;
    PlainDecidesBack(lines, l', q);
    ReverseCloseIff(lines, s.line, s.pos, l', q);
    CharAt(lines, s.line, s.pos);
    CharAt(lines, l', q);
    CloseIff(lines, s.line, s.pos, l', q);
  }

  // ---------- which bracket an answer belongs to ----------

  // A '<' that the scan does push is closed by a '>', the brackets strictly between are
  // balanced and typed, and no statement ends between them.
  lemma OwnedAngleCloses(lines: seq<string>, l: nat, p: nat)
    requires InText(lines, l, p) && lines[l][p] == '<' && Owns(lines[l], p)
    requires ScanLines(lines, l, p, []).Some?
    ensures var e := ScanLines(lines, l, p, []).value;
            && InText(lines, e.line, e.pos - 1) && lines[e.line][e.pos - 1] == '>'
            && At(lines, l, p) < At(lines, e.line, e.pos - 1) < |Flatten(lines)|
            && ArgumentText(Flatten(lines)[At(lines, l, p) + 1..At(lines, e.line, e.pos - 1)])
  {
    hide ScanLines, Owns, TextBefore, Flatten, ArgumentText, Enclosed;
    var e := ScanLines(lines, l, p, []).value;
    OwnedAngleAnswer(lines, l, p);
    ReadingsAlike(lines);
    var i, j := At(lines, l, p), At(lines, e.line, e.pos - 1);
    EnclosedIsArgument(Flatten(ReadForwards(lines))[i + 1..j], Flatten(lines)[i + 1..j]);
  }

  lemma AngleClose(lines: seq<string>, l: nat, p: nat)
    requires InText(lines, l, p) && lines[l][p] == '<' && Owns(lines[l], p)
    requires Close(lines, l, p).Some?
    ensures var e := Close(lines, l, p).value;
            && InText(lines, e.line, e.pos - 1) && lines[e.line][e.pos - 1] == '>'
            && At(lines, l, p) < At(lines, e.line, e.pos - 1) < |Flatten(lines)|
            && ArgumentText(Flatten(lines)[At(lines, l, p) + 1..At(lines, e.line, e.pos - 1)])
  {
    hide ScanLines, Owns, ArgumentText;
    OwnedAngleCloses(lines, l, p);
  }

  predicate SameKind(o: char, c: char) { Pair(o, c) || (o == '<' && c == '>') }

  // Two places that hold brackets of one kind, with balanced text strictly between.
  ghost predicate Fits(lines: seq<string>, from: Place, to: Place)
    requires InText(lines, from.line, from.pos) && InText(lines, to.line, to.pos)
  {
    var i, j := At(lines, from.line, from.pos), At(lines, to.line, to.pos);
    && SameKind(lines[from.line][from.pos], lines[to.line][to.pos])
    && i < j < |Flatten(lines)| && Balanced(Flatten(lines)[i + 1..j])
  }

  // For every kind of start that is pushed, the closer has the opener's kind and the
  // brackets strictly between are balanced.
  lemma OwnedCloserMatches(lines: seq<string>, l: nat, p: nat)
    requires InText(lines, l, p) && CanOpen(lines[l], p) && Owns(lines[l], p)
    requires Close(lines, l, p).Some?
    ensures var e := Close(lines, l, p).value;
            InText(lines, e.line, e.pos - 1) && Fits(lines, Place(l, p), Place(e.line, e.pos - 1))
  {
    hide Close, Step, TextBefore, Flatten;
    if lines[l][p] == '<' {
      AngleClose(lines, l, p);
    } else {
      var e := Close(lines, l, p).value;
      PlainDecides(lines, l, p);
      CloseIff(lines, l, p, e.line, e.pos - 1);
      CharAt(lines, l, p);
      CharAt(lines, e.line, e.pos - 1);
    }
  }

  // The first bracket or '<' from column p on that the scan pushes; the line's length if there is none.
  function FirstPushed(line: string, p: nat): (k: nat)
    requires p <= |line|
    ensures p <= k <= |line|
    ensures k < |line| ==> (IsOpener(line[k]) || line[k] == '<') && Owns(line, k)
    decreases |line| - p
  {
    if p == |line| || ((IsOpener(line[p]) || line[p] == '<') && Owns(line, p)) then p else FirstPushed(line, p + 1)
  }

  predicate NoBracket(c: char) { !IsOpener(c) && !IsCloser(c) }

  // A closing bracket or ';' makes a scan with nothing on its stack give up.
  predicate Passable(c: char) { c !in ")]};" }

  lemma EmptyStackStep(line: string, i: nat)
    requires i < |line| && !((IsOpener(line[i]) || line[i] == '<') && Owns(line, i))
    ensures !IsOpener(line[i]) && Step(line, i, []) == if Passable(line[i]) then Running([]) else Stuck
  {
    hide EndsWithOperator;
    assert [] + [line[i]] == [line[i]];
  }

  // From an empty stack, the answer is that of the first bracket that is pushed, if no closing
  // bracket and no ';' stands on the way there; otherwise there is none.
  lemma {:induction false} EmptyStackScan(lines: seq<string>, l: nat, i: nat)
    requires l < |lines| && i <= |lines[l]|
    ensures var k := FirstPushed(lines[l], i);
            && (forall m :: i <= m < k ==> !IsOpener(lines[l][m]))
            && ScanLines(lines, l, i, []) ==
               if k < |lines[l]| && forall m :: i <= m < k ==> Passable(lines[l][m])
               then ScanLines(lines, l, k, []) else None
    decreases |lines[l]| - i
  {
    hide EndsWithOperator;
    var line := lines[l];
    if i == |line| {
    } else {
      if (IsOpener(line[i]) || line[i] == '<') && Owns(line, i) {
      } else {
        EmptyStackScan(lines, l, i + 1);
        EmptyStackStep(line, i);
        if Passable(line[i]) {
          assert Scan(line, i, []) == Scan(line, i + 1, []);
        }
      }
    }
  }

  lemma EmptyStackAnswer(lines: seq<string>, l: nat, i: nat)
    requires l < |lines| && i <= |lines[l]| && ScanLines(lines, l, i, []).Some?
    ensures var k := FirstPushed(lines[l], i);
            && k < |lines[l]| && ScanLines(lines, l, k, []) == ScanLines(lines, l, i, [])
            && forall m :: i <= m < k ==> NoBracket(lines[l][m])
  {
    hide ScanLines;
    EmptyStackScan(lines, l, i);
  }

  // A '<' that is not pushed gets the answer of the first bracket of its line that is, if no
  // closing bracket and no ';' stands before it, and none otherwise.
  lemma UnownedAnswerIsAnothers(lines: seq<string>, l: nat, p: nat)
    requires InText(lines, l, p) && CanOpen(lines[l], p) && !Owns(lines[l], p)
    ensures var p' := FirstPushed(lines[l], p);
            && p < p' && (p' < |lines[l]| ==> Owns(lines[l], p'))
            && Close(lines, l, p) ==
               if p' < |lines[l]| && forall m :: p <= m < p' ==> Passable(lines[l][m])
               then ScanLines(lines, l, p', []) else None
  {
    hide EndsWithOperator, ScanLines;
    EmptyStackScan(lines, l, p);
  }

  lemma {:induction false} RunPasses(st: seq<char>, u: string, w: string)
    requires forall i :: 0 <= i < |u| ==> NoBracket(u[i])
    ensures Run(st, u + w) == Run(st, w)
    decreases |u|
  {
    if u == "" {
      assert u + w == w;
    } else {
      assert (u + w)[1..] == u[1..] + w;
      RunPasses(st, u[1..], w);
    }
  }

  // Columns p..k of line l hold no bracket: balanced from k is balanced from p.
  lemma BalancedFrom(lines: seq<string>, l: nat, p: nat, k: nat, j: nat)
    requires l < |lines| && p <= k <= |lines[l]| && At(lines, l, k) <= j <= |Flatten(lines)|
    requires forall m :: p <= m < k ==> NoBracket(lines[l][m])
    ensures Balanced(Flatten(lines)[At(lines, l, p)..j]) <==> Balanced(Flatten(lines)[At(lines, l, k)..j])
  {
    hide Flatten, TextBefore, Run;
    var text := Flatten(lines);
    var u := text[At(lines, l, p)..At(lines, l, k)];
    forall i | 0 <= i < |u| ensures NoBracket(u[i]) {
      CharAt(lines, l, p + i);
    }
    assert text[At(lines, l, p)..j] == u + text[At(lines, l, k)..j];
    RunPasses([], u, text[At(lines, l, k)..j]);
  }

  // When an answer belongs to the bracket it was asked for, for every start: the closer has
  // the opener's kind and the brackets strictly between are balanced, exactly when the first
  // bracket that the scan pushes is the same character as the start.
  lemma CloserFitsIff(lines: seq<string>, l: nat, p: nat)
    requires InText(lines, l, p) && CanOpen(lines[l], p) && Close(lines, l, p).Some?
    ensures var e, k := Close(lines, l, p).value, FirstPushed(lines[l], p);
            && InText(lines, e.line, e.pos - 1) && k < |lines[l]|
            && (Fits(lines, Place(l, p), Place(e.line, e.pos - 1)) <==> lines[l][k] == lines[l][p])
  {
    hide ScanLines, TextBefore, Flatten, EndsWithOperator, Step;
    var e, k := Close(lines, l, p).value, FirstPushed(lines[l], p);
    EmptyStackAnswer(lines, l, p);
    if k == p {
      OwnedCloserMatches(lines, l, p);
    } else {
      assert lines[l][p] == '<' by { OwnsIff(lines[l], p); }
      if lines[l][k] == '<' {
        OwnedAngleCloses(lines, l, k);
        assert NoBracket('<');
        BalancedFrom(lines, l, p + 1, k, At(lines, e.line, e.pos - 1));
        BalancedFrom(lines, l, k, k + 1, At(lines, e.line, e.pos - 1));
      } else {
        OwnedCloserMatches(lines, l, k);
      }
    }
  }

  // ---------- the same, backwards ----------

  // The mirror of AngleClose: a '>' that is no operator is opened by a '<'.
  lemma AngleOpen(lines: seq<string>, l': nat, q: nat)
    requires InText(lines, l', q) && lines[l'][q] == '>' && !OperatorAngle(lines[l'], q)
    requires ReverseClose(lines, l', q).Some?
    ensures var s := ReverseClose(lines, l', q).value;
            && InText(lines, s.line, s.pos) && lines[s.line][s.pos] == '<'
            && At(lines, s.line, s.pos) < At(lines, l', q) < |Flatten(lines)|
            && ArgumentText(Flatten(lines)[At(lines, s.line, s.pos) + 1..At(lines, l', q)])
  {
    hide ReverseClose, OperatorAngle, TextBefore, Flatten, ArgumentText, Enclosed;
    var s := ReverseClose(lines, l', q).value;
    OwnedAngleStart(lines, l', q);
    ReadingsAlike(lines);
    var i, j := At(lines, s.line, s.pos), At(lines, l', q);
    EnclosedIsArgument(Flatten(ReadBackwards(lines))[i + 1..j], Flatten(lines)[i + 1..j]);
  }

  // What the backward scan pushes: a closing bracket, or a '>' that is no operator.
  predicate PushedBack(line: string, i: nat)
    requires i < |line|
  {
    IsCloser(line[i]) || (line[i] == '>' && !OperatorAngle(line, i))
  }

  lemma PushedStartFits(lines: seq<string>, l': nat, q: nat)
    requires InText(lines, l', q) && PushedBack(lines[l'], q)
    requires ReverseClose(lines, l', q).Some?
    ensures var s := ReverseClose(lines, l', q).value;
            InText(lines, s.line, s.pos) && Fits(lines, s, Place(l', q))
  {
    hide ReverseClose, OperatorAngle, TextBefore, Flatten;
    if lines[l'][q] == '>' {
      AngleOpen(lines, l', q);
    } else {
      var s := ReverseClose(lines, l', q).value;
      PlainDecidesBack(lines, l', q);
      ReverseCloseIff(lines, s.line, s.pos, l', q);
      CharAt(lines, s.line, s.pos);
      CharAt(lines, l', q);
    }
  }

  // The last column before k that the scan pushes; -1 if there is none.
  function LastPushed(line: string, k: nat): (m: int)
    requires k <= |line|
    ensures -1 <= m < k && (m >= 0 ==> PushedBack(line, m))
  {
    if k == 0 then -1 else if PushedBack(line, k - 1) then k - 1 else LastPushed(line, k - 1)
  }

  // An opening bracket or ';' makes a backward scan with nothing on its stack give up.
  predicate PassableBack(c: char) { c !in "([{;" }

  lemma SteppedOver(line: string, i: nat)
    requires i < |line| && StepsOverTwo(line, i)
    ensures i > 0 && PassableBack(line[i]) && PassableBack(line[i - 1])
    ensures !IsCloser(line[i - 1]) && !PushedBack(line, i - 1)
  {
    if line[i] == '>' {
      SkippedBeforeAngle(line, i);
    }
  }

  lemma EmptyStackStepBack(line: string, i: nat)
    requires i < |line| && !PushedBack(line, i)
    ensures !IsCloser(line[i])
    ensures StepBack(line, i, []) ==
            if StepsOverTwo(line, i) then Next(i - 1, []) else if PassableBack(line[i]) then Next(i, []) else Lost
  {
    hide OperatorAngle;
  }

  // From an empty stack, the answer is that of the last column that is pushed, if no opening
  // bracket and no ';' stands behind it; otherwise there is none.
  lemma {:induction false} EmptyStackScanBack(lines: seq<string>, l: nat, k: nat)
    requires l < |lines| && k <= |lines[l]|
    ensures var m := LastPushed(lines[l], k);
            && (forall j :: m < j < k ==> !IsCloser(lines[l][j]))
            && ScanLinesBack(lines, l, k, []) ==
               if m >= 0 && forall j :: m < j < k ==> PassableBack(lines[l][j])
               then ScanLinesBack(lines, l, m + 1, []) else None
  {
    hide OperatorAngle, StepBack, PassableBack, StepsOverTwo;
    var line := lines[l];
    if k == 0 {
    } else if PushedBack(line, k - 1) {
    } else {
      EmptyStackStepBack(line, k - 1);
      EmptyStackScanBack(lines, l, k - 1);
      if StepsOverTwo(line, k - 1) {
        SteppedOver(line, k - 1);
        EmptyStackScanBack(lines, l, k - 2);
        assert ScanBack(line, k, []) == ScanBack(line, k - 2, []);
      } else if PassableBack(line[k - 1]) {
        assert ScanBack(line, k, []) == ScanBack(line, k - 1, []);
      }
    }
  }

  lemma EmptyStackStart(lines: seq<string>, l: nat, k: nat)
    requires l < |lines| && k <= |lines[l]| && ScanLinesBack(lines, l, k, []).Some?
    ensures var m := LastPushed(lines[l], k);
            && m >= 0 && ScanLinesBack(lines, l, m + 1, []) == ScanLinesBack(lines, l, k, [])
            && forall j :: m < j < k ==> NoBracket(lines[l][j])
  {
    hide ScanLinesBack, OperatorAngle;
    EmptyStackScanBack(lines, l, k);
  }

  // A '>' that is an operator gets the answer of the last column before it that is pushed.
  lemma UnpushedStartIsAnothers(lines: seq<string>, l: nat, q: nat)
    requires InText(lines, l, q) && lines[l][q] == '>' && OperatorAngle(lines[l], q)
    ensures var m := LastPushed(lines[l], q);
            ReverseClose(lines, l, q) ==
            if m >= 0 && forall j :: m < j < q ==> PassableBack(lines[l][j])
            then ScanLinesBack(lines, l, m + 1, []) else None
  {
    hide ScanLinesBack, OperatorAngle;
    EmptyStackScanBack(lines, l, q + 1);
  }

  // Both scans refuse to start on anything else.
  lemma OtherStartsRefused(lines: seq<string>, l: nat, p: nat)
    requires InText(lines, l, p)
    ensures lines[l][p] !in "([{<" || "<<" <= lines[l][p..] || "<=" <= lines[l][p..] ==> Close(lines, l, p) == None
    ensures lines[l][p] !in ")]}>" ==> ReverseClose(lines, l, p) == None
  {
    hide ScanLines, ScanLinesBack;
    CanOpenIff(lines[l], p);
  }

  lemma {:induction false} RunPassesEnd(st: seq<char>, w: string, u: string)
    requires forall i :: 0 <= i < |u| ==> NoBracket(u[i])
    ensures Run(st, w + u) == Run(st, w)
    decreases |u|
  {
    if u == "" {
      assert w + u == w;
    } else {
      var v, c := u[..|u| - 1], u[|u| - 1];
      assert w + u == (w + v) + [c];
      RunSnoc(st, w + v, c);
      RunPassesEnd(st, w, v);
    }
  }

  // Columns m..q of line l hold no bracket: balanced up to m is balanced up to q.
  lemma BalancedTo(lines: seq<string>, l: nat, s: Place, m: nat, q: nat)
    requires InText(lines, l, q) && InText(lines, s.line, s.pos)
    requires m <= q && At(lines, s.line, s.pos) < At(lines, l, m) && At(lines, l, q) <= |Flatten(lines)|
    requires forall j :: m <= j < q ==> NoBracket(lines[l][j])
    ensures Balanced(Flatten(lines)[At(lines, s.line, s.pos) + 1..At(lines, l, m)]) <==>
            Balanced(Flatten(lines)[At(lines, s.line, s.pos) + 1..At(lines, l, q)])
  {
    hide Flatten, TextBefore, Run;
    var text, i := Flatten(lines), At(lines, s.line, s.pos) + 1;
    var u := text[At(lines, l, m)..At(lines, l, q)];
    forall j | 0 <= j < |u| ensures NoBracket(u[j]) {
      CharAt(lines, l, m + j);
    }
    assert text[i..At(lines, l, q)] == text[i..At(lines, l, m)] + u;
    RunPassesEnd([], text[i..At(lines, l, m)], u);
  }

  // When a backward answer belongs to the bracket it was asked for, for every start: exactly
  // when the first bracket that the scan pushes is the same character as the start.
  lemma OpenerFitsIff(lines: seq<string>, l': nat, q: nat)
    requires InText(lines, l', q) && ReverseClose(lines, l', q).Some?
    ensures var s, m := ReverseClose(lines, l', q).value, LastPushed(lines[l'], q + 1);
            && InText(lines, s.line, s.pos) && m >= 0
            && (Fits(lines, s, Place(l', q)) <==> lines[l'][m] == lines[l'][q])
  {
    hide ScanLinesBack, TextBefore, Flatten, OperatorAngle;
    var s, m := ReverseClose(lines, l', q).value, LastPushed(lines[l'], q + 1);
    EmptyStackStart(lines, l', q + 1);
    PushedStartFits(lines, l', m);
    CharAt(lines, l', q);
    if m < q {
      assert lines[l'][q] == '>';
      if lines[l'][m] == '>' {
        assert NoBracket('>');
        BalancedTo(lines, l', s, m, q);
      }
    }
  }
}
