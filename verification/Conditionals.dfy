// What a reader of #if, #else, #elif and #endif sees of the nesting state, wherever the
// conditional stands: no statement here looks into a checkpoint.
module Conditionals {
  import opened Wrappers
  import opened Nesting

  // How many conditionals of their own are open behind the lines, `n` before them; None if the
  // lines close a conditional that was open before.
  function OpenBehind(n: nat, lines: seq<Line>): Option<nat>
    decreases |lines|
  {
    if lines == [] then Some(n)
    else match lines[0].directive
      case If => OpenBehind(n + 1, lines[1..])
      case Endif => if n == 0 then None else OpenBehind(n - 1, lines[1..])
      case _ => OpenBehind(n, lines[1..])
  }

  // Lines between an #if and its #endif: the conditionals on them are closed on them.  The
  // #else and #elif lines of the outer conditional may be among them.
  predicate Within(lines: seq<Line>) { OpenBehind(0, lines) == Some(0) }

  // An #else or #elif that belongs to the outer conditional.
  predicate HasElse(n: nat, lines: seq<Line>)
    decreases |lines|
  {
    lines != [] &&
    match lines[0].directive
    case If => HasElse(n + 1, lines[1..])
    case Endif => n > 0 && HasElse(n - 1, lines[1..])
    case Else => n == 0 || HasElse(n, lines[1..])
    case NoDirective => HasElse(n, lines[1..])
  }

  // The lines of one branch of a conditional.
  predicate Branch(lines: seq<Line>) { Within(lines) && !HasElse(0, lines) }

  // ---------- what happens above checkpoint m ----------

  lemma StepAbove(t: State, line: Line, m: nat, n: nat)
    requires |t.pp| == m + 1 + n && (line.directive == Endif ==> n > 0)
    ensures var u := Update(t, line);
            && |u.pp| > m && u.pp[..m] == t.pp[..m] && u.pp[m].beforeIf == t.pp[m].beforeIf
            && |u.pp| == |t.pp| + (if line.directive == If then 1 else if line.directive == Endif then -1 else 0)
            && (t.pp[m].seenElse || line.directive != Else || n > 0 ==> u.pp[m] == t.pp[m])
  {
    hide Body;
  }

  lemma {:induction false} LinesAbove(t: State, lines: seq<Line>, m: nat, n: nat)
    requires |t.pp| == m + 1 + n && OpenBehind(n, lines).Some?
    ensures var u := Updates(t, lines);
            && |u.pp| == m + 1 + OpenBehind(n, lines).value && u.pp[..m] == t.pp[..m]
            && u.pp[m].beforeIf == t.pp[m].beforeIf
            && (t.pp[m].seenElse || !HasElse(n, lines) ==> u.pp[m] == t.pp[m])
    decreases |lines|
  {
    hide Update;
    if lines == [] {
    } else {
      StepAbove(t, lines[0], m, n);
      var d := lines[0].directive;
      var n' := if d == If then n + 1 else if d == Endif then n - 1 else n;
      LinesAbove(Update(t, lines[0]), lines[1..], m, n');
    }
  }

  lemma {:induction false} UpdatesConcat(s: State, a: seq<Line>, b: seq<Line>)
    ensures Updates(s, a + b) == Updates(Updates(s, a), b)
    decreases |a|
  {
    hide Update;
    if a == [] {
      assert a + b == b;
    } else {
      assert (a + b)[1..] == a[1..] + b;
      UpdatesConcat(Update(s, a[0]), a[1..], b);
    }
  }

  lemma AfterIf(s: State, first: Line)
    requires first.directive == If
    ensures Updates(s, [first]) == Update(s, first)
    ensures Update(s, first).pp == s.pp + [Checkpoint(s.stack, [], false)]
  {
    hide Body;
    assert [first][1..] == [];
  }

  // ---------- the laws ----------

  // Every #else and every #elif starts again from the stack in front of the #if.
  lemma ElseStartsAgain(s: State, first: Line, lines: seq<Line>)
    requires first.directive == If && Within(lines)
    ensures Preprocess(Updates(s, [first] + lines), Else).stack == s.stack
  {
    hide Body, Update, Updates, HasElse;
    AfterIf(s, first);
    UpdatesConcat(s, [first], lines);
    LinesAbove(Update(s, first), lines, |s.pp|, 0);
  }

  // An #endif without #else goes on from where the text is.
  lemma EndifGoesOn(s: State, first: Line, lines: seq<Line>)
    requires first.directive == If && Branch(lines)
    ensures Preprocess(Updates(s, [first] + lines), Endif) == State(Updates(s, [first] + lines).stack, s.pp)
  {
    hide Body, Update, Updates, OpenBehind;
    AfterIf(s, first);
    UpdatesConcat(s, [first], lines);
    var t := Update(s, first);
    LinesAbove(t, lines, |s.pp|, 0);
    assert t.pp[..|s.pp|] == s.pp;
  }

  // An #endif behind #else or #elif goes on from where the text was at the first of them,
  // whatever the lines since.
  lemma EndifGoesBack(s: State, first: Line, lines: seq<Line>, other: Line, rest: seq<Line>)
    requires first.directive == If && Branch(lines) && other.directive == Else && Within(rest)
    ensures Preprocess(Updates(s, [first] + lines + [other] + rest), Endif) ==
            State(Updates(s, [first] + lines).stack, s.pp)
  {
    hide Body, Update, Updates, OpenBehind, HasElse;
    var m := |s.pp|;
    AfterIf(s, first);
    UpdatesConcat(s, [first], lines);
    UpdatesConcat(s, [first] + lines, [other]);
    UpdatesConcat(s, [first] + lines + [other], rest);
    var t := Updates(s, [first] + lines);
    LinesAbove(Update(s, first), lines, m, 0);
    assert Update(s, first).pp[..m] == s.pp;
    AtElse(t, other, m);
    LinesAbove(Update(t, other), rest, m, 0);
  }

  lemma AtElse(t: State, other: Line, m: nat)
    requires |t.pp| == m + 1 && !t.pp[m].seenElse && other.directive == Else
    ensures Updates(t, [other]) == Update(t, other)
    ensures var u := Update(t, other);
            |u.pp| == m + 1 && u.pp[..m] == t.pp[..m] && u.pp[m].seenElse && u.pp[m].beforeElse == t.stack
  {
    hide Body;
    assert [other][1..] == [];
  }

  // Without an #if, both are ignored.
  lemma UnmatchedIgnored(s: State)
    requires s.pp == []
    ensures Preprocess(s, Else) == s && Preprocess(s, Endif) == s
  {
  }

  // An #if itself, and a line without a directive, leave the stack as it is.
  lemma IfKeepsStack(s: State)
    ensures Preprocess(s, If).stack == s.stack && Preprocess(s, NoDirective) == s
  {
  }

  // A directive replaces the stack exactly if it is an #else or #elif of an open conditional,
  // or the #endif of one whose #else has been seen.
  lemma RestoresIff(s: State, d: Directive)
    ensures Restores(s.pp, d) <==>
            var flags := FlagsOf(s);
            flags != [] && (d == Else || (d == Endif && flags[|flags| - 1]))
  {
  }
}
