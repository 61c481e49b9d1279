// NestingState.InTemplateArgumentList of bin/cpplint.py.
module TemplateArguments {
  import opened Wrappers
  import opened Lines
  import opened ForwardMatcher

  // The characters outside of [^{};=\[\]\.<>]
  predicate Telling(c: char) { Refutes(c) || Confirms(c) || c == '<' }

  predicate Refutes(c: char) { c == '{' || c == '}' || c == ';' }

  predicate Confirms(c: char) { c == '>' || c == '=' || c == '[' || c == ']' || c == '.' }

  lemma TellingCharacters(c: char)
    ensures Refutes(c) <==> c in "{};"
    ensures Confirms(c) <==> c in ">=[]."
    ensures Telling(c) <==> c in "{};=[].<>"
  {
  }

  // A jump over an angle-bracket group always ends at a later place.
  lemma CloseMovesOn(lines: seq<string>, l: nat, p: nat)
    requires InText(lines, l, p)
    ensures match Close(lines, l, p)
            case None => true
            case Some(e) => e.line < |lines| && e.pos <= |lines[e.line]| && (l < e.line || (l == e.line && p < e.pos))
  {
    ScanLinesMovesOn(lines, l, p, []);
  }

  lemma {:induction false} ScanMovesOn(line: string, i: nat, stack: seq<char>)
    requires i <= |line|
    ensures Scan(line, i, stack).Closed? ==> i < Scan(line, i, stack).end <= |line|
    decreases |line| - i
  {
    if i == |line| {
    } else {
      var out := Step(line, i, stack);
      StepClosesHere(line, i, stack);
      hide Step;
      if out.Running? {
        ScanMovesOn(line, i + 1, out.stack);
      }
    }
  }

  lemma StepClosesHere(line: string, i: nat, stack: seq<char>)
    requires i < |line|
    ensures Step(line, i, stack).Closed? ==> Step(line, i, stack).end == i + 1
  {
  }

  lemma {:induction false} ScanLinesMovesOn(lines: seq<string>, l: nat, i: nat, stack: seq<char>)
    requires l < |lines| && i <= |lines[l]|
    ensures match ScanLines(lines, l, i, stack)
            case None => true
            case Some(e) => e.line < |lines| && e.pos <= |lines[e.line]| && (l < e.line || (l == e.line && i < e.pos))
    decreases |lines| - l
  {
    hide Scan;
    ScanMovesOn(lines[l], i, stack);
    var out := Scan(lines[l], i, stack);
    if out.Running? && l + 1 < |lines| {
      ScanLinesMovesOn(lines, l + 1, 0, out.stack);
    }
  }

  // Read on character by character, jumping over every complete '<'...'>' group: the first
  // telling character outside the groups decides.  An incomplete group refutes.
  function Verdict(lines: seq<string>, l: nat, pos: nat): bool
    decreases |lines| - l, if l < |lines| then |lines[l]| - pos else 0
  {
    if l >= |lines| then false
    else if pos >= |lines[l]| then Verdict(lines, l + 1, 0)
    else
      var c := lines[l][pos];
      if Refutes(c) then false
      else if Confirms(c) then true
      else if c != '<' then Verdict(lines, l, pos + 1)
      else
        CloseMovesOn(lines, l, pos);
        match Close(lines, l, pos)
        case None => false
        case Some(e) => Verdict(lines, e.line, e.pos)
  }

  // Match(r'^[^{};=\[\]\.<>]*(.)', line[pos:]): the length of the match.  The class takes
  // everything up to the first telling character; where there is none it gives its last
  // character back to the group.
  method MatchTelling(line: string, pos: nat) returns (length: Option<nat>)
    ensures length == None <==> pos >= |line|
    ensures length.Some? ==>
              && 0 < length.value <= |line| - pos
              && (forall k :: pos <= k < pos + length.value - 1 ==> !Telling(line[k]))
              && (Telling(line[pos + length.value - 1]) || pos + length.value == |line|)
  {
    if pos >= |line| {
      return None;
    }
    var k := pos;
    while k < |line| && !Telling(line[k])
      invariant pos <= k <= |line|
      invariant forall m :: pos <= m < k ==> !Telling(line[m])
    {
      k := k + 1;
    }
    return Some(if k < |line| then k + 1 - pos else k - pos);
  }

  lemma {:induction false} VerdictPassesOver(lines: seq<string>, l: nat, pos: nat, k: nat)
    requires l < |lines| && pos <= k <= |lines[l]|
    requires forall m :: pos <= m < k ==> !Telling(lines[l][m])
    ensures Verdict(lines, l, pos) == Verdict(lines, l, k)
    decreases k - pos
  {
    if pos == k {
    } else {
      VerdictPassesOver(lines, l, pos + 1, k);
    }
  }

  method InTemplateArgumentList(lines: seq<string>, linenum0: nat, pos0: nat) returns (r: bool)
    ensures r == Verdict(lines, linenum0, pos0)
  {
    var linenum: nat, pos: nat := linenum0, pos0;
    while linenum < |lines|
      invariant Verdict(lines, linenum0, pos0) == Verdict(lines, linenum, pos)
      decreases |lines| - linenum, if linenum < |lines| then |lines[linenum]| - pos else 0
    {
      var line := lines[linenum];
      var length := MatchTelling(line, pos);
      if length == None {
        linenum, pos := linenum + 1, 0;
        continue;
      }
      var token := line[pos + length.value - 1];
      VerdictPassesOver(lines, linenum, pos, if Telling(token) then pos + length.value - 1 else |line|);
      pos := pos + length.value;
      if Refutes(token) {
        return false;
      }
      if Confirms(token) {
        return true;
      }
      if token != '<' {
        pos := pos + 1;
        if pos >= |line| {
          linenum, pos := linenum + 1, 0;
        }
        continue;
      }
      CloseMovesOn(lines, linenum, pos - 1);
      var endLine, endPos := CloseExpression(lines, linenum, pos - 1);
      if endPos < 0 {
        return false;
      }
      linenum, pos := endLine, endPos;
    }
    return false;
  }

  // ---------- what the answer means, on the flattened text ----------

  // No telling character from one position up to another.
  ghost predicate Clear(text: string, from: int, to: int) {
    0 <= from <= to <= |text| && forall k :: from <= k < to ==> !Telling(text[k])
  }

  // The '<' at position `at` is closed by CloseExpression, just before position `end`.
  ghost predicate Group(lines: seq<string>, at: nat, end: nat) {
    exists l: nat, p: nat :: IsGroup(lines, l, p, at, end)
  }

  ghost predicate IsGroup(lines: seq<string>, l: nat, p: nat, at: nat, end: nat) {
    && InText(lines, l, p) && lines[l][p] == '<' && At(lines, l, p) == at
    && Close(lines, l, p).Some? && Close(lines, l, p).value.line < |lines|
    && At(lines, Close(lines, l, p).value.line, Close(lines, l, p).value.pos) == end
  }

  // Reading from `from`, over `groups` complete groups and no other telling character, comes to `to`.
  ghost predicate Reaches(lines: seq<string>, from: nat, groups: nat, to: nat)
    decreases groups
  {
    if groups == 0 then Clear(Flatten(lines), from, to)
    else
      exists at: nat, end: nat ::
        Clear(Flatten(lines), from, at) && Group(lines, at, end) && Reaches(lines, end, groups - 1, to)
  }

  ghost predicate Confirmed(lines: seq<string>, from: nat, groups: nat, to: nat) {
    Reaches(lines, from, groups, to) && to < |Flatten(lines)| && Confirms(Flatten(lines)[to])
  }

  ghost predicate CanConfirm(lines: seq<string>, from: nat) {
    exists groups: nat, to: nat :: Confirmed(lines, from, groups, to)
  }

  lemma ReachesFurther(lines: seq<string>, from: nat, groups: nat, to: nat)
    requires from < |Flatten(lines)| && !Telling(Flatten(lines)[from]) && Confirmed(lines, from, groups, to)
    ensures Confirmed(lines, from + 1, groups, to)
  {
    hide Flatten;
    var text := Flatten(lines);
    if groups > 0 {
      var at: nat, end: nat :| Clear(text, from, at) && Group(lines, at, end) && Reaches(lines, end, groups - 1, to);
      GroupIsTelling(lines, at, end);
      assert Clear(text, from + 1, at);
    }
  }

  lemma ReachesFromBefore(lines: seq<string>, from: nat, groups: nat, to: nat)
    requires from < |Flatten(lines)| && !Telling(Flatten(lines)[from]) && Confirmed(lines, from + 1, groups, to)
    ensures Confirmed(lines, from, groups, to)
  {
  }

  lemma OneFurther(lines: seq<string>, from: nat)
    requires from < |Flatten(lines)| && !Telling(Flatten(lines)[from])
    ensures CanConfirm(lines, from) <==> CanConfirm(lines, from + 1)
  {
    hide Flatten, Confirmed;
    if CanConfirm(lines, from) {
      var groups: nat, to: nat :| Confirmed(lines, from, groups, to);
      ReachesFurther(lines, from, groups, to);
    }
    var next := from + 1;
    if CanConfirm(lines, next) {
      var groups: nat, to: nat :| Confirmed(lines, next, groups, to);
      ReachesFromBefore(lines, from, groups, to);
    }
  }

  lemma GroupIsTelling(lines: seq<string>, at: nat, end: nat)
    requires Group(lines, at, end)
    ensures at < |Flatten(lines)| && Flatten(lines)[at] == '<'
  {
    hide Close, Flatten;
    var l: nat, p: nat :| IsGroup(lines, l, p, at, end);
    CharAt(lines, l, p);
  }

  lemma GroupEnd(lines: seq<string>, l: nat, p: nat, end: nat)
    requires InText(lines, l, p) && Group(lines, At(lines, l, p), end)
    ensures IsGroup(lines, l, p, At(lines, l, p), end)
  {
    hide Close;
    var l': nat, p': nat :| IsGroup(lines, l', p', At(lines, l, p), end);
    AtInjective(lines, l, p, l', p');
  }

  // The answer is "inside template arguments" exactly when reading on, over complete groups
  // only, first meets a confirming character.
  lemma {:induction false} VerdictMeans(lines: seq<string>, l: nat, pos: nat)
    requires l < |lines| && pos <= |lines[l]|
    ensures Verdict(lines, l, pos) <==> CanConfirm(lines, At(lines, l, pos))
    decreases |lines| - l, |lines[l]| - pos
  {
    hide Flatten, Close, TextBefore, CanConfirm;
    LineAt(lines, l);
    if pos == |lines[l]| {
      if l + 1 < |lines| {
        VerdictMeans(lines, l + 1, 0);
      } else {
        NothingConfirmedAtEnd(lines);
      }
    } else {
      var from, c := At(lines, l, pos), lines[l][pos];
      CharAt(lines, l, pos);
      if Confirms(c) {
        ConfirmedHere(lines, from);
      } else if Refutes(c) {
        RefutedHere(lines, from);
      } else if c != '<' {
        VerdictMeans(lines, l, pos + 1);
        OneFurther(lines, from);
      } else {
        CloseMovesOn(lines, l, pos);
        if Close(lines, l, pos).Some? {
          var e := Close(lines, l, pos).value;
          VerdictMeans(lines, e.line, e.pos);
        }
        OverGroup(lines, l, pos);
      }
    }
  }

  lemma NothingConfirmedAtEnd(lines: seq<string>)
    ensures !CanConfirm(lines, |Flatten(lines)|)
  {
    hide Flatten;
    forall groups: nat, to: nat ensures !Confirmed(lines, |Flatten(lines)|, groups, to) {
      if Confirmed(lines, |Flatten(lines)|, groups, to) && groups > 0 {
        var at: nat, end: nat :| Clear(Flatten(lines), |Flatten(lines)|, at) && Group(lines, at, end)
                       && Reaches(lines, end, groups - 1, to);
        GroupIsTelling(lines, at, end);
      }
    }
  }

  lemma ConfirmedHere(lines: seq<string>, from: nat)
    requires from < |Flatten(lines)| && Confirms(Flatten(lines)[from])
    ensures CanConfirm(lines, from)
  {
    hide Flatten;
    assert Confirmed(lines, from, 0, from);
  }

  lemma RefutedHere(lines: seq<string>, from: nat)
    requires from < |Flatten(lines)| && Refutes(Flatten(lines)[from])
    ensures !CanConfirm(lines, from)
  {
    hide Flatten;
    forall groups: nat, to: nat ensures !Confirmed(lines, from, groups, to) {
      if Confirmed(lines, from, groups, to) && groups > 0 {
        var at: nat, end: nat :|
          Clear(Flatten(lines), from, at) && Group(lines, at, end) && Reaches(lines, end, groups - 1, to);
        GroupIsTelling(lines, at, end);
      }
    }
  }

  // At a '<', only the jump over its group leads on.
  lemma OverGroup(lines: seq<string>, l: nat, p: nat)
    requires InText(lines, l, p) && lines[l][p] == '<'
    ensures match Close(lines, l, p)
            case None => !CanConfirm(lines, At(lines, l, p))
            case Some(e) =>
              e.line < |lines| &&
              (CanConfirm(lines, At(lines, l, p)) <==> CanConfirm(lines, At(lines, e.line, e.pos)))
  {
    hide Flatten, Close;
    var text, from := Flatten(lines), At(lines, l, p);
    CharAt(lines, l, p);
    CloseMovesOn(lines, l, p);
    forall groups: nat, to: nat | Confirmed(lines, from, groups, to)
      ensures Close(lines, l, p).Some? && groups > 0
              && Confirmed(lines, At(lines, Close(lines, l, p).value.line, Close(lines, l, p).value.pos),
                     groups - 1, to)
    {
      assert groups > 0;
      var at: nat, end: nat :| Clear(text, from, at) && Group(lines, at, end) && Reaches(lines, end, groups - 1, to);
      assert at == from;
      GroupEnd(lines, l, p, end);
    }
    if Close(lines, l, p).Some? {
      var e := Close(lines, l, p).value;
      var next := At(lines, e.line, e.pos);
      assert IsGroup(lines, l, p, from, next);
      assert Clear(text, from, from) && Group(lines, from, next);
      if groups: nat, to: nat :| Confirmed(lines, next, groups, to) {
        assert Confirmed(lines, from, groups + 1, to);
      }
    }
  }

  // The first telling character of the line decides, if it is not '<': behind a class name,
  // one of {};  tells a declaration, and one of >=[]. a template argument.
  lemma FirstTells(lines: seq<string>, l: nat, pos: nat, k: nat)
    requires l < |lines| && pos <= k < |lines[l]|
    requires forall m :: pos <= m < k ==> lines[l][m] !in "{};=[].<>"
    ensures lines[l][k] in "{};" ==> !Verdict(lines, l, pos)
    ensures lines[l][k] in ">=[]." ==> Verdict(lines, l, pos)
  {
    forall m | pos <= m < k ensures !Telling(lines[l][m]) {
      TellingCharacters(lines[l][m]);
    }
    TellingCharacters(lines[l][k]);
    VerdictPassesOver(lines, l, pos, k);
  }
}
