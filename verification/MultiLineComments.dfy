// RemoveMultiLineComments of bin/cpplint.py: the lines of every closed multi-line comment
// are overwritten, in place, by a dummy comment.
module MultiLineComments {
  import opened Wrappers
  import opened CharClasses

  const DUMMY := "/**/"

  // The stripped line starts with the comment opener and does not close it.
  predicate Begins(line: string) {
    var t := Trim(line);
    && |t| >= 2 && t[0] == '/' && t[1] == '*'
    && forall i :: 2 <= i < |t| - 1 ==> !(t[i] == '*' && t[i + 1] == '/')
  }

  predicate Ends(line: string) {
    var t := Trim(line);
    |t| >= 2 && t[|t| - 2] == '*' && t[|t| - 1] == '/'
  }

  lemma DummyLine()
    ensures !Begins(DUMMY) && Ends(DUMMY)
  {
    assert TrimStart(DUMMY) == DUMMY;
    assert TrimEnd(DUMMY) == DUMMY;
    assert DUMMY[2] == '*' && DUMMY[3] == '/';
  }

  // ---------- what the pass is meant to do, line by line ----------

  // Line i lies in a comment: one begins on it, or one that covers the line before has not
  // ended there.
  ghost predicate Covered(lines: seq<string>, i: nat)
    requires i < |lines|
  {
    Begins(lines[i]) || (i > 0 && Covered(lines, i - 1) && !Ends(lines[i - 1]))
  }

  ghost predicate EndsLater(lines: seq<string>, i: nat) {
    exists e :: i <= e < |lines| && Ends(lines[e])
  }

  ghost function Cleaned(lines: seq<string>): (r: seq<string>)
    ensures |r| == |lines|
    ensures forall i :: 0 <= i < |lines| ==>
              r[i] == if Covered(lines, i) && EndsLater(lines, i) then DUMMY else lines[i]
  {
    seq(|lines|, i requires 0 <= i < |lines| => if Covered(lines, i) && EndsLater(lines, i) then DUMMY else lines[i])
  }

  // ---------- the algorithm ----------

  method FindNextMultiLineCommentStart(lines: array<string>, lineix0: nat) returns (lineix: nat)
    requires lineix0 <= lines.Length
    ensures lineix0 <= lineix <= lines.Length
    ensures forall i :: lineix0 <= i < lineix ==> !Begins(lines[i])
    ensures lineix < lines.Length ==> Begins(lines[lineix])
  {
    lineix := lineix0;
    while lineix < lines.Length
      invariant lineix0 <= lineix <= lines.Length
      invariant forall i :: lineix0 <= i < lineix ==> !Begins(lines[i])
    {
      if Begins(lines[lineix]) {
        return;
      }
      lineix := lineix + 1;
    }
  }

  method FindNextMultiLineCommentEnd(lines: array<string>, lineix0: nat) returns (lineix: nat)
    requires lineix0 <= lines.Length
    ensures lineix0 <= lineix <= lines.Length
    ensures forall i :: lineix0 <= i < lineix ==> !Ends(lines[i])
    ensures lineix < lines.Length ==> Ends(lines[lineix])
  {
    lineix := lineix0;
    while lineix < lines.Length
      invariant lineix0 <= lineix <= lines.Length
      invariant forall i :: lineix0 <= i < lineix ==> !Ends(lines[i])
    {
      if Ends(lines[lineix]) {
        return;
      }
      lineix := lineix + 1;
    }
  }

  method RemoveMultiLineCommentsFromRange(lines: array<string>, begin: nat, end: nat)
    requires begin <= end <= lines.Length
    modifies lines
    ensures forall i :: 0 <= i < lines.Length ==> lines[i] == if begin <= i < end then DUMMY else old(lines[i])
  {
    for i := begin to end
      invariant forall k :: 0 <= k < lines.Length ==> lines[k] == if begin <= k < i then DUMMY else old(lines[k])
    {
      lines[i] := DUMMY;
    }
  }

  // Returns the line of an unclosed comment, which the source reports as an error.
  method RemoveMultiLineComments(lines: array<string>) returns (unclosed: Option<nat>)
    modifies lines
    ensures lines[..] == Cleaned(old(lines[..]))
    ensures Cleaned(lines[..]) == lines[..]
    ensures match unclosed
            case None => forall i :: 0 <= i < lines.Length && Covered(old(lines[..]), i) ==>
                EndsLater(old(lines[..]), i)
            case Some(b) => b < lines.Length && Begins(old(lines[b])) && !EndsLater(old(lines[..]), b)
  {
    hide Begins, Ends, Cleaned, Covered, EndsLater;
    ghost var was := lines[..];
    ghost var goal := Cleaned(was);
    CleanedIsClean(was);
    unclosed := None;
    var lineix := 0;
    while lineix < lines.Length
      invariant 0 <= lineix <= lines.Length
      invariant Outside(was, lineix)
      invariant forall i :: 0 <= i < lineix ==> Covered(was, i) ==> EndsLater(was, i)
      invariant forall i :: 0 <= i < lineix ==> lines[i] == goal[i]
      invariant forall i :: lineix <= i < lines.Length ==> lines[i] == was[i]
    {
      var begin := FindNextMultiLineCommentStart(lines, lineix);
      NotCovered(was, lineix, begin);
      BetweenRanges(was, lineix, begin);
      if begin >= lines.Length {
        break;
      }
      var end := FindNextMultiLineCommentEnd(lines, begin);
      CoveredUntil(was, begin, end);
      if end >= lines.Length {
        OpenRange(was, begin);
        unclosed := Some(begin);
        break;
      }
      ClosedRange(was, begin, end);
      RemoveMultiLineCommentsFromRange(lines, begin, end + 1);
      lineix := end + 1;
    }
    assert forall i :: 0 <= i < lines.Length ==> lines[i] == goal[i];
  }

  // No comment reaches over from line n - 1 to line n.
  ghost predicate Outside(lines: seq<string>, n: nat)
    requires n <= |lines|
  {
    n == 0 || !Covered(lines, n - 1) || Ends(lines[n - 1])
  }

  lemma BetweenRanges(lines: seq<string>, from: nat, begin: nat)
    requires from <= begin <= |lines| && forall i :: from <= i < begin ==> !Covered(lines, i)
    ensures forall i :: from <= i < begin ==> Cleaned(lines)[i] == lines[i]
  {
  }

  lemma ClosedRange(lines: seq<string>, begin: nat, end: nat)
    requires begin <= end < |lines| && Ends(lines[end])
    requires forall i :: begin <= i <= end ==> Covered(lines, i)
    ensures forall i :: 0 <= i <= end ==> EndsLater(lines, i)
    ensures forall i :: begin <= i <= end ==> Cleaned(lines)[i] == DUMMY
  {
  }

  lemma OpenRange(lines: seq<string>, begin: nat)
    requires begin < |lines| && forall i :: begin <= i < |lines| ==> !Ends(lines[i])
    ensures !EndsLater(lines, begin)
    ensures forall i :: begin <= i < |lines| ==> Cleaned(lines)[i] == lines[i]
  {
  }

  lemma {:induction false} NotCovered(lines: seq<string>, from: nat, until: nat)
    requires from <= until <= |lines|
    requires Outside(lines, from)
    requires forall i :: from <= i < until ==> !Begins(lines[i])
    ensures forall i :: from <= i < until ==> !Covered(lines, i)
    decreases until - from
  {
    if from == until {
    } else {
      NotCovered(lines, from, until - 1);
    }
  }

  lemma {:induction false} CoveredUntil(lines: seq<string>, begin: nat, end: nat)
    requires begin <= end <= |lines| && begin < |lines| && Begins(lines[begin])
    requires forall i :: begin <= i < end ==> !Ends(lines[i])
    ensures forall i :: begin <= i <= end && i < |lines| ==> Covered(lines, i)
    decreases end - begin
  {
    if begin == end {
    } else {
      CoveredUntil(lines, begin, end - 1);
    }
  }

  // ---------- idempotence ----------

  // After the pass only an unclosed comment still covers lines, and it is the old one.
  lemma {:induction false} StillCovered(lines: seq<string>, i: nat)
    requires i < |lines| && Covered(Cleaned(lines), i)
    ensures Covered(lines, i) && !EndsLater(lines, i)
  {
    var t := Cleaned(lines);
    if Begins(t[i]) {
      DummyLine();
    } else {
      StillCovered(lines, i - 1);
      assert !Ends(lines[i - 1]);
    }
  }

  lemma CleanedIsClean(lines: seq<string>)
    ensures Cleaned(Cleaned(lines)) == Cleaned(lines)
  {
    hide Begins, Ends;
    var t := Cleaned(lines);
    forall i | 0 <= i < |t| && Covered(t, i) ensures !EndsLater(t, i) {
      StillCovered(lines, i);
      assert forall e :: i <= e < |t| ==> t[e] == lines[e];
    }
  }

  // ---------- without the trimming: where a comment begins and ends ----------

  predicate NoEndMark(t: string) { forall i :: 0 <= i < |t| - 1 ==> !(t[i] == '*' && t[i + 1] == '/') }

  // White space, "/*", and no "*/" behind it.
  ghost predicate OpensComment(line: string) {
    exists u, t :: line == u + "/*" + t && White(u) && NoEndMark(t)
  }

  // "*/" and white space at the end.
  ghost predicate ClosesComment(line: string) { exists t, v :: line == t + "*/" + v && White(v) }

  lemma BeginsIff(line: string)
    ensures Begins(line) <==> OpensComment(line)
  {
    if Begins(line) {
      BeginsCut(line);
    }
    if OpensComment(line) {
      var u, t :| line == u + "/*" + t && White(u) && NoEndMark(t);
      CutBegins(line, u, t);
    }
  }

  lemma BeginsCut(line: string)
    requires Begins(line)
    ensures OpensComment(line)
  {
    hide Trim;
    var s := Trim(line);
    TrimMeans(line);
    var u, v :| line == u + s + v && White(u) && White(v);
    assert s == "/*" + s[2..];
    var t := s[2..] + v;
    assert line == u + "/*" + t;
    forall i | 0 <= i < |t| - 1 ensures !(t[i] == '*' && t[i + 1] == '/') {
      if i + 1 < |s| - 2 {
        assert t[i] == s[i + 2] && t[i + 1] == s[i + 3];
      } else {
        assert t[i + 1] == v[i + 3 - |s|];
      }
    }
    assert NoEndMark(t);
  }

  lemma CutBegins(line: string, u: string, t: string)
    requires line == u + "/*" + t && White(u) && NoEndMark(t)
    ensures Begins(line)
  {
    hide TrimEnd, TrimStart;
    assert line[|u|] == '/' && line[|u|..] == "/*" + t;
    forall i | 0 <= i < |u| ensures IsSpace(line[i]) {
      ClassesAreRanges(u[i]);
    }
    TrimStartIs(line, |u|);
    var a := "/*" + t;
    TrimEndMeans(a);
    KeepsFront(a, TrimEnd(a));
  }

  lemma KeepsFront(a: string, s: string)
    requires |a| >= 2 && a[1] == '*' && |s| <= |a| && a[..|s|] == s && White(a[|s|..])
    ensures |s| >= 2 && forall i :: 0 <= i < |s| ==> s[i] == a[i]
  {
  }

  lemma EndsIff(line: string)
    ensures Ends(line) <==> ClosesComment(line)
  {
    hide Trim;
    var s := Trim(line);
    TrimMeans(line);
    var u, v :| line == u + s + v && White(u) && White(v);
    if Ends(line) {
      var t := u + s[..|s| - 2];
      assert s == s[..|s| - 2] + "*/";
      assert line == t + "*/" + v;
    }
    if ClosesComment(line) {
      var t', v' :| line == t' + "*/" + v' && White(v');
      SameEnd(line, u, s, v, t', v');
    }
  }

  lemma SameEnd(line: string, u: string, s: string, v: string, t': string, v': string)
    requires line == u + s + v && White(u) && White(v) && (s != "" ==> !White(s[|s| - 1..]))
    requires line == t' + "*/" + v' && White(v')
    ensures |s| >= 2 && s[|s| - 2] == '*' && s[|s| - 1] == '/'
  {
    var e := |t'|;
    assert line[e] == '*' && line[e + 1] == '/';
    assert |u| <= e && e + 1 < |u| + |s|;
    var last := |u| + |s| - 1;
    assert line[last] == s[|s| - 1] == s[|s| - 1..][0];
    assert line[last - 1] == s[|s| - 2];
  }

  // ---------- the pass, comment by comment ----------

  lemma {:induction false} NothingCovered(lines: seq<string>, i: nat)
    requires i < |lines| && forall k :: 0 <= k <= i ==> !Begins(lines[k])
    ensures !Covered(lines, i)
  {
    hide Begins, Ends;
    if i == 0 {
    } else {
      NothingCovered(lines, i - 1);
    }
  }

  lemma {:induction false} CommentCovered(lines: seq<string>, b: nat, i: nat)
    requires b <= i < |lines| && Begins(lines[b]) && forall k :: b <= k < i ==> !Ends(lines[k])
    ensures Covered(lines, i)
    decreases i - b
  {
    hide Begins, Ends;
    if i == b {
    } else {
      CommentCovered(lines, b, i - 1);
    }
  }

  // Behind a closed comment, or behind lines on which none begins, it is as at the start.
  lemma {:induction false} CoveredBehind(lines: seq<string>, n: nat, i: nat)
    requires n <= i < |lines| && (n > 0 ==> Ends(lines[n - 1]) || !Covered(lines, n - 1))
    ensures Covered(lines, i) <==> Covered(lines[n..], i - n)
    decreases i
  {
    hide Begins, Ends;
    if i == n {
    } else {
      CoveredBehind(lines, n, i - 1);
    }
  }

  lemma EndsLaterBehind(lines: seq<string>, n: nat, i: nat)
    requires n <= i < |lines|
    ensures EndsLater(lines, i) <==> EndsLater(lines[n..], i - n)
  {
    hide Ends;
    if e :| i <= e < |lines| && Ends(lines[e]) {
      assert Ends(lines[n..][e - n]);
    }
    if e :| i - n <= e < |lines[n..]| && Ends(lines[n..][e]) {
      assert Ends(lines[e + n]);
    }
  }

  // The first comment that begins, if it ends, becomes dummy lines, first and last line
  // included, and what follows is cleaned as a text of its own.
  lemma CommentCleaned(pre: seq<string>, comment: seq<string>, rest: seq<string>)
    requires forall i :: 0 <= i < |pre| ==> !OpensComment(pre[i])
    requires comment != [] && OpensComment(comment[0]) && ClosesComment(comment[|comment| - 1])
    requires forall i :: 0 <= i < |comment| - 1 ==> !ClosesComment(comment[i])
    ensures Cleaned(pre + comment + rest) == pre + seq(|comment|, i => "/**/") + Cleaned(rest)
  {
    hide Begins, Ends, Covered, EndsLater, OpensComment, ClosesComment;
    var all, n, e := pre + comment + rest, |pre|, |pre| + |comment|;
    LinesIff(all);
    assert Ends(all[e - 1]) && Begins(all[n]);
    assert all[e..] == rest;
    forall i | 0 <= i < |all|
      ensures Cleaned(all)[i] == (pre + seq(|comment|, i => "/**/") + Cleaned(rest))[i]
    {
      if i < n {
        NothingCovered(all, i);
      } else if i < e {
        assert forall k :: n <= k < i ==> all[k] == comment[k - n];
        CommentCovered(all, n, i);
        EndsAt(all, i, e - 1);
      } else {
        CoveredBehind(all, e, i);
        EndsLaterBehind(all, e, i);
      }
    }
  }

  lemma EndsAt(lines: seq<string>, i: nat, e: nat)
    requires i <= e < |lines| && Ends(lines[e])
    ensures EndsLater(lines, i)
  {
  }

  lemma LinesIff(lines: seq<string>)
    ensures forall i :: 0 <= i < |lines| ==> (Begins(lines[i]) <==> OpensComment(lines[i]))
    ensures forall i :: 0 <= i < |lines| ==> (Ends(lines[i]) <==> ClosesComment(lines[i]))
  {
    hide Begins, Ends, OpensComment, ClosesComment;
    forall i | 0 <= i < |lines|
      ensures (Begins(lines[i]) <==> OpensComment(lines[i])) && (Ends(lines[i]) <==> ClosesComment(lines[i]))
    {
      BeginsIff(lines[i]);
      EndsIff(lines[i]);
    }
  }

  // Where no comment begins, or the first that begins does not end, the lines stay as they are.
  lemma NothingCleaned(pre: seq<string>, open: seq<string>)
    requires forall i :: 0 <= i < |pre| ==> !OpensComment(pre[i])
    requires open != [] ==> OpensComment(open[0])
    requires forall i :: 0 <= i < |open| ==> !ClosesComment(open[i])
    ensures Cleaned(pre + open) == pre + open
  {
    hide Begins, Ends, Covered, OpensComment, ClosesComment;
    var all := pre + open;
    LinesIff(all);
    assert forall k :: |pre| <= k < |all| ==> all[k] == open[k - |pre|];
    forall i | 0 <= i < |all| ensures Cleaned(all)[i] == all[i] {
      if i < |pre| {
        NothingCovered(all, i);
      }
    }
  }
}
