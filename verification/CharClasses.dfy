// The few character classes and string tests that the modelled code asks a regular
// expression engine for, written out as scanners.
module CharClasses {
  // \s, ASCII part
  predicate IsSpace(c: char) {
    c == ' ' || c == '\t' || c == '\n' || c == '\r' || c == '\U{0B}' || c == '\U{0C}'
  }

  // \w, ASCII part
  predicate IsWord(c: char) {
    'a' <= c <= 'z' || 'A' <= c <= 'Z' || '0' <= c <= '9' || c == '_'
  }

  function TrimEnd(s: string): string {
    if s != "" && IsSpace(s[|s| - 1]) then TrimEnd(s[..|s| - 1]) else s
  }

  function TrimStart(s: string): string {
    if s != "" && IsSpace(s[0]) then TrimStart(s[1..]) else s
  }

  // Without the white space at both ends.
  function Trim(s: string): string { TrimEnd(TrimStart(s)) }

  // Search(r'\boperator\s*$', s)
  predicate EndsWithOperator(s: string) {
    var t := TrimEnd(s);
    && |t| >= 8
    && t[|t| - 8..] == "operator"
    && (|t| == 8 || !IsWord(t[|t| - 9]))
  }

  lemma {:induction false} TrimStartIs(s: string, l: nat)
    requires l <= |s| && (forall i :: 0 <= i < l ==> IsSpace(s[i])) && (l < |s| ==> !IsSpace(s[l]))
    ensures TrimStart(s) == s[l..]
  {
    if l == 0 {
    } else {
      TrimStartIs(s[1..], l - 1);
    }
  }

  lemma {:induction false} TrimEndIs(s: string, e: nat)
    requires e <= |s| && (forall i :: e <= i < |s| ==> IsSpace(s[i])) && (e > 0 ==> !IsSpace(s[e - 1]))
    ensures TrimEnd(s) == s[..e]
  {
    if e < |s| {
      TrimEndIs(s[..|s| - 1], e);
      assert s[..|s| - 1][..e] == s[..e];
    } else {
      assert s[..e] == s;
    }
  }

  // ---------- the same without the scanners: character codes and cut texts ----------

  predicate White(s: string) {
    forall i :: 0 <= i < |s| ==> s[i] as int == 32 || 9 <= s[i] as int <= 13
  }

  // The text is empty or ends in none of 0-9, A-Z, _, a-z.
  predicate EndsOutsideWord(s: string) {
    s == "" ||
    var c := s[|s| - 1] as int;
    !(48 <= c <= 57) && !(65 <= c <= 90) && c != 95 && !(97 <= c <= 122)
  }

  lemma ClassesAreRanges(c: char)
    ensures IsSpace(c) <==> White([c])
    ensures IsWord(c) <==> !EndsOutsideWord([c])
  {
    assert [c][0] == c;
  }

  lemma EndsOutsideIff(s: string)
    ensures EndsOutsideWord(s) <==> s == "" || !IsWord(s[|s| - 1])
  {
  }

  // t is s without the white space at both ends.
  ghost predicate Trimmed(s: string, t: string) {
    && (exists u, v :: s == u + t + v && White(u) && White(v))
    && (t != "" ==> !White(t[..1]) && !White(t[|t| - 1..]))
  }

  // The word "operator" at a word boundary, then white space only, then the end.
  ghost predicate AfterOperator(s: string) {
    exists u, w :: s == u + "operator" + w && White(w) && EndsOutsideWord(u)
  }

  lemma {:induction false} TrimStartMeans(s: string)
    ensures var t := TrimStart(s);
            |t| <= |s| && s[|s| - |t|..] == t && White(s[..|s| - |t|]) && (t != "" ==> !White(t[..1]))
  {
    if s == "" {
    } else {
      ClassesAreRanges(s[0]);
      if IsSpace(s[0]) {
        TrimStartMeans(s[1..]);
      }
    }
  }

  lemma {:induction false} TrimEndMeans(s: string)
    ensures var t := TrimEnd(s);
            |t| <= |s| && s[..|t|] == t && White(s[|t|..]) && (t != "" ==> !White(t[|t| - 1..]))
  {
    if s == "" {
    } else {
      ClassesAreRanges(s[|s| - 1]);
      if IsSpace(s[|s| - 1]) {
        TrimEndMeans(s[..|s| - 1]);
      }
    }
  }

  lemma TrimMeans(s: string)
    ensures Trimmed(s, Trim(s))
  {
    hide TrimStart, TrimEnd;
    var a, t := TrimStart(s), Trim(s);
    TrimStartMeans(s);
    TrimEndMeans(a);
    var u, v := s[..|s| - |a|], a[|t|..];
    assert s == u + a == u + t + v;
    if t != "" {
      assert t[..1] == a[..1];
    }
  }

  lemma WhiteOnlyIfEmpty(s: string, u: string, t: string, v: string)
    requires s == u + t + v && White(u) && White(v) && (t != "" ==> !White(t[..1]))
    ensures White(s) <==> t == ""
  {
    if t != "" {
      assert s[|u|] == t[0] == t[..1][0];
    }
  }

  lemma TrimmedOnce(s: string, u: string, t: string, v: string, u': string, t': string, v': string)
    requires s == u + t + v && White(u) && White(v) && (t != "" ==> !White(t[..1]) && !White(t[|t| - 1..]))
    requires s == u' + t' + v' && White(u') && White(v') && (t' != "" ==> !White(t'[..1]) && !White(t'[|t'| - 1..]))
    ensures t == t'
  {
    WhiteOnlyIfEmpty(s, u, t, v);
    WhiteOnlyIfEmpty(s, u', t', v');
    if t != "" {
      assert s[|u|] == t[0] && s[|u'|] == t'[0];
      assert s[|u| + |t| - 1] == t[|t| - 1] && s[|u'| + |t'| - 1] == t'[|t'| - 1];
      assert |u| == |u'| && |v| == |v'|;
      assert t == s[|u|..|s| - |v|] == t';
    }
  }

  // Trimming finds exactly the text without the white space at its ends.
  lemma TrimIff(s: string, t: string)
    ensures t == Trim(s) <==> Trimmed(s, t)
  {
    TrimMeans(s);
    if Trimmed(s, t) {
      var u, v :| s == u + t + v && White(u) && White(v);
      var u', v' :| s == u' + Trim(s) + v' && White(u') && White(v');
      TrimmedOnce(s, u, t, v, u', Trim(s), v');
    }
  }

  lemma BeforeOperator(t: string)
    requires |t| >= 8
    ensures EndsOutsideWord(t[..|t| - 8]) <==> |t| == 8 || !IsWord(t[|t| - 9])
  {
  }

  lemma OperatorCut(s: string)
    requires EndsWithOperator(s)
    ensures AfterOperator(s)
  {
    hide TrimEnd, White, IsWord, EndsOutsideWord;
    var t := TrimEnd(s);
    TrimEndMeans(s);
    var u, w := t[..|t| - 8], s[|t|..];
    assert s == t + w && t == u + "operator";
    BeforeOperator(t);
  }

  lemma OperatorEnds(s: string, u: string, w: string, t: string)
    requires s == u + "operator" + w && White(w)
    requires |t| <= |s| && s[..|t|] == t && White(s[|t|..]) && (t != "" ==> !White(t[|t| - 1..]))
    ensures t == u + "operator"
  {
    var r := |u| + 8;
    assert s[r - 1] == 'r';
    assert s[..r] == u + "operator";
  }

  lemma OperatorFound(s: string)
    requires AfterOperator(s)
    ensures EndsWithOperator(s)
  {
    hide TrimEnd, White, IsWord, EndsOutsideWord;
    var u, w :| s == u + "operator" + w && White(w) && EndsOutsideWord(u);
    var t := TrimEnd(s);
    TrimEndMeans(s);
    OperatorEnds(s, u, w, t);
    assert t[|t| - 8..] == "operator" && t[..|t| - 8] == u;
    BeforeOperator(t);
  }

  // The test for the keyword is the test for that cut, word boundary included.
  lemma EndsWithOperatorIff(s: string)
    ensures EndsWithOperator(s) <==> AfterOperator(s)
  {
    hide EndsWithOperator, AfterOperator;
    if EndsWithOperator(s) {
      OperatorCut(s);
    }
    if AfterOperator(s) {
      OperatorFound(s);
    }
  }
}
