// The reference: typed round/square/curly brackets, and nothing else.
//
// A forward step is a partial bijection on stacks and the backward step is its inverse,
// so "balanced read forwards" and "balanced read backwards" coincide; both searches are
// then characterised by the same symmetric predicate `Matches`.
module Brackets {
  import opened Wrappers

  predicate IsOpener(c: char) { c == '(' || c == '[' || c == '{' }

  predicate IsCloser(c: char) { c == ')' || c == ']' || c == '}' }

  predicate Pair(o: char, c: char) {
    (o == '(' && c == ')') || (o == '[' && c == ']') || (o == '{' && c == '}')
  }

  // The partner of a bracket; other characters are their own partner.
  function Flip(c: char): char {
    match c
    case '(' => ')' case '[' => ']' case '{' => '}'
    case ')' => '(' case ']' => '[' case '}' => '{'
    case _ => c
  }

  function Mirror(st: seq<char>): (m: seq<char>)
    ensures |m| == |st|
    ensures forall i :: 0 <= i < |st| ==> m[i] == Flip(st[i])
  {
    seq(|st|, i requires 0 <= i < |st| => Flip(st[i]))
  }

  predicate AllOpeners(st: seq<char>) { forall i :: 0 <= i < |st| ==> IsOpener(st[i]) }

  predicate AllClosers(st: seq<char>) { forall i :: 0 <= i < |st| ==> IsCloser(st[i]) }

  // ---------- stacks of pending openers, read left to right ----------

  function Advance(st: seq<char>, c: char): Option<seq<char>> {
    if IsOpener(c) then Some(st + [c])
    else if !IsCloser(c) then Some(st)
    else if st != [] && Pair(st[|st| - 1], c) then Some(st[..|st| - 1])
    else None
  }

  function Run(st: seq<char>, w: string): Option<seq<char>>
    decreases |w|
  {
    if w == "" then Some(st)
    else match Advance(st, w[0])
      case None => None
      case Some(s) => Run(s, w[1..])
  }

  predicate Balanced(w: string) { Run([], w) == Some([]) }

  // ---------- stacks of pending closers, read right to left ----------

  function Retreat(st: seq<char>, c: char): Option<seq<char>> {
    if IsCloser(c) then Some(st + [c])
    else if !IsOpener(c) then Some(st)
    else if st != [] && Pair(c, st[|st| - 1]) then Some(st[..|st| - 1])
    else None
  }

  function RunBack(st: seq<char>, w: string): Option<seq<char>>
    decreases |w|
  {
    if w == "" then Some(st)
    else match Retreat(st, w[|w| - 1])
      case None => None
      case Some(s) => RunBack(s, w[..|w| - 1])
  }

  // ---------- the two searches ----------

  function SeekClose(text: string, k: nat, st: seq<char>): Option<nat>
    requires k <= |text|
    decreases |text| - k
  {
    if k == |text| then None
    else match Advance(st, text[k])
      case None => None
      case Some(s) => if s == [] then Some(k) else SeekClose(text, k + 1, s)
  }

  // k is one more than the index to be looked at next
  function SeekOpen(text: string, k: nat, st: seq<char>): Option<nat>
    requires k <= |text|
  {
    if k == 0 then None
    else match Retreat(st, text[k - 1])
      case None => None
      case Some(s) => if s == [] then Some(k - 1) else SeekOpen(text, k - 1, s)
  }

  // The index of the bracket that closes text[i].
  function PlainClose(text: string, i: nat): Option<nat>
    requires i < |text| && IsOpener(text[i])
  {
    SeekClose(text, i + 1, [text[i]])
  }

  // The index of the bracket that opens text[j].
  function PlainOpen(text: string, j: nat): Option<nat>
    requires j < |text| && IsCloser(text[j])
  {
    SeekOpen(text, j, [text[j]])
  }

  // text[i] and text[j] are partners: a typed pair around balanced text.
  predicate Matches(text: string, i: int, j: int) {
    0 <= i < j < |text| && Pair(text[i], text[j]) && Balanced(text[i + 1..j])
  }

  // ---------- the theory ----------

  lemma {:induction false} RunSnoc(st: seq<char>, w: string, c: char)
    ensures Run(st, w + [c]) ==
            match Run(st, w) { case None => None case Some(s) => Advance(s, c) }
    decreases |w|
  {
    if w == "" {
      assert (w + [c])[1..] == "";
    } else {
      assert (w + [c])[1..] == w[1..] + [c];
      match Advance(st, w[0]) {
        case None =>
        case Some(s) => RunSnoc(s, w[1..], c);
      }
    }
  }

  lemma {:induction false} RunStaysOpeners(st: seq<char>, w: string)
    requires AllOpeners(st) && Run(st, w).Some?
    ensures AllOpeners(Run(st, w).value)
    decreases |w|
  {
    if w == "" {
    } else {
      RunStaysOpeners(Advance(st, w[0]).value, w[1..]);
    }
  }

  lemma MirrorInjective(st: seq<char>, st': seq<char>)
    ensures Mirror(st) == Mirror(st') <==> st == st'
  {
  }

  lemma StepInverse(st: seq<char>, c: char, st': seq<char>)
    requires AllOpeners(st) && AllOpeners(st')
    ensures Advance(st, c) == Some(st') <==> Retreat(Mirror(st'), c) == Some(Mirror(st))
  {
    if IsOpener(c) {
      if Retreat(Mirror(st'), c) == Some(Mirror(st)) {
        forall i | 0 <= i < |st| ensures st[i] == st'[i] {
          assert Mirror(st')[i] == Mirror(st)[i];
        }
        assert st' == st + [c];
      }
      if st' == st + [c] {
        assert Mirror(st')[..|st|] == Mirror(st);
      }
    } else if IsCloser(c) {
      if Advance(st, c) == Some(st') {
        assert Mirror(st') + [c] == Mirror(st);
      }
      if Mirror(st') + [c] == Mirror(st) {
        forall i | 0 <= i < |st'| ensures st[i] == st'[i] {
          assert Mirror(st')[i] == Mirror(st)[i];
        }
        assert st[..|st| - 1] == st';
      }
    } else {
      MirrorInjective(st, st');
    }
  }

  lemma RetreatFromMirror(st: seq<char>, c: char)
    requires AllOpeners(st) && Retreat(Mirror(st), c).Some?
    ensures AllClosers(Retreat(Mirror(st), c).value)
  {
  }

  // Reading backwards undoes reading forwards, from any stack to any stack.
  lemma {:induction false} RunInverse(st: seq<char>, w: string, st': seq<char>)
    requires AllOpeners(st) && AllOpeners(st')
    ensures Run(st, w) == Some(st') <==> RunBack(Mirror(st'), w) == Some(Mirror(st))
    decreases |w|
  {
    hide Advance, Retreat;
    if w == "" {
      MirrorInjective(st, st');
    } else {
      var v, c := w[..|w| - 1], w[|w| - 1];
      assert w == v + [c];
      RunSnoc(st, v, c);
      if Run(st, w) == Some(st') {
        var m := Run(st, v).value;
        RunStaysOpeners(st, v);
        StepInverse(m, c, st');
        RunInverse(st, v, m);
      }
      if RunBack(Mirror(st'), w) == Some(Mirror(st)) {
        var b := Retreat(Mirror(st'), c).value;
        RetreatFromMirror(st', c);
        assert b == Mirror(Mirror(b));
        StepInverse(Mirror(b), c, st');
        RunInverse(st, v, Mirror(b));
      }
    }
  }

  lemma {:induction false} SeekCloseFinds(text: string, k: nat, o: char, t: seq<char>, j: int)
    requires k <= |text| && IsOpener(o)
    ensures SeekClose(text, k, [o] + t) == Some(j) <==>
            k <= j < |text| && Pair(o, text[j]) && Run(t, text[k..j]) == Some([])
    decreases |text| - k
  {
    if k == |text| {
    } else {
      var c := text[k];
      assert k < j <= |text| ==> text[k..j][0] == c && text[k..j][1..] == text[k + 1..j];
      if t == [] && IsCloser(c) {
        assert [o] + t == [o];
      } else {
        match Advance(t, c) {
          case None => assert ([o] + t)[|t|] == t[|t| - 1];
          case Some(s) =>
            assert [o] + t + [c] == [o] + (t + [c]);
            assert t != [] ==> ([o] + t)[..|t|] == [o] + t[..|t| - 1];
            SeekCloseFinds(text, k + 1, o, s, j);
        }
      }
    }
  }

  lemma {:induction false} SeekOpenFinds(text: string, k: nat, c: char, t: seq<char>, i: int)
    requires k <= |text| && IsCloser(c)
    ensures SeekOpen(text, k, [c] + t) == Some(i) <==>
            0 <= i < k && Pair(text[i], c) && RunBack(t, text[i + 1..k]) == Some([])
  {
    if k == 0 {
    } else {
      var d := text[k - 1];
      assert 0 <= i < k - 1 ==> text[i + 1..k][k - i - 2] == d && text[i + 1..k][..k - i - 2] == text[i + 1..k - 1];
      if t == [] && IsOpener(d) {
        assert [c] + t == [c];
      } else {
        match Retreat(t, d) {
          case None => assert ([c] + t)[|t|] == t[|t| - 1];
          case Some(s) =>
            assert [c] + t + [d] == [c] + (t + [d]);
            assert t != [] ==> ([c] + t)[..|t|] == [c] + t[..|t| - 1];
            SeekOpenFinds(text, k - 1, c, s, i);
        }
      }
    }
  }

  // The forward search finds exactly the partner.
  lemma PlainCloseIff(text: string, i: nat, j: int)
    requires i < |text| && IsOpener(text[i])
    ensures PlainClose(text, i) == Some(j) <==> Matches(text, i, j)
  {
    SeekCloseFinds(text, i + 1, text[i], [], j);
    assert [text[i]] + [] == [text[i]];
  }

  // The backward search finds exactly the partner.
  lemma PlainOpenIff(text: string, i: int, j: nat)
    requires j < |text| && IsCloser(text[j])
    ensures PlainOpen(text, j) == Some(i) <==> Matches(text, i, j)
  {
    SeekOpenFinds(text, j, text[j], [], i);
    assert [text[j]] + [] == [text[j]];
    if 0 <= i < j {
      RunInverse([], text[i + 1..j], []);
      assert Mirror([]) == [];
    }
  }

  // ---------- balanced text is the language of its grammar ----------

  // Nothing; or a character that is no bracket and balanced text; or balanced text in a pair
  // of brackets, and balanced text behind it.
  ghost predicate BalancedCut(w: string) {
    || w == ""
    || (w[0] !in "()[]{}" && Balanced(w[1..]))
    || exists j :: 0 < j < |w| && Enclosing(w, j) && Balanced(w[1..j]) && Balanced(w[j + 1..])
  }

  predicate Enclosing(w: string, j: nat)
    requires 0 < j < |w|
  {
    [w[0], w[j]] in ["()", "[]", "{}"]
  }

  lemma KindsOfBrackets(o: char, c: char)
    ensures IsOpener(o) || IsCloser(o) <==> o in "()[]{}"
    ensures Pair(o, c) <==> [o, c] in ["()", "[]", "{}"]
    ensures IsOpener(o) <==> [o, Flip(o)] in ["()", "[]", "{}"]
    ensures IsCloser(c) <==> [Flip(c), c] in ["()", "[]", "{}"]
  {
    assert [o, c][0] == o && [o, c][1] == c;
  }

  lemma {:induction false} RunConcat(st: seq<char>, u: string, w: string)
    ensures Run(st, u + w) == match Run(st, u) { case None => None case Some(s) => Run(s, w) }
    decreases |u|
  {
    hide Advance;
    if u == "" {
      assert u + w == w;
    } else {
      assert (u + w)[1..] == u[1..] + w;
      match Advance(st, u[0]) {
        case None =>
        case Some(s) => RunConcat(s, u[1..], w);
      }
    }
  }

  // Brackets that were open before stay below.
  lemma {:induction false} RunLifts(below: seq<char>, st: seq<char>, w: string)
    requires Run(st, w).Some?
    ensures Run(below + st, w) == Some(below + Run(st, w).value)
    decreases |w|
  {
    if w == "" {
    } else {
      var s := Advance(st, w[0]).value;
      assert below + (st + [w[0]]) == below + st + [w[0]];
      assert st != [] ==> (below + st)[..|below + st| - 1] == below + st[..|st| - 1];
      assert Advance(below + st, w[0]) == Some(below + s);
      RunLifts(below, s, w[1..]);
    }
  }

  // Whoever closes all brackets closes the lowest one somewhere.
  lemma {:induction false} RunFindsClose(w: string, k: nat, st: seq<char>)
    requires k <= |w| && st != [] && Run(st, w[k..]) == Some([])
    ensures SeekClose(w, k, st).Some? && SeekClose(w, k, st).value < |w|
    ensures Run([], w[SeekClose(w, k, st).value + 1..]) == Some([])
    decreases |w| - k
  {
    if k < |w| {
      assert w[k..][0] == w[k] && w[k..][1..] == w[k + 1..];
      var s := Advance(st, w[k]).value;
      if s != [] {
        RunFindsClose(w, k + 1, s);
      }
    }
  }

  lemma BalancedIff(w: string)
    ensures Balanced(w) <==> BalancedCut(w)
  {
    if w != "" {
      KindsOfBrackets(w[0], w[0]);
      if IsOpener(w[0]) {
        if Balanced(w) {
          CutAtPartner(w);
        }
        if j :| 0 < j < |w| && Enclosing(w, j) && Balanced(w[1..j]) && Balanced(w[j + 1..]) {
          JoinAtPartner(w, j);
        }
      } else {
        forall j | 0 < j < |w| ensures !Enclosing(w, j) {
          KindsOfBrackets(w[0], w[j]);
        }
      }
    }
  }

  lemma CutAtPartner(w: string)
    requires w != "" && IsOpener(w[0]) && Balanced(w)
    ensures exists j :: 0 < j < |w| && Enclosing(w, j) && Balanced(w[1..j]) && Balanced(w[j + 1..])
  {
    hide SeekClose, Run;
    assert Run([w[0]], w[1..]) == Some([]) by { FirstOpens(w); }
    RunFindsClose(w, 1, [w[0]]);
    var j := SeekClose(w, 1, [w[0]]).value;
    assert [w[0]] + [] == [w[0]];
    SeekCloseFinds(w, 1, w[0], [], j);
    KindsOfBrackets(w[0], w[j]);
    assert Enclosing(w, j);
  }

  lemma FirstOpens(w: string)
    requires w != "" && IsOpener(w[0])
    ensures Run([], w) == Run([w[0]], w[1..])
  {
    assert [] + [w[0]] == [w[0]];
  }

  lemma JoinAtPartner(w: string, j: nat)
    requires 0 < j < |w| && Enclosing(w, j) && Balanced(w[1..j]) && Balanced(w[j + 1..])
    ensures Balanced(w)
  {
    KindsOfBrackets(w[0], w[j]);
    FirstOpens(w);
    var o, u, c, v := w[0], w[1..j], w[j], w[j + 1..];
    assert w[1..] == u + ([c] + v) && ([c] + v)[1..] == v;
    assert [o] + [] == [o];
    RunConcat([o], u, [c] + v);
    RunLifts([o], [], u);
    assert Advance([o], c) == Some([]);
  }
}
