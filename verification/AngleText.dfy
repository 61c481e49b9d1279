// The reference for angle brackets: text in which every '<' and every '>' is one.
//
// Angle brackets count outside all other brackets only, and no ';' may stand there.  As in
// `Brackets`, the step to the right is a partial bijection on states and the step to the
// left is its inverse, so the two searches find the same partners.
module AngleText {
  import opened Wrappers
  import opened Brackets

  // The brackets that are open, and how many angle brackets are besides the first one.
  datatype Level = Level(open: seq<char>, angles: nat)

  const BASE := Level([], 0)

  // One character outside all other brackets.
  function Turn(angles: nat, c: char, up: char, down: char): Option<Level> {
    if c == ';' then None
    else if c == up then Some(Level([], angles + 1))
    else if c != down then Some(Level([], angles))
    else if angles == 0 then None
    else Some(Level([], angles - 1))
  }

  function Forth(s: Level, c: char): Option<Level> {
    match Advance(s.open, c)
    case None => None
    case Some(open) => if IsOpener(c) || s.open != [] then Some(Level(open, s.angles)) else Turn(s.angles, c, '<', '>')
  }

  function Back(s: Level, c: char): Option<Level> {
    match Retreat(s.open, c)
    case None => None
    case Some(open) => if IsCloser(c) || s.open != [] then Some(Level(open, s.angles)) else Turn(s.angles, c, '>', '<')
  }

  function GoForth(s: Level, w: string): Option<Level>
    decreases |w|
  {
    if w == "" then Some(s)
    else match Forth(s, w[0])
      case None => None
      case Some(s') => GoForth(s', w[1..])
  }

  function GoBack(s: Level, w: string): Option<Level>
    decreases |w|
  {
    if w == "" then Some(s)
    else match Back(s, w[|w| - 1])
      case None => None
      case Some(s') => GoBack(s', w[..|w| - 1])
  }

  // Balanced in brackets and in angle brackets.
  predicate Enclosed(w: string) { GoForth(BASE, w) == Some(BASE) }

  predicate AnglePartners(text: string, i: int, j: int) {
    0 <= i < j < |text| && text[i] == '<' && text[j] == '>' && Enclosed(text[i + 1..j])
  }

  // ---------- the two searches ----------

  function SeekRight(text: string, k: nat, s: Level): Option<nat>
    requires k <= |text|
    decreases |text| - k
  {
    if k == |text| then None
    else if s == BASE && text[k] == '>' then Some(k)
    else match Forth(s, text[k])
      case None => None
      case Some(s') => SeekRight(text, k + 1, s')
  }

  // k is one more than the index to be looked at next
  function SeekLeft(text: string, k: nat, s: Level): Option<nat>
    requires k <= |text|
  {
    if k == 0 then None
    else if s == BASE && text[k - 1] == '<' then Some(k - 1)
    else match Back(s, text[k - 1])
      case None => None
      case Some(s') => SeekLeft(text, k - 1, s')
  }

  // ---------- the theory ----------

  function Mirrored(s: Level): Level { Level(Mirror(s.open), s.angles) }

  lemma LevelInverse(s: Level, c: char, s': Level)
    requires AllOpeners(s.open) && AllOpeners(s'.open)
    ensures Forth(s, c) == Some(s') <==> Back(Mirrored(s'), c) == Some(Mirrored(s))
  {
    StepInverse(s.open, c, s'.open);
    MirrorInjective(s.open, s'.open);
  }

  lemma {:induction false} GoForthSnoc(s: Level, w: string, c: char)
    ensures GoForth(s, w + [c]) ==
            match GoForth(s, w) { case None => None case Some(s') => Forth(s', c) }
    decreases |w|
  {
    hide Forth;
    if w == "" {
      assert (w + [c])[1..] == "";
    } else {
      assert (w + [c])[1..] == w[1..] + [c];
      match Forth(s, w[0]) {
        case None =>
        case Some(s') => GoForthSnoc(s', w[1..], c);
      }
    }
  }

  // The brackets move as in `Brackets`, and no ';' stands outside them.
  lemma {:induction false} GoForthRuns(s: Level, w: string)
    requires GoForth(s, w).Some?
    ensures Run(s.open, w) == Some(GoForth(s, w).value.open)
    ensures forall k :: 0 <= k < |w| && w[k] == ';' ==> Run(s.open, w[..k]) != Some([])
    decreases |w|
  {
    if w == "" {
    } else {
      var s' := Forth(s, w[0]).value;
      GoForthRuns(s', w[1..]);
      forall k | 0 <= k < |w| && w[k] == ';' ensures Run(s.open, w[..k]) != Some([]) {
        if k > 0 {
          assert w[..k][1..] == w[1..][..k - 1];
          assert w[1..][k - 1] == ';';
        }
      }
    }
  }

  lemma BackStaysMirrored(s: Level, c: char)
    requires AllOpeners(s.open) && Back(Mirrored(s), c).Some?
    ensures var b := Back(Mirrored(s), c).value; AllClosers(b.open) && Mirrored(Mirrored(b)) == b
  {
    RetreatFromMirror(s.open, c);
    var b := Back(Mirrored(s), c).value;
    assert AllClosers(b.open);
    assert Mirror(Mirror(b.open)) == b.open;
  }

  // Going back undoes going forth, from any state to any state.
  lemma {:induction false} GoInverse(s: Level, w: string, s': Level)
    requires AllOpeners(s.open) && AllOpeners(s'.open)
    ensures GoForth(s, w) == Some(s') <==> GoBack(Mirrored(s'), w) == Some(Mirrored(s))
    decreases |w|
  {
    hide Forth, Back;
    if w == "" {
      MirrorInjective(s.open, s'.open);
    } else {
      var v, c := w[..|w| - 1], w[|w| - 1];
      assert w == v + [c];
      GoForthSnoc(s, v, c);
      if GoForth(s, w) == Some(s') {
        var m := GoForth(s, v).value;
        GoForthRuns(s, v);
        RunStaysOpeners(s.open, v);
        LevelInverse(m, c, s');
        GoInverse(s, v, m);
      }
      if GoBack(Mirrored(s'), w) == Some(Mirrored(s)) {
        var b := Back(Mirrored(s'), c).value;
        BackStaysMirrored(s', c);
        LevelInverse(Mirrored(b), c, s');
        GoInverse(s, v, Mirrored(b));
      }
    }
  }

  lemma {:induction false} SeekRightFinds(text: string, k: nat, s: Level, j: int)
    requires k <= |text|
    ensures SeekRight(text, k, s) == Some(j) <==>
            k <= j < |text| && text[j] == '>' && GoForth(s, text[k..j]) == Some(BASE)
    decreases |text| - k
  {
    if k == |text| {
    } else {
      var c := text[k];
      assert k < j <= |text| ==> text[k..j][0] == c && text[k..j][1..] == text[k + 1..j];
      if s == BASE && c == '>' {
        assert Forth(s, c) == None;
      } else {
        hide Forth;
        match Forth(s, c) {
          case None =>
          case Some(s') => SeekRightFinds(text, k + 1, s', j);
        }
      }
    }
  }

  lemma {:induction false} SeekLeftFinds(text: string, k: nat, s: Level, i: int)
    requires k <= |text|
    ensures SeekLeft(text, k, s) == Some(i) <==>
            0 <= i < k && text[i] == '<' && GoBack(s, text[i + 1..k]) == Some(BASE)
  {
    if k == 0 {
    } else {
      var c := text[k - 1];
      assert 0 <= i < k - 1 ==>
          text[i + 1..k][k - i - 2] == c && text[i + 1..k][..k - i - 2] == text[i + 1..k - 1];
      if s == BASE && c == '<' {
        assert Back(s, c) == None;
      } else {
        hide Back;
        match Back(s, c) {
          case None =>
          case Some(s') => SeekLeftFinds(text, k - 1, s', i);
        }
      }
    }
  }

  // The search to the right finds exactly the partner.
  lemma SeekRightIff(text: string, i: nat, j: int)
    requires i < |text| && text[i] == '<'
    ensures SeekRight(text, i + 1, BASE) == Some(j) <==> AnglePartners(text, i, j)
  {
    hide GoForth;
    SeekRightFinds(text, i + 1, BASE, j);
  }

  // The search to the left finds exactly the partner.
  lemma SeekLeftIff(text: string, i: int, j: nat)
    requires j < |text| && text[j] == '>'
    ensures SeekLeft(text, j, BASE) == Some(i) <==> AnglePartners(text, i, j)
  {
    hide GoForth, GoBack;
    SeekLeftFinds(text, j, BASE, i);
    if 0 <= i < j {
      GoInverse(BASE, text[i + 1..j], BASE);
      assert Mirrored(BASE) == BASE by { assert Mirror([]) == []; }
    }
  }

  // ---------- texts that differ in nothing but angle brackets ----------

  predicate Silent(c: char) { !IsOpener(c) && !IsCloser(c) && c != ';' }

  predicate AlikeChars(c: char, d: char) { c == d || (Silent(c) && Silent(d)) }

  ghost predicate Alike(w: string, v: string) {
    |w| == |v| && forall i :: 0 <= i < |w| ==> AlikeChars(w[i], v[i])
  }

  lemma {:induction false} AlikeRun(st: seq<char>, w: string, v: string)
    requires Alike(w, v)
    ensures Run(st, w) == Run(st, v)
    decreases |w|
  {
    if w == "" {
    } else {
      assert AlikeChars(w[0], v[0]);
      match Advance(st, w[0]) {
        case None =>
        case Some(s) => AlikeRun(s, w[1..], v[1..]);
      }
    }
  }

  // Balanced text in which no ';' stands outside all brackets.
  ghost predicate ArgumentText(w: string) {
    Balanced(w) && forall k :: 0 <= k < |w| && w[k] == ';' ==> !Balanced(w[..k])
  }

  lemma EnclosedIsArgument(w: string, v: string)
    requires Enclosed(w) && Alike(w, v)
    ensures ArgumentText(v)
  {
    hide GoForth, Run;
    GoForthRuns(BASE, w);
    AlikeRun([], w, v);
    forall k | 0 <= k < |v| && v[k] == ';' ensures !Balanced(v[..k]) {
      assert AlikeChars(w[k], v[k]);
      AlikeRun([], w[..k], v[..k]);
    }
  }

  // ---------- enclosed text without the machine ----------

  // How many of the first n characters are c and stand outside all brackets.
  function Outside(w: string, n: nat, c: char): nat
    requires n <= |w|
  {
    if n == 0 then 0
    else Outside(w, n - 1, c) + if w[n - 1] == c && Balanced(w[..n - 1]) then 1 else 0
  }

  // Up to position n: no ';' outside brackets, and never more '>' than '<' there.
  ghost predicate NeverBelow(w: string, n: nat)
    requires n <= |w|
  {
    Outside(w, n, ';') == 0 && forall m :: 0 <= m <= n ==> Outside(w, m, '>') <= Outside(w, m, '<')
  }

  lemma {:induction false} GoForthCounts(w: string, n: nat)
    requires n <= |w|
    ensures match GoForth(BASE, w[..n])
            case None => Run([], w[..n]) == None || !NeverBelow(w, n)
            case Some(s) =>
              && Run([], w[..n]) == Some(s.open) && NeverBelow(w, n)
              && s.angles == Outside(w, n, '<') - Outside(w, n, '>')
  {
    if n == 0 {
    } else {
      hide Advance, GoForth, Run;
      GoForthCounts(w, n - 1);
      var v, c := w[..n - 1], w[n - 1];
      assert w[..n] == v + [c];
      GoForthSnoc(BASE, v, c);
      RunSnoc([], v, c);
      OneMoreCounted(w, n);
      match GoForth(BASE, v) {
        case None =>
        case Some(s) => OutsideStep(s, c);
      }
    }
  }

  lemma OneMoreCounted(w: string, n: nat)
    requires 0 < n <= |w|
    ensures NeverBelow(w, n) <==>
            NeverBelow(w, n - 1) && Outside(w, n, ';') == 0 && Outside(w, n, '>') <= Outside(w, n, '<')
  {
  }

  lemma OutsideStep(s: Level, c: char)
    ensures (c == '<' || c == '>' || c == ';') ==> Advance(s.open, c) == Some(s.open)
    ensures Forth(s, c).Some? ==> Advance(s.open, c) == Some(Forth(s, c).value.open)
  {
  }

  // Enclosed text is balanced in brackets; outside of them no ';' stands, '<' and '>' come
  // in equal numbers, and no prefix has more '>' than '<'.
  lemma EnclosedIff(w: string)
    ensures Enclosed(w) <==>
            Balanced(w) && NeverBelow(w, |w|) && Outside(w, |w|, '<') == Outside(w, |w|, '>')
  {
    hide GoForth, Run, Outside, NeverBelow;
    GoForthCounts(w, |w|);
    assert w[..|w|] == w;
  }
}
