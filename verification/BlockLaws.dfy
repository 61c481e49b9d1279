// Which blocks a text opens: kinds, names and lines, and what is noted on them.
module BlockLaws {
  import opened Wrappers
  import opened Nesting

  // Nothing on the line but what is asked for.
  predicate NoNames(line: Line) { line.namespaces == [] && line.header == None }

  // Text behind the names: neither access specifier nor brace, semicolon or ')'.
  predicate Empty(rest: Rest) { rest.access == None && rest.tokens == [] }

  // The same stack, except that the top has counted the line's parentheses.
  predicate Counted(s: seq<Block>, stack: seq<Block>, line: Line) {
    && |s| == |stack|
    && (forall i :: 0 <= i < |s| - 1 ==> s[i] == stack[i])
    && (s != [] ==>
          && SameBlock(Top(s), Top(stack)) && Top(s).parens == Top(stack).parens + line.parenChange
          && Top(s).access == Top(stack).access && Top(s).derived == Top(stack).derived)
  }

  // ---------- one line ----------

  lemma CountsTop(stack: seq<Block>, line: Line)
    ensures Counted(CountParens(stack, line), stack, line)
  {
  }

  // Only a header without its brace has something noted on it.
  lemma NotesTop(c: seq<Block>, line: Line)
    ensures var n := CheckBegin(c, line);
            && |n| == |c| && (forall i :: 0 <= i < |n| - 1 ==> n[i] == c[i])
            && (SeenOpenBrace(c) ==> n == c)
            && (n != [] ==> SameBlock(Top(n), Top(c)))
            && (!SeenOpenBrace(c) ==>
                  Top(n).derived == (Top(c).derived || (Top(c).kind.ClassBlock? && line.bareColon)))
  {
  }

  lemma OneToken(s: seq<Block>, number: nat, t: Token)
    ensures Consume(s, number, [t]) == ConsumeToken(s, number, t)
  {
    assert [t][1..] == [];
  }

  // `namespace n {` or `namespace n`
  lemma NamespaceLine(stack: seq<Block>, line: Line, n: Namespace)
    requires line.namespaces == [n] && line.header == None && Empty(line.rest)
    ensures var s := Body(stack, line);
            && |s| == |stack| + 1 && Counted(s[..|stack|], stack, line)
            && s[|stack|] == Block(NamespaceBlock(n.name), line.number, n.braced, 0, NoAsm, "", false)
  {
    var c := CountParens(stack, line);
    var b := NewBlock(NamespaceBlock(n.name), line.number, n.braced);
    assert [n][1..] == [];
    assert PushNamespaces(c, line.number, line.namespaces) == c + [b];
    assert (c + [b])[..|stack|] == c;
  }

  // `class Name {`, where it is no template argument and no parenthesis is open: a class block,
  // public in a struct and private in a class unless an access keyword follows, derived if
  // there is a bare colon.
  lemma ClassLine(stack: seq<Block>, line: Line, h: ClassHeader, brace: Token)
    requires SeenOpenBrace(stack) && (stack == [] || Top(stack).parens + line.parenChange == 0)
    requires line.namespaces == [] && line.header == Some(h) && !h.templateArgument
    requires h.rest.tokens == [brace] && brace.OpenBrace?
    ensures var s := Body(stack, line);
            && |s| == |stack| + 1 && Counted(s[..|stack|], stack, line)
            && s[|stack|] ==
               Block(ClassBlock(h.name, h.isStruct, h.indent, h.lastLine), line.number, true, 0, NoAsm,
                 if h.rest.access.Some? then h.rest.access.value else if h.isStruct then "public" else "private",
                 line.bareColon)
  {
    var c := CountParens(stack, line);
    var b := HeaderBlock(line);
    var s := c + [b];
    assert TakesHeader(c, line);
    OneToken(ApplyAccess(CheckBegin(s, line), h.rest.access), line.number, brace);
    assert Body(stack, line)[..|stack|] == c;
  }

  // `{` alone: the brace of the header that waits for it, or else a block of its own.
  lemma BraceLine(stack: seq<Block>, line: Line, externC: bool, asm: bool)
    requires NoNames(line) && line.rest == Rest(None, [OpenBrace(externC, asm)])
    ensures var s := Body(stack, line);
            if SeenOpenBrace(stack) then
              && |s| == |stack| + 1 && Counted(s[..|stack|], stack, line)
              && s[|stack|] ==
                 Block(if externC then ExternC else PlainBlock, line.number, true, 0,
                   if asm && !externC then BlockAsm else NoAsm, "", false)
            else
              && |s| == |stack| && (forall i :: 0 <= i < |s| - 1 ==> s[i] == stack[i])
              && Top(s).seen && Top(s).kind == Top(stack).kind && Top(s).start == Top(stack).start
              && Top(s).derived == (Top(stack).derived || (Top(stack).kind.ClassBlock? && line.bareColon))
  {
    hide CheckBegin, CountParens;
    var c, t := CountParens(stack, line), OpenBrace(externC, asm);
    var n := CheckBegin(c, line);
    CountsTop(stack, line);
    NotesTop(c, line);
    OneToken(n, line.number, t);
    if SeenOpenBrace(stack) {
      assert Body(stack, line)[..|stack|] == c;
    }
  }

  // `public:` and the like: recorded on a class block, and on nothing else.
  lemma AccessLine(stack: seq<Block>, line: Line, access: string)
    requires NoNames(line) && line.rest == Rest(Some(access), []) && !line.bareColon
    ensures var s := Body(stack, line);
            && |s| == |stack| && (forall i :: 0 <= i < |s| - 1 ==> s[i] == stack[i])
            && (s != [] ==>
                  && SameBlock(Top(s), Top(stack))
                  && Top(s).access == if Top(stack).kind.ClassBlock? then access else Top(stack).access)
  {
  }

  // A class header between template arguments, or among the arguments of a function, opens no
  // class block, whatever the line holds besides.
  lemma NoClassLine(stack: seq<Block>, line: Line)
    requires line.namespaces == [] && line.header.Some?
    requires line.header.value.templateArgument || (stack != [] && Top(stack).parens + line.parenChange != 0)
    ensures NoNewClass(Body(stack, line), stack)
  {
    var c := CountParens(stack, line);
    assert !TakesHeader(c, line);
    hide Consume;
    ConsumeOpensNoClass(ApplyAccess(CheckBegin(c, line), line.rest.access), stack, line.number, line.rest.tokens);
  }

  predicate NoNewClass(s: seq<Block>, stack: seq<Block>) {
    forall i :: 0 <= i < |s| && s[i].kind.ClassBlock? ==>
      i < |stack| && s[i].kind == stack[i].kind && s[i].start == stack[i].start
  }

  lemma {:induction false} ConsumeOpensNoClass(s: seq<Block>, stack: seq<Block>, number: nat, tokens: seq<Token>)
    requires NoNewClass(s, stack)
    ensures NoNewClass(Consume(s, number, tokens), stack)
    decreases |tokens|
  {
    if tokens == [] {
    } else {
      ConsumeOpensNoClass(ConsumeToken(s, number, tokens[0]), stack, number, tokens[1..]);
    }
  }

  // ---------- lines that only count ----------

  predicate OnlyCounts(line: Line) { NoNames(line) && Empty(line.rest) && !line.bareColon }

  function Sum(lines: seq<Line>): int
    decreases |lines|
  {
    if lines == [] then 0 else lines[0].parenChange + Sum(lines[1..])
  }

  lemma OneCount(stack: seq<Block>, line: Line)
    requires OnlyCounts(line) && stack != []
    ensures Body(stack, line) == stack[|stack| - 1 := CountedTop(Top(stack), line)]
  {
  }

  // The parentheses of the innermost block add up.
  lemma {:induction false} ParenthesesAddUp(stack: seq<Block>, lines: seq<Line>)
    requires stack != [] && forall i :: 0 <= i < |lines| ==> OnlyCounts(lines[i])
    ensures var s := Bodies(stack, lines);
            |s| == |stack| && Top(s).parens == Top(stack).parens + Sum(lines)
    decreases |lines|
  {
    hide Body;
    if lines == [] {
    } else {
      OneCount(stack, lines[0]);
      ParenthesesAddUp(Body(stack, lines[0]), lines[1..]);
    }
  }

  // Outside assembly, exactly a line that starts an asm statement, changes the count and leaves
  // one parenthesis open enters it.
  lemma AsmEntersIff(stack: seq<Block>, line: Line)
    requires OnlyCounts(line) && stack != [] && Top(stack).asm in {NoAsm, EndAsm}
    ensures var s := Body(stack, line);
            && s != [] && Top(s).asm in {NoAsm, InsideAsm}
            && (Top(s).asm == InsideAsm <==>
                  line.asmStart && line.parenChange != 0 && Top(stack).parens + line.parenChange == 1)
  {
    hide Body;
    OneCount(stack, line);
  }

  // Counting on from `parens`, no line comes to zero.
  predicate NeverClosed(parens: int, lines: seq<Line>)
    decreases |lines|
  {
    lines != [] ==>
      parens + lines[0].parenChange != 0 && NeverClosed(parens + lines[0].parenChange, lines[1..])
  }

  // An asm( ... ) that opens on `first` and closes on `last`: inside it from its first line on,
  // at its end on its last, and outside on the next line that opens none.
  lemma AsmStatement(stack: seq<Block>, first: Line, middle: seq<Line>, last: Line, next: Line)
    requires stack != [] && Top(stack).parens == 0 && Top(stack).asm in {NoAsm, EndAsm}
    requires OnlyCounts(first) && first.asmStart && first.parenChange == 1
    requires (forall i :: 0 <= i < |middle| ==> OnlyCounts(middle[i])) && NeverClosed(1, middle)
    requires OnlyCounts(last) && 1 + Sum(middle) + last.parenChange == 0
    requires OnlyCounts(next) && !(next.asmStart && next.parenChange == 1)
    ensures var s1 := Body(stack, first);
            var s2 := Bodies(s1, middle);
            var s3 := Body(s2, last);
            var s4 := Body(s3, next);
            && |s1| == |s2| == |s3| == |s4| == |stack|
            && Top(s1).asm == InsideAsm && Top(s2).asm == InsideAsm && Top(s3).asm == EndAsm && Top(s4).asm == NoAsm
  {
    hide Body;
    OneCount(stack, first);
    var s := Body(stack, first);
    StaysInAsm(s, middle);
    var m := Bodies(s, middle);
    OneCount(m, last);
    OneCount(Body(m, last), next);
  }

  // An asm block stays one, whatever it counts.
  lemma {:induction false} AsmBlockStays(stack: seq<Block>, lines: seq<Line>)
    requires stack != [] && Top(stack).asm == BlockAsm && forall i :: 0 <= i < |lines| ==> OnlyCounts(lines[i])
    ensures var s := Bodies(stack, lines); |s| == |stack| && Top(s).asm == BlockAsm
    decreases |lines|
  {
    hide Body;
    if lines == [] {
    } else {
      OneCount(stack, lines[0]);
      AsmBlockStays(Body(stack, lines[0]), lines[1..]);
    }
  }

  lemma {:induction false} StaysInAsm(s: seq<Block>, middle: seq<Line>)
    requires s != [] && Top(s).asm == InsideAsm
    requires (forall i :: 0 <= i < |middle| ==> OnlyCounts(middle[i])) && NeverClosed(Top(s).parens, middle)
    ensures var m := Bodies(s, middle);
            |m| == |s| && Top(m).asm == InsideAsm && Top(m).parens == Top(s).parens + Sum(middle)
    decreases |middle|
  {
    hide Body;
    if middle == [] {
    } else {
      OneCount(s, middle[0]);
      StaysInAsm(Body(s, middle[0]), middle[1..]);
    }
  }

  // ---------- well-nested text, with its kinds ----------

  datatype Head = Head(kind: Kind, start: nat)

  // The text's own blocks that are open, and the header that waits for its brace.
  datatype Shape = Shape(open: seq<Head>, waiting: Option<Head>) | Crossed

  function ShapeOfNamespaces(d: Shape, number: nat, ns: seq<Namespace>): Shape
    decreases |ns|
  {
    if ns == [] then d
    else if d.Crossed? || d.waiting.Some? then Crossed
    else
      var h := Head(NamespaceBlock(ns[0].name), number);
      ShapeOfNamespaces(if ns[0].braced then Shape(d.open + [h], None) else Shape(d.open, Some(h)), number, ns[1..])
  }

  function ShapeOfToken(d: Shape, number: nat, token: Token): Shape
    requires d.Shape?
  {
    match token
    case OpenBrace(externC, _) =>
      var own := Head(if externC then ExternC else PlainBlock, number);
      Shape(d.open + [if d.waiting.Some? then d.waiting.value else own], None)
    case SemiOrParen => Shape(d.open, None)
    case CloseBrace => if d.waiting.Some? || d.open == [] then Crossed else Shape(d.open[..|d.open| - 1], None)
  }

  function ShapeOfTokens(d: Shape, number: nat, tokens: seq<Token>): Shape
    decreases |tokens|
  {
    if tokens == [] || d.Crossed? then d else ShapeOfTokens(ShapeOfToken(d, number, tokens[0]), number, tokens[1..])
  }

  // A class header counts unless it is a template argument.
  function ShapeOfLine(d: Shape, line: Line): Shape {
    var d := ShapeOfNamespaces(d, line.number, line.namespaces);
    if d.Crossed? then d
    else if line.header.Some? && !line.header.value.templateArgument then
      var h := line.header.value;
      if d.waiting.Some? then Crossed
      else
        var head := Head(ClassBlock(h.name, h.isStruct, h.indent, h.lastLine), line.number);
        ShapeOfTokens(Shape(d.open, Some(head)), line.number, h.rest.tokens)
    else ShapeOfTokens(d, line.number, line.rest.tokens)
  }

  function ShapeOfLines(d: Shape, lines: seq<Line>): Shape
    decreases |lines|
  {
    if lines == [] || d.Crossed? then d else ShapeOfLines(ShapeOfLine(d, lines[0]), lines[1..])
  }

  predicate Is(b: Block, h: Head, seen: bool) {
    b.kind == h.kind && b.start == h.start && b.seen == seen && b.parens == 0
  }

  // `stack` is `base` with exactly the text's own blocks above it.
  predicate Holds(base: seq<Block>, stack: seq<Block>, d: Shape) {
    && d.Shape?
    && |stack| == |base| + |d.open| + (if d.waiting.Some? then 1 else 0)
    && (forall i :: 0 <= i < |base| ==> SameBlock(stack[i], base[i]) && stack[i].parens == base[i].parens)
    && (forall i :: 0 <= i < |d.open| ==> Is(stack[|base| + i], d.open[i], true))
    && (d.waiting.Some? ==> Is(Top(stack), d.waiting.value, false))
  }

  // The text can stand on the base: its brace has been seen and no parenthesis is open.
  predicate Grounds(base: seq<Block>) { base == [] || (Top(base).seen && Top(base).parens == 0) }

  lemma HoldsNotes(base: seq<Block>, stack: seq<Block>, line: Line, access: Option<string>, d: Shape)
    requires Holds(base, stack, d)
    ensures Holds(base, ApplyAccess(CheckBegin(stack, line), access), d)
  {
  }

  lemma HoldsCount(base: seq<Block>, stack: seq<Block>, line: Line, d: Shape)
    requires Holds(base, stack, d) && line.parenChange == 0
    ensures Holds(base, CountParens(stack, line), d)
  {
  }

  lemma {:induction false} HoldsNamespaces(base: seq<Block>, stack: seq<Block>, number: nat, ns: seq<Namespace>,
                                           d: Shape)
    requires Holds(base, stack, d) && ShapeOfNamespaces(d, number, ns).Shape?
    ensures Holds(base, PushNamespaces(stack, number, ns), ShapeOfNamespaces(d, number, ns))
    decreases |ns|
  {
    if ns == [] {
    } else {
      var h := Head(NamespaceBlock(ns[0].name), number);
      var d' := if ns[0].braced then Shape(d.open + [h], None) else Shape(d.open, Some(h));
      var s := stack + [NewBlock(NamespaceBlock(ns[0].name), number, ns[0].braced)];
      assert Holds(base, s, d');
      HoldsNamespaces(base, s, number, ns[1..], d');
    }
  }

  lemma HoldsToken(base: seq<Block>, stack: seq<Block>, number: nat, t: Token, d: Shape)
    requires Holds(base, stack, d) && Grounds(base) && ShapeOfToken(d, number, t).Shape?
    ensures Holds(base, ConsumeToken(stack, number, t), ShapeOfToken(d, number, t))
  {
    assert SeenOpenBrace(stack) <==> d.waiting == None by {
      if d.waiting == None && |stack| > |base| {
        assert Is(stack[|base| + (|d.open| - 1)], d.open[|d.open| - 1], true);
      }
    }
  }

  lemma {:induction false} HoldsTokens(base: seq<Block>, stack: seq<Block>, number: nat, tokens: seq<Token>, d: Shape)
    requires Holds(base, stack, d) && Grounds(base) && ShapeOfTokens(d, number, tokens).Shape?
    ensures Holds(base, Consume(stack, number, tokens), ShapeOfTokens(d, number, tokens))
    decreases |tokens|
  {
    hide Holds, ConsumeToken, ShapeOfToken;
    if tokens == [] {
    } else {
      assert d.Shape? by { HoldsShape(base, stack, d); }
      HoldsToken(base, stack, number, tokens[0], d);
      var s, d' := ConsumeToken(stack, number, tokens[0]), ShapeOfToken(d, number, tokens[0]);
      HoldsTokens(base, s, number, tokens[1..], d');
    }
  }

  lemma HoldsShape(base: seq<Block>, stack: seq<Block>, d: Shape)
    requires Holds(base, stack, d)
    ensures d.Shape?
  {
  }

  lemma TopIsClosed(base: seq<Block>, stack: seq<Block>, d: Shape)
    requires Holds(base, stack, d) && Grounds(base) && d.waiting == None
    ensures stack == [] || Top(stack).parens == 0
  {
    if d.open != [] {
      assert Is(stack[|base| + (|d.open| - 1)], d.open[|d.open| - 1], true);
    }
  }

  lemma HoldsLine(base: seq<Block>, stack: seq<Block>, line: Line, d: Shape)
    requires Holds(base, stack, d) && Grounds(base) && line.parenChange == 0
    requires ShapeOfLine(d, line).Shape?
    ensures Holds(base, Body(stack, line), ShapeOfLine(d, line))
  {
    hide CountParens, PushNamespaces, ShapeOfNamespaces, ShapeOfTokens, Consume, CheckBegin, ApplyAccess;
    var s1 := CountParens(stack, line);
    HoldsCount(base, stack, line, d);
    HoldsNamespaces(base, s1, line.number, line.namespaces, d);
    var s2, d2 := PushNamespaces(s1, line.number, line.namespaces), ShapeOfNamespaces(d, line.number, line.namespaces);
    if line.header.Some? && !line.header.value.templateArgument {
      var h := line.header.value;
      var d3 := Shape(d2.open, Some(Head(ClassBlock(h.name, h.isStruct, h.indent, h.lastLine), line.number)));
      TopIsClosed(base, s2, d2);
      assert TakesHeader(s2, line);
      var s3 := s2 + [HeaderBlock(line)];
      assert Holds(base, s3, d3);
      HoldsNotes(base, s3, line, h.rest.access, d3);
      HoldsTokens(base, ApplyAccess(CheckBegin(s3, line), h.rest.access), line.number, h.rest.tokens, d3);
    } else {
      HoldsNotes(base, s2, line, line.rest.access, d2);
      HoldsTokens(base, ApplyAccess(CheckBegin(s2, line), line.rest.access), line.number, line.rest.tokens, d2);
    }
  }

  // At every point of a well-nested text whose lines balance their parentheses, the blocks
  // above the base are exactly those that the text has opened: kinds, names and lines.
  lemma {:induction false} KindsFollow(base: seq<Block>, stack: seq<Block>, lines: seq<Line>, d: Shape)
    requires Holds(base, stack, d) && Grounds(base)
    requires forall i :: 0 <= i < |lines| ==> lines[i].parenChange == 0
    requires ShapeOfLines(d, lines).Shape?
    ensures Holds(base, Bodies(stack, lines), ShapeOfLines(d, lines))
    decreases |lines|
  {
    hide Holds, Grounds, Body, ShapeOfLine;
    if lines == [] {
    } else {
      HoldsShape(base, stack, d);
      HoldsLine(base, stack, lines[0], d);
      KindsFollow(base, Body(stack, lines[0]), lines[1..], ShapeOfLine(d, lines[0]));
    }
  }

  // In particular from the stack itself.
  lemma OpenBlocksOf(stack: seq<Block>, lines: seq<Line>)
    requires Grounds(stack)
    requires forall i :: 0 <= i < |lines| ==> lines[i].parenChange == 0
    requires ShapeOfLines(Shape([], None), lines).Shape?
    ensures Holds(stack, Bodies(stack, lines), ShapeOfLines(Shape([], None), lines))
  {
    hide Bodies, ShapeOfLines;
    KindsFollow(stack, stack, lines, Shape([], None));
  }

  // ---------- the two readers ----------

  function DepthOf(d: Shape): Depth { if d.Crossed? then Unnested else Depth(|d.open|, d.waiting.Some?) }

  lemma {:induction false} DepthAfterNamespaces(d: Shape, number: nat, ns: seq<Namespace>)
    ensures DepthOfNamespaces(DepthOf(d), ns) == DepthOf(ShapeOfNamespaces(d, number, ns))
    decreases |ns|
  {
    if ns == [] || d.Crossed? || d.waiting.Some? {
    } else {
      var h := Head(NamespaceBlock(ns[0].name), number);
      DepthAfterNamespaces(if ns[0].braced then Shape(d.open + [h], None) else Shape(d.open, Some(h)), number, ns[1..]);
    }
  }

  lemma {:induction false} DepthAfterTokens(d: Shape, number: nat, tokens: seq<Token>, shape: seq<Token>)
    requires |tokens| == |shape| && forall i :: 0 <= i < |tokens| ==> SameShape(tokens[i], shape[i])
    ensures DepthOfTokens(DepthOf(d), shape) == DepthOf(ShapeOfTokens(d, number, tokens))
    decreases |tokens|
  {
    if tokens == [] || d.Crossed? {
    } else {
      assert SameShape(tokens[0], shape[0]);
      assert DepthOfToken(DepthOf(d), shape[0]) == DepthOf(ShapeOfToken(d, number, tokens[0]));
      DepthAfterTokens(ShapeOfToken(d, number, tokens[0]), number, tokens[1..], shape[1..]);
    }
  }

  lemma {:induction false} CrossedStays(lines: seq<Line>)
    ensures DepthOfLines(Unnested, lines) == Unnested
    decreases |lines|
  {
    if lines == [] {
    } else {
      assert DepthOfLine(Unnested, lines[0]) == Unnested by { NoDepth(lines[0].namespaces); }
      CrossedStays(lines[1..]);
    }
  }

  lemma NoDepth(ns: seq<Namespace>)
    ensures DepthOfNamespaces(Unnested, ns) == Unnested
  {
  }

  // Where no class header is a template argument, the reader that only counts blocks sees what
  // the reader of kinds sees: the same texts are well nested, with as many blocks open.
  lemma {:induction false} DepthFollowsShape(d: Shape, lines: seq<Line>)
    requires forall i :: 0 <= i < |lines| ==>
               HeaderHoldsNoToken(lines[i]) && (lines[i].header.Some? ==> !lines[i].header.value.templateArgument)
    ensures DepthOfLines(DepthOf(d), lines) == DepthOf(ShapeOfLines(d, lines))
    decreases |lines|
  {
    hide DepthOfLine, ShapeOfLine;
    if lines == [] {
    } else if d.Crossed? {
      CrossedStays(lines);
    } else {
      DepthAfterLine(d, lines[0]);
      DepthFollowsShape(ShapeOfLine(d, lines[0]), lines[1..]);
    }
  }

  lemma DepthAfterLine(d: Shape, line: Line)
    requires HeaderHoldsNoToken(line) && (line.header.Some? ==> !line.header.value.templateArgument)
    ensures DepthOfLine(DepthOf(d), line) == DepthOf(ShapeOfLine(d, line))
  {
    hide DepthOfNamespaces, DepthOfTokens, ShapeOfNamespaces, ShapeOfTokens;
    DepthAfterNamespaces(d, line.number, line.namespaces);
    var s := ShapeOfNamespaces(d, line.number, line.namespaces);
    if s.Shape? {
      if line.header.Some? {
        var h := line.header.value;
        var t := Shape(s.open, Some(Head(ClassBlock(h.name, h.isStruct, h.indent, h.lastLine), line.number)));
        DepthAfterTokens(t, line.number, h.rest.tokens, line.rest.tokens);
      } else {
        DepthAfterTokens(s, line.number, line.rest.tokens, line.rest.tokens);
      }
    }
  }
}
