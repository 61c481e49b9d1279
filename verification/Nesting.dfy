// The brace-nesting state of bin/cpplint.py as plain values: what one line does to the
// stack of open blocks, what preprocessor conditionals do to it, and the two laws that a
// whole file obeys.
module Nesting {
  import opened Wrappers

  datatype Asm = NoAsm | InsideAsm | EndAsm | BlockAsm

  datatype Kind =
    | PlainBlock
    | ExternC
    | ClassBlock(name: string, isStruct: bool, indent: nat, lastLine: nat)
    | NamespaceBlock(nsName: string)

  // _BlockInfo and its subclasses, by value.  `access` and `derived` are used by classes.
  datatype Block = Block(
    kind: Kind, start: nat, seen: bool, parens: int, asm: Asm, access: string, derived: bool)

  // What a line says, after comments and strings have been removed from it.
  datatype Directive = NoDirective | If | Else | Endif   // Else is #else or #elif

  datatype Token =
    | OpenBrace(externC: bool, asm: bool)   // '{', and whether the rest of the line before it is extern "..." or asm
    | SemiOrParen                           // ';' or ')'
    | CloseBrace                            // '}'

  // The part of a line behind its namespace declarations, and behind its class header if
  // that was taken: an access specifier, and the braces, semicolons and ')' in order.
  datatype Rest = Rest(access: Option<string>, tokens: seq<Token>)

  datatype ClassHeader = ClassHeader(
    name: string, isStruct: bool, indent: nat, lastLine: nat, templateArgument: bool, rest: Rest)

  datatype Namespace = Namespace(name: string, braced: bool)

  datatype Line = Line(
    number: nat, directive: Directive, parenChange: int, asmStart: bool, bareColon: bool,
    namespaces: seq<Namespace>, header: Option<ClassHeader>, rest: Rest)

  function NewBlock(kind: Kind, start: nat, seen: bool): Block {
    var access := if kind.ClassBlock? then (if kind.isStruct then "public" else "private") else "";
    Block(kind, start, seen, 0, NoAsm, access, false)
  }

  // ---------- one line, below the directive ----------

  function Top(stack: seq<Block>): Block
    requires stack != []
  {
    stack[|stack| - 1]
  }

  function Pop(stack: seq<Block>): seq<Block>
    requires stack != []
  {
    stack[..|stack| - 1]
  }

  function SetTop(stack: seq<Block>, b: Block): seq<Block>
    requires stack != []
  {
    stack[|stack| - 1 := b]
  }

  predicate SeenOpenBrace(stack: seq<Block>) { stack == [] || Top(stack).seen }

  function CountedTop(b: Block, line: Line): Block {
    var b := b.(parens := b.parens + line.parenChange);
    if b.asm == NoAsm || b.asm == EndAsm then
      b.(asm := if line.parenChange != 0 && b.parens == 1 && line.asmStart then InsideAsm else NoAsm)
    else if b.asm == InsideAsm && b.parens == 0 then
      b.(asm := EndAsm)
    else
      b
  }

  function CountParens(stack: seq<Block>, line: Line): seq<Block> {
    if stack == [] then stack else SetTop(stack, CountedTop(Top(stack), line))
  }

  function PushNamespaces(stack: seq<Block>, number: nat, ns: seq<Namespace>): seq<Block>
    decreases |ns|
  {
    if ns == [] then stack
    else PushNamespaces(stack + [NewBlock(NamespaceBlock(ns[0].name), number, ns[0].braced)], number, ns[1..])
  }

  predicate TakesHeader(stack: seq<Block>, line: Line) {
    && line.header.Some?
    && (stack == [] || Top(stack).parens == 0)
    && !line.header.value.templateArgument
  }

  function HeaderBlock(line: Line): Block
    requires line.header.Some?
  {
    var h := line.header.value;
    NewBlock(ClassBlock(h.name, h.isStruct, h.indent, h.lastLine), line.number, false)
  }

  function CheckBegin(stack: seq<Block>, line: Line): seq<Block> {
    if !SeenOpenBrace(stack) && Top(stack).kind.ClassBlock? && line.bareColon
    then SetTop(stack, Top(stack).(derived := true))
    else stack
  }

  function ApplyAccess(stack: seq<Block>, access: Option<string>): seq<Block> {
    if stack != [] && Top(stack).kind.ClassBlock? && access.Some?
    then SetTop(stack, Top(stack).(access := access.value))
    else stack
  }

  function ConsumeToken(stack: seq<Block>, number: nat, token: Token): seq<Block> {
    match token
    case OpenBrace(externC, asm) =>
      if !SeenOpenBrace(stack) then SetTop(stack, Top(stack).(seen := true))
      else if externC then stack + [NewBlock(ExternC, number, true)]
      else stack + [NewBlock(PlainBlock, number, true).(asm := if asm then BlockAsm else NoAsm)]
    case SemiOrParen => if !SeenOpenBrace(stack) then Pop(stack) else stack
    case CloseBrace => if stack != [] then Pop(stack) else stack
  }

  function Consume(stack: seq<Block>, number: nat, tokens: seq<Token>): seq<Block>
    decreases |tokens|
  {
    if tokens == [] then stack
    else Consume(ConsumeToken(stack, number, tokens[0]), number, tokens[1..])
  }

  function Tail(stack: seq<Block>, line: Line): seq<Block> {
    var rest := if TakesHeader(stack, line) then line.header.value.rest else line.rest;
    var s := if TakesHeader(stack, line) then stack + [HeaderBlock(line)] else stack;
    Consume(ApplyAccess(CheckBegin(s, line), rest.access), line.number, rest.tokens)
  }

  // Everything that Update does after the preprocessor part.
  function Body(stack: seq<Block>, line: Line): seq<Block> {
    Tail(PushNamespaces(CountParens(stack, line), line.number, line.namespaces), line)
  }

  function Bodies(stack: seq<Block>, lines: seq<Line>): seq<Block>
    decreases |lines|
  {
    if lines == [] then stack else Bodies(Body(stack, lines[0]), lines[1..])
  }

  // ---------- the preprocessor ----------

  datatype Checkpoint = Checkpoint(beforeIf: seq<Block>, beforeElse: seq<Block>, seenElse: bool)

  datatype State = State(stack: seq<Block>, pp: seq<Checkpoint>)

  // The first #else or #elif of a conditional saves the stack.
  function MarkElse(s: State): seq<Checkpoint>
    requires s.pp != []
  {
    var c := s.pp[|s.pp| - 1];
    if c.seenElse then s.pp else s.pp[|s.pp| - 1 := Checkpoint(c.beforeIf, s.stack, true)]
  }

  function Preprocess(s: State, d: Directive): State {
    match d
    case NoDirective => s
    case If => s.(pp := s.pp + [Checkpoint(s.stack, [], false)])
    case Else => if s.pp == [] then s else State(s.pp[|s.pp| - 1].beforeIf, MarkElse(s))
    case Endif =>
      if s.pp == [] then s
      else
        var c := s.pp[|s.pp| - 1];
        State(if c.seenElse then c.beforeElse else s.stack, s.pp[..|s.pp| - 1])
  }

  // The directive replaces the stack by a saved one.
  predicate Restores(pp: seq<Checkpoint>, d: Directive) {
    pp != [] && (d == Else || (d == Endif && pp[|pp| - 1].seenElse))
  }

  function Update(s: State, line: Line): State {
    var s := Preprocess(s, line.directive);
    s.(stack := Body(s.stack, line))
  }

  function Updates(s: State, lines: seq<Line>): State
    decreases |lines|
  {
    if lines == [] then s else Updates(Update(s, lines[0]), lines[1..])
  }

  // ---------- which lines count ----------

  // One flag per open conditional: has its #else been seen?
  function NextFlags(flags: seq<bool>, d: Directive): seq<bool> {
    match d
    case NoDirective => flags
    case If => flags + [false]
    case Else => if flags == [] then flags else flags[|flags| - 1 := true]
    case Endif => if flags == [] then flags else flags[..|flags| - 1]
  }

  function FlagsAfter(flags: seq<bool>, lines: seq<Line>): seq<bool>
    decreases |lines|
  {
    if lines == [] then flags else FlagsAfter(NextFlags(flags, lines[0].directive), lines[1..])
  }

  // The lines that are in no #else/#elif region.  The #if and #endif lines themselves stay.
  function Live(flags: seq<bool>, lines: seq<Line>): seq<Line>
    decreases |lines|
  {
    if lines == [] then []
    else
      var f := NextFlags(flags, lines[0].directive);
      (if true in f then [] else [lines[0]]) + Live(f, lines[1..])
  }

  function FlagsOf(s: State): seq<bool> {
    seq(|s.pp|, i requires 0 <= i < |s.pp| => s.pp[i].seenElse)
  }

  // The stack that counts: outside all else regions the current one, inside them the one
  // saved at the outermost #else.
  function Committed(stack: seq<Block>, pp: seq<Checkpoint>): seq<Block>
    decreases |pp|
  {
    if pp == [] then stack
    else if pp[0].seenElse then pp[0].beforeElse
    else Committed(stack, pp[1..])
  }

  lemma {:induction false} CommittedPush(stack: seq<Block>, pp: seq<Checkpoint>, c: Checkpoint)
    ensures Committed(stack, pp + [c]) ==
            Committed(if c.seenElse then c.beforeElse else stack, pp)
    decreases |pp|
  {
    if pp == [] {
      assert pp + [c] == [c];
      assert [c][1..] == [];
    } else {
      assert (pp + [c])[1..] == pp[1..] + [c];
      CommittedPush(stack, pp[1..], c);
    }
  }

  // Inside an else region the current stack does not matter; outside, it is the one that counts.
  lemma {:induction false} CommittedIf(stack: seq<Block>, other: seq<Block>, pp: seq<Checkpoint>)
    ensures (exists i :: 0 <= i < |pp| && pp[i].seenElse) ==> Committed(stack, pp) == Committed(other, pp)
    ensures (forall i :: 0 <= i < |pp| ==> !pp[i].seenElse) ==> Committed(stack, pp) == stack
    decreases |pp|
  {
    if pp == [] || pp[0].seenElse {
    } else {
      CommittedIf(stack, other, pp[1..]);
      if i :| 0 <= i < |pp| && pp[i].seenElse {
        assert pp[1..][i - 1].seenElse;
      }
    }
  }

  lemma PreprocessFlags(s: State, d: Directive)
    ensures FlagsOf(Preprocess(s, d)) == NextFlags(FlagsOf(s), d)
  {
  }

  // A directive never changes the stack that counts.
  lemma PreprocessKeepsCommitted(s: State, d: Directive)
    ensures var s' := Preprocess(s, d); Committed(s'.stack, s'.pp) == Committed(s.stack, s.pp)
  {
    if d == If {
      CommittedPush(s.stack, s.pp, Checkpoint(s.stack, [], false));
    } else if s.pp != [] && d != NoDirective {
      var below, c := s.pp[..|s.pp| - 1], s.pp[|s.pp| - 1];
      assert s.pp == below + [c];
      CommittedPush(s.stack, below, c);
      if d == Else {
        var c' := Preprocess(s, d).pp[|s.pp| - 1];
        assert Preprocess(s, d).pp == below + [c'];
        CommittedPush(c.beforeIf, below, c');
      }
    }
  }

  lemma UpdateCommits(s: State, line: Line)
    ensures var s' := Update(s, line);
            && FlagsOf(s') == NextFlags(FlagsOf(s), line.directive)
            && Committed(s'.stack, s'.pp) ==
               (if true in FlagsOf(s') then Committed(s.stack, s.pp) else Body(Committed(s.stack, s.pp), line))
  {
    hide Body, Preprocess, Committed;
    var p := Preprocess(s, line.directive);
    var s' := Update(s, line);
    PreprocessFlags(s, line.directive);
    PreprocessKeepsCommitted(s, line.directive);
    assert FlagsOf(s') == FlagsOf(p);
    CommittedIf(p.stack, s'.stack, p.pp);
    CommittedIf(s'.stack, p.stack, p.pp);
    if true in FlagsOf(s') {
      var i :| 0 <= i < |p.pp| && FlagsOf(s')[i];
      assert p.pp[i].seenElse;
    } else {
      assert forall i :: 0 <= i < |p.pp| ==> !p.pp[i].seenElse by {
        assert forall i :: 0 <= i < |p.pp| ==> FlagsOf(s')[i] == p.pp[i].seenElse;
      }
    }
  }

  lemma {:induction false} FlagsFollow(s: State, lines: seq<Line>)
    ensures FlagsOf(Updates(s, lines)) == FlagsAfter(FlagsOf(s), lines)
    decreases |lines|
  {
    hide Body, Committed, Update, FlagsOf, NextFlags;
    if lines == [] {
    } else {
      UpdateCommits(s, lines[0]);
      FlagsFollow(Update(s, lines[0]), lines[1..]);
    }
  }

  // Erasure: for every list of lines, well nested or not, from every state, the stack that
  // counts at the end is that of the live lines run without any checkpointing.
  lemma {:induction false} Erasure(s: State, lines: seq<Line>)
    ensures var s' := Updates(s, lines);
            Committed(s'.stack, s'.pp) == Bodies(Committed(s.stack, s.pp), Live(FlagsOf(s), lines))
    decreases |lines|
  {
    hide Body, Committed, Update, FlagsOf;
    if lines == [] {
    } else {
      UpdateCommits(s, lines[0]);
      Erasure(Update(s, lines[0]), lines[1..]);
      var rest := Live(NextFlags(FlagsOf(s), lines[0].directive), lines[1..]);
      assert ([lines[0]] + rest)[1..] == rest;
      assert [] + rest == rest;
    }
  }

  // A file whose conditionals are all closed (or at least not in an else region at the
  // end): the final stack is that of the live lines alone.
  lemma ErasedFile(stack: seq<Block>, lines: seq<Line>)
    requires true !in FlagsAfter([], lines)
    ensures Updates(State(stack, []), lines).stack == Bodies(stack, Live([], lines))
  {
    hide Bodies, Live, FlagsAfter, Updates;
    var s := State(stack, []);
    var s' := Updates(s, lines);
    assert FlagsOf(s) == [];
    FlagsFollow(s, lines);
    Erasure(s, lines);
    assert forall i :: 0 <= i < |s'.pp| ==> FlagsOf(s')[i] == s'.pp[i].seenElse;
    CommittedIf(s'.stack, s'.stack, s'.pp);
  }

  // ---------- well-nested text is neutral ----------

  // What a reader of the braces sees: how deep the text is in blocks of its own, and
  // whether a namespace or class header still waits for its brace.
  datatype Depth = Depth(blocks: nat, waiting: bool) | Unnested

  function DepthOfNamespaces(d: Depth, ns: seq<Namespace>): Depth
    decreases |ns|
  {
    if ns == [] then d
    else if d.Unnested? || d.waiting then Unnested
    else DepthOfNamespaces(if ns[0].braced then Depth(d.blocks + 1, false) else Depth(d.blocks, true), ns[1..])
  }

  function DepthOfToken(d: Depth, token: Token): Depth
    requires d.Depth?
  {
    match token
    case OpenBrace(_, _) => Depth(d.blocks + 1, false)
    case SemiOrParen => Depth(d.blocks, false)
    case CloseBrace => if d.waiting || d.blocks == 0 then Unnested else Depth(d.blocks - 1, false)
  }

  function DepthOfTokens(d: Depth, tokens: seq<Token>): Depth
    decreases |tokens|
  {
    if tokens == [] || d.Unnested? then d else DepthOfTokens(DepthOfToken(d, tokens[0]), tokens[1..])
  }

  function DepthOfLine(d: Depth, line: Line): Depth {
    var d := DepthOfNamespaces(d, line.namespaces);
    if d.Unnested? then d
    else if line.header.Some? then
      if d.waiting then Unnested else DepthOfTokens(Depth(d.blocks, true), line.rest.tokens)
    else DepthOfTokens(d, line.rest.tokens)
  }

  function DepthOfLines(d: Depth, lines: seq<Line>): Depth
    decreases |lines|
  {
    if lines == [] then d else DepthOfLines(DepthOfLine(d, lines[0]), lines[1..])
  }

  predicate SameShape(t: Token, u: Token) {
    (t.OpenBrace? <==> u.OpenBrace?) && (t.SemiOrParen? <==> u.SemiOrParen?)
  }

  // A class header holds no brace, semicolon or ')' of its own: dropping it from the line
  // drops no token.
  predicate HeaderHoldsNoToken(line: Line) {
    line.header.Some? ==>
      var r := line.header.value.rest;
      |r.tokens| == |line.rest.tokens| &&
      forall i :: 0 <= i < |r.tokens| ==> SameShape(r.tokens[i], line.rest.tokens[i])
  }

  // The same open block, whatever has been recorded about parentheses, inline assembly,
  // access and base classes since.
  predicate SameBlock(a: Block, b: Block) { a.kind == b.kind && a.start == b.start && a.seen == b.seen }

  // `stack` is `base` with the text's own blocks above it.
  predicate Above(base: seq<Block>, stack: seq<Block>, d: Depth) {
    && d.Depth?
    && |base| + d.blocks <= |stack| <= |base| + d.blocks + (if d.waiting then 1 else 0)
    && (forall i :: 0 <= i < |base| ==> SameBlock(stack[i], base[i]))
    && (forall i :: |base| <= i < |base| + d.blocks ==> stack[i].seen)
    && (|stack| > |base| + d.blocks ==> !Top(stack).seen)
  }

  // Changing only the bookkeeping of the top block does not matter.
  lemma AboveSetTop(base: seq<Block>, stack: seq<Block>, d: Depth, b: Block)
    requires Above(base, stack, d) && stack != [] && SameBlock(b, Top(stack))
    ensures Above(base, SetTop(stack, b), d)
  {
  }

  lemma {:induction false} AboveNamespaces(base: seq<Block>, stack: seq<Block>, number: nat, ns: seq<Namespace>,
                                           d: Depth)
    requires Above(base, stack, d) && DepthOfNamespaces(d, ns).Depth?
    ensures Above(base, PushNamespaces(stack, number, ns), DepthOfNamespaces(d, ns))
    decreases |ns|
  {
    if ns == [] {
    } else {
      var d' := if ns[0].braced then Depth(d.blocks + 1, false) else Depth(d.blocks, true);
      var s := stack + [NewBlock(NamespaceBlock(ns[0].name), number, ns[0].braced)];
      assert Above(base, s, d');
      AboveNamespaces(base, s, number, ns[1..], d');
    }
  }

  lemma AboveToken(base: seq<Block>, stack: seq<Block>, number: nat, t: Token, d: Depth)
    requires Above(base, stack, d) && (base == [] || Top(base).seen)
    requires DepthOfToken(d, t).Depth?
    ensures Above(base, ConsumeToken(stack, number, t), DepthOfToken(d, t))
  {
  }

  lemma {:induction false} AboveTokens(base: seq<Block>, stack: seq<Block>, number: nat, tokens: seq<Token>,
                                       shape: seq<Token>, d: Depth)
    requires Above(base, stack, d) && (base == [] || Top(base).seen)
    requires |tokens| == |shape| && forall i :: 0 <= i < |tokens| ==> SameShape(tokens[i], shape[i])
    requires DepthOfTokens(d, shape).Depth?
    ensures Above(base, Consume(stack, number, tokens), DepthOfTokens(d, shape))
    decreases |tokens|
  {
    if tokens == [] {
    } else {
      hide Above, ConsumeToken;
      assert SameShape(tokens[0], shape[0]);
      assert DepthOfToken(d, tokens[0]) == DepthOfToken(d, shape[0]);
      AboveToken(base, stack, number, tokens[0], d);
      var next := ConsumeToken(stack, number, tokens[0]);
      AboveTokens(base, next, number, tokens[1..], shape[1..], DepthOfToken(d, shape[0]));
    }
  }

  lemma AboveNotes(base: seq<Block>, stack: seq<Block>, line: Line, access: Option<string>, d: Depth)
    requires Above(base, stack, d)
    ensures Above(base, ApplyAccess(CheckBegin(stack, line), access), d)
  {
  }

  lemma AboveTail(base: seq<Block>, stack: seq<Block>, line: Line, d: Depth, d': Depth)
    requires Above(base, stack, d) && (base == [] || Top(base).seen) && HeaderHoldsNoToken(line)
    requires line.header.Some? ==> !d.waiting
    requires d' == DepthOfTokens(if line.header.Some? then Depth(d.blocks, true) else d, line.rest.tokens)
    requires d'.Depth?
    ensures Above(base, Tail(stack, line), d')
  {
    var taken := TakesHeader(stack, line);
    var s := if taken then stack + [HeaderBlock(line)] else stack;
    var rest := if taken then line.header.value.rest else line.rest;
    var d1 := if line.header.Some? then Depth(d.blocks, true) else d;
    assert Above(base, s, d1);
    hide DepthOfTokens, Consume, Above, TakesHeader, ApplyAccess, CheckBegin;
    AboveNotes(base, s, line, rest.access, d1);
    var s2 := ApplyAccess(CheckBegin(s, line), rest.access);
    AboveTokens(base, s2, line.number, rest.tokens, line.rest.tokens, d1);
  }

  lemma AboveLine(base: seq<Block>, stack: seq<Block>, line: Line, d: Depth)
    requires Above(base, stack, d) && (base == [] || Top(base).seen) && HeaderHoldsNoToken(line)
    requires DepthOfLine(d, line).Depth?
    ensures Above(base, Body(stack, line), DepthOfLine(d, line))
  {
    hide Above, Tail, PushNamespaces, DepthOfTokens;
    var s1 := CountParens(stack, line);
    if stack != [] {
      AboveSetTop(base, stack, d, Top(s1));
    }
    AboveNamespaces(base, s1, line.number, line.namespaces, d);
    var s2 := PushNamespaces(s1, line.number, line.namespaces);
    AboveTail(base, s2, line, DepthOfNamespaces(d, line.namespaces), DepthOfLine(d, line));
  }

  lemma {:induction false} AboveLines(base: seq<Block>, stack: seq<Block>, lines: seq<Line>, d: Depth)
    requires Above(base, stack, d) && (base == [] || Top(base).seen)
    requires forall i :: 0 <= i < |lines| ==> HeaderHoldsNoToken(lines[i])
    requires DepthOfLines(d, lines).Depth?
    ensures Above(base, Bodies(stack, lines), DepthOfLines(d, lines))
    decreases |lines|
  {
    if lines == [] {
    } else {
      hide Above, Body, DepthOfLine, HeaderHoldsNoToken;
      UnnestedStays(DepthOfLine(d, lines[0]), lines[1..]);
      AboveLine(base, stack, lines[0], d);
      AboveLines(base, Body(stack, lines[0]), lines[1..], DepthOfLine(d, lines[0]));
    }
  }

  lemma {:induction false} UnnestedStays(d: Depth, lines: seq<Line>)
    ensures d.Unnested? ==> DepthOfLines(d, lines).Unnested?
    decreases |lines|
  {
    if lines == [] || !d.Unnested? {
    } else {
      UnnestedStays(DepthOfLine(d, lines[0]), lines[1..]);
    }
  }

  // Well-nested text is neutral: whether or not its class headers are taken, it leaves the
  // same blocks in the same order with the same brace flags.
  lemma WellNestedIsNeutral(stack: seq<Block>, lines: seq<Line>)
    requires SeenOpenBrace(stack)
    requires forall i :: 0 <= i < |lines| ==> HeaderHoldsNoToken(lines[i])
    requires DepthOfLines(Depth(0, false), lines) == Depth(0, false)
    ensures var s := Bodies(stack, lines);
            |s| == |stack| && forall i :: 0 <= i < |s| ==> SameBlock(s[i], stack[i])
  {
    hide Bodies, DepthOfLines;
    AboveLines(stack, stack, lines, Depth(0, false));
  }

  // The two laws together: only the live lines of a file need be well nested.
  lemma NestedFileIsNeutral(stack: seq<Block>, lines: seq<Line>)
    requires SeenOpenBrace(stack)
    requires true !in FlagsAfter([], lines)
    requires forall line :: line in Live([], lines) ==> HeaderHoldsNoToken(line)
    requires DepthOfLines(Depth(0, false), Live([], lines)) == Depth(0, false)
    ensures var s := Updates(State(stack, []), lines).stack;
            |s| == |stack| && forall i :: 0 <= i < |s| ==> SameBlock(s[i], stack[i])
  {
    ErasedFile(stack, lines);
    WellNestedIsNeutral(stack, Live([], lines));
  }
}
