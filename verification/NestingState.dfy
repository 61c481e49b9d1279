// The NestingState object of bin/cpplint.py: blocks are objects that Update changes in
// place, and the preprocessor checkpoints hold lists of such objects.  Every operation is
// proved to act on the heap as its counterpart in `Nesting` acts on values; that needs
// the copies that the checkpoints make to be deep where the source makes them deep.
module NestingObjects {
  import opened Wrappers
  import opened Conditionals
  import opened Nesting

  class BlockInfo {
    const kind: Kind
    const startingLinenum: nat
    var seenOpenBrace: bool
    var openParentheses: int
    var inlineAsm: Asm
    var access: string
    var isDerived: bool

    constructor (kind: Kind, linenum: nat, seen: bool, asm: Asm)
      ensures Value() == NewBlock(kind, linenum, seen).(asm := asm)
    {
      this.kind := kind;
      startingLinenum := linenum;
      seenOpenBrace := seen;
      openParentheses := 0;
      inlineAsm := asm;
      access := if kind.ClassBlock? then (if kind.isStruct then "public" else "private") else "";
      isDerived := false;
    }

    constructor CopyOf(b: BlockInfo)
      ensures Value() == b.Value()
    {
      kind := b.kind;
      startingLinenum := b.startingLinenum;
      seenOpenBrace := b.seenOpenBrace;
      openParentheses := b.openParentheses;
      inlineAsm := b.inlineAsm;
      access := b.access;
      isDerived := b.isDerived;
    }

    method CountParentheses(line: Line)
      modifies this
      ensures Value() == CountedTop(old(Value()), line)
    {
      openParentheses := openParentheses + line.parenChange;
      if inlineAsm == NoAsm || inlineAsm == EndAsm {
        if line.parenChange != 0 && openParentheses == 1 && line.asmStart {
          inlineAsm := InsideAsm;
        } else {
          inlineAsm := NoAsm;
        }
      } else if inlineAsm == InsideAsm && openParentheses == 0 {
        inlineAsm := EndAsm;
      }
    }

    function Value(): Block
      reads this
    {
      Block(kind, startingLinenum, seenOpenBrace, openParentheses, inlineAsm, access, isDerived)
    }
  }

  // The lists are objects of their own in the source, but each is held in one place only.
  datatype PreprocessorInfo = PreprocessorInfo(
    stackBeforeIf: seq<BlockInfo>, stackBeforeElse: seq<BlockInfo>, seenElse: bool)

  function Values(s: seq<BlockInfo>): (v: seq<Block>)
    reads s
    ensures |v| == |s|
    ensures forall i :: 0 <= i < |s| ==> v[i] == s[i].Value()
  {
    seq(|s|, i requires 0 <= i < |s| reads s => s[i].Value())
  }

  ghost function Blocks(p: PreprocessorInfo): set<BlockInfo> {
    Members(p.stackBeforeIf) + Members(p.stackBeforeElse)
  }

  ghost function Saved(pp: seq<PreprocessorInfo>): (s: set<BlockInfo>)
    ensures forall k :: 0 <= k < |pp| ==> Blocks(pp[k]) <= s
  {
    set k, b | 0 <= k < |pp| && b in Blocks(pp[k]) :: b
  }

  function ValueOf(p: PreprocessorInfo): Checkpoint
    reads p.stackBeforeIf, p.stackBeforeElse
  {
    Checkpoint(Values(p.stackBeforeIf), Values(p.stackBeforeElse), p.seenElse)
  }

  ghost function Checkpoints(pp: seq<PreprocessorInfo>): (c: seq<Checkpoint>)
    reads Saved(pp)
    ensures |c| == |pp|
    ensures forall k :: 0 <= k < |pp| ==> c[k] == ValueOf(pp[k])
  {
    seq(|pp|, k requires 0 <= k < |pp| reads Saved(pp) => ValueOf(pp[k]))
  }

  ghost function Members(s: seq<BlockInfo>): set<BlockInfo> { set b | b in s }

  ghost predicate Distinct(s: seq<BlockInfo>) { forall i, j :: 0 <= i < j < |s| ==> s[i] != s[j] }

  ghost predicate Apart(s: seq<BlockInfo>, t: seq<BlockInfo>) { forall b :: b in s ==> b !in t }

  ghost predicate ApartFromAll(s: seq<BlockInfo>, pp: seq<PreprocessorInfo>) {
    forall k :: 0 <= k < |pp| ==> Apart(s, pp[k].stackBeforeIf) && Apart(s, pp[k].stackBeforeElse)
  }

  // Each list that an #endif may bring back is apart from all that lie below it.
  ghost predicate Separate(pp: seq<PreprocessorInfo>) {
    forall k :: 0 <= k < |pp| ==> Distinct(pp[k].stackBeforeElse) && ApartFromAll(pp[k].stackBeforeElse, pp[..k])
  }

  lemma SeparateSnoc(pp: seq<PreprocessorInfo>, p: PreprocessorInfo)
    ensures Separate(pp + [p]) <==> Separate(pp) && Distinct(p.stackBeforeElse) && ApartFromAll(p.stackBeforeElse, pp)
  {
    hide Distinct, ApartFromAll;
    var all := pp + [p];
    assert forall k :: 0 <= k < |pp| ==> all[k] == pp[k] && all[..k] == pp[..k];
    assert all[|pp|] == p && all[..|pp|] == pp;
  }

  lemma ApartSnoc(s: seq<BlockInfo>, pp: seq<PreprocessorInfo>, p: PreprocessorInfo)
    ensures ApartFromAll(s, pp + [p]) <==>
              ApartFromAll(s, pp) && Apart(s, p.stackBeforeIf) && Apart(s, p.stackBeforeElse)
  {
    hide Apart;
    var all := pp + [p];
    assert all[|pp|] == p;
    assert forall k :: 0 <= k < |pp| ==> all[k] == pp[k];
  }

  lemma OneMoreApart(s: seq<BlockInfo>, b: BlockInfo, pp: seq<PreprocessorInfo>)
    requires Distinct(s) && b !in s && ApartFromAll(s, pp) && ApartFromAll([b], pp)
    ensures ApartFromAll(s + [b], pp) && Distinct(s + [b])
  {
  }

  lemma SavedSnoc(pp: seq<PreprocessorInfo>, p: PreprocessorInfo)
    ensures Saved(pp + [p]) == Saved(pp) + Blocks(p)
  {
    hide Blocks;
    var all := pp + [p];
    assert all[|pp|] == p;
    assert forall k :: 0 <= k < |pp| ==> all[k] == pp[k];
  }

  lemma CheckpointsSnoc(pp: seq<PreprocessorInfo>, p: PreprocessorInfo)
    ensures Checkpoints(pp + [p]) == Checkpoints(pp) + [ValueOf(p)]
  {
  }

  lemma ElseMarks(s: Nesting.State)
    ensures s.pp == [] ==> Preprocess(s, Else) == s
    ensures s.pp != [] ==>
              && |MarkElse(s)| == |s.pp| && (s.pp[|s.pp| - 1].seenElse ==> MarkElse(s) == s.pp)
              && Preprocess(s, Else) == Nesting.State(MarkElse(s)[|s.pp| - 1].beforeIf, MarkElse(s))
  {
  }

  // One more checkpoint, seen through everything that is said about a list of checkpoints.
  lemma Snoc(s: seq<BlockInfo>, pp: seq<PreprocessorInfo>, p: PreprocessorInfo)
    ensures Separate(pp + [p]) <==> Separate(pp) && Distinct(p.stackBeforeElse) && ApartFromAll(p.stackBeforeElse, pp)
    ensures ApartFromAll(s, pp + [p]) <==>
              ApartFromAll(s, pp) && Apart(s, p.stackBeforeIf) && Apart(s, p.stackBeforeElse)
    ensures Saved(pp + [p]) == Saved(pp) + Blocks(p)
    ensures Checkpoints(pp + [p]) == Checkpoints(pp) + [ValueOf(p)]
  {
    SeparateSnoc(pp, p);
    ApartSnoc(s, pp, p);
    SavedSnoc(pp, p);
    CheckpointsSnoc(pp, p);
  }

  twostate lemma SameValues(s: seq<BlockInfo>)
    requires forall b :: b in s ==> unchanged(b)
    ensures Values(s) == old(Values(s))
  {
    forall i | 0 <= i < |s| ensures s[i].Value() == old(s[i].Value()) {
      assert s[i] in s && unchanged(s[i]);
    }
  }

  lemma NotSaved(s: seq<BlockInfo>, pp: seq<PreprocessorInfo>)
    requires ApartFromAll(s, pp)
    ensures forall b :: b in s ==> b !in Saved(pp)
  {
  }

  lemma NothingSaved(s: seq<BlockInfo>, pp: seq<PreprocessorInfo>)
    ensures Distinct([]) && ApartFromAll([], pp) && Apart(s, []) && Members([]) == {} && Values([]) == []
  {
  }

  // copy.deepcopy of a list of blocks: the new blocks are in none of the lists around.
  method DeepCopy(s: seq<BlockInfo>, ghost pp: seq<PreprocessorInfo>) returns (c: seq<BlockInfo>)
    ensures Values(c) == Values(s)
    ensures Distinct(c) && Apart(s, c) && ApartFromAll(c, pp)
    ensures fresh(Members(c))
  {
    c := [];
    var i := 0;
    while i < |s|
      invariant 0 <= i <= |s| && |c| == i
      invariant forall k :: 0 <= k < i ==> c[k].Value() == s[k].Value()
      invariant Distinct(c) && forall b :: b in c ==> fresh(b)
    {
      var b := new BlockInfo.CopyOf(s[i]);
      c := c + [b];
      i := i + 1;
    }
  }

  class NestingState {
    var stack: seq<BlockInfo>
    var previousStackTop: BlockInfo?
    var ppStack: seq<PreprocessorInfo>
    ghost var Repr: set<BlockInfo>  // every block that Update may still change or bring back

    constructor ()
      ensures Valid() && State() == Nesting.State([], [])
    {
      stack := [];
      previousStackTop := null;
      ppStack := [];
      Repr := {};
    }

    // No block is in two of the lists that Update may still change or bring back.
    ghost predicate Valid()
      reads this
    {
      && Distinct(stack) && ApartFromAll(stack, ppStack) && Separate(ppStack)
      && Members(stack) <= Repr && Saved(ppStack) <= Repr
    }

    // The part of it that is about the checkpoints.
    ghost predicate ValidSaved()
      reads this
    {
      Separate(ppStack) && Saved(ppStack) <= Repr
    }

    // The abstract value.
    ghost function State(): Nesting.State
      reads this, stack, Saved(ppStack)
    {
      Nesting.State(Values(stack), Checkpoints(ppStack))
    }

    method SaveAtIf()
      requires Valid()
      modifies this`ppStack, this`Repr
      ensures Valid() && fresh(Repr - old(Repr))
      ensures State() == Preprocess(old(State()), If)
    {
      hide Separate, ApartFromAll, Distinct, Apart, Saved, Members, Checkpoints, Values;
      var copy := DeepCopy(stack, ppStack);
      var p := PreprocessorInfo(copy, [], false);
      NothingSaved(stack, ppStack);
      Snoc(stack, ppStack, p);
      ppStack := ppStack + [p];
      Repr := Repr + Members(copy);
    }

    // The first #else or #elif: remember the stack up to here.
    method SaveAtElse()
      requires Valid() && ppStack != [] && !ppStack[|ppStack| - 1].seenElse
      modifies this`ppStack, this`Repr
      ensures ValidSaved() && fresh(Repr - old(Repr)) && ppStack != []
      ensures Checkpoints(ppStack) == MarkElse(old(State()))
    {
      hide Separate, ApartFromAll, Distinct, Apart, Saved, Checkpoints, Values;
      var below, top := ppStack[..|ppStack| - 1], ppStack[|ppStack| - 1];
      assert ppStack == below + [top];
      Snoc(stack, below, top);
      var saved := DeepCopy(stack, below);
      var top' := PreprocessorInfo(top.stackBeforeIf, saved, true);
      Snoc(saved, below, top');
      ppStack := below + [top'];
      Repr := Repr + Members(saved);
    }

    // Restore the stack to how it was before the #if.
    method RestoreBeforeIf()
      requires ValidSaved() && ppStack != []
      modifies this`stack, this`Repr
      ensures Valid() && fresh(Repr - old(Repr)) && fresh(Members(stack))
      ensures Checkpoints(ppStack) == old(Checkpoints(ppStack))
      ensures Values(stack) == old(Checkpoints(ppStack))[|ppStack| - 1].beforeIf
    {
      hide Separate, ApartFromAll, Distinct, Apart, Values, Checkpoints, Saved, Members;
      stack := DeepCopy(ppStack[|ppStack| - 1].stackBeforeIf, ppStack);
      Repr := Repr + Members(stack);
    }

    method SwitchAtElse()
      requires Valid()
      modifies this`stack, this`ppStack, this`Repr
      ensures Valid() && fresh(Repr - old(Repr))
      ensures State() == Preprocess(old(State()), Else)
      ensures old(ppStack) != [] ==> Apart(old(stack), stack)
    {
      hide Values, Checkpoints, MarkElse, Preprocess, Members, Separate, ApartFromAll, Distinct, Saved;
      ElseMarks(State());
      if ppStack != [] {
        assert State().pp[|ppStack| - 1].seenElse == ppStack[|ppStack| - 1].seenElse;
        if !ppStack[|ppStack| - 1].seenElse {
          SaveAtElse();
        }
        RestoreBeforeIf();
        NewIsApart(old(stack));
      }
    }

    twostate lemma NewIsApart(s: seq<BlockInfo>)
      requires fresh(Members(stack))
      ensures Apart(s, stack)
    {
      assert forall b :: b in stack ==> b in Members(stack);
    }

    method RestoreAtEndif()
      requires Valid()
      modifies this`stack, this`ppStack
      ensures Valid()
      ensures State() == Preprocess(old(State()), Endif)
      ensures old(ppStack) != [] && old(ppStack)[|old(ppStack)| - 1].seenElse ==> Apart(old(stack), stack)
    {
      hide Separate, ApartFromAll, Distinct, Apart, Saved, Checkpoints, Values;
      if ppStack != [] {
        var below, top := ppStack[..|ppStack| - 1], ppStack[|ppStack| - 1];
        assert ppStack == below + [top];
        Snoc(stack, below, top);
        if top.seenElse {
          stack := top.stackBeforeElse;
        }
        ppStack := below;
      }
    }

    method UpdatePreprocessor(d: Directive)
      requires Valid()
      modifies this`stack, this`ppStack, this`Repr
      ensures Valid() && fresh(Repr - old(Repr))
      ensures State() == Preprocess(old(State()), d)
      ensures Restores(old(State()).pp, d) ==> Apart(old(stack), stack)
    {
      hide Valid, Apart, Checkpoints;
      match d {
        case NoDirective =>
        case If => SaveAtIf();
        case Else => SwitchAtElse();
        case Endif => RestoreAtEndif();
      }
    }

    // ---------- the rest of Update: only the top block changes, blocks come and go ----------

    // What holds after every one of the following steps.
    twostate predicate Kept()
      reads this, Saved(ppStack)
    {
      && Valid() && fresh(Repr - old(Repr))
      && ppStack == old(ppStack) && Checkpoints(ppStack) == old(Checkpoints(ppStack))
      && forall b :: b in stack ==> b in old(stack) || fresh(b)
    }

    method Push(kind: Kind, linenum: nat, seen: bool, asm: Asm)
      requires Valid()
      modifies this`stack, this`Repr
      ensures Kept()
      ensures Values(stack) == old(Values(stack)) + [NewBlock(kind, linenum, seen).(asm := asm)]
    {
      var b := new BlockInfo(kind, linenum, seen, asm);
      assert ApartFromAll([b], ppStack);
      hide ApartFromAll, Separate, Checkpoints;
      OneMoreApart(stack, b, ppStack);
      stack := stack + [b];
      Repr := Repr + {b};
    }

    method PopTop()
      requires Valid() && stack != []
      modifies this`stack
      ensures Kept()
      ensures Values(stack) == Pop(old(Values(stack)))
    {
      stack := stack[..|stack| - 1];
    }

    // What a change of the top block's fields leaves alone.
    twostate lemma TopChanged()
      requires old(Valid()) && unchanged(this) && stack != []
      requires forall i :: 0 <= i < |stack| - 1 ==> unchanged(stack[i])
      requires forall b :: b in Saved(ppStack) ==> b == stack[|stack| - 1] || unchanged(b)
      ensures Kept()
      ensures Values(stack) == SetTop(old(Values(stack)), stack[|stack| - 1].Value())
    {
      NotSaved(stack, ppStack);
      forall k | 0 <= k < |ppStack| ensures ValueOf(ppStack[k]) == old(ValueOf(ppStack[k])) {
        assert stack[|stack| - 1] in stack;
        forall b | b in Blocks(ppStack[k]) ensures unchanged(b) {
          assert b in Saved(ppStack);
        }
        assert forall b :: b in ppStack[k].stackBeforeIf ==> b in Blocks(ppStack[k]);
        assert forall b :: b in ppStack[k].stackBeforeElse ==> b in Blocks(ppStack[k]);
        SameValues(ppStack[k].stackBeforeIf);
        SameValues(ppStack[k].stackBeforeElse);
      }
    }

    method CountParentheses(line: Line)
      requires Valid()
      modifies Members(stack)
      ensures Kept()
      ensures Values(stack) == CountParens(old(Values(stack)), line)
    {
      if stack != [] {
        stack[|stack| - 1].CountParentheses(line);
        TopChanged();
      }
    }

    method DeclareNamespaces(line: Line)
      requires Valid()
      modifies this`stack, this`Repr
      ensures Kept()
      ensures Values(stack) == PushNamespaces(old(Values(stack)), line.number, line.namespaces)
    {
      var i := 0;
      while i < |line.namespaces|
        invariant 0 <= i <= |line.namespaces|
        invariant Kept()
        invariant PushNamespaces(old(Values(stack)), line.number, line.namespaces) ==
                  PushNamespaces(Values(stack), line.number, line.namespaces[i..])
      {
        Push(NamespaceBlock(line.namespaces[i].name), line.number, line.namespaces[i].braced, NoAsm);
        i := i + 1;
      }
    }

    // The class header, if it is one.
    method DeclareClass(line: Line) returns (rest: Rest)
      requires Valid()
      modifies this`stack, this`Repr
      ensures Kept()
      ensures var taken := TakesHeader(old(Values(stack)), line);
              && rest == (if taken then line.header.value.rest else line.rest)
              && Values(stack) == (if taken then old(Values(stack)) + [HeaderBlock(line)] else old(Values(stack)))
    {
      rest := line.rest;
      if line.header.Some? && (stack == [] || stack[|stack| - 1].openParentheses == 0) {
        var h := line.header.value;
        if !h.templateArgument {
          Push(ClassBlock(h.name, h.isStruct, h.indent, h.lastLine), line.number, false, NoAsm);
          rest := h.rest;
        }
      }
    }

    method CheckBeginOfBlock(line: Line)
      requires Valid()
      modifies Members(stack)
      ensures Kept()
      ensures Values(stack) == CheckBegin(old(Values(stack)), line)
    {
      if stack != [] && !stack[|stack| - 1].seenOpenBrace {
        if stack[|stack| - 1].kind.ClassBlock? && line.bareColon {
          stack[|stack| - 1].isDerived := true;
          TopChanged();
        }
      }
    }

    method UpdateAccess(access: Option<string>)
      requires Valid()
      modifies Members(stack)
      ensures Kept()
      ensures Values(stack) == ApplyAccess(old(Values(stack)), access)
    {
      if stack != [] && stack[|stack| - 1].kind.ClassBlock? && access.Some? {
        stack[|stack| - 1].access := access.value;
        TopChanged();
      }
    }

    method ConsumeOne(number: nat, token: Token)
      requires Valid()
      modifies this`stack, this`Repr, Members(stack)
      ensures Kept()
      ensures Values(stack) == ConsumeToken(old(Values(stack)), number, token)
    {
      var waiting := stack != [] && !stack[|stack| - 1].seenOpenBrace;
      match token {
        case OpenBrace(externC, asm) =>
          if waiting {
            stack[|stack| - 1].seenOpenBrace := true;
            TopChanged();
          } else if externC {
            Push(ExternC, number, true, NoAsm);
          } else {
            Push(PlainBlock, number, true, if asm then BlockAsm else NoAsm);
          }
        case SemiOrParen =>
          if waiting {
            PopTop();
          }
        case CloseBrace =>
          if stack != [] {
            PopTop();
          }
      }
    }

    method ConsumeTokens(number: nat, tokens: seq<Token>)
      requires Valid()
      modifies this`stack, this`Repr, Members(stack)
      ensures Kept()
      ensures Values(stack) == Consume(old(Values(stack)), number, tokens)
    {
      hide ConsumeToken, Values, Checkpoints, Distinct, ApartFromAll, Separate;
      var i := 0;
      while i < |tokens|
        invariant 0 <= i <= |tokens|
        invariant Kept()
        invariant Consume(old(Values(stack)), number, tokens) == Consume(Values(stack), number, tokens[i..])
      {
        ConsumeOne(number, tokens[i]);
        i := i + 1;
      }
    }

    // Down to the class header.
    method OpenBlocks(line: Line) returns (rest: Rest)
      requires Valid()
      modifies this`stack, this`Repr, Members(stack)
      ensures Kept()
      ensures var s := PushNamespaces(CountParens(old(Values(stack)), line), line.number, line.namespaces);
              && rest == (if TakesHeader(s, line) then line.header.value.rest else line.rest)
              && Values(stack) == (if TakesHeader(s, line) then s + [HeaderBlock(line)] else s)
    {
      hide Values, Checkpoints, CountParens, PushNamespaces, TakesHeader;
      hide Valid;
      CountParentheses(line);
      DeclareNamespaces(line);
      rest := DeclareClass(line);
    }

    // From there on.
    method UseRest(line: Line, rest: Rest)
      requires Valid()
      modifies this`stack, this`Repr, Members(stack)
      ensures Kept()
      ensures Values(stack) ==
              Consume(ApplyAccess(CheckBegin(old(Values(stack)), line), rest.access), line.number, rest.tokens)
    {
      hide Values, Checkpoints, CheckBegin, ApplyAccess, Consume;
      hide Valid;
      CheckBeginOfBlock(line);
      UpdateAccess(rest.access);
      ConsumeTokens(line.number, rest.tokens);
    }

    method UpdateBody(line: Line)
      requires Valid()
      modifies this`stack, this`Repr, Members(stack)
      ensures Kept()
      ensures Values(stack) == Body(old(Values(stack)), line)
    {
      hide Values, Checkpoints, CountParens, PushNamespaces, TakesHeader, CheckBegin, ApplyAccess, Consume;
      hide Valid;
      var rest := OpenBlocks(line);
      UseRest(line, rest);
    }

    method UpdateStack(line: Line)
      requires Valid()
      modifies this`stack, this`ppStack, this`Repr, Repr
      ensures Valid() && fresh(Repr - old(Repr))
      ensures State() == Nesting.Update(old(State()), line)
      ensures Restores(old(State()).pp, line.directive) ==>
                forall b :: b in old(stack) ==> b.Value() == old(b.Value())
    {
      hide Values, Checkpoints, Distinct, ApartFromAll, Separate, Saved, Body, Preprocess, Restores;
      UpdatePreprocessor(line.directive);
      UpdateBody(line);
    }

    method Update(line: Line)
      requires Valid()
      modifies this, Repr
      ensures Valid() && fresh(Repr - old(Repr))
      ensures State() == Nesting.Update(old(State()), line)
      ensures previousStackTop == if old(stack) == [] then null else old(stack)[|old(stack)| - 1]
      ensures previousStackTop != null && Restores(old(State()).pp, line.directive) ==>
                previousStackTop.Value() == old(Top(State().stack))
    {
      hide Restores;
      hide Values, Checkpoints, Distinct, ApartFromAll, Separate, Nesting.Update;
      previousStackTop := if stack == [] then null else stack[|stack| - 1];
      UpdateStack(line);
    }

    method UpdateAll(lines: seq<Line>)
      requires Valid()
      modifies this, Repr
      ensures Valid()
      ensures State() == Updates(old(State()), lines)
    {
      hide Valid, State, Nesting.Update, Updates;
      var i := 0;
      UpdatesFrom(State(), lines, 0);
      while i < |lines|
        invariant 0 <= i <= |lines|
        invariant Valid() && fresh(Repr - old(Repr))
        invariant Updates(old(State()), lines) == Updates(State(), lines[i..])
      {
        UpdatesFrom(State(), lines, i);
        Update(lines[i]);
        i := i + 1;
      }
      UpdatesFrom(State(), lines, i);
    }

    // From an #if to an #else or #elif of its own: the live objects have the values again that
    // they had in front of the #if.
    method UpdateToElse(first: Line, lines: seq<Line>)
      requires Valid() && first.directive == If && Within(lines)
      modifies this, Repr
      ensures Valid() && Values(stack) == old(Values(stack))
    {
      hide Valid, Values, Checkpoints, Updates, Within, Preprocess;
      ghost var s := State();
      UpdateAll([first] + lines);
      UpdatePreprocessor(Else);
      ElseStartsAgain(s, first, lines);
    }

    // From an #if to its #endif: the live objects have the values that they had behind the
    // first branch, and all that was saved before is as it was.
    method UpdateToEndif(first: Line, lines: seq<Line>, other: Line, rest: seq<Line>)
      requires Valid() && first.directive == If && Branch(lines) && other.directive == Else && Within(rest)
      modifies this, Repr
      ensures Valid() && State() == Nesting.State(Updates(old(State()), [first] + lines).stack, old(State()).pp)
    {
      hide Valid, State, Updates, Within, Branch, Preprocess;
      ghost var s := State();
      UpdateAll([first] + lines + [other] + rest);
      UpdatePreprocessor(Endif);
      EndifGoesBack(s, first, lines, other, rest);
    }

    // A whole file: what its else regions hold never reaches the blocks that are open at the end.
    method UpdateFile(lines: seq<Line>)
      requires Valid() && ppStack == []
      modifies this, Repr
      ensures Valid() && State() == Updates(old(State()), lines)
      ensures true !in FlagsAfter([], lines) ==> Values(stack) == Bodies(old(Values(stack)), Live([], lines))
    {
      hide Updates, Live, FlagsAfter, Bodies, Valid;
      ghost var start := Values(stack);
      assert State() == Nesting.State(start, []);
      UpdateAll(lines);
      if true !in FlagsAfter([], lines) {
        ErasedFile(start, lines);
      }
    }
  }

  lemma UpdatesFrom(s: Nesting.State, lines: seq<Line>, i: nat)
    requires i <= |lines|
    ensures i == 0 ==> Updates(s, lines[i..]) == Updates(s, lines)
    ensures Updates(s, lines[i..]) ==
            if i == |lines| then s else Updates(Nesting.Update(s, lines[i]), lines[i + 1..])
  {
  }
}
