// The stack that a scanner of bin/cpplint.py keeps: brackets, mixed with tentative marks.
// The mark is '<' when the scan runs forwards and '>' when it runs backwards.
module Marks {
  // `while stack and stack[-1] == mark: stack.pop()`
  function Drop(stack: seq<char>, mark: char): seq<char> {
    if stack != [] && stack[|stack| - 1] == mark then Drop(stack[..|stack| - 1], mark) else stack
  }

  method PopMarks(stack0: seq<char>, mark: char) returns (stack: seq<char>)
    ensures stack == Drop(stack0, mark)
  {
    stack := stack0;
    while stack != [] && stack[|stack| - 1] == mark
      invariant Drop(stack, mark) == Drop(stack0, mark)
      decreases |stack|
    {
      stack := stack[..|stack| - 1];
    }
  }

  // The brackets on a mixed stack.
  function Real(stack: seq<char>, mark: char): seq<char> {
    if stack == [] then []
    else
      var below := Real(stack[..|stack| - 1], mark);
      if stack[|stack| - 1] == mark then below else below + [stack[|stack| - 1]]
  }

  lemma RealSnoc(stack: seq<char>, mark: char, c: char)
    ensures Real(stack + [c], mark) == if c == mark then Real(stack, mark) else Real(stack, mark) + [c]
  {
  }

  lemma RealPop(stack: seq<char>, mark: char)
    requires stack != [] && stack[|stack| - 1] == mark
    ensures Real(stack[..|stack| - 1], mark) == Real(stack, mark)
    ensures |stack| == 1 ==> Real(stack, mark) == []
  {
  }

  // ---------- a bracket at the bottom ----------

  lemma {:induction false} RealBottom(stack: seq<char>, mark: char)
    requires stack != [] && stack[0] != mark
    ensures Real(stack, mark) != [] && Real(stack, mark)[0] == stack[0]
    decreases |stack|
  {
    if |stack| == 1 {
    } else {
      RealBottom(stack[..|stack| - 1], mark);
    }
  }

  // Dropping marks changes nothing real, and uncovers the innermost real bracket.
  lemma {:induction false} RealDrop(stack: seq<char>, mark: char)
    requires stack != [] && stack[0] != mark
    ensures var s := Drop(stack, mark);
            s != [] && s[0] == stack[0] && Real(s, mark) == Real(stack, mark) != []
            && Real(s, mark)[|Real(s, mark)| - 1] == s[|s| - 1]
            && Real(s[..|s| - 1], mark) == Real(s, mark)[..|Real(s, mark)| - 1]
            && (|s| == 1 <==> |Real(s, mark)| == 1)
    decreases |stack|
  {
    if |stack| == 1 {
    } else if stack[|stack| - 1] == mark {
      RealDrop(stack[..|stack| - 1], mark);
    } else {
      RealBottom(stack[..|stack| - 1], mark);
    }
  }

  // ---------- marks at the bottom ----------

  // A stack whose lowest entries, and no further one above them, are `n` marks.
  ghost predicate Marked(stack: seq<char>, mark: char, n: nat) {
    && 0 < n <= |stack|
    && (forall i :: 0 <= i < n ==> stack[i] == mark)
    && (n < |stack| ==> stack[n] != mark)
  }

  lemma {:induction false} MarkedReal(stack: seq<char>, mark: char, n: nat)
    requires Marked(stack, mark, n)
    ensures Real(stack, mark) == [] <==> n == |stack|
    decreases |stack|
  {
    if |stack| == 1 {
      assert stack[..0] == [];
    } else if n < |stack| - 1 {
      MarkedReal(stack[..|stack| - 1], mark, n);
    } else if n == |stack| {
      MarkedReal(stack[..|stack| - 1], mark, n - 1);
    }
  }

  lemma {:induction false} MarkedDrop(stack: seq<char>, mark: char, n: nat)
    requires Marked(stack, mark, n)
    ensures n == |stack| ==> Drop(stack, mark) == []
    ensures n < |stack| ==>
              var s := Drop(stack, mark);
              && |s| > n && Marked(s, mark, n) && Marked(s[..|s| - 1], mark, n)
              && Real(s, mark) == Real(stack, mark) != []
              && Real(s, mark)[|Real(s, mark)| - 1] == s[|s| - 1] != mark
              && Real(s[..|s| - 1], mark) == Real(s, mark)[..|Real(s, mark)| - 1]
    decreases |stack|
  {
    MarkedReal(stack, mark, n);
    if n == |stack| && n > 1 {
      MarkedDrop(stack[..|stack| - 1], mark, n - 1);
    } else if n < |stack| && stack[|stack| - 1] == mark {
      MarkedDrop(stack[..|stack| - 1], mark, n);
    }
  }
}
