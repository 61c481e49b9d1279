// _GetTextInside of bin/cpplint.py: a third matcher, which stacks the closers it expects
// where the other two stack the brackets they have seen.
module TextInside {
  import opened Wrappers
  import opened Brackets
  import opened ForwardMatcher
  import opened Marks

  // `start` is where the match of the start pattern ended: just past an opening bracket.
  method GetTextInside(text: string, start: nat) returns (r: Option<string>)
    requires 0 < start <= |text| && IsOpener(text[start - 1])
    ensures match PlainClose(text, start - 1)
            case None => r == None
            case Some(j) => start <= j <= |text| && r == Some(text[start..j])
    ensures match Scan(text, start - 1, [])
            case Closed(q) => start < q <= |text| && r == Some(text[start..q - 1])
            case _ => r == None
  {
    hide Scan;
    ScanIsPlain(text, start - 1);
    ghost var answer := PlainClose(text, start - 1);
    var stack := [Flip(text[start - 1])];
    assert Mirror(stack) == [text[start - 1]];
    var position := start;
    while stack != [] && position < |text|
      invariant start <= position <= |text| && AllClosers(stack)
      invariant if stack == [] then position > start && answer == Some(position - 1)
                else answer == SeekClose(text, position, Mirror(stack))
      decreases |text| - position
    {
      var c := text[position];
      ghost var before := Mirror(stack);
      if c == stack[|stack| - 1] {
        stack := stack[..|stack| - 1];
        assert Mirror(stack) == before[..|stack|];
      } else if IsCloser(c) {
        return None;
      } else if IsOpener(c) {
        stack := stack + [Flip(c)];
        assert Mirror(stack) == before + [c];
      }
      position := position + 1;
    }
    if stack != [] {
      return None;
    }
    return Some(text[start..position - 1]);
  }

  lemma FirstStep(line: string, p: nat)
    requires p < |line| && IsOpener(line[p])
    ensures Scan(line, p, []) == Scan(line, p + 1, [line[p]]) && Real([line[p]], '<') == [line[p]]
  {
    var o := line[p];
    assert [] + [o] == [o] && [o][..0] == [];
  }

  // On one line the forward scan, with all its angle-bracket heuristics, gives the plain answer.
  lemma ScanIsPlain(line: string, p: nat)
    requires p < |line| && IsOpener(line[p])
    ensures match Scan(line, p, [])
            case Closed(q) => p + 1 < q <= |line| && PlainClose(line, p) == Some(q - 1)
            case _ => PlainClose(line, p) == None
  {
    hide Scan, Real, SeekClose, Balanced;
    var o := line[p];
    FirstStep(line, p);
    ScanRefines(line, 0, line, p + 1, [o]);
    if PlainClose(line, p).Some? {
      PlainCloseIff(line, p, PlainClose(line, p).value);
    }
  }
}
