// Split and SplitRegex(str, "\\s+") of src/Analysis/CharacterUtil.cpp.
module Splitter {
  import opened Wrappers
  import opened CharClasses
  import opened TextFields

  function Is(d: char): char -> bool { c => c == d }

  function FoundAt(s: string, d: char, from: nat): (r: Option<nat>)
    requires from <= |s|
    ensures r.Some? ==> from <= r.value < |s| && NextSeparator(s, Is(d), from) == r.value
    ensures r.None? ==> NextSeparator(s, Is(d), from) == |s|
  {
    var k := NextSeparator(s, Is(d), from);
    if k < |s| then Some(k) else None
  }

  // str.find(delimiter, from) for a one-character delimiter
  method Find(s: string, d: char, from: nat) returns (pos: Option<nat>)
    requires from <= |s|
    ensures pos == FoundAt(s, d, from)
    ensures pos.Some? ==> s[pos.value] == d && forall i :: from <= i < pos.value ==> s[i] != d
  {
    var i := from;
    while i < |s|
      invariant from <= i <= |s|
      invariant NextSeparator(s, Is(d), from) == NextSeparator(s, Is(d), i)
      invariant forall k :: from <= k < i ==> s[k] != d
    {
      if s[i] == d {
        return Some(i);
      }
      i := i + 1;
    }
    return None;
  }

  // One delimiter further: what the pieces collected so far say about the whole text.
  lemma NextPiece(s: string, d: char, start: nat, pos: nat)
    requires start <= pos < |s| && NextSeparator(s, Is(d), start) == pos
    ensures Runs(s[start..], Is(d)) == (if pos == start then [] else [s[start..pos]]) + Runs(s[pos + 1..], Is(d))
    ensures start > 0 && s[start - 1] == d ==>
              Runs(s[..pos], Is(d)) == Runs(s[..start - 1], Is(d)) + (if pos == start then [] else [s[start..pos]])
    ensures start == 0 ==> Runs(s[..pos], Is(d)) == if pos == start then [] else [s[start..pos]]
  {
    hide Runs;
    RunsOfRun(s[start..pos], Is(d));
    assert s[start..] == s[start..pos] + [d] + s[pos + 1..];
    RunsConcat(s[start..pos], d, s[pos + 1..], Is(d));
    if start > 0 && s[start - 1] == d {
      assert s[..pos] == s[..start - 1] + [d] + s[start..pos];
      RunsConcat(s[..start - 1], d, s[start..pos], Is(d));
    } else if start == 0 {
      assert s[..pos] == s[start..pos];
    }
  }

  // The pieces s[..start - 1] is made of are collected, s[start..] is left.
  ghost predicate Collected(s: string, d: char, start: nat, ret: seq<string>) {
    && start <= |s| && (start > 0 ==> s[start - 1] == d)
    && ret == (if start == 0 then [] else Runs(s[..start - 1], Is(d)))
    && Runs(s, Is(d)) == ret + Runs(s[start..], Is(d))
  }

  lemma CollectOne(s: string, d: char, start: nat, pos: nat, ret: seq<string>)
    requires Collected(s, d, start, ret) && start <= pos < |s| && NextSeparator(s, Is(d), start) == pos
    ensures Collected(s, d, pos + 1, if pos == start then ret else ret + [s[start..pos]])
  {
    hide Runs, NextSeparator;
    NextPiece(s, d, start, pos);
    var piece := if pos == start then [] else [s[start..pos]];
    Regroup(ret, piece, Runs(s[pos + 1..], Is(d)));
    assert s[..pos + 1 - 1] == s[..pos];
  }

  lemma Regroup(a: seq<string>, b: seq<string>, c: seq<string>)
    ensures a + (b + c) == (a + b) + c
    ensures b == [] ==> a + b == a
    ensures a == [] ==> a + b == b
  {
  }

  lemma CollectNone(s: string, d: char)
    ensures Collected(s, d, 0, [])
  {
  }

  // No delimiter is left: the rest is the last piece.
  lemma CollectLast(s: string, d: char, start: nat, ret: seq<string>)
    requires Collected(s, d, start, ret) && NextSeparator(s, Is(d), start) == |s|
    ensures Runs(s, Is(d)) == ret + if start < |s| then [s[start..]] else []
    ensures start < |s| ==> Runs(s[start..], Is(d)) == [s[start..]]
  {
    RunsOfRun(s[start..], Is(d));
  }

  // The rest, cut or not, completes the pieces.
  lemma CollectRest(s: string, d: char, start: nat, ret: seq<string>)
    requires Collected(s, d, start, ret)
    ensures start < |s| ==> Runs(s, Is(d)) == ret + Runs(s[start..], Is(d))
    ensures start == |s| ==> Runs(s, Is(d)) == ret
    ensures start >= 2 && s[start - 2] != d && start < |s| ==> Leftover(s, d, ret, s[start..], start)
  {
    if start == |s| {
      assert s[start..] == "";
      RunsOfRun("", Is(d));
    }
  }

  // The leftover tail of a limited split: it starts behind the delimiter that ends the last piece.
  ghost predicate Leftover(s: string, d: char, pieces: seq<string>, tail: string, k: nat) {
    && 2 <= k < |s| && s[k - 1] == d && s[k - 2] != d
    && tail == s[k..] && pieces == Runs(s[..k - 1], Is(d))
  }

  ghost predicate EndsInLeftover(s: string, d: char, ret: seq<string>)
    requires ret != []
  {
    var pieces, tail := ret[..|ret| - 1], ret[|ret| - 1];
    Runs(s, Is(d)) == pieces + Runs(tail, Is(d)) && exists k :: Leftover(s, d, pieces, tail, k)
  }

  // Without a limit, exactly the non-empty delimiter-free runs; with a limit, either all of
  // them, or as many pieces as allowed, the last of which is the unsplit rest.
  method Split(str: string, d: char, limit: nat) returns (ret: seq<string>)
    ensures limit == 0 ==> ret == Runs(str, Is(d))
    ensures limit == 1 ==> ret == [str]
    ensures limit > 1 ==> |ret| <= limit
    ensures limit > 1 && |ret| < limit ==> ret == Runs(str, Is(d))
    ensures limit > 1 && |ret| == limit ==> EndsInLeftover(str, d, ret)
  {
    hide Runs, Collected, NextSeparator, Leftover;
    if limit == 1 {
      return [str];
    }
    var maxFull := if limit != 0 then limit - 1 else limit;
    var start: nat := 0;
    ret := [];
    CollectNone(str, d);
    var pos := Find(str, d, 0);
    if limit > 0 {
      while pos.Some? && |ret| < maxFull
        invariant start <= |str| && |ret| <= maxFull
        invariant Collected(str, d, start, ret)
        invariant |ret| == maxFull ==> start >= 2 && str[start - 2] != d
        invariant pos == FoundAt(str, d, start)
        decreases |str| - start
      {
        CollectOne(str, d, start, pos.value, ret);
        if pos.value != 0 && pos.value != start {
          ret := ret + [str[start..pos.value]];
        }
        start := pos.value + 1;
        pos := Find(str, d, start);
      }
    } else {
      while pos.Some?
        invariant start <= |str|
        invariant Collected(str, d, start, ret)
        invariant pos == FoundAt(str, d, start)
        decreases |str| - start
      {
        CollectOne(str, d, start, pos.value, ret);
        if pos.value != 0 && pos.value != start {
          ret := ret + [str[start..pos.value]];
        }
        start := pos.value + 1;
        pos := Find(str, d, start);
      }
    }
    CollectRest(str, d, start, ret);
    if pos == None {
      CollectLast(str, d, start, ret);
    }
    if start < |str| {
      ghost var full := ret;
      ret := ret + [str[start..]];
      assert ret[..|ret| - 1] == full;
    }
  }

  // SplitRegex(str, "\\s+"): every match is a maximal run of white space.
  method SplitWhitespace(str: string) returns (ret: seq<string>)
    ensures ret == Runs(str, IsSpace)
  {
    hide Runs;
    ret := [];
    var start: nat := 0;
    var pos: nat := 0;
    assert str[0..] == str;
    while pos < |str|
      invariant start <= pos <= |str|
      invariant forall i :: start <= i < pos ==> !IsSpace(str[i])
      invariant Runs(str, IsSpace) == ret + Runs(str[start..], IsSpace)
      decreases |str| - pos
    {
      if !IsSpace(str[pos]) {
        pos := pos + 1;
      } else {
        CutAtSpace(str, start, pos);
        ghost var rest := Runs(str[pos + 1..], IsSpace);
        if pos > 0 && pos != start {
          assert ret + ([str[start..pos]] + rest) == ret + [str[start..pos]] + rest;
          ret := ret + [str[start..pos]];
        }
        start := EndOfSpace(str, pos + 1);
        pos := start;
      }
    }
    RunsOfRun(str[start..], IsSpace);
    if start < |str| {
      ret := ret + [str[start..]];
    }
  }

  // The match goes on to the end of the white space.
  method EndOfSpace(str: string, from: nat) returns (end: nat)
    requires from <= |str|
    ensures from <= end <= |str| && Runs(str[end..], IsSpace) == Runs(str[from..], IsSpace)
  {
    hide Runs;
    end := from;
    while end < |str| && IsSpace(str[end])
      invariant from <= end <= |str|
      invariant Runs(str[end..], IsSpace) == Runs(str[from..], IsSpace)
    {
      CutAtSpace(str, end, end);
      end := end + 1;
    }
  }

  lemma CutAtSpace(s: string, start: nat, pos: nat)
    requires start <= pos < |s| && IsSpace(s[pos]) && forall i :: start <= i < pos ==> !IsSpace(s[i])
    ensures Runs(s[start..], IsSpace) == (if pos == start then [] else [s[start..pos]]) + Runs(s[pos + 1..], IsSpace)
  {
    hide Runs;
    RunsOfRun(s[start..pos], IsSpace);
    assert s[start..] == s[start..pos] + [s[pos]] + s[pos + 1..];
    RunsConcat(s[start..pos], s[pos], s[pos + 1..], IsSpace);
  }
}
