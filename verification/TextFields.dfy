// Cutting a text at separator characters: the reference for the splitters and line readers.
module TextFields {
  // The first separator at or behind k, or the length.
  function NextSeparator(s: string, sep: char -> bool, k: nat): (r: nat)
    requires k <= |s|
    ensures k <= r <= |s|
    ensures forall i :: k <= i < r ==> !sep(s[i])
    ensures r < |s| ==> sep(s[r])
    decreases |s| - k
  {
    if k < |s| && !sep(s[k]) then NextSeparator(s, sep, k + 1) else k
  }

  // The fields between the separators, empty ones included.
  function Fields(s: string, sep: char -> bool): (r: seq<string>)
    ensures r != []
    decreases |s|
  {
    var k := NextSeparator(s, sep, 0);
    if k == |s| then [s] else [s[..k]] + Fields(s[k + 1..], sep)
  }

  function NonEmpty(fields: seq<string>): seq<string> {
    if fields == [] then []
    else (if fields[0] == "" then [] else [fields[0]]) + NonEmpty(fields[1..])
  }

  // The non-empty maximal runs without separators, in order.
  function Runs(s: string, sep: char -> bool): seq<string> { NonEmpty(Fields(s, sep)) }

  function Join(fields: seq<string>, d: char): string {
    if fields == [] then ""
    else if |fields| == 1 then fields[0]
    else fields[0] + [d] + Join(fields[1..], d)
  }

  // Joining the fields gives the text back, and no field holds a separator: together these
  // two facts determine the fields.
  lemma {:induction false} FieldsJoin(s: string, sep: char -> bool, d: char)
    requires forall c: char :: sep(c) <==> c == d
    ensures Join(Fields(s, sep), d) == s
    decreases |s|
  {
    var k := NextSeparator(s, sep, 0);
    if k == |s| {
    } else {
      FieldsJoin(s[k + 1..], sep, d);
      var rest := Fields(s[k + 1..], sep);
      assert ([s[..k]] + rest)[1..] == rest;
      assert s == s[..k] + [s[k]] + s[k + 1..];
    }
  }

  lemma {:induction false} FieldsHoldNoSeparator(s: string, sep: char -> bool)
    ensures forall i, j :: 0 <= i < |Fields(s, sep)| && 0 <= j < |Fields(s, sep)[i]| ==> !sep(Fields(s, sep)[i][j])
    decreases |s|
  {
    var k := NextSeparator(s, sep, 0);
    if k == |s| {
    } else {
      FieldsHoldNoSeparator(s[k + 1..], sep);
      var rest := Fields(s[k + 1..], sep);
      forall i, j | 0 <= i < |rest| + 1 && 0 <= j < |([s[..k]] + rest)[i]|
        ensures !sep(([s[..k]] + rest)[i][j])
      {
      }
    }
  }

  lemma {:induction false} FieldsUnique(fields: seq<string>, sep: char -> bool, d: char)
    requires fields != [] && forall c: char :: sep(c) <==> c == d
    requires forall i, j :: 0 <= i < |fields| && 0 <= j < |fields[i]| ==> !sep(fields[i][j])
    ensures Fields(Join(fields, d), sep) == fields
    decreases |fields|
  {
    var s := Join(fields, d);
    assert forall j :: 0 <= j < |fields[0]| ==> !sep(fields[0][j]);
    if |fields| == 1 {
      NextSeparatorIs(s, sep, 0, |s|);
    } else {
      var k := |fields[0]|;
      assert s[..k] == fields[0] && s[k] == d && s[k + 1..] == Join(fields[1..], d);
      assert forall j :: 0 <= j < k ==> s[j] == fields[0][j];
      NextSeparatorIs(s, sep, 0, k);
      forall i, j | 0 <= i < |fields[1..]| && 0 <= j < |fields[1..][i]| ensures !sep(fields[1..][i][j]) {
        assert fields[1..][i] == fields[i + 1];
      }
      FieldsUnique(fields[1..], sep, d);
    }
  }

  lemma NextSeparatorIs(s: string, sep: char -> bool, k: nat, r: nat)
    requires k <= r <= |s| && (forall i :: k <= i < r ==> !sep(s[i])) && (r < |s| ==> sep(s[r]))
    ensures NextSeparator(s, sep, k) == r
  {
  }

  lemma {:induction false} NonEmptyConcat(a: seq<string>, b: seq<string>)
    ensures NonEmpty(a + b) == NonEmpty(a) + NonEmpty(b)
    decreases |a|
  {
    if a == [] {
      assert a + b == b;
    } else {
      assert (a + b)[1..] == a[1..] + b;
      NonEmptyConcat(a[1..], b);
    }
  }

  // Cutting at one separator first, wherever it is, changes nothing.
  lemma {:induction false} FieldsConcat(a: string, c: char, b: string, sep: char -> bool)
    requires sep(c)
    ensures Fields(a + [c] + b, sep) == Fields(a, sep) + Fields(b, sep)
    decreases |a|
  {
    hide Fields;
    var s := a + [c] + b;
    var k := NextSeparator(a, sep, 0);
    assert forall i :: 0 <= i < |a| ==> s[i] == a[i];
    NextSeparatorIs(s, sep, 0, k);
    FieldsStep(a, sep);
    FieldsStep(s, sep);
    if k == |a| {
      assert s[..k] == a && s[k + 1..] == b;
    } else {
      assert s[..k] == a[..k] && s[k + 1..] == a[k + 1..] + [c] + b;
      FieldsConcat(a[k + 1..], c, b, sep);
      var head, mid, last := [a[..k]], Fields(a[k + 1..], sep), Fields(b, sep);
      assert head + (mid + last) == (head + mid) + last;
    }
  }

  lemma FieldsStep(s: string, sep: char -> bool)
    ensures var k := NextSeparator(s, sep, 0);
            Fields(s, sep) == if k == |s| then [s] else [s[..k]] + Fields(s[k + 1..], sep)
  {
    hide NextSeparator;
  }

  lemma RunsConcat(a: string, c: char, b: string, sep: char -> bool)
    requires sep(c)
    ensures Runs(a + [c] + b, sep) == Runs(a, sep) + Runs(b, sep)
  {
    FieldsConcat(a, c, b, sep);
    NonEmptyConcat(Fields(a, sep), Fields(b, sep));
  }

  // A text without separators is its own only run.
  lemma RunsOfRun(s: string, sep: char -> bool)
    requires forall i :: 0 <= i < |s| ==> !sep(s[i])
    ensures Runs(s, sep) == if s == "" then [] else [s]
  {
    NextSeparatorIs(s, sep, 0, |s|);
    assert NonEmpty([s][1..]) == [];
  }

  // s[i..j] is not empty, holds no separator, and stands between separators or the ends of s.
  predicate RunAt(s: string, sep: char -> bool, i: nat, j: nat) {
    && i < j <= |s|
    && (forall m :: i <= m < j ==> !sep(s[m]))
    && (i == 0 || sep(s[i - 1])) && (j == |s| || sep(s[j]))
  }

  ghost predicate RunIn(s: string, sep: char -> bool, w: string) {
    exists i: nat, j: nat :: RunAt(s, sep, i, j) && w == s[i..j]
  }

  lemma RunShifts(s: string, sep: char -> bool, k: nat, i: nat, j: nat)
    requires k < |s| && sep(s[k])
    ensures RunAt(s[k + 1..], sep, i, j) <==> RunAt(s, sep, i + k + 1, j + k + 1)
    ensures i <= j <= |s| - k - 1 ==> s[k + 1..][i..j] == s[i + k + 1..j + k + 1]
  {
    var rest := s[k + 1..];
    assert forall m :: 0 <= m < |rest| ==> rest[m] == s[m + k + 1];
    assert forall m :: k < m < |s| ==> s[m] == rest[m - k - 1];
  }

  lemma FirstRun(s: string, sep: char -> bool, k: nat, i: nat, j: nat)
    requires k < |s| && sep(s[k]) && (forall m :: 0 <= m < k ==> !sep(s[m])) && i <= k
    ensures RunAt(s, sep, i, j) <==> i == 0 < k && j == k
  {
  }

  // A run lies before a separator, or behind it.
  lemma RunInParts(s: string, sep: char -> bool, k: nat, w: string)
    requires k < |s| && sep(s[k]) && forall i :: 0 <= i < k ==> !sep(s[i])
    ensures RunIn(s, sep, w) <==> (w != "" && w == s[..k]) || RunIn(s[k + 1..], sep, w)
  {
    hide RunAt;
    var rest := s[k + 1..];
    RunBounds(s, sep);
    RunBounds(rest, sep);
    if RunIn(s, sep, w) {
      var i: nat, j: nat :| RunAt(s, sep, i, j) && w == s[i..j];
      if i <= k {
        FirstRun(s, sep, k, i, j);
      } else {
        RunShifts(s, sep, k, i - k - 1, j - k - 1);
      }
    }
    if w != "" && w == s[..k] {
      FirstRun(s, sep, k, 0, k);
      assert s[0..k] == s[..k];
    }
    if RunIn(rest, sep, w) {
      var i: nat, j: nat :| RunAt(rest, sep, i, j) && w == rest[i..j];
      RunShifts(s, sep, k, i, j);
    }
  }

  lemma RunBounds(s: string, sep: char -> bool)
    ensures forall i: nat, j: nat :: RunAt(s, sep, i, j) ==> i < j <= |s|
  {
  }

  lemma WholeRun(s: string, sep: char -> bool, w: string)
    requires forall i :: 0 <= i < |s| ==> !sep(s[i])
    ensures RunIn(s, sep, w) <==> w != "" && w == s
  {
    if w != "" && w == s {
      assert RunAt(s, sep, 0, |s|) && s[0..|s|] == s;
    }
    if RunIn(s, sep, w) {
      var i: nat, j: nat :| RunAt(s, sep, i, j) && w == s[i..j];
      assert i == 0 && j == |s|;
    }
  }

  // The runs are exactly the non-empty separator-free pieces between separators.
  lemma {:induction false} InRunsIff(s: string, sep: char -> bool, w: string)
    ensures w in Runs(s, sep) <==> RunIn(s, sep, w)
    decreases |s|
  {
    hide Fields, NonEmpty, Runs, RunIn;
    var k := NextSeparator(s, sep, 0);
    if k == |s| {
      RunsOfRun(s, sep);
      WholeRun(s, sep, w);
    } else {
      assert s == s[..k] + [s[k]] + s[k + 1..];
      RunsConcat(s[..k], s[k], s[k + 1..], sep);
      RunsOfRun(s[..k], sep);
      InRunsIff(s[k + 1..], sep, w);
      RunInParts(s, sep, k, w);
    }
  }
}
