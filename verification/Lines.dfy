// A file as a list of lines, and the same file as one text.
module Lines {
  // The text of the first n lines, line ends dropped.
  function TextBefore(lines: seq<string>, n: nat): string
    requires n <= |lines|
  {
    if n == 0 then "" else TextBefore(lines, n - 1) + lines[n - 1]
  }

  function Flatten(lines: seq<string>): string { TextBefore(lines, |lines|) }

  // The position in the flattened text of column p of line l.
  function At(lines: seq<string>, l: nat, p: nat): nat
    requires l <= |lines|
  {
    |TextBefore(lines, l)| + p
  }

  predicate InText(lines: seq<string>, l: int, p: int) {
    0 <= l < |lines| && 0 <= p < |lines[l]|
  }

  lemma {:induction false} TextBeforeGrows(lines: seq<string>, l: nat, n: nat)
    requires l <= n <= |lines|
    ensures TextBefore(lines, l) <= TextBefore(lines, n)
  {
    if l == n {
    } else {
      TextBeforeGrows(lines, l, n - 1);
    }
  }

  // Line l sits in the flattened text between the positions of its two ends.
  lemma LineAt(lines: seq<string>, l: nat)
    requires l < |lines|
    ensures At(lines, l, |lines[l]|) == At(lines, l + 1, 0) <= |Flatten(lines)|
    ensures Flatten(lines)[At(lines, l, 0)..At(lines, l, |lines[l]|)] == lines[l]
    ensures l == 0 ==> At(lines, l, 0) == 0
    ensures l + 1 == |lines| ==> At(lines, l + 1, 0) == |Flatten(lines)|
  {
    TextBeforeGrows(lines, l + 1, |lines|);
  }

  lemma CharAt(lines: seq<string>, l: nat, p: nat)
    requires InText(lines, l, p)
    ensures At(lines, l, p) < |Flatten(lines)|
    ensures Flatten(lines)[At(lines, l, p)] == lines[l][p]
  {
    TextBeforeGrows(lines, l + 1, |lines|);
  }

  // Different places have different positions.
  lemma AtInjective(lines: seq<string>, l: nat, p: nat, l': nat, p': nat)
    requires InText(lines, l, p) && InText(lines, l', p')
    ensures At(lines, l, p) == At(lines, l', p') <==> l == l' && p == p'
  {
    if l < l' {
      TextBeforeGrows(lines, l + 1, l');
    } else if l' < l {
      TextBeforeGrows(lines, l' + 1, l);
    }
  }
}
