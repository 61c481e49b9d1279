// CharSet of src/Analysis/CharacterUtil.cpp: a hash set of strings, case-sensitive or not.
module CharSets {
  import opened Wrappers

  // std::tolower in the C locale
  function Lower(c: char): char {
    if 'A' <= c <= 'Z' then (c as int + 32) as char else c
  }

  function Fold(s: string, ignoreCase: bool): (r: string)
    ensures |r| == |s| && forall i :: 0 <= i < |s| ==> r[i] == if ignoreCase then Lower(s[i]) else s[i]
  {
    seq(|s|, i requires 0 <= i < |s| => if ignoreCase then Lower(s[i]) else s[i])
  }

  // A signed char, as the platform's char type is.
  function Signed(c: char): int {
    var b := c as int % 256;
    if b < 128 then b else b - 256
  }

  // int32_t arithmetic wraps around.
  function Wrap(x: int): (r: int)
    ensures -0x8000_0000 <= r < 0x8000_0000
  {
    (x + 0x8000_0000) % 0x1_0000_0000 - 0x8000_0000
  }

  // The hash of the rest of a string, from a code on.
  function HashFrom(code: int, s: string, ignoreCase: bool): int
    decreases |s|
  {
    if s == "" then code
    else HashFrom(Wrap(code * 31 + Signed(if ignoreCase then Lower(s[0]) else s[0])), s[1..], ignoreCase)
  }

  function Code(s: string, ignoreCase: bool): int { HashFrom(0, s, ignoreCase) }

  // The conversion of the code to size_t, reduced to a bucket number.
  function Bucket(code: int, count: nat): (b: nat)
    requires count > 0
    ensures b < count
  {
    (code % 0x1_0000_0000_0000_0000) % count
  }

  // CharPtrRangeInfoHasher
  method Hash(s: string, ignoreCase: bool) returns (code: int)
    ensures code == Code(s, ignoreCase)
  {
    code := 0;
    var i := 0;
    assert s[0..] == s;
    while i < |s|
      invariant 0 <= i <= |s|
      invariant Code(s, ignoreCase) == HashFrom(code, s[i..], ignoreCase)
    {
      assert s[i..][1..] == s[i + 1..];
      if ignoreCase {
        code := Wrap(code * 31 + Signed(Lower(s[i])));
      } else {
        code := Wrap(code * 31 + Signed(s[i]));
      }
      i := i + 1;
    }
  }

  // CharPtrRangeInfoEqual: equality of the folded strings, hence an equivalence.
  method Equal(a: string, b: string, ignoreCase: bool) returns (r: bool)
    ensures r <==> Fold(a, ignoreCase) == Fold(b, ignoreCase)
  {
    if |a| != |b| {
      return false;
    }
    var i := 0;
    while i < |a|
      invariant 0 <= i <= |a|
      invariant forall k :: 0 <= k < i ==> Fold(a, ignoreCase)[k] == Fold(b, ignoreCase)[k]
    {
      if (if ignoreCase then Lower(a[i]) != Lower(b[i]) else a[i] != b[i]) {
        assert Fold(a, ignoreCase)[i] != Fold(b, ignoreCase)[i];
        return false;
      }
      i := i + 1;
    }
    return true;
  }

  // Equal keys hash equally, in both case modes.
  lemma {:induction false} EqualKeysHashEqually(a: string, b: string, ignoreCase: bool, code: int)
    requires Fold(a, ignoreCase) == Fold(b, ignoreCase)
    ensures HashFrom(code, a, ignoreCase) == HashFrom(code, b, ignoreCase)
    decreases |a|
  {
    if a == "" {
    } else {
      assert |a| == |b|;
      assert Fold(a, ignoreCase)[0] == Fold(b, ignoreCase)[0];
      assert Fold(a[1..], ignoreCase) == Fold(a, ignoreCase)[1..];
      assert Fold(b[1..], ignoreCase) == Fold(b, ignoreCase)[1..];
      var x := if ignoreCase then Lower(a[0]) else a[0];
      EqualKeysHashEqually(a[1..], b[1..], ignoreCase, Wrap(code * 31 + Signed(x)));
    }
  }

  ghost predicate Holds(bucket: seq<string>, f: string, ignoreCase: bool) {
    exists i :: 0 <= i < |bucket| && Fold(bucket[i], ignoreCase) == f
  }

  // Every key sits in the bucket of its hash, and what a bucket holds is told by the set of
  // folded keys; no bucket holds a key twice, up to case.
  ghost predicate BucketSound(bucket: seq<string>, b: nat, count: nat, folded: set<string>, ignoreCase: bool) {
    && count > 0
    && (forall i :: 0 <= i < |bucket| ==>
          Bucket(Code(bucket[i], ignoreCase), count) == b && Fold(bucket[i], ignoreCase) in folded)
    && (forall i, j :: 0 <= i < j < |bucket| ==> Fold(bucket[i], ignoreCase) != Fold(bucket[j], ignoreCase))
  }

  ghost predicate Table(buckets: seq<seq<string>>, folded: set<string>, ignoreCase: bool) {
    && |buckets| > 0
    && (forall b :: 0 <= b < |buckets| ==> BucketSound(buckets[b], b, |buckets|, folded, ignoreCase))
    && (forall f :: f in folded ==> exists b :: 0 <= b < |buckets| && Holds(buckets[b], f, ignoreCase))
  }

  lemma BucketGrows(bucket: seq<string>, b: nat, count: nat, folded: set<string>, f: string, ignoreCase: bool)
    requires BucketSound(bucket, b, count, folded, ignoreCase)
    ensures BucketSound(bucket, b, count, folded + {f}, ignoreCase)
  {
  }

  lemma BucketTakes(bucket: seq<string>, b: nat, count: nat, folded: set<string>, key: string, ignoreCase: bool)
    requires BucketSound(bucket, b, count, folded, ignoreCase)
    requires Fold(key, ignoreCase) !in folded && Bucket(Code(key, ignoreCase), count) == b
    ensures BucketSound(bucket + [key], b, count, folded + {Fold(key, ignoreCase)}, ignoreCase)
    ensures Holds(bucket + [key], Fold(key, ignoreCase), ignoreCase)
    ensures forall f :: Holds(bucket, f, ignoreCase) ==> Holds(bucket + [key], f, ignoreCase)
  {
    hide Code, Bucket, Fold;
    var grown := bucket + [key];
    assert grown[|bucket|] == key;
    forall f | Holds(bucket, f, ignoreCase) ensures Holds(grown, f, ignoreCase) {
      var i :| 0 <= i < |bucket| && Fold(bucket[i], ignoreCase) == f;
      assert grown[i] == bucket[i];
    }
  }

  lemma TableTakes(buckets: seq<seq<string>>, folded: set<string>, key: string, ignoreCase: bool)
    requires Table(buckets, folded, ignoreCase) && Fold(key, ignoreCase) !in folded
    ensures var b := Bucket(Code(key, ignoreCase), |buckets|);
            Table(buckets[b := buckets[b] + [key]], folded + {Fold(key, ignoreCase)}, ignoreCase)
  {
    hide Code, Bucket, Fold, BucketSound, Holds;
    var f, b := Fold(key, ignoreCase), Bucket(Code(key, ignoreCase), |buckets|);
    var grown := buckets[b := buckets[b] + [key]];
    BucketTakes(buckets[b], b, |buckets|, folded, key, ignoreCase);
    forall c | 0 <= c < |grown| ensures BucketSound(grown[c], c, |grown|, folded + {f}, ignoreCase) {
      BucketGrows(buckets[c], c, |buckets|, folded, f, ignoreCase);
    }
    forall g | g in folded + {f} ensures exists c :: 0 <= c < |grown| && Holds(grown[c], g, ignoreCase) {
      if g == f {
        assert Holds(grown[b], g, ignoreCase);
      } else {
        var c :| 0 <= c < |buckets| && Holds(buckets[c], g, ignoreCase);
        assert Holds(grown[c], g, ignoreCase);
      }
    }
  }

  // A key that is held, up to case, is held in the bucket of its own hash.
  lemma InItsBucket(buckets: seq<seq<string>>, folded: set<string>, key: string, ignoreCase: bool)
    requires Table(buckets, folded, ignoreCase)
    ensures Fold(key, ignoreCase) in folded <==>
            Holds(buckets[Bucket(Code(key, ignoreCase), |buckets|)], Fold(key, ignoreCase), ignoreCase)
  {
    hide Code, Bucket, Fold;
    var f, home := Fold(key, ignoreCase), Bucket(Code(key, ignoreCase), |buckets|);
    assert BucketSound(buckets[home], home, |buckets|, folded, ignoreCase);
    if f in folded {
      var b :| 0 <= b < |buckets| && Holds(buckets[b], f, ignoreCase);
      var i :| 0 <= i < |buckets[b]| && Fold(buckets[b][i], ignoreCase) == f;
      SameCode(buckets[b][i], key, ignoreCase);
      assert BucketSound(buckets[b], b, |buckets|, folded, ignoreCase);
    }
  }

  lemma SameCode(a: string, b: string, ignoreCase: bool)
    requires Fold(a, ignoreCase) == Fold(b, ignoreCase)
    ensures Code(a, ignoreCase) == Code(b, ignoreCase)
  {
    EqualKeysHashEqually(a, b, ignoreCase, 0);
  }

  method ScanBucket(bucket: seq<string>, key: string, ignoreCase: bool) returns (at: Option<nat>)
    ensures at.Some? ==> at.value < |bucket| && Fold(bucket[at.value], ignoreCase) == Fold(key, ignoreCase)
    ensures at.Some? <==> Holds(bucket, Fold(key, ignoreCase), ignoreCase)
  {
    hide Fold;
    var i := 0;
    while i < |bucket|
      invariant 0 <= i <= |bucket|
      invariant forall k :: 0 <= k < i ==> Fold(bucket[k], ignoreCase) != Fold(key, ignoreCase)
    {
      var same := Equal(bucket[i], key, ignoreCase);
      if same {
        return Some(i);
      }
      i := i + 1;
    }
    return None;
  }

  class CharSet {
    const ignoreCase: bool
    var buckets: seq<seq<string>>
    ghost var Folded: set<string>  // the strings held, case-folded

    ghost predicate Valid()
      reads this
    {
      Table(buckets, Folded, ignoreCase)
    }

    constructor (bucketCount: nat, ignoreCase: bool)
      requires bucketCount > 0
      ensures Valid() && Folded == {} && this.ignoreCase == ignoreCase
    {
      this.ignoreCase := ignoreCase;
      buckets := seq(bucketCount, i => []);
      Folded := {};
    }

    method FindInBucket(key: string) returns (b: nat, at: Option<nat>)
      requires Valid()
      ensures b == Bucket(Code(key, ignoreCase), |buckets|)
      ensures at.Some? <==> Fold(key, ignoreCase) in Folded
    {
      hide Code, Bucket, Fold, Holds;
      InItsBucket(buckets, Folded, key, ignoreCase);
      var code := Hash(key, ignoreCase);
      b := Bucket(code, |buckets|);
      at := ScanBucket(buckets[b], key, ignoreCase);
    }

    method Contains(key: string) returns (r: bool)
      requires Valid()
      ensures r <==> Fold(key, ignoreCase) in Folded
    {
      var b, at := FindInBucket(key);
      r := at.Some?;
    }

    // The copy of the key refuses an empty range: adding the empty string throws.
    method Add(key: string) returns (r: Result<bool, string>)
      requires Valid()
      modifies this
      ensures Valid()
      ensures r.Failure? <==> key == ""
      ensures r.Success? ==> (r.value <==> Fold(key, ignoreCase) !in old(Folded))
      ensures Folded == if key == "" then old(Folded) else old(Folded) + {Fold(key, ignoreCase)}
    {
      if key == "" {
        return Failure("Range must guarantee from < to");
      }
      var b, at := FindInBucket(key);
      if at.Some? {
        return Success(false);
      }
      TableTakes(buckets, Folded, key, ignoreCase);
      hide Table, Fold, Code, Bucket;
      buckets := buckets[b := buckets[b] + [key]];
      Folded := Folded + {Fold(key, ignoreCase)};
      return Success(true);
    }

    method Clear()
      requires Valid()
      modifies this
      ensures Valid() && Folded == {}
    {
      buckets := seq(|buckets|, i => []);
      Folded := {};
    }
  }

  // ---------- the folding and the code, as numbers ----------

  // The same letter in two cases: codes 65..90 and 97..122, 32 apart.
  predicate CaseOf(c: char, d: char) { 65 <= c as int <= 90 && d as int == c as int + 32 }

  // Two keys are the same up to case when they differ in the case of letters only.
  lemma FoldIff(a: string, b: string)
    ensures Fold(a, false) == a
    ensures Fold(a, true) == Fold(b, true) <==>
            |a| == |b| && forall i :: 0 <= i < |a| ==> a[i] == b[i] || CaseOf(a[i], b[i]) || CaseOf(b[i], a[i])
  {
    if |a| == |b| {
      forall i | 0 <= i < |a|
        ensures Fold(a, true)[i] == Fold(b, true)[i] <==> a[i] == b[i] || CaseOf(a[i], b[i]) || CaseOf(b[i], a[i])
      {
      }
    }
  }

  // A key in lower case is its own folding.
  lemma FoldedIsLower(a: string, i: nat)
    requires i < |a|
    ensures !(65 <= Fold(a, true)[i] as int <= 90)
  {
  }

  // Where two numbers agree in their last 32 bits.
  predicate Same32(x: int, y: int) { (x - y) % 0x1_0000_0000 == 0 }

  lemma WrapLaw(x: int)
    ensures Same32(Wrap(x), x) && -0x8000_0000 <= Wrap(x) < 0x8000_0000
  {
  }

  lemma SignedLaw(c: char)
    ensures (Signed(c) - c as int) % 256 == 0 && -128 <= Signed(c) < 128
  {
  }

  // c[0] * 31^(n-1) + ... + c[n-1]
  function Polynomial(s: string): int {
    if s == "" then 0 else Polynomial(s[..|s| - 1]) * 31 + Signed(s[|s| - 1])
  }

  lemma Same32Step(x: int, y: int, z: int)
    requires Same32(x, y)
    ensures Same32(x * 31 + z, y * 31 + z)
  {
    var k := (x - y) / 0x1_0000_0000;
    assert (x * 31 + z) - (y * 31 + z) == 31 * k * 0x1_0000_0000;
  }

  lemma {:induction false} HashSnoc(code: int, s: string, c: char, ignoreCase: bool)
    ensures HashFrom(code, s + [c], ignoreCase) ==
            Wrap(HashFrom(code, s, ignoreCase) * 31 + Signed(if ignoreCase then Lower(c) else c))
    decreases |s|
  {
    hide Wrap, Signed, Lower;
    if s == "" {
      assert (s + [c])[1..] == "";
    } else {
      assert (s + [c])[1..] == s[1..] + [c];
      HashSnoc(Wrap(code * 31 + Signed(if ignoreCase then Lower(s[0]) else s[0])), s[1..], c, ignoreCase);
    }
  }

  // The code is the value of the folded key as a polynomial in 31, as far as 32 bits go.
  lemma {:induction false} CodeIsPolynomial(s: string, ignoreCase: bool)
    ensures Same32(Code(s, ignoreCase), Polynomial(Fold(s, ignoreCase)))
    ensures -0x8000_0000 <= Code(s, ignoreCase) < 0x8000_0000
    decreases |s|
  {
    hide Wrap, Signed, Lower, Same32;
    if s == "" {
      SameZero();
    } else {
      var t, c := s[..|s| - 1], s[|s| - 1];
      CodeIsPolynomial(t, ignoreCase);
      assert s == t + [c];
      HashSnoc(0, t, c, ignoreCase);
      var d := if ignoreCase then Lower(c) else c;
      assert Fold(s, ignoreCase)[..|s| - 1] == Fold(t, ignoreCase);
      Same32Step(Code(t, ignoreCase), Polynomial(Fold(t, ignoreCase)), Signed(d));
      WrapLaw(Code(t, ignoreCase) * 31 + Signed(d));
      SameTrans(Code(s, ignoreCase), Code(t, ignoreCase) * 31 + Signed(d), Polynomial(Fold(s, ignoreCase)));
    }
  }

  lemma SameZero()
    ensures Same32(0, 0)
  {
  }

  lemma SameTrans(x: int, y: int, z: int)
    requires Same32(x, y) && Same32(y, z)
    ensures Same32(x, z)
  {
    assert x - z == (x - y) + (y - z);
  }
}
