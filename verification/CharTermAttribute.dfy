// CharTermAttributeImpl of src/Analysis/AttributeImpl.cpp: a term kept in a growable byte
// buffer that several attributes may share.
module CharTermAttribute {
  import opened Wrappers

  // Overwrites part of a store.
  function Splice(store: seq<char>, at: nat, piece: seq<char>): (r: seq<char>)
    requires at + |piece| <= |store|
    ensures |r| == |store|
  {
    store[..at] + piece + store[at + |piece|..]
  }

  // arrayutil::Oversize
  function Oversize(n: nat): nat { n + if n / 8 < 3 then 3 else n / 8 }

  // The least size that leaves room for three more and for an eighth more.
  lemma OversizeIff(n: nat, m: nat)
    ensures m >= Oversize(n) <==> m >= n + 3 && 8 * (m - n) + 7 >= n
  {
  }

  // A splice, cell by cell.
  lemma SpliceAt(store: seq<char>, at: nat, piece: seq<char>, i: nat)
    requires at + |piece| <= |store| && i < |store|
    ensures Splice(store, at, piece)[i] == if at <= i < at + |piece| then piece[i - at] else store[i]
  {
  }

  // arrayutil::CopyOf; what lies beyond the copied part is not specified.
  method CopyOf(original: array<char>, newLength: nat) returns (copy: array<char>)
    ensures fresh(copy) && copy.Length == newLength
    ensures forall i :: 0 <= i < newLength && i < original.Length ==> copy[i] == original[i]
  {
    copy := new char[newLength];
    forall i | 0 <= i < newLength && i < original.Length {
      copy[i] := original[i];
    }
  }

  // std::memcpy
  method MemCopy(target: array<char>, at: nat, piece: seq<char>)
    requires at + |piece| <= target.Length
    modifies target
    ensures target[..] == Splice(old(target[..]), at, piece)
  {
    forall i | 0 <= i < |piece| {
      target[at + i] := piece[i];
    }
    assert target[..] == Splice(old(target[..]), at, piece);
  }

  class CharTerm {
    var buffer: array<char>
    var capacity: nat
    var length: nat

    ghost predicate Valid()
      reads this
    {
      capacity == buffer.Length >= 10 && length <= capacity
    }

    ghost function Term(): seq<char>
      requires Valid()
      reads this, buffer
    {
      buffer[..length]
    }

    constructor ()
      ensures Valid() && fresh(buffer) && Term() == [] && capacity == 10
    {
      buffer := new char[10];
      capacity := 10;
      length := 0;
    }

    // The copy constructor, which Clone calls.
    constructor CopyFrom(other: CharTerm)
      requires other.Valid()
      ensures Valid() && fresh(buffer) && capacity == other.capacity && Term() == other.Term()
    {
      capacity := other.capacity;
      length := other.length;
      buffer := other.buffer;
      new;
      buffer := CopyOf(other.buffer, other.capacity);
    }

    method Clone() returns (c: CharTerm)
      requires Valid()
      ensures fresh(c) && c.Valid() && fresh(c.buffer) && c.Term() == Term()
    {
      c := new CharTerm.CopyFrom(this);
    }

    // Leaves the old content behind.
    method GrowTermBuffer(newSize: nat)
      requires Valid()
      modifies this`buffer, this`capacity
      ensures capacity == buffer.Length >= newSize && capacity >= old(capacity)
      ensures newSize <= old(capacity) ==> unchanged(this)
      ensures newSize > old(capacity) ==> fresh(buffer) && capacity == Oversize(newSize)
    {
      if capacity < newSize {
        capacity := Oversize(newSize);
        buffer := new char[capacity];
      }
    }

    // Takes the old content along.
    method ResizeBuffer(newCapacity: nat)
      requires Valid()
      modifies this`buffer, this`capacity
      ensures Valid() && capacity >= newCapacity && capacity >= old(capacity)
      ensures newCapacity <= old(capacity) ==> unchanged(this)
      ensures newCapacity > old(capacity) ==>
                fresh(buffer) && capacity == Oversize(newCapacity) && buffer[..old(capacity)] == old(buffer[..])
    {
      if capacity < newCapacity {
        buffer := CopyOf(buffer, Oversize(newCapacity));
        capacity := Oversize(newCapacity);
      }
    }

    // The source's buffer may be this attribute's own: then nothing may overlap.
    method CopyBuffer(source: array<char>, offset: nat, len: nat)
      requires Valid() && offset + len <= source.Length
      requires source == buffer ==> offset == 0 || len <= offset
      modifies this, buffer
      ensures Valid() && length == len && Term() == old(source[offset..offset + len])
      ensures len <= old(capacity) ==>
                buffer == old(buffer) && buffer[..] == Splice(old(buffer[..]), 0, old(source[offset..offset + len]))
      ensures len > old(capacity) ==>
                fresh(buffer) && capacity == Oversize(len) && old(buffer)[..] == old(buffer[..])
    {
      var piece := source[offset..offset + len];
      GrowTermBuffer(len);
      MemCopy(buffer, 0, piece);
      length := len;
    }

    method SetLength(len: nat) returns (r: Result<(), string>)
      requires Valid()
      modifies this`length
      ensures Valid()
      ensures r.Success? <==> len <= capacity
      ensures length == if len <= capacity then len else old(length)
    {
      if len > capacity {
        return Failure("out of bounds");
      }
      length := len;
      return Success(());
    }

    // Clear does the same.
    method SetEmpty()
      requires Valid()
      modifies this`length
      ensures Valid() && Term() == []
    {
      length := 0;
    }

    // What an append does to the store: in place if the capacity suffices, on a new and
    // larger buffer otherwise.
    twostate predicate Appended(was: array<char>, piece: seq<char>)
      reads this, buffer, was
    {
      && was == old(buffer) && old(Valid()) && Valid() && length == old(length) + |piece|
      && Term() == old(Term()) + piece
      && (old(length) + |piece| <= old(capacity) ==>
            buffer == was && buffer[..] == Splice(old(buffer[..]), old(length), piece))
      && (old(length) + |piece| > old(capacity) ==>
            fresh(buffer) && capacity == Oversize(length) && was[..] == old(was[..]))
    }

    method Put(piece: seq<char>)
      requires Valid()
      modifies this, buffer
      ensures Appended(old(buffer), piece)
    {
      ghost var term := Term();
      ResizeBuffer(length + |piece|);
      assert buffer[..length] == term;
      MemCopy(buffer, length, piece);
      assert buffer[..length + |piece|] == term + piece;
      length := length + |piece|;
    }

    method Append(csq: string, start: nat, end: nat) returns (r: Result<(), string>)
      requires Valid()
      modifies this, buffer
      ensures r.Success? <==> start <= end <= |csq|
      ensures r.Success? ==> Appended(old(buffer), csq[start..end])
      ensures r.Failure? ==> unchanged(this, old(buffer))
    {
      if start > end || end > |csq| {
        return Failure("out of bounds");
      }
      if start < end {
        Put(csq[start..end]);
      } else {
        assert csq[start..end] == "";
        assert buffer[..] == Splice(buffer[..], length, "");
      }
      return Success(());
    }

    method AppendChar(c: char)
      requires Valid()
      modifies this, buffer
      ensures Appended(old(buffer), [c])
    {
      Put([c]);
    }

    // The two ranges of the memcpy must not overlap.  An attribute appended to itself must have
    // the room: else the source may read the buffer that the growth has freed.
    method AppendTerm(other: CharTerm)
      requires Valid() && other.Valid() && (other == this ==> length + length <= capacity)
      requires buffer == other.buffer && length + other.length <= capacity ==> other.length <= length
      modifies this, buffer
      ensures Appended(old(buffer), old(other.Term()))
    {
      Put(other.buffer[..other.length]);
    }

    // other's buffer becomes this one's.
    method ShallowCopyTo(other: CharTerm)
      requires Valid()
      modifies other
      ensures other.Valid() && other.buffer == buffer && other.capacity == capacity && other.length == length
      ensures Valid() && buffer == old(buffer) && buffer[..] == old(buffer[..]) && length == old(length)
    {
      other.buffer := buffer;
      other.capacity := capacity;
      other.length := length;
    }

    // operator=
    method Assign(other: CharTerm)
      requires Valid() && other.Valid()
      modifies this, buffer
      ensures Valid() && Term() == old(other.Term())
      ensures other.Valid() && other.Term() == old(other.Term())
    {
      ghost var term := other.Term();
      var len := other.length;
      CopyBuffer(other.buffer, 0, other.capacity);
      length := len;
      assert buffer[..len] == term;
    }
  }

  // ---------- any run of operations, against a plain byte sequence ----------

  datatype Op = Copy(bytes: seq<char>) | AppendPiece(piece: seq<char>) | SetLengthTo(n: nat) | Empty

  // A backing store in which cells that were never written since the last reallocation are
  // unknown, and how much of it is visible.
  datatype Store = Store(cells: seq<Option<char>>, len: nat)

  function Known(s: seq<char>): (r: seq<Option<char>>)
    ensures |r| == |s| && forall i :: 0 <= i < |s| ==> r[i] == Some(s[i])
  {
    seq(|s|, i requires 0 <= i < |s| => Some(s[i]))
  }

  function Unknown(n: nat): (r: seq<Option<char>>)
    ensures |r| == n && forall i :: 0 <= i < n ==> r[i] == None
  {
    seq(n, i => None)
  }

  // Writing `piece` behind the first `at` cells.
  function Write(m: Store, at: nat, piece: seq<char>): (r: Store)
    requires at <= |m.cells|
    ensures r.len == at + |piece| <= |r.cells| && |m.cells| <= |r.cells|
    ensures r.cells[..at] == m.cells[..at] && r.cells[at..r.len] == Known(piece)
  {
    var n := at + |piece|;
    var rest := if n <= |m.cells| then m.cells[n..] else Unknown(Oversize(n) - n);
    Store(m.cells[..at] + Known(piece) + rest, n)
  }

  function Apply(m: Store, op: Op): (r: Store)
    requires m.len <= |m.cells|
    ensures r.len <= |r.cells| && |m.cells| <= |r.cells|
  {
    match op
    case Copy(bytes) => Write(m, 0, bytes)
    case AppendPiece(piece) => Write(m, m.len, piece)
    case SetLengthTo(n) => if n <= |m.cells| then m.(len := n) else m
    case Empty => m.(len := 0)
  }

  function ApplyAll(m: Store, ops: seq<Op>): (r: Store)
    requires m.len <= |m.cells|
    ensures r.len <= |r.cells| && |m.cells| <= |r.cells|
    decreases |ops|
  {
    if ops == [] then m else ApplyAll(Apply(m, ops[0]), ops[1..])
  }

  ghost predicate Agrees(store: seq<char>, cells: seq<Option<char>>) {
    |store| == |cells| && forall i :: 0 <= i < |cells| && cells[i].Some? ==> store[i] == cells[i].value
  }

  ghost predicate Represents(t: CharTerm, m: Store)
    reads t, t.buffer
  {
    t.Valid() && m.len == t.length && Agrees(t.buffer[..], m.cells)
  }

  // `store` before and `store'` after writing `piece` behind the first `at` bytes.
  lemma WriteAgrees(m: Store, at: nat, piece: seq<char>, store: seq<char>, store': seq<char>)
    requires Agrees(store, m.cells) && at <= |store|
    requires if at + |piece| <= |store| then store' == Splice(store, at, piece)
             else |store'| == Oversize(at + |piece|) && store'[..at + |piece|] == store[..at] + piece
    ensures Agrees(store', Write(m, at, piece).cells)
  {
    var cells := Write(m, at, piece).cells;
    assert |store'| == |cells|;
    forall i | 0 <= i < |cells| && cells[i].Some? ensures store'[i] == cells[i].value {
      if i < at + |piece| {
        assert store'[i] == (store[..at] + piece)[i];
      }
    }
  }

  method Execute(t: CharTerm, op: Op, ghost m: Store)
    requires Represents(t, m)
    modifies t, t.buffer
    ensures Represents(t, Apply(m, op))
    ensures t.buffer == old(t.buffer) || fresh(t.buffer)
  {
    ghost var store, len := t.buffer[..], t.length;
    match op {
      case Copy(bytes) =>
        var source := new char[|bytes|](i requires 0 <= i < |bytes| => bytes[i]);
        assert source[0..0 + |bytes|] == bytes;
        t.CopyBuffer(source, 0, |bytes|);
        assert t.buffer[..|bytes|] == bytes;
        WriteAgrees(m, 0, bytes, store, t.buffer[..]);
      case AppendPiece(piece) =>
        var r := t.Append(piece, 0, |piece|);
        assert piece[0..|piece|] == piece;
        assert t.buffer[..len + |piece|] == store[..len] + piece;
        WriteAgrees(m, len, piece, store, t.buffer[..]);
      case SetLengthTo(n) =>
        var r := t.SetLength(n);
      case Empty =>
        t.SetEmpty();
    }
  }

  // The same operations on a byte sequence.
  function Plain(term: seq<char>, op: Op): seq<char> {
    match op
    case Copy(bytes) => bytes
    case AppendPiece(piece) => term + piece
    case SetLengthTo(n) => if n <= |term| then term[..n] else term
    case Empty => []
  }

  function PlainAll(term: seq<char>, ops: seq<Op>): seq<char>
    decreases |ops|
  {
    if ops == [] then term else PlainAll(Plain(term, ops[0]), ops[1..])
  }

  function LengthAfter(len: nat, op: Op): nat {
    match op
    case Copy(bytes) => |bytes|
    case AppendPiece(piece) => len + |piece|
    case SetLengthTo(n) => n
    case Empty => 0
  }

  // No SetLength makes the term longer than it is.
  predicate Shrinking(len: nat, ops: seq<Op>)
    decreases |ops|
  {
    ops == [] || ((ops[0].SetLengthTo? ==> ops[0].n <= len) && Shrinking(LengthAfter(len, ops[0]), ops[1..]))
  }

  // Writing behind a known prefix.
  lemma WriteIsPlain(m: Store, at: nat, term: seq<char>, piece: seq<char>)
    requires at <= |m.cells| && m.cells[..at] == Known(term)
    ensures var r := Write(m, at, piece); r.cells[..r.len] == Known(term + piece)
  {
    hide Write;
    var r := Write(m, at, piece);
    assert r.cells[..r.len] == r.cells[..at] + r.cells[at..r.len];
    assert Known(term + piece) == Known(term) + Known(piece);
  }

  lemma ApplyIsPlain(m: Store, term: seq<char>, op: Op)
    requires m.len <= |m.cells| && m.cells[..m.len] == Known(term)
    requires op.SetLengthTo? ==> op.n <= m.len
    ensures var r := Apply(m, op);
            r.cells[..r.len] == Known(Plain(term, op)) && r.len == LengthAfter(m.len, op)
  {
    hide Write;
    match op {
      case Copy(bytes) =>
        WriteIsPlain(m, 0, [], bytes);
        assert [] + bytes == bytes;
      case AppendPiece(piece) =>
        WriteIsPlain(m, m.len, term, piece);
      case SetLengthTo(n) =>
        assert m.cells[..n] == m.cells[..m.len][..n] && Known(term[..n]) == Known(term)[..n];
      case Empty =>
    }
  }

  lemma {:induction false} StoreIsPlain(m: Store, term: seq<char>, ops: seq<Op>)
    requires m.len <= |m.cells| && m.cells[..m.len] == Known(term) && Shrinking(m.len, ops)
    ensures var r := ApplyAll(m, ops); r.cells[..r.len] == Known(PlainAll(term, ops))
    decreases |ops|
  {
    hide Apply, Plain;
    if ops == [] {
    } else {
      ApplyIsPlain(m, term, ops[0]);
      StoreIsPlain(Apply(m, ops[0]), Plain(term, ops[0]), ops[1..]);
    }
  }

  lemma VisibleTerm(t: CharTerm, m: Store, term: seq<char>)
    requires Represents(t, m) && m.cells[..m.len] == Known(term)
    ensures t.Term() == term
  {
  }

  // Any run of operations: the attribute follows the model, cell by cell.
  method ExecuteAll(t: CharTerm, ops: seq<Op>, ghost m: Store)
    requires Represents(t, m)
    modifies t, t.buffer
    ensures Represents(t, ApplyAll(m, ops))
    ensures old(t.capacity) <= t.capacity
    ensures Shrinking(old(t.length), ops) && m.cells[..m.len] == Known(old(t.Term())) ==>
              t.Term() == PlainAll(old(t.Term()), ops)
    ensures t.buffer == old(t.buffer) || fresh(t.buffer)
  {
    ghost var now := m;
    var i := 0;
    while i < |ops|
      invariant 0 <= i <= |ops|
      invariant Represents(t, now) && ApplyAll(m, ops) == ApplyAll(now, ops[i..])
      invariant t.buffer == old(t.buffer) || fresh(t.buffer)
    {
      Execute(t, ops[i], now);
      assert ops[i..][1..] == ops[i + 1..];
      now := Apply(now, ops[i]);
      i := i + 1;
    }
    if Shrinking(old(t.length), ops) && m.cells[..m.len] == Known(old(t.Term())) {
      StoreIsPlain(m, old(t.Term()), ops);
      VisibleTerm(t, now, PlainAll(old(t.Term()), ops));
    }
  }

  // ---------- sharing ----------

  function Concat(pieces: seq<seq<char>>): seq<char>
    decreases |pieces|
  {
    if pieces == [] then [] else Concat(pieces[..|pieces| - 1]) + pieces[|pieces| - 1]
  }

  // Appends on one side alone, with or without reallocation, never reach the other side.
  method AppendsOnOneSide(a: CharTerm, b: CharTerm, pieces: seq<string>)
    requires a != b && a.Valid() && b.Valid()
    requires a.buffer == b.buffer ==> b.length <= a.length
    modifies a, a.buffer
    ensures a.Valid() && a.Term() == old(a.Term()) + Concat(pieces)
    ensures b.Valid() && b.Term() == old(b.Term())
  {
    hide Splice, Oversize;
    var i := 0;
    while i < |pieces|
      invariant 0 <= i <= |pieces|
      invariant a.Valid() && b.Valid() && (a.buffer == b.buffer ==> b.length <= a.length)
      invariant a.buffer == old(a.buffer) || fresh(a.buffer)
      invariant a.Term() == old(a.Term()) + Concat(pieces[..i])
      invariant b.Term() == old(b.Term())
    {
      label before:
      ghost var shared, at, store := a.buffer == b.buffer, a.length, a.buffer[..];
      var piece := pieces[i];
      var r := a.Append(piece, 0, |piece|);
      assert piece[0..|piece|] == piece;
      assert b.Term() == old@before(b.Term()) by {
        if shared && at + |piece| <= |store| {
          SpliceBehind(store, at, piece, b.length);
          assert b.buffer[..b.length] == b.buffer[..][..b.length];
        } else if shared {
          assert b.buffer[..] == store;
        }
      }
      assert pieces[..i + 1][..i] == pieces[..i];
      i := i + 1;
    }
    assert pieces[..i] == pieces;
  }

  // Overwriting behind the first n cells does not change them.
  lemma SpliceBehind(store: seq<char>, at: nat, piece: seq<char>, n: nat)
    requires at + |piece| <= |store| && n <= at
    ensures Splice(store, at, piece)[..n] == store[..n]
  {
  }

  // Exactly when an append in place goes unseen through the first n cells: it starts behind
  // them, or the cells it overwrites there already held its bytes.
  lemma SpliceUnseenIff(store: seq<char>, at: nat, piece: seq<char>, n: nat)
    requires at + |piece| <= |store| && n <= |store|
    ensures Splice(store, at, piece)[..n] == store[..n] <==>
            (forall i :: 0 <= i < |piece| && at + i < n ==> piece[i] == store[at + i])
  {
  }

  // One append next to a sharer of any length, exactly.
  method AppendBeside(a: CharTerm, b: CharTerm, piece: string)
    requires a != b && a.Valid() && b.Valid()
    modifies a, a.buffer
    ensures a.Valid() && a.Term() == old(a.Term()) + piece
    ensures b.Valid()
    ensures b.Term() == old(b.Term()) <==>
            || old(a.buffer) != b.buffer
            || old(a.length + |piece| > a.capacity)
            || forall i :: 0 <= i < |piece| && old(a.length) + i < b.length ==> piece[i] == old(b.buffer[a.length + i])
  {
    hide Splice, Oversize;
    ghost var store := a.buffer[..];
    var r := a.Append(piece, 0, |piece|);
    assert piece[0..|piece|] == piece;
    if old(a.buffer) == b.buffer {
      if old(a.length) + |piece| <= old(a.capacity) {
        SpliceUnseenIff(store, old(a.length), piece, b.length);
        assert b.buffer[..b.length] == b.buffer[..][..b.length];
        assert old(b.Term()) == store[..b.length];
      } else {
        assert b.buffer[..] == store;
        assert b.buffer[..b.length] == store[..b.length];
      }
    }
  }

  // Sharing is not copying: after SetEmpty, an append on one side shows on the other.
  method SharedStoreExample() returns (before: seq<char>, after: seq<char>)
    ensures before == "ab" && after == "xb"
  {
    var a := new CharTerm();
    var r := a.Append("ab", 0, 2);
    assert "ab"[0..2] == "ab";
    var b := new CharTerm();
    a.ShallowCopyTo(b);
    before := b.buffer[..b.length];
    a.SetEmpty();
    a.AppendChar('x');
    after := b.buffer[..b.length];
  }

  // A clone shares nothing: no run of operations on it reaches the original.
  method CloneIsSeparate(a: CharTerm, ops: seq<Op>) returns (c: CharTerm)
    requires a.Valid()
    ensures a.Valid() && a.Term() == old(a.Term())
    ensures fresh(c) && c.Valid() && (Shrinking(a.length, ops) ==> c.Term() == PlainAll(a.Term(), ops))
  {
    c := a.Clone();
    ghost var m := Store(Known(c.buffer[..]), c.length);
    assert m.cells[..m.len] == Known(c.Term());
    ExecuteAll(c, ops, m);
  }
}
