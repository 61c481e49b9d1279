// StringReader of src/Analysis/Reader.cpp, over a string stream that is a text, a position
// and the end-of-file flag; and the read loop of Analyzer::Normalize.
module StringReaders {
  import opened Wrappers
  import opened TextFields

  function IsNewline(): char -> bool { c => c == '\n' }

  class StringReader {
    var text: string
    var pos: nat
    var eof: bool

    ghost predicate Valid()
      reads this
    {
      pos <= |text| && (eof ==> pos == |text|)
    }

    ghost function Remaining(): string
      requires Valid()
      reads this
    {
      text[pos..]
    }

    constructor (value: string)
      ensures Valid() && Remaining() == value && !eof
    {
      text, pos, eof := value, 0, false;
    }

    method SetValue(value: string)
      modifies this
      ensures Valid() && Remaining() == value && !eof
    {
      text, pos, eof := value, 0, false;
    }

    function Eof(): bool
      reads this
    {
      eof
    }

    // istringstream::get: running into the end sets the flag.
    method Get() returns (c: Option<char>)
      requires Valid()
      modifies this
      ensures Valid() && text == old(text)
      ensures old(eof) || old(Remaining()) == "" ==> c == None && eof && Remaining() == old(Remaining())
      ensures !old(eof) && old(Remaining()) != "" ==>
                c == Some(old(Remaining())[0]) && Remaining() == old(Remaining())[1..] && !eof
    {
      if eof || pos == |text| {
        eof := true;
        return None;
      }
      c := Some(text[pos]);
      pos := pos + 1;
    }

    // Fills buf[off..len]; -1 once the flag is set, and the number of bytes otherwise.
    method Read(buf: array<char>, off: nat, len: nat) returns (read: int)
      requires Valid() && len <= buf.Length
      modifies this, buf
      ensures Valid() && text == old(text)
      ensures old(eof) ==> read == -1 && eof && Remaining() == old(Remaining()) && buf[..] == old(buf[..])
      ensures !old(eof) ==>
                var room := if off < len then len - off else 0;
                && read == (if room <= |old(Remaining())| then room else |old(Remaining())|)
                && (read > 0 ==> buf[off..off + read] == old(Remaining())[..read])
                && (forall i :: 0 <= i < buf.Length && !(off <= i < off + read) ==> buf[i] == old(buf[i]))
                && Remaining() == old(Remaining())[read..]
                && (eof <==> read < room)
    {
      if eof {
        return -1;
      }
      read := 0;
      ghost var all := Remaining();
      var i := off;
      while i < len
        invariant i == off + read && 0 <= read <= |all| && (read > 0 ==> i <= len)
        invariant Valid() && text == old(text) && !eof
        invariant read > 0 ==> buf[off..i] == all[..read]
        invariant forall k :: 0 <= k < buf.Length && !(off <= k < i) ==> buf[k] == old(buf[k])
        invariant Remaining() == all[read..]
      {
        var got := Get();
        if got == None {
          return;
        }
        buf[i] := got.value;
        assert all[..read + 1] == all[..read] + [all[read]];
        read := read + 1;
        i := i + 1;
      }
    }

    // std::getline: a line that the flag forbids to read leaves its argument as it was.
    method ReadLine(line0: string) returns (line: string)
      requires Valid()
      modifies this
      ensures Valid() && text == old(text)
      ensures old(eof) ==> line == line0 && eof
      ensures !old(eof) ==>
                var k := NextSeparator(old(Remaining()), IsNewline(), 0);
                && line == old(Remaining())[..k]
                && (eof <==> k == |old(Remaining())|)
                && (!eof ==> Remaining() == old(Remaining())[k + 1..])
    {
      line := line0;
      if eof {
        return;
      }
      line := "";
      ghost var all := Remaining();
      while true
        invariant Valid() && text == old(text) && !eof
        invariant |line| <= |all| && line == all[..|line|] && Remaining() == all[|line|..]
        invariant NextSeparator(all, IsNewline(), 0) == NextSeparator(all, IsNewline(), |line|)
        decreases |all| - |line|
      {
        var c := Get();
        if c == None {
          return;
        }
        if c.value == '\n' {
          return;
        }
        assert all[..|line| + 1] == all[..|line|] + [all[|line|]];
        line := line + [c.value];
      }
    }
  }

  // The 256-byte read loop of Analyzer::Normalize over the base class's reader, which is the
  // string reader itself: it accumulates exactly the text, whatever its length.
  method ReadAll(reader: StringReader) returns (filtered: string)
    requires reader.Valid() && !reader.eof
    modifies reader
    ensures reader.Valid() && reader.eof
    ensures filtered == old(reader.Remaining())
  {
    var buffer := new char[256];
    filtered := "";
    ghost var all := reader.Remaining();
    while true
      invariant reader.Valid()
      invariant all == filtered + reader.Remaining()
      decreases |reader.Remaining()|, !reader.eof
    {
      var read := reader.Read(buffer, 0, 256);
      if read == -1 {
        break;
      }
      filtered := filtered + buffer[..read];
    }
  }
}
