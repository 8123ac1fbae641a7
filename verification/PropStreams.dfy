/**
 The byte streams that attributes are written to and read back from: a growing buffer, and a cursor that
 refuses to run past the end.  Numbers are stored with the lowest byte first.
 */
module PropStreams {

  import opened Basics

  type UInt16 = x: int | 0 <= x < 0x1_0000
  type UInt32 = x: int | 0 <= x < 0x1_0000_0000
  type Int32 = x: int | -0x8000_0000 <= x < 0x8000_0000

  const INITIAL: nat := 32

  // ---------------------------------------------------------------- numbers

  function Short(x: UInt16): (s: seq<Byte>)
    ensures |s| == 2
  {
    [x % 0x100, x / 0x100]
  }

  function ShortOf(s: seq<Byte>): UInt16
    requires |s| == 2
  {
    var a: int, b: int := s[0], s[1];
    a + 0x100 * b
  }

  function Long(x: UInt32): (s: seq<Byte>)
    ensures |s| == 4
  {
    [x % 0x100, x / 0x100 % 0x100, x / 0x1_0000 % 0x100, x / 0x100_0000]
  }

  function LongOf(s: seq<Byte>): UInt32
    requires |s| == 4
  {
    var a: int, b: int, c: int, d: int := s[0], s[1], s[2], s[3];
    a + 0x100 * b + 0x1_0000 * c + 0x100_0000 * d
  }

  /** A signed number in two's complement. */
  function Signed(x: Int32): (s: seq<Byte>)
    ensures |s| == 4
  {
    Long(if x < 0 then x + 0x1_0000_0000 else x)
  }

  function SignedOf(s: seq<Byte>): Int32
    requires |s| == 4
  {
    var x := LongOf(s);
    if x >= 0x8000_0000 then x - 0x1_0000_0000 else x
  }

  lemma ShortBack(x: UInt16)
    ensures ShortOf(Short(x)) == x
  {
  }

  lemma LongBack(x: UInt32)
    ensures LongOf(Long(x)) == x
  {
    assert x / 0x1_0000 == x / 0x100 / 0x100 && x / 0x100_0000 == x / 0x1_0000 / 0x100;
  }

  lemma SignedBack(x: Int32)
    ensures SignedOf(Signed(x)) == x
  {
    LongBack(if x < 0 then x + 0x1_0000_0000 else x);
  }

  // ---------------------------------------------------------------- strings

  /** What addString stores: a length of 16 bits, and as many bytes. */
  function Stored(s: seq<Byte>): seq<Byte>
  {
    Short(|s| % 0x1_0000) + s[..|s| % 0x1_0000]
  }

  /** What addLongString stores: the length has 32 bits here, but was cut to 16 before. */
  function StoredLong(s: seq<Byte>): seq<Byte>
  {
    Long(|s| % 0x1_0000) + s[..|s| % 0x1_0000]
  }

  /** getString: the string and how many bytes it took. */
  function StringAt(s: seq<Byte>): (r: Option<(seq<Byte>, nat)>)
    ensures r.Some? ==> r.value.1 <= |s|
  {
    if |s| < 2 then None
    else
      var n := ShortOf(s[..2]);
      if |s| - 2 < n then None else Some((s[2..2 + n], 2 + n))
  }

  /** getLongString */
  function LongStringAt(s: seq<Byte>): (r: Option<(seq<Byte>, nat)>)
    ensures r.Some? ==> r.value.1 <= |s|
  {
    if |s| < 4 then None
    else
      var n := LongOf(s[..4]);
      if |s| - 4 < n then None else Some((s[4..4 + n], 4 + n))
  }

  /** A stored string comes back, whatever follows it, exactly when it is shorter than 65536. */
  lemma StringBack(s: seq<Byte>, rest: seq<Byte>)
    ensures StringAt(Stored(s) + rest) == Some((s[..|s| % 0x1_0000], |Stored(s)|))
    ensures StringAt(Stored(s) + rest) == Some((s, |Stored(s)|)) <==> |s| < 0x1_0000
  {
    var n := |s| % 0x1_0000;
    var all := Stored(s) + rest;
    assert all[..2] == Short(n);
    ShortBack(n);
    assert all[2..2 + n] == s[..n];
    if n == |s| {
      assert s[..n] == s;
    }
  }

  lemma LongStringBack(s: seq<Byte>, rest: seq<Byte>)
    ensures LongStringAt(StoredLong(s) + rest) == Some((s[..|s| % 0x1_0000], |StoredLong(s)|))
    ensures LongStringAt(StoredLong(s) + rest) == Some((s, |StoredLong(s)|)) <==> |s| < 0x1_0000
  {
    var n := |s| % 0x1_0000;
    var all := StoredLong(s) + rest;
    hide Long, LongOf;
    assert all[..4] == Long(n);
    LongBack(n);
    assert all[4..4 + n] == s[..n];
    if n == |s| {
      assert s[..n] == s;
    }
  }

  // ---------------------------------------------------------------- PropWriteStream

  /** (n + 0x1F) & 0xFFFFFFE0 */
  function RoundedUp(n: nat): (r: nat)
    ensures n <= r < n + 32 && r % 32 == 0
  {
    (n + 31) / 32 * 32
  }

  class PropWriteStream {
    var buffer: array<Byte>
    var bufferSize: nat
    var size: nat

    constructor ()
      ensures Valid() && fresh(buffer) && Contents() == [] && bufferSize == INITIAL
    {
      buffer := new Byte[INITIAL](_ => 0);
      bufferSize, size := INITIAL, 0;
    }

    ghost predicate Valid()
      reads this
    {
      size <= bufferSize == buffer.Length
    }

    ghost function Contents(): seq<Byte>
      requires Valid()
      reads this, buffer
    {
      buffer[..size]
    }

    /** realloc: a larger buffer with the same bytes in front. */
    method Grow(more: nat)
      requires Valid()
      modifies this`buffer, this`bufferSize
      ensures Valid() && Contents() == old(Contents()) && fresh(buffer) && bufferSize == old(bufferSize) + more
    {
      bufferSize := bufferSize + more;
      var tmp := new Byte[bufferSize](_ => 0);
      forall i | 0 <= i < buffer.Length {
        tmp[i] := buffer[i];
      }
      buffer := tmp;
    }

    /** memcpy to the end of what is written. */
    method Copy(bytes: seq<Byte>)
      requires Valid() && |bytes| <= bufferSize - size
      modifies this`size, buffer
      ensures Valid() && Contents() == old(Contents()) + bytes
    {
      var start := size;
      forall i | 0 <= i < |bytes| {
        buffer[start + i] := bytes[i];
      }
      size := size + |bytes|;
      assert buffer[..start] == old(buffer[..size]);
      assert buffer[start..size] == bytes;
    }

    /** addType, addStruct and addBytes, for the bytes of the value. */
    method AddType(bytes: seq<Byte>)
      requires Valid()
      modifies this, buffer
      ensures Valid() && (buffer == old(buffer) || fresh(buffer))
      ensures Contents() == old(Contents()) + bytes
      ensures bufferSize == old(bufferSize) + if old(bufferSize - size) < |bytes| then |bytes| + 0x1F else 0
    {
      if bufferSize - size < |bytes| {
        Grow(|bytes| + 0x1F);
      }
      Copy(bytes);
    }

    /** addString */
    method AddString(add: seq<Byte>)
      requires Valid()
      modifies this, buffer
      ensures Valid() && (buffer == old(buffer) || fresh(buffer))
      ensures Contents() == old(Contents()) + Stored(add)
    {
      var strLen := |add| % 0x1_0000;
      AddType(Short(strLen));
      if bufferSize - size < strLen {
        Grow(RoundedUp(strLen));
      }
      Copy(add[..strLen]);
    }

    /** addLongString */
    method AddLongString(add: seq<Byte>)
      requires Valid()
      modifies this, buffer
      ensures Valid() && (buffer == old(buffer) || fresh(buffer))
      ensures Contents() == old(Contents()) + StoredLong(add)
    {
      hide Long;
      var strLen := |add| % 0x1_0000;
      AddType(Long(strLen));
      if bufferSize - size < strLen {
        Grow(RoundedUp(strLen));
      }
      Copy(add[..strLen]);
    }
  }

  // ---------------------------------------------------------------- PropStream

  class PropStream {
    const data: seq<Byte>
    var p: nat

    constructor (data: seq<Byte>)
      ensures Valid() && Rest() == data && this.data == data
    {
      this.data, p := data, 0;
    }

    predicate Valid()
      reads this
    {
      p <= |data|
    }

    /** What is still to be read. */
    function Rest(): seq<Byte>
      requires Valid()
      reads this
    {
      data[p..]
    }

    /** getType: the bytes of the value, or nothing at all when too few are left. */
    method GetType(n: nat) returns (ok: bool, bytes: seq<Byte>)
      requires Valid()
      modifies this`p
      ensures Valid() && (ok <==> n <= |old(Rest())|)
      ensures ok ==> bytes == old(Rest())[..n] && Rest() == old(Rest())[n..]
      ensures !ok ==> bytes == [] && Rest() == old(Rest())
    {
      if |data| - p < n { return false, []; }
      bytes := data[p..p + n];
      p := p + n;
      ok := true;
    }

    /** getString; the cursor stays behind the length when the bytes are missing. */
    method GetString() returns (ok: bool, s: seq<Byte>)
      requires Valid()
      modifies this`p
      ensures Valid() && (ok <==> StringAt(old(Rest())).Some?)
      ensures ok ==> s == StringAt(old(Rest())).value.0 && Rest() == old(Rest())[StringAt(old(Rest())).value.1..]
      ensures !ok ==> s == [] && Rest() == old(Rest())[if |old(Rest())| < 2 then 0 else 2..]
    {
      var bytes;
      ok, bytes := GetType(2);
      if !ok { return false, []; }
      var strLen := ShortOf(bytes);
      ok, s := GetType(strLen);
    }

    /** getLongString */
    method GetLongString() returns (ok: bool, s: seq<Byte>)
      requires Valid()
      modifies this`p
      ensures Valid() && (ok <==> LongStringAt(old(Rest())).Some?)
      ensures ok ==> s == LongStringAt(old(Rest())).value.0 && Rest() == old(Rest())[LongStringAt(old(Rest())).value.1..]
      ensures !ok ==> s == [] && Rest() == old(Rest())[if |old(Rest())| < 4 then 0 else 4..]
    {
      var bytes;
      ok, bytes := GetType(4);
      if !ok { return false, []; }
      var strLen := LongOf(bytes);
      ok, s := GetType(strLen);
    }
  }

  // ---------------------------------------------------------------- one after the other

  /** A string, and which of the two forms it is stored in. */
  datatype Text = Text(bytes: seq<Byte>, long: bool)

  function Written(t: Text): seq<Byte>
  {
    if t.long then StoredLong(t.bytes) else Stored(t.bytes)
  }

  function AllWritten(texts: seq<Text>): seq<Byte>
  {
    if texts == [] then [] else Written(texts[0]) + AllWritten(texts[1..])
  }

  lemma {:induction false} WrittenNext(texts: seq<Text>, t: Text)
    ensures AllWritten(texts + [t]) == AllWritten(texts) + Written(t)
  {
    if texts == [] {
      assert texts + [t] == [t] && AllWritten([t][1..]) == [];
    } else {
      assert (texts + [t])[1..] == texts[1..] + [t];
      WrittenNext(texts[1..], t);
    }
  }

  /** What is left of a string. */
  function Cut(s: seq<Byte>): seq<Byte>
  {
    s[..|s| % 0x1_0000]
  }

  method WriteTexts(texts: seq<Text>) returns (out: PropWriteStream)
    ensures fresh(out) && out.Valid() && out.Contents() == AllWritten(texts)
  {
    hide Written;
    out := new PropWriteStream();
    var i := 0;
    assert texts[..0] == [];
    while i < |texts|
      invariant i <= |texts| && fresh(out) && fresh(out.buffer) && out.Valid() && out.Contents() == AllWritten(texts[..i])
    {
      assert texts[..i + 1] == texts[..i] + [texts[i]];
      WrittenNext(texts[..i], texts[i]);
      WrittenIs(texts[i]);
      if texts[i].long {
        out.AddLongString(texts[i].bytes);
      } else {
        out.AddString(texts[i].bytes);
      }
      i := i + 1;
    }
    assert texts[..i] == texts;
  }

  lemma WrittenIs(t: Text)
    ensures Written(t) == if t.long then StoredLong(t.bytes) else Stored(t.bytes)
  {
  }

  /** One string, in front of anything. */
  method ReadOne(stream: PropStream, t: Text, ghost rest: seq<Byte>) returns (ok: bool, s: seq<Byte>)
    requires stream.Valid() && stream.Rest() == Written(t) + rest
    modifies stream`p
    ensures stream.Valid() && ok && s == Cut(t.bytes) && stream.Rest() == rest
  {
    hide Written, Stored, StoredLong, StringAt, LongStringAt;
    WrittenIs(t);
    if t.long {
      LongStringBack(t.bytes, rest);
      ok, s := stream.GetLongString();
    } else {
      StringBack(t.bytes, rest);
      ok, s := stream.GetString();
    }
    assert (Written(t) + rest)[|Written(t)|..] == rest;
  }

  /**
   Strings that are written one after the other and read in the same order: none fails, nothing is left over,
   and what comes back is the same exactly when all are shorter than 65536 bytes.
   */
  method WriteAndRead(texts: seq<Text>) returns (stream: PropStream, ok: bool, back: seq<seq<Byte>>)
    ensures fresh(stream) && stream.Valid() && stream.Rest() == []
    ensures ok && |back| == |texts| && forall i :: 0 <= i < |texts| ==> back[i] == Cut(texts[i].bytes)
    ensures (forall i :: 0 <= i < |texts| ==> back[i] == texts[i].bytes) <==>
              (forall i :: 0 <= i < |texts| ==> |texts[i].bytes| < 0x1_0000)
  {
    hide *;
    var out := WriteTexts(texts);
    ContentsOf(out);
    stream := new PropStream(out.buffer[..out.size]);
    ok, back := true, [];
    var i := 0;
    assert texts[0..] == texts;
    while i < |texts|
      invariant i <= |texts| && |back| == i && ok && fresh(stream) && stream.Valid()
      invariant stream.Rest() == AllWritten(texts[i..])
      invariant forall k :: 0 <= k < i ==> back[k] == Cut(texts[k].bytes)
    {
      WrittenFrom(texts, i);
      var s;
      ok, s := ReadOne(stream, texts[i], AllWritten(texts[i + 1..]));
      back := back + [s];
      i := i + 1;
    }
    assert texts[i..] == [];
    NothingWritten();
    WholeIfShort(texts, back);
  }

  lemma NothingWritten()
    ensures AllWritten([]) == []
  {
  }

  lemma ContentsOf(out: PropWriteStream)
    ensures out.Valid() ==> out.size <= out.buffer.Length && out.Contents() == out.buffer[..out.size]
  {
  }

  lemma WrittenFrom(texts: seq<Text>, i: nat)
    requires i < |texts|
    ensures AllWritten(texts[i..]) == Written(texts[i]) + AllWritten(texts[i + 1..])
  {
    assert texts[i..][1..] == texts[i + 1..];
  }

  lemma WholeIfShort(texts: seq<Text>, back: seq<seq<Byte>>)
    requires |back| == |texts| && forall i :: 0 <= i < |texts| ==> back[i] == Cut(texts[i].bytes)
    ensures (forall i :: 0 <= i < |texts| ==> back[i] == texts[i].bytes) <==>
              (forall i :: 0 <= i < |texts| ==> |texts[i].bytes| < 0x1_0000)
  {
    assert forall i :: 0 <= i < |texts| ==> (Cut(texts[i].bytes) == texts[i].bytes <==> |texts[i].bytes| < 0x1_0000);
  }
}
