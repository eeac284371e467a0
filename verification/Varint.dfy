/** Unsigned LEB128 of 64-bit values, as `append_uvarint` and `read_uvarint`
    encode flags and name lengths: seven bits a byte, low bits first, at most
    ten bytes, and the tenth at most 1. */
module Varint {
  import opened Common
  import opened Bits

  const MAX_LEN := 10

  function Append(x: nat): (bytes: Bytes)
    ensures |bytes| > 0
  {
    if x < 0x80 then [x] else [x % 0x80 + 0x80] + Append(x / 0x80)
  }

  // One more than the largest value that still fits when i bytes have been read.
  function Room(i: nat): (n: nat)
    requires i < MAX_LEN
    decreases MAX_LEN - i
  {
    if i == MAX_LEN - 1 then 2 else 0x80 * Room(i + 1)
  }

  // Reads an encoding of which i bytes are already read; the result is the
  // value of the rest and its byte count.
  function ReadFrom(buf: Bytes, i: nat): (r: Option<(nat, nat)>)
    ensures r.Some? ==> 1 <= r.value.1 <= |buf| && i + r.value.1 <= MAX_LEN
    ensures r.Some? ==> r.value.0 < Room(i)
    decreases |buf|
  {
    if i >= MAX_LEN || buf == [] then None
    else if buf[0] < 0x80 then
      RoomForByte(i);
      if i == MAX_LEN - 1 && buf[0] > 1 then None else Some((buf[0], 1))
    else
      var rest := ReadFrom(buf[1..], i + 1);
      if rest.None? then None
      else Some((buf[0] % 0x80 + 0x80 * rest.value.0, 1 + rest.value.1))
  }

  lemma RoomForByte(i: nat)
    requires i < MAX_LEN
    ensures if i == MAX_LEN - 1 then Room(i) == 2 else Room(i) >= 0x100
    decreases MAX_LEN - i
  {
    if i < MAX_LEN - 1 {
      RoomForByte(i + 1);
    }
  }

  lemma RoomAtStart()
    ensures Room(0) == TWO_TO_THE_64
  {
    assert Room(9) == 2 && Room(8) == 0x100 && Room(7) == 0x8000;
    assert Room(6) == 0x40_0000 && Room(5) == 0x2000_0000 && Room(4) == 0x10_0000_0000;
    assert Room(3) == 0x800_0000_0000 && Room(2) == 0x4_0000_0000_0000;
    assert Room(1) == 0x200_0000_0000_0000;
  }

  function Read(buf: Bytes): (r: Option<(u64, nat)>)
    ensures r.Some? ==> 1 <= r.value.1 <= |buf|
  {
    RoomAtStart();
    var r := ReadFrom(buf, 0);
    if r.None? then None else Some((r.value.0, r.value.1))
  }

  lemma {:induction false} ReadFromAppend(x: nat, rest: Bytes, i: nat)
    requires i < MAX_LEN && x < Room(i)
    ensures ReadFrom(Append(x) + rest, i) == Some((x, |Append(x)|))
    decreases x
  {
    var buf := Append(x) + rest;
    RoomForByte(i);
    if x >= 0x80 {
      assert buf[1..] == Append(x / 0x80) + rest;
      ReadFromAppend(x / 0x80, rest, i + 1);
      assert (x % 0x80 + 0x80) % 0x80 == x % 0x80;
    }
  }

  // Reading undoes appending, whatever follows in the buffer.
  lemma ReadAppend(x: u64, rest: Bytes)
    ensures Read(Append(x) + rest) == Some((x, |Append(x)|))
  {
    RoomAtStart();
    ReadFromAppend(x, rest, 0);
  }

  // A successful read depends only on the bytes it consumed.
  lemma {:induction false} ReadFromPrefix(buf: Bytes, rest: Bytes, i: nat)
    requires ReadFrom(buf, i).Some?
    ensures ReadFrom(buf[..ReadFrom(buf, i).value.1] + rest, i) == ReadFrom(buf, i)
    decreases |buf|
  {
    var n := ReadFrom(buf, i).value.1;
    if buf[0] >= 0x80 {
      ReadFromPrefix(buf[1..], rest, i + 1);
      assert (buf[..n] + rest)[1..] == buf[1..][..n - 1] + rest;
    }
  }

  // The number a group of seven-bit digits stands for, least significant first.
  function Digits(s: Bytes): nat {
    if s == [] then 0 else s[0] % 128 + 128 * Digits(s[1..])
  }

  // A varint is such a group, in which every byte but the last has its high bit set.
  lemma {:induction false} AppendDigits(x: nat)
    ensures var s := Append(x);
            && Digits(s) == x && s[|s| - 1] < 128
            && forall i :: 0 <= i < |s| - 1 ==> s[i] >= 128
  {
    if x >= 128 {
      AppendDigits(x / 128);
      var s, rest := Append(x), Append(x / 128);
      assert s[1..] == rest;
      forall i | 0 <= i < |s| - 1 ensures s[i] >= 128 {
        assert i > 0 ==> s[i] == rest[i - 1];
      }
    }
  }
}
