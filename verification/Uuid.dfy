/** UUID generation and printing. The printed form is the key under which a query
    waits for its reply, so it must tell any two UUIDs apart and hold no slash. */
module Uuid {
  import opened Common
  import opened Bits

  const ID_LEN := 16
  const TEXT_LEN := 36

  function HexDigit(v: int): u8
    requires 0 <= v < 16
  {
    if v < 10 then '0' as int + v else 'a' as int + (v - 10)
  }

  function HexByte(b: u8): Str { [HexDigit(b / 16), HexDigit(b % 16)] }

  predicate HyphenBefore(i: nat) { i == 4 || i == 6 || i == 8 || i == 10 }

  // The text of the first n bytes.
  function Text(id: Bytes, n: nat): Str
    requires n <= |id|
  {
    if n == 0 then []
    else Text(id, n - 1) + (if HyphenBefore(n - 1) then [HYPHEN] else []) + HexByte(id[n - 1])
  }

  function UuidString(id: Bytes): Str { Text(id, |id|) }

  method Format(id: Bytes) returns (out: Str)
    ensures out == UuidString(id)
  {
    out := [];
    for i := 0 to |id|
      invariant out == Text(id, i)
    {
      if HyphenBefore(i) {
        out := out + [HYPHEN];
      }
      out := out + HexByte(id[i]);
    }
  }

  // Where the text of byte i starts.
  function Offset(i: nat): nat {
    2 * i + (if i > 10 then 4 else if i > 8 then 3 else if i > 6 then 2 else if i > 4 then 1 else 0)
      + (if HyphenBefore(i) then 1 else 0)
  }

  lemma OffsetGrows(i: nat, j: nat)
    requires i < j
    ensures Offset(i) + 2 <= Offset(j)
  {
  }

  lemma {:induction false} TextLength(id: Bytes, n: nat)
    requires 0 < n <= |id|
    ensures |Text(id, n)| == Offset(n - 1) + 2
  {
    if n > 1 {
      TextLength(id, n - 1);
    }
  }

  lemma {:induction false} TextAt(id: Bytes, n: nat, i: nat)
    requires i < n <= |id|
    ensures |Text(id, n)| == Offset(n - 1) + 2 && Offset(i) + 2 <= |Text(id, n)|
    ensures Text(id, n)[Offset(i)..Offset(i) + 2] == HexByte(id[i])
  {
    var front := Text(id, n - 1);
    var gap: Str := if HyphenBefore(n - 1) then [HYPHEN] else [];
    assert Text(id, n) == front + gap + HexByte(id[n - 1]) && |HexByte(id[n - 1])| == 2;
    TextLength(id, n);
    hide Text, HexByte, Offset;
    if i == n - 1 {
      SliceBack(front + gap, HexByte(id[i]));
    } else {
      OffsetGrows(i, n - 1);
      TextAt(id, n - 1, i);
      assert front + gap + HexByte(id[n - 1]) == front + (gap + HexByte(id[n - 1]));
      SliceFront(front, gap + HexByte(id[n - 1]), Offset(i), Offset(i) + 2);
    }
  }

  lemma SliceBack(a: Str, b: Str)
    ensures (a + b)[|a|..|a| + |b|] == b
  {
  }

  lemma SliceFront(a: Str, b: Str, i: nat, j: nat)
    requires i <= j <= |a|
    ensures (a + b)[i..j] == a[i..j]
  {
  }

  lemma HexByteInjective(a: u8, b: u8)
    requires HexByte(a) == HexByte(b)
    ensures a == b
  {
    assert HexByte(a)[0] == HexByte(b)[0] && HexByte(a)[1] == HexByte(b)[1];
  }

  lemma UuidStringInjective(a: Bytes, b: Bytes)
    requires |a| == |b| == ID_LEN && UuidString(a) == UuidString(b)
    ensures a == b
  {
    hide HexByte;
    forall i | 0 <= i < |a| ensures a[i] == b[i] {
      TextAt(a, |a|, i);
      TextAt(b, |b|, i);
      HexByteInjective(a[i], b[i]);
    }
  }

  lemma UuidStringLength(id: Bytes)
    requires |id| == ID_LEN
    ensures |UuidString(id)| == TEXT_LEN
  {
    TextAt(id, |id|, 0);
  }

  predicate IsUuidChar(c: u8) {
    c == HYPHEN || '0' as int <= c <= '9' as int || 'a' as int <= c <= 'f' as int
  }

  lemma {:induction false} TextChars(id: Bytes, n: nat)
    requires n <= |id|
    ensures forall i :: 0 <= i < |Text(id, n)| ==> IsUuidChar(Text(id, n)[i])
  {
    if n > 0 {
      TextChars(id, n - 1);
    }
  }

  lemma UuidStringHasNoSlash(id: Bytes)
    ensures SLASH !in UuidString(id)
    ensures forall i :: 0 <= i < |UuidString(id)| ==> UuidString(id)[i] < 0x80
  {
    TextChars(id, |id|);
  }

  // Stamps the version and variant onto sixteen random bytes, in place.
  method StampV4(b: array<u8>)
    requires b.Length == ID_LEN
    modifies b
    ensures b[..] == old(b[..])[6 := 0x40 + old(b[6]) % 16][8 := 0x80 + old(b[8]) % 64]
  {
    StampByte(b[6], 4, 4);
    StampByte(b[8], 6, 2);
    b[6] := Or(And(b[6], 0x0F), 0x40);
    b[8] := Or(And(b[8], 0x3F), 0x80);
  }

  lemma StampByte(b: u8, k: nat, tag: nat)
    requires (k == 4 && tag == 4) || (k == 6 && tag == 2)
    ensures Or(And(b, Pow2(k) - 1), tag * Pow2(k)) == tag * Pow2(k) + b % Pow2(k)
  {
    Pow2Values();
    AndMask(b, k);
    OrCommutes(b % Pow2(k), tag * Pow2(k));
    OrDisjoint(tag, b % Pow2(k), k);
  }

  lemma {:induction false} OrCommutes(a: nat, b: nat)
    ensures Or(a, b) == Or(b, a)
    decreases a + b
  {
    if a != 0 && b != 0 {
      OrCommutes(a / 2, b / 2);
    }
  }

  // A stamped UUID prints its version digit 4 and a variant digit 8, 9, a or b.
  lemma StampedText(id: Bytes)
    requires |id| == ID_LEN && id[6] / 16 == 4 && id[8] / 64 == 2
    ensures |UuidString(id)| == TEXT_LEN
    ensures UuidString(id)[14] == '4' as int
    ensures UuidString(id)[19] in [0x38, 0x39, 0x61, 0x62]
  {
    TextAt(id, |id|, 6);
    TextAt(id, |id|, 8);
    var text := UuidString(id);
    assert text[14] == text[14..16][0] && text[19] == text[19..21][0];
  }

  // ----- Reading the text back ----------------------------------------------

  // The value of a hexadecimal digit.
  function HexValue(c: u8): int {
    if '0' as int <= c <= '9' as int then c - '0' as int
    else if 'a' as int <= c <= 'f' as int then c - 'a' as int + 10
    else -1
  }

  lemma HexByteReads(b: u8)
    ensures HexValue(HexByte(b)[0]) * 16 + HexValue(HexByte(b)[1]) == b
    ensures HexByte(b)[0] != HYPHEN && HexByte(b)[1] != HYPHEN
  {
  }

  // Byte i stands at its offset in two lower-case hexadecimal digits, high first.
  lemma TextReads(id: Bytes, i: nat)
    requires |id| == ID_LEN && i < ID_LEN
    ensures |UuidString(id)| == TEXT_LEN && Offset(i) + 1 < TEXT_LEN
    ensures HexValue(UuidString(id)[Offset(i)]) * 16 + HexValue(UuidString(id)[Offset(i) + 1]) == id[i]
  {
    TextAt(id, |id|, i);
    HexByteReads(id[i]);
    hide HexByte, HexValue;
    var text := UuidString(id);
    assert text[Offset(i)..Offset(i) + 2] == HexByte(id[i]);
    assert text[Offset(i)] == text[Offset(i)..Offset(i) + 2][0];
    assert text[Offset(i) + 1] == text[Offset(i)..Offset(i) + 2][1];
  }

  // The four hyphens stand where the canonical form has them: 8-4-4-4-12.
  lemma TextHyphens(id: Bytes)
    requires |id| == ID_LEN
    ensures |UuidString(id)| == TEXT_LEN
    ensures UuidString(id)[8] == UuidString(id)[13] == UuidString(id)[18] == UuidString(id)[23] == HYPHEN
  {
    HyphenAt(id, |id|, 4);
    HyphenAt(id, |id|, 6);
    HyphenAt(id, |id|, 8);
    HyphenAt(id, |id|, 10);
    UuidStringLength(id);
  }

  lemma {:induction false} HyphenAt(id: Bytes, n: nat, i: nat)
    requires i < n <= |id| && HyphenBefore(i)
    ensures 1 <= Offset(i) <= |Text(id, n)| && Text(id, n)[Offset(i) - 1] == HYPHEN
  {
    TextLength(id, n);
    if i < n - 1 {
      HyphenAt(id, n - 1, i);
    } else {
      TextLength(id, n - 1);
    }
  }
}
