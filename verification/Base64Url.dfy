/** URL-safe base64 without padding (section 5 of RFC 4648), as used for key
    hashes in client addresses. `Encode` and `Decode` are the reference meaning;
    the methods are the protocol crate's chunked loops. */
module Base64Url {
  import opened Common
  import opened Bits
  import opened Radix

  // ----- Alphabet -----------------------------------------------------------

  function Symbol(v: int): u8
    requires 0 <= v < 64
  {
    if v < 26 then 'A' as int + v
    else if v < 52 then 'a' as int + (v - 26)
    else if v < 62 then '0' as int + (v - 52)
    else if v == 62 then '-' as int
    else '_' as int
  }

  function SymbolValue(c: u8): (r: Option<int>)
    ensures r.Some? ==> 0 <= r.value < 64 && Symbol(r.value) == c
  {
    if 'A' as int <= c <= 'Z' as int then Some(c - 'A' as int)
    else if 'a' as int <= c <= 'z' as int then Some(c - 'a' as int + 26)
    else if '0' as int <= c <= '9' as int then Some(c - '0' as int + 52)
    else if c == '-' as int then Some(62)
    else if c == '_' as int then Some(63)
    else None
  }

  // The url-safe alphabet of section 5 of RFC 4648.
  lemma SymbolIsAlphabet(v: int)
    requires 0 <= v < 64
    ensures v < 26 ==> Symbol(v) == "ABCDEFGHIJKLMNOPQRSTUVWXYZ"[v] as int
    ensures 26 <= v < 52 ==> Symbol(v) == "abcdefghijklmnopqrstuvwxyz"[v - 26] as int
    ensures 52 <= v ==> Symbol(v) == "0123456789-_"[v - 52] as int
  {
  }

  lemma SymbolValueOfSymbol(v: int)
    requires 0 <= v < 64
    ensures SymbolValue(Symbol(v)) == Some(v)
    ensures Symbol(v) != SLASH && Symbol(v) != DOT && Symbol(v) < 0x80
  {
  }

  predicate AllSymbols(s: Str) {
    forall i :: 0 <= i < |s| ==> SymbolValue(s[i]).Some?
  }

  function Values(s: Str): (syms: seq<int>)
    requires AllSymbols(s)
    ensures IsDigits(64, syms) && |syms| == |s|
  {
    seq(|s|, i requires 0 <= i < |s| => SymbolValue(s[i]).value)
  }

  function Spell(syms: seq<int>): (s: Str)
    requires IsDigits(64, syms)
    ensures |s| == |syms|
  {
    seq(|syms|, i requires 0 <= i < |syms| => Symbol(syms[i]))
  }

  lemma ValuesOfSpell(syms: seq<int>)
    requires IsDigits(64, syms)
    ensures AllSymbols(Spell(syms)) && Values(Spell(syms)) == syms
  {
    forall i | 0 <= i < |syms| ensures SymbolValue(Spell(syms)[i]) == Some(syms[i]) {
      SymbolValueOfSymbol(syms[i]);
    }
  }

  // ----- Reference meaning --------------------------------------------------

  function Encode(data: Bytes): Str {
    Pow2Values();
    Spell(Pack(6, data))
  }

  function Decode(s: Str): Option<Bytes> {
    Pow2Values();
    if |s| % 4 == 1 || !AllSymbols(s) then None else Some(Unpack(6, Values(s)))
  }

  lemma EncodedLengthMod4(n: nat)
    ensures EncodedLength(6, n) % 4 != 1
  {
    var q, r := n / 3, n % 3;
    assert EncodedLength(6, n) == 4 * q + (8 * r + 5) / 6;
  }

  lemma DecodeEncode(data: Bytes)
    ensures Decode(Encode(data)) == Some(data)
  {
    EncodedLengthMod4(|data|);
    UnpackPack(6, data);
    ValuesOfSpell(Pack(6, data));
  }

  // Encoding is free of the separators used in addresses.
  lemma EncodeHasNoSeparator(data: Bytes)
    ensures SLASH !in Encode(data) && DOT !in Encode(data)
  {
    Pow2Values();
    var syms := Pack(6, data);
    forall i | 0 <= i < |syms| ensures Encode(data)[i] != SLASH && Encode(data)[i] != DOT {
      SymbolValueOfSymbol(syms[i]);
    }
  }

  lemma EncodeIsAscii(data: Bytes)
    ensures |Encode(data)| == EncodedLength(6, |data|)
    ensures forall i :: 0 <= i < |Encode(data)| ==> Encode(data)[i] < 0x80
  {
    Pow2Values();
    var syms := Pack(6, data);
    forall i | 0 <= i < |syms| ensures Encode(data)[i] < 0x80 {
      SymbolValueOfSymbol(syms[i]);
    }
  }

  // Bits of the last symbol that carry no data: 0, 2 or 4.
  function UnusedBits(s: Str): nat {
    if |s| % 4 == 2 then 4 else if |s| % 4 == 3 then 2 else 0
  }

  lemma SpareIsUnused(s: Str)
    requires |s| % 4 != 1
    ensures SpareBits(6, |s|) == UnusedBits(s)
  {
    var q, r := |s| / 4, |s| % 4;
    assert 6 * |s| == (3 * q + 6 * r / 8) * 8 + 6 * r % 8;
    DivModUnique(6 * |s|, 8, 3 * q + 6 * r / 8, 6 * r % 8);
  }

  predicate Canonical(s: Str)
    requires AllSymbols(s)
  {
    s == [] || SymbolValue(s[|s| - 1]).value % Pow2(UnusedBits(s)) == 0
  }

  // Spelling with another last symbol changes only the last character.
  lemma RespellLast(s: Str, v: int)
    requires AllSymbols(s) && s != [] && 0 <= v < 64
    ensures var t := Spell(Values(s)[|s| - 1 := v]);
            |t| == |s| && t[..|s| - 1] == s[..|s| - 1] && (t == s <==> v == Values(s)[|s| - 1])
  {
    SymbolValueOfSymbol(v);
  }

  // Section 3.5 of RFC 4648: decoders may accept non-zero pad bits, so several
  // strings decode alike. Re-encoding keeps the length and all but the last
  // symbol, and is the identity exactly on canonical strings.
  lemma EncodeDecode(s: Str)
    requires Decode(s).Some?
    ensures var t := Encode(Decode(s).value);
            && |t| == |s|
            && (s != [] ==> t[..|s| - 1] == s[..|s| - 1])
            && (t == s <==> Canonical(s))
  {
    hide Pack, Unpack, Spell;
    if s != [] {
      var syms := Values(s);
      var last := syms[|s| - 1];
      SpareIsUnused(s);
      RepackDiffersInLast(6, syms);
      ModulusPositive(last, UnusedBits(s));
      RespellLast(s, last - last % Pow2(UnusedBits(s)));
    }
  }

  lemma ModulusPositive(v: nat, n: nat)
    ensures 0 <= v - v % Pow2(n) <= v
  {
    hide Pow2;
    DivNonNegative(v, Pow2(n));
    assert v - v % Pow2(n) == v / Pow2(n) * Pow2(n);
  }

  // ----- The chunked loops --------------------------------------------------

  // Three bytes joined into one 24-bit word.
  function Join(b0: u8, b1: u8, b2: u8): nat { Or(Or(Shl32(b0, 16), Shl32(b1, 8)), b2) }

  lemma ShiftedBytes(b0: u8, b1: u8)
    ensures Shl32(b0, 16) == b0 * 0x1_0000 && Shl32(b1, 8) == b1 * 0x100
  {
    Pow2Values();
  }

  lemma JoinHigh(b0: u8, b1: u8)
    ensures Or(b0 * 0x1_0000, b1 * 0x100) == b0 * 0x1_0000 + b1 * 0x100
  {
    Pow2Values();
    OrInto(b0 * 0x1_0000, b1 * 0x100, 16, 0x1_0000);
  }

  lemma JoinLow(b0: u8, b1: u8, b2: u8)
    ensures Or(b0 * 0x1_0000 + b1 * 0x100, b2) == b0 * 0x1_0000 + b1 * 0x100 + b2
  {
    Pow2Values();
    OrInto(b0 * 0x1_0000 + b1 * 0x100, b2, 8, 0x100);
  }

  lemma JoinIsSum(b0: u8, b1: u8, b2: u8)
    ensures Join(b0, b1, b2) == b0 * 0x1_0000 + b1 * 0x100 + b2
  {
    ShiftedBytes(b0, b1);
    JoinHigh(b0, b1);
    JoinLow(b0, b1, b2);
  }

  // The symbol whose bits start at bit `shift` of the word.
  function Sextet(n: nat, shift: nat): (v: nat)
    ensures v < 64 && v == n / Pow2(shift) % 64
  {
    Pow2Values();
    AndMask(Shr(n, shift), 6);
    And(Shr(n, shift), 63)
  }

  function ChunkSextets(chunk: Bytes): (syms: seq<int>)
    requires 1 <= |chunk| <= 3
    ensures IsDigits(64, syms)
  {
    var n := Join(chunk[0], if |chunk| > 1 then chunk[1] else 0, if |chunk| > 2 then chunk[2] else 0);
    if |chunk| == 1 then [Sextet(n, 18), Sextet(n, 12)]
    else if |chunk| == 2 then [Sextet(n, 18), Sextet(n, 12), Sextet(n, 6)]
    else [Sextet(n, 18), Sextet(n, 12), Sextet(n, 6), Sextet(n, 0)]
  }

  lemma SextetAt(n: nat, shift: nat, m: nat, high: nat, v: nat, low: nat)
    requires m == Pow2(shift) && v < 64 && low < m
    requires n == (high * 64 + v) * m + low
    ensures Sextet(n, shift) == v
  {
    DivModUnique(n, m, high * 64 + v, low);
    DivModUnique(high * 64 + v, 64, high, v);
  }

  lemma SextetsOf(b0: u8, b1: u8, b2: u8)
    ensures var n := Join(b0, b1, b2);
            && Sextet(n, 18) == b0 / 4
            && Sextet(n, 12) == b0 % 4 * 16 + b1 / 16
            && Sextet(n, 6) == b1 % 16 * 4 + b2 / 64
            && Sextet(n, 0) == b2 % 64
  {
    JoinIsSum(b0, b1, b2);
    var n := Join(b0, b1, b2);
    var h0, l0, h1, l1, h2, l2 := b0 / 4, b0 % 4, b1 / 16, b1 % 16, b2 / 64, b2 % 64;
    assert b0 == h0 * 4 + l0 && b1 == h1 * 16 + l1 && b2 == h2 * 64 + l2;
    Pow2Values();
    SextetAt(n, 18, 0x4_0000, 0, h0, l0 * 0x1_0000 + b1 * 0x100 + b2);
    SextetAt(n, 12, 0x1000, h0, l0 * 16 + h1, l1 * 0x100 + b2);
    SextetAt(n, 6, 64, b0 * 16 + h1, l1 * 4 + h2, l2);
    SextetAt(n, 0, 1, b0 * 0x400 + b1 * 4 + h2, l2, 0);
  }

  lemma ChunkValue1(b0: u8)
    ensures ChunkSextets([b0]) == [b0 / 4, b0 % 4 * 16]
    ensures Value(64, ChunkSextets([b0])) == Value(0x100, [b0]) * 16
  {
    hide Value, Sextet, Join;
    SextetsOf(b0, 0, 0);
    SmallValues(0x100, b0, 0, 0, 0);
    SmallValues(64, b0 / 4, b0 % 4 * 16, 0, 0);
  }

  lemma ChunkValue2(b0: u8, b1: u8)
    ensures Value(64, ChunkSextets([b0, b1])) == Value(0x100, [b0, b1]) * 4
  {
    hide Value, Sextet, Join;
    SextetsOf(b0, b1, 0);
    var v0, v1, v2 := b0 / 4, b0 % 4 * 16 + b1 / 16, b1 % 16 * 4;
    SmallValues(0x100, b0, b1, 0, 0);
    SmallValues(64, v0, v1, v2, 0);
    assert ChunkSextets([b0, b1]) == [v0, v1, v2];
  }

  lemma ChunkValue3(b0: u8, b1: u8, b2: u8)
    ensures Value(64, ChunkSextets([b0, b1, b2])) == Value(0x100, [b0, b1, b2])
  {
    hide Value, Sextet, Join;
    SextetsOf(b0, b1, b2);
    var v0, v1, v2, v3 := b0 / 4, b0 % 4 * 16 + b1 / 16, b1 % 16 * 4 + b2 / 64, b2 % 64;
    SmallValues(0x100, b0, b1, b2, 0);
    SmallValues(64, v0, v1, v2, v3);
    assert ChunkSextets([b0, b1, b2]) == [v0, v1, v2, v3];
  }

  lemma ChunkValue(chunk: Bytes)
    requires 1 <= |chunk| <= 3
    ensures Value(64, ChunkSextets(chunk)) == Value(0x100, chunk) * Pow2(6 - 2 * |chunk|)
  {
    hide Value, ChunkSextets;
    Pow2Values();
    if |chunk| == 1 {
      assert chunk == [chunk[0]];
      ChunkValue1(chunk[0]);
    } else if |chunk| == 2 {
      assert chunk == [chunk[0], chunk[1]];
      ChunkValue2(chunk[0], chunk[1]);
    } else {
      assert chunk == [chunk[0], chunk[1], chunk[2]];
      ChunkValue3(chunk[0], chunk[1], chunk[2]);
    }
  }

  lemma ChunkLength(n: nat)
    requires 1 <= n <= 3
    ensures EncodedLength(6, n) == n + 1 && PadBits(6, n) == 6 - 2 * n
  {
  }

  // The bit manipulation on one chunk is the regrouping of that chunk.
  lemma ChunkIsPack(chunk: Bytes)
    requires 1 <= |chunk| <= 3
    ensures Pow2(6) == 64 && ChunkSextets(chunk) == Pack(6, chunk)
  {
    assert Pow2(6) == 64;
    ChunkValue(chunk);
    ChunkLength(|chunk|);
    PackValue(6, chunk);
    ValueInjective(64, ChunkSextets(chunk), Pack(6, chunk));
  }

  lemma EncodeEmpty()
    ensures Encode([]) == []
  {
  }

  lemma EncodeStep(front: Bytes, chunk: Bytes)
    requires |front| % 3 == 0 && 1 <= |chunk| <= 3
    ensures Encode(front + chunk) == Encode(front) + Spell(ChunkSextets(chunk))
  {
    ChunkIsPack(chunk);
    assert EncodedLength(6, |front|) == 4 * (|front| / 3);
    PackCat(6, front, chunk);
  }

  lemma SpellChunk(chunk: Bytes)
    requires 1 <= |chunk| <= 3
    ensures var n := Join(chunk[0], if |chunk| > 1 then chunk[1] else 0, if |chunk| > 2 then chunk[2] else 0);
            && (|chunk| == 1 ==>
                  Spell(ChunkSextets(chunk)) == [Symbol(Sextet(n, 18)), Symbol(Sextet(n, 12))])
            && (|chunk| == 2 ==>
                  Spell(ChunkSextets(chunk)) == [Symbol(Sextet(n, 18)), Symbol(Sextet(n, 12)), Symbol(Sextet(n, 6))])
            && (|chunk| == 3 ==>
                  Spell(ChunkSextets(chunk)) == [Symbol(Sextet(n, 18)), Symbol(Sextet(n, 12)), Symbol(Sextet(n, 6)),
                                                 Symbol(Sextet(n, 0))])
  {
    hide Join, Symbol;
  }

  method EncodeChunks(data: Bytes) returns (out: Str)
    ensures out == Encode(data)
  {
    hide Encode, Join, Sextet, Symbol, Spell, ChunkSextets;
    out := [];
    var i := 0;
    EncodeEmpty();
    assert data[..0] == [];
    while i < |data|
      invariant 0 <= i <= |data| && (i % 3 == 0 || i == |data|)
      invariant out == Encode(data[..i])
    {
      var chunk := data[i..if i + 3 <= |data| then i + 3 else |data|];
      var n := Join(chunk[0], if |chunk| > 1 then chunk[1] else 0, if |chunk| > 2 then chunk[2] else 0);
      ghost var before := out;
      out := out + [Symbol(Sextet(n, 18))];
      out := out + [Symbol(Sextet(n, 12))];
      if |chunk| > 1 {
        out := out + [Symbol(Sextet(n, 6))];
      }
      if |chunk| > 2 {
        out := out + [Symbol(Sextet(n, 0))];
      }
      SpellChunk(chunk);
      assert out == before + Spell(ChunkSextets(chunk));
      EncodeStep(data[..i], chunk);
      assert data[..i] + chunk == data[..i + |chunk|];
      i := i + |chunk|;
    }
    assert data[..i] == data;
  }

  // The 24-bit word holding these symbols from the top down, zero below.
  function Word(syms: seq<int>): nat
    requires IsDigits(64, syms) && |syms| <= 4
  {
    ValueNonNegative(64, syms);
    ProductNonNegative(Value(64, syms), Pow2(24 - 6 * |syms|));
    Value(64, syms) * Pow2(24 - 6 * |syms|)
  }

  lemma ProductNonNegative(a: nat, b: nat)
    ensures a * b >= 0
  {
  }

  lemma OrBelow(high: nat, v: nat, k: nat, q: nat)
    requires v < 64 && q == Pow2(k) && Pow2(k + 6) == 64 * q
    ensures Or(high * (64 * q), v * q) == (high * 64 + v) * q
  {
    hide Or, Pow2;
    MulMonotone(64 - v, q);
    Regroup(high, v, q);
    assert 0 <= v * q < 64 * q;
    OrDisjoint(high, v * q, k + 6);
  }

  lemma Regroup(high: nat, v: nat, q: nat)
    ensures high * (64 * q) + v * q == (high * 64 + v) * q
    ensures v * q >= 0 && (64 - v) * q == 64 * q - v * q
  {
  }

  lemma GatherAt(high: nat, v: nat, k: nat, q: nat)
    requires v < 64 && q == Pow2(k) && Pow2(k + 6) == 64 * q && 64 * q < 0x1_0000_0000
    ensures Or(high * Pow2(k + 6), Shl32(v, k)) == (high * 64 + v) * Pow2(k)
  {
    hide Or, Pow2;
    OrBelow(high, v, k, q);
    MulMonotone(64 - v, q);
    Regroup(high, v, q);
    assert Shl32(v, k) == v * q;
  }

  // OR-ing in the next symbol appends it to the symbols gathered so far.
  lemma GatherStep(high: nat, v: nat, j: nat)
    requires v < 64 && j < 4
    ensures Or(high * Pow2(24 - 6 * j), Shl32(v, 18 - 6 * j)) == (high * 64 + v) * Pow2(18 - 6 * j)
  {
    hide Or, Pow2, Shl32;
    Pow2Values();
    GatherAt(high, v, 18 - 6 * j, Pow2(18 - 6 * j));
    assert 18 - 6 * j + 6 == 24 - 6 * j;
  }

  // The bytes stored in the top, middle and bottom of a 24-bit word.
  function ByteAt(n: nat, shift: nat): (b: u8) { Shr(n, shift) % 0x100 }

  function ChunkBytes(n: nat, len: nat): (bytes: Bytes)
    requires 2 <= len <= 4
    ensures |bytes| == len - 1
  {
    if len == 2 then [ByteAt(n, 16)]
    else if len == 3 then [ByteAt(n, 16), ByteAt(n, 8)]
    else [ByteAt(n, 16), ByteAt(n, 8), ByteAt(n, 0)]
  }

  lemma BytesOf(v0: nat, v1: nat, v2: nat, v3: nat)
    requires v0 < 64 && v1 < 64 && v2 < 64 && v3 < 64
    ensures var n := v0 * 0x4_0000 + v1 * 0x1000 + v2 * 64 + v3;
            && ByteAt(n, 16) == v0 * 4 + v1 / 16
            && ByteAt(n, 8) == v1 % 16 * 16 + v2 / 4
            && ByteAt(n, 0) == v2 % 4 * 64 + v3
  {
    var n := v0 * 0x4_0000 + v1 * 0x1000 + v2 * 64 + v3;
    var h1, l1, h2, l2 := v1 / 16, v1 % 16, v2 / 4, v2 % 4;
    assert v1 == h1 * 16 + l1 && v2 == h2 * 4 + l2;
    Pow2Values();
    DivModUnique(n, 0x1_0000, v0 * 4 + h1, l1 * 0x1000 + v2 * 64 + v3);
    DivModUnique(n, 0x100, (v0 * 4 + h1) * 0x100 + l1 * 16 + h2, l2 * 64 + v3);
    DivModUnique((v0 * 4 + h1) * 0x100 + l1 * 16 + h2, 0x100, v0 * 4 + h1, l1 * 16 + h2);
    DivModUnique(n, 1, n, 0);
  }

  lemma ChunkIsUnpack2(v0: nat, v1: nat)
    requires v0 < 64 && v1 < 64
    ensures Pow2(6) == 64 && Unpack(6, [v0, v1]) == ChunkBytes(v0 * 0x4_0000 + v1 * 0x1000, 2)
  {
    hide Value, ByteAt, Unpack;
    Pow2Values();
    BytesOf(v0, v1, 0, 0);
    SmallValues(64, v0, v1, 0, 0);
    SmallValues(0x100, v0 * 4 + v1 / 16, 0, 0, 0);
    UnpackUnique(6, [v0, v1], [v0 * 4 + v1 / 16], v1 % 16);
  }

  lemma ChunkIsUnpack3(v0: nat, v1: nat, v2: nat)
    requires v0 < 64 && v1 < 64 && v2 < 64
    ensures Pow2(6) == 64
    ensures Unpack(6, [v0, v1, v2]) == ChunkBytes(v0 * 0x4_0000 + v1 * 0x1000 + v2 * 64, 3)
  {
    hide Value, ByteAt, Unpack;
    Pow2Values();
    BytesOf(v0, v1, v2, 0);
    SmallValues(64, v0, v1, v2, 0);
    SmallValues(0x100, v0 * 4 + v1 / 16, v1 % 16 * 16 + v2 / 4, 0, 0);
    UnpackUnique(6, [v0, v1, v2], [v0 * 4 + v1 / 16, v1 % 16 * 16 + v2 / 4], v2 % 4);
  }

  lemma ChunkIsUnpack4(v0: nat, v1: nat, v2: nat, v3: nat)
    requires v0 < 64 && v1 < 64 && v2 < 64 && v3 < 64
    ensures Pow2(6) == 64
    ensures Unpack(6, [v0, v1, v2, v3])
         == ChunkBytes(v0 * 0x4_0000 + v1 * 0x1000 + v2 * 64 + v3, 4)
  {
    hide Value, ByteAt, Unpack;
    Pow2Values();
    BytesOf(v0, v1, v2, v3);
    SmallValues(64, v0, v1, v2, v3);
    var b0, b1, b2 := v0 * 4 + v1 / 16, v1 % 16 * 16 + v2 / 4, v2 % 4 * 64 + v3;
    SmallValues(0x100, b0, b1, b2, 0);
    UnpackUnique(6, [v0, v1, v2, v3], [b0, b1, b2], 0);
  }

  lemma ChunkIsUnpack(syms: seq<int>)
    requires 2 <= |syms| <= 4 && IsDigits(64, syms)
    ensures Pow2(6) == 64
    ensures Unpack(6, syms) == ChunkBytes(Word(syms), |syms|)
  {
    hide Value, ChunkBytes, Unpack;
    Pow2Values();
    if |syms| == 2 {
      assert syms == [syms[0], syms[1]];
      SmallValues(64, syms[0], syms[1], 0, 0);
      ChunkIsUnpack2(syms[0], syms[1]);
    } else if |syms| == 3 {
      assert syms == [syms[0], syms[1], syms[2]];
      SmallValues(64, syms[0], syms[1], syms[2], 0);
      ChunkIsUnpack3(syms[0], syms[1], syms[2]);
    } else {
      assert syms == [syms[0], syms[1], syms[2], syms[3]];
      SmallValues(64, syms[0], syms[1], syms[2], syms[3]);
      ChunkIsUnpack4(syms[0], syms[1], syms[2], syms[3]);
    }
  }

  lemma DecodeEmpty()
    ensures Decode([]) == Some([])
  {
  }

  lemma ValuesSnoc(s: Str, c: u8)
    requires AllSymbols(s) && SymbolValue(c).Some?
    ensures AllSymbols(s + [c]) && Values(s + [c]) == Values(s) + [SymbolValue(c).value]
  {
  }

  lemma ValuesCat(s: Str, t: Str)
    requires AllSymbols(s) && AllSymbols(t)
    ensures AllSymbols(s + t) && Values(s + t) == Values(s) + Values(t)
  {
    hide SymbolValue, Symbol;
  }

  lemma AlignedLengths(n: nat, m: nat)
    requires n % 4 == 0 && 2 <= m <= 4
    ensures SpareBits(6, n) == 0 && (n + m) % 4 != 1
  {
    assert 6 * n == (3 * (n / 4)) * 8;
    DivModUnique(6 * n, 8, 3 * (n / 4), 0);
  }

  lemma DecodeStep(front: Str, chunk: Str)
    requires |front| % 4 == 0 && 2 <= |chunk| <= 4
    requires Decode(front).Some? && AllSymbols(chunk)
    ensures Decode(front + chunk)
         == Some(Decode(front).value + ChunkBytes(Word(Values(chunk)), |chunk|))
  {
    hide Value, ChunkBytes, Unpack, Word, SymbolValue, Symbol, Values, Pow2;
    ChunkIsUnpack(Values(chunk));
    AlignedLengths(|front|, |chunk|);
    hide SpareBits;
    UnpackCat(6, Values(front), Values(chunk));
    ValuesCat(front, chunk);
  }

  method DecodeChunks(s: Str) returns (r: Option<Bytes>)
    ensures r == Decode(s)
  {
    hide Decode, SymbolValue, Values, ChunkBytes, ByteAt, Word;
    if |s| % 4 == 1 {
      BadLength(s);
      return None;
    }
    var out: Bytes := [];
    var i := 0;
    DecodeEmpty();
    assert s[..0] == [];
    while i < |s|
      invariant 0 <= i <= |s| && (i % 4 == 0 || i == |s|)
      invariant Decode(s[..i]) == Some(out)
    {
      var end := if i + 4 <= |s| then i + 4 else |s|;
      var chunk := s[i..end];
      var n := GatherChunk(chunk);
      if n.None? {
        BadSymbol(s, i, end);
        return None;
      }
      DecodeStep(s[..i], chunk);
      ghost var before := out;
      out := out + [ByteAt(n.value, 16)];
      if |chunk| > 2 {
        out := out + [ByteAt(n.value, 8)];
      }
      if |chunk| > 3 {
        out := out + [ByteAt(n.value, 0)];
      }
      ChunkBytesOf(n.value, |chunk|);
      assert out == before + ChunkBytes(n.value, |chunk|);
      assert s[..i] + chunk == s[..end];
      i := end;
    }
    assert s[..i] == s;
    r := Some(out);
  }

  lemma BadLength(s: Str)
    requires |s| % 4 == 1
    ensures Decode(s) == None
  {
  }

  lemma BadSymbol(s: Str, i: nat, j: nat)
    requires i <= j <= |s| && !AllSymbols(s[i..j])
    ensures Decode(s) == None
  {
    var k :| 0 <= k < j - i && SymbolValue(s[i..j][k]).None?;
    assert SymbolValue(s[i + k]).None?;
  }

  lemma ChunkBytesOf(n: nat, len: nat)
    requires 2 <= len <= 4
    ensures ChunkBytes(n, len) == [ByteAt(n, 16)] + (if len > 2 then [ByteAt(n, 8)] else [])
                                  + (if len > 3 then [ByteAt(n, 0)] else [])
  {
    hide ByteAt;
  }

  // The inner loop: ORs the symbols of one chunk into a word, from the top down.
  method GatherChunk(chunk: Str) returns (n: Option<nat>)
    requires |chunk| <= 4
    ensures n.Some? <==> AllSymbols(chunk)
    ensures n.Some? ==> n.value == Word(Values(chunk))
  {
    hide Symbol, SymbolValue, Value, Or, Shl32, Values;
    var word: nat := 0;
    var j := 0;
    assert chunk[..0] == [];
    GatherNothing();
    while j < |chunk|
      invariant 0 <= j <= |chunk| && AllSymbols(chunk[..j])
      invariant word == Word(Values(chunk[..j]))
    {
      match SymbolValue(chunk[j]) {
        case None =>
          return None;
        case Some(v) =>
          ValueNonNegative(64, Values(chunk[..j]));
          GatherStep(Value(64, Values(chunk[..j])), v, j);
          ValuesSnoc(chunk[..j], chunk[j]);
          ValuePush(64, Values(chunk[..j]), v);
          assert chunk[..j + 1] == chunk[..j] + [chunk[j]];
          word := Or(word, Shl32(v, 18 - 6 * j));
          j := j + 1;
      }
    }
    assert chunk[..j] == chunk;
    n := Some(word);
  }

  lemma GatherNothing()
    ensures AllSymbols([]) && Word(Values([])) == 0
  {
  }
}
