/** Base32 without padding (section 6 of RFC 4648), as used in `g-dns.net` host
    names. `Encode` and `Decode` are the reference meaning; the methods are the
    resolver's loops over a wrapping machine-word accumulator. */
module Base32 {
  import opened Common
  import opened Bits
  import opened Radix

  // ----- Alphabet -----------------------------------------------------------

  function Symbol(v: int): u8
    requires 0 <= v < 32
  {
    if v < 26 then 'A' as int + v else '2' as int + (v - 26)
  }

  function SymbolValue(c: u8): (r: Option<int>)
    ensures r.Some? ==> 0 <= r.value < 32
  {
    if 'A' as int <= c <= 'Z' as int then Some(c - 'A' as int)
    else if 'a' as int <= c <= 'z' as int then Some(c - 'a' as int)
    else if '2' as int <= c <= '7' as int then Some(c - '2' as int + 26)
    else None
  }

  function UpperChar(c: u8): u8 {
    if 'a' as int <= c <= 'z' as int then c - 'a' as int + 'A' as int else c
  }

  function Upper(s: Str): (t: Str)
    ensures |t| == |s|
  {
    seq(|s|, i requires 0 <= i < |s| => UpperChar(s[i]))
  }

  // The alphabet of section 6 of RFC 4648.
  lemma SymbolIsAlphabet(v: int)
    requires 0 <= v < 32
    ensures Symbol(v) == "ABCDEFGHIJKLMNOPQRSTUVWXYZ234567"[v] as int
  {
  }

  lemma UpperIsSymbol(c: u8)
    ensures SymbolValue(UpperChar(c)) == SymbolValue(c)
    ensures SymbolValue(c).Some? ==> UpperChar(c) == Symbol(SymbolValue(c).value)
  {
  }

  lemma ValueOfSymbol(v: int)
    requires 0 <= v < 32
    ensures SymbolValue(Symbol(v)) == Some(v)
  {
  }

  predicate AllSymbols(s: Str) {
    forall i :: 0 <= i < |s| ==> SymbolValue(s[i]).Some?
  }

  function Values(s: Str): (syms: seq<int>)
    requires AllSymbols(s)
    ensures IsDigits(32, syms) && |syms| == |s|
  {
    seq(|s|, i requires 0 <= i < |s| => SymbolValue(s[i]).value)
  }

  function Spell(syms: seq<int>): (s: Str)
    requires IsDigits(32, syms)
    ensures |s| == |syms|
  {
    seq(|syms|, i requires 0 <= i < |syms| => Symbol(syms[i]))
  }

  lemma ValuesOfSpell(syms: seq<int>)
    requires IsDigits(32, syms)
    ensures AllSymbols(Spell(syms)) && Values(Spell(syms)) == syms
  {
    forall i | 0 <= i < |syms| ensures SymbolValue(Spell(syms)[i]) == Some(syms[i]) {
      ValueOfSymbol(syms[i]);
    }
  }

  // Up to letter case a string of symbols is spelt by its values.
  lemma SpellOfValues(s: Str)
    requires AllSymbols(s)
    ensures Spell(Values(s)) == Upper(s)
  {
    forall i | 0 <= i < |s| ensures Spell(Values(s))[i] == Upper(s)[i] {
      UpperIsSymbol(s[i]);
    }
  }

  lemma ValuesOfUpper(s: Str)
    ensures AllSymbols(Upper(s)) <==> AllSymbols(s)
    ensures AllSymbols(s) ==> Values(Upper(s)) == Values(s)
  {
    forall i | 0 <= i < |s| ensures SymbolValue(Upper(s)[i]) == SymbolValue(s[i]) {
      UpperIsSymbol(s[i]);
    }
    assert AllSymbols(Upper(s)) ==> forall i :: 0 <= i < |s| ==> SymbolValue(Upper(s)[i]).Some?;
  }

  // ----- Reference meaning --------------------------------------------------

  function Encode(data: Bytes): Str {
    Pow2Values();
    Spell(Pack(5, data))
  }

  function Decode(s: Str): Option<Bytes> {
    Pow2Values();
    if AllSymbols(s) && Spare(5, Values(s)) == 0 then Some(Unpack(5, Values(s))) else None
  }

  lemma DecodeEncode(data: Bytes)
    ensures Decode(Encode(data)) == Some(data)
  {
    hide Pack, Unpack, Spare;
    Pow2Values();
    UnpackPack(5, data);
    ValuesOfSpell(Pack(5, data));
  }

  lemma DecodeIgnoresCase(s: Str)
    ensures Decode(Upper(s)) == Decode(s)
  {
    hide Unpack, Spare;
    ValuesOfUpper(s);
  }

  // ----- Decoding in place --------------------------------------------------

  // Shifting the wrapped accumulator and OR-ing a symbol in tracks the unbounded value.
  lemma ShiftIn(x: nat, v: nat)
    requires v < 32
    ensures Or(Shl32(x % TWO_TO_THE_32, 5), v) == (x * 32 + v) % TWO_TO_THE_32
  {
    hide Or;
    Pow2Values();
    var shifted := Shl32(x % TWO_TO_THE_32, 5);
    var q, r := x / TWO_TO_THE_32, x % TWO_TO_THE_32;
    assert shifted == r * 32 % TWO_TO_THE_32;
    assert shifted % 32 == 0;
    OrInto(shifted, v, 5, 32);
    var t := r * 32 / TWO_TO_THE_32;
    assert x * 32 + v == (q * 32 + t) * TWO_TO_THE_32 + (shifted + v);
  }

  // `(1 << n) - 1`
  function LowMask(n: nat): (mask: nat)
    requires n <= 7
    ensures mask == Pow2(n) - 1
  {
    Pow2Values();
    assert Pow2(n) <= 0x80;
    Shl32(1, n) - 1
  }

  // The low bits that the loop reads survive the wrap-around.
  lemma WrappedBits(x: nat, n: nat)
    requires n <= 7
    ensures Shr(x % TWO_TO_THE_32, n) % 0x100 == x / Pow2(n) % 0x100
    ensures And(x % TWO_TO_THE_32, LowMask(n)) == x % Pow2(n)
  {
    hide And;
    Pow2Values();
    Pow2Words();
    WrappedField(x, 32, n, 8);
    AndMask(x % TWO_TO_THE_32, n);
  }

  lemma ValuesSnoc(s: Str, c: u8)
    requires AllSymbols(s) && SymbolValue(c).Some?
    ensures AllSymbols(s + [c]) && Values(s + [c]) == Values(s) + [SymbolValue(c).value]
  {
  }

  lemma DecodeNothing()
    ensures AllSymbols([]) && Values([]) == [] && Value(32, []) == 0
    ensures Pow2(5) == 32 && Unpack(5, []) == [] && SpareBits(5, 0) == 0
  {
  }

  lemma BadSymbol(s: Str, i: nat)
    requires i < |s| && SymbolValue(s[i]).None?
    ensures Decode(s) == None
  {
  }

  method DecodeLoop(s: Str) returns (r: Option<Bytes>)
    ensures r == Decode(s)
  {
    hide SymbolValue, Values, Value, Unpack, Spare, SpareBits, Or, And, Shr, Shl32, Decode;
    DecodeNothing();
    var bits: nat := 0;
    var nbits: nat := 0;
    var out: Bytes := [];
    var i := 0;
    assert s[..0] == [];
    while i < |s|
      invariant 0 <= i <= |s| && AllSymbols(s[..i]) && Value(32, Values(s[..i])) >= 0
      invariant bits == Value(32, Values(s[..i])) % TWO_TO_THE_32
      invariant nbits == SpareBits(5, i) <= 7
      invariant out == Unpack(5, Values(s[..i]))
    {
      match SymbolValue(s[i]) {
        case None =>
          BadSymbol(s, i);
          return None;
        case Some(v) =>
          ghost var syms := Values(s[..i]);
          ValuesSnoc(s[..i], s[i]);
          assert s[..i + 1] == s[..i] + [s[i]];
          ValuePush(32, syms, v);
          ShiftIn(Value(32, syms), v);
          bits := Or(Shl32(bits, 5), v);
          nbits := nbits + 5;
          if nbits >= 8 {
            nbits := nbits - 8;
            UnpackEmit(5, syms, v);
            WrappedBits(Value(32, syms + [v]), nbits);
            out := out + [Shr(bits, nbits) % 0x100];
          } else {
            UnpackKeep(5, syms, v);
          }
          i := i + 1;
      }
    }
    assert s[..i] == s;
    ValueNonNegative(32, Values(s));
    WrappedBits(Value(32, Values(s)), nbits);
    DecodeBySpare(s);
    // refuse set bits that complete no byte
    if And(bits, LowMask(nbits)) != 0 {
      return None;
    }
    r := Some(out);
  }

  lemma DecodeBySpare(s: Str)
    requires AllSymbols(s)
    ensures Pow2(5) == 32
    ensures Decode(s) == if Value(32, Values(s)) % Pow2(SpareBits(5, |s|)) == 0
                         then Some(Unpack(5, Values(s))) else None
  {
    hide Unpack, Values;
  }

  // ----- Encoding in place --------------------------------------------------

  // The accumulator is wide enough for the few bits it carries.
  lemma ShiftInByte(x: nat, b: u8)
    ensures Or(Shl64(x % TWO_TO_THE_64, 8), b) == (x * 0x100 + b) % TWO_TO_THE_64
  {
    hide Or, Pow2;
    Pow2Values();
    var shifted := Shl64(x % TWO_TO_THE_64, 8);
    var q, r := x / TWO_TO_THE_64, x % TWO_TO_THE_64;
    assert shifted == r * 0x100 % TWO_TO_THE_64;
    assert shifted % 0x100 == 0;
    OrInto(shifted, b, 8, 0x100);
    var t := r * 0x100 / TWO_TO_THE_64;
    assert x * 0x100 + b == (q * 0x100 + t) * TWO_TO_THE_64 + (shifted + b);
  }

  // `ALPHA[(bits >> n) as usize & 31]`
  function Quintet(bits: nat, n: nat): (v: nat)
    ensures v < 32 && v == Shr(bits, n) % 32
  {
    Pow2Values();
    AndMask(Shr(bits, n), 5);
    And(Shr(bits, n), 31)
  }

  lemma WrappedQuintet(x: nat, n: nat, high: nat, v: nat, low: nat)
    requires n <= 12 && v < 32 && low < Pow2(n)
    requires x == (high * 32 + v) * Pow2(n) + low
    ensures Quintet(x % TWO_TO_THE_64, n) == v
  {
    hide And, Pow2, Quintet;
    Pow2Values();
    Pow2Words();
    WrappedField(x, 64, n, 5);
    DivModUnique(x, Pow2(n), high * 32 + v, low);
    DivModUnique(high * 32 + v, 32, high, v);
  }

  // The symbols written so far and the carried bits make up the bytes read.
  ghost predicate Written(x: nat, syms: seq<int>, low: nat, nbits: nat) {
    && IsDigits(32, syms)
    && low < Pow2(nbits)
    && x == Value(32, syms) * Pow2(nbits) + low
  }

  lemma ReadByte(x: nat, syms: seq<int>, low: nat, nbits: nat, b: u8)
    requires Written(x, syms, low, nbits)
    ensures Written(x * 0x100 + b, syms, low * 0x100 + b, nbits + 8)
  {
    hide Value;
    Pow2Values();
    Pow2Add(nbits, 8);
    StepBound(Pow2(nbits), 0x100, low, b);
    Distribute(Value(32, syms), Pow2(nbits), low, 0x100);
  }

  lemma WriteSymbol(x: nat, syms: seq<int>, low: nat, nbits: nat)
    requires 5 <= nbits <= 17 && Written(x, syms, low, nbits)
    ensures var v := Quintet(x % TWO_TO_THE_64, nbits - 5);
            Written(x, syms + [v], low % Pow2(nbits - 5), nbits - 5)
  {
    hide Value, Quintet;
    var m := Pow2(nbits - 5);
    Pow2Values();
    Pow2Add(5, nbits - 5);
    DivNonNegative(low, m);
    DivBound(32, m, low);
    var v := low / m;
    ValueNonNegative(32, syms);
    Distribute(Value(32, syms), 32, v, m);
    WrappedQuintet(x, nbits - 5, Value(32, syms), v, low % m);
    ValuePush(32, syms, v);
  }

  // `ALPHA[(bits << (5 - nbits)) as usize & 31]`
  function LastQuintet(bits: nat, nbits: nat): (v: nat)
    requires nbits < 5
    ensures v < 32 && v == Shl64(bits, 5 - nbits) % 32
  {
    Pow2Values();
    AndMask(Shl64(bits, 5 - nbits), 5);
    And(Shl64(bits, 5 - nbits), 31)
  }

  lemma ModTwice(x: nat, p: nat, w: nat, h: nat)
    requires h > 0 && w == 32 * h
    ensures (x % w * p) % w % 32 == x * p % 32
  {
    DivNonNegative(x, w);
    var q, r := x / w, x % w;
    assert x * p == q * w * p + r * p && q * w * p == 32 * (h * (q * p)) ;
    LowBits(r * p, 32, h);
    var t := h * (q * p);
    assert (32 * t + r * p) % 32 == r * p % 32;
  }

  lemma WrappedLast(x: nat, high: nat, low: nat, nbits: nat)
    requires 0 < nbits < 5 && low < Pow2(nbits) && x == high * Pow2(nbits) + low
    ensures LastQuintet(x % TWO_TO_THE_64, nbits) == low * Pow2(5 - nbits)
  {
    hide LastQuintet, Pow2;
    var m, p := Pow2(nbits), Pow2(5 - nbits);
    assert m * p == 32 by {
      Pow2Values();
      Pow2Add(nbits, 5 - nbits);
    }
    StepBound(m, p, low, 0);
    assert x * p == high * 32 + low * p by {
      Distribute(high, m, low, p);
    }
    DivModUnique(x * p, 32, high, low * p);
    ModTwice(x, p, TWO_TO_THE_64, 0x800_0000_0000_0000);
  }

  // What is left when the input ends is padded with zeros on the right.
  lemma Finish(data: Bytes, syms: seq<int>, low: nat, nbits: nat)
    requires 0 < nbits < 5 && 5 * |syms| + nbits == 8 * |data| && Value(0x100, data) >= 0
    requires Written(Value(0x100, data), syms, low, nbits)
    ensures Pow2(5) == 32
    ensures Pack(5, data) == syms + [LastQuintet(Value(0x100, data) % TWO_TO_THE_64, nbits)]
  {
    hide Value, Pack, Pow2, LastQuintet;
    var pad := 5 - nbits;
    Pow2Values();
    Pow2Add(nbits, pad);
    StepBound(Pow2(nbits), Pow2(pad), low, 0);
    var v := low * Pow2(pad);
    assert PadBits(5, |data|) == pad && EncodedLength(5, |data|) == |syms| + 1;
    hide PadBits, EncodedLength;
    PackValue(5, data);
    Distribute(Value(32, syms), Pow2(nbits), low, Pow2(pad));
    ValuePush(32, syms, v);
    WrappedLast(Value(0x100, data), Value(32, syms), low, nbits);
    ValueInjective(32, Pack(5, data), syms + [v]);
  }

  lemma FinishAligned(data: Bytes, syms: seq<int>)
    requires 5 * |syms| == 8 * |data| && Value(0x100, data) >= 0
    requires Written(Value(0x100, data), syms, 0, 0)
    ensures Pow2(5) == 32 && Pack(5, data) == syms
  {
    hide Value, Pack;
    Pow2Values();
    assert PadBits(5, |data|) == 0 && EncodedLength(5, |data|) == |syms|;
    PackValue(5, data);
    ValueInjective(32, Pack(5, data), syms);
  }

  lemma SpellSnoc(syms: seq<int>, v: int)
    requires IsDigits(32, syms) && 0 <= v < 32
    ensures Spell(syms + [v]) == Spell(syms) + [Symbol(v)]
  {
  }

  lemma WriteNothing()
    ensures IsDigits(32, []) && Spell([]) == []
    ensures Written(0, [], 0, 0) && Value(0x100, []) == 0
  {
  }

  lemma NoCarry(x: nat, syms: seq<int>, low: nat)
    requires Written(x, syms, low, 0)
    ensures low == 0
  {
  }

  method EncodeLoop(data: Bytes) returns (out: Str)
    ensures out == Encode(data)
  {
    hide Value, Pow2, Or, Shl64, Quintet, LastQuintet, Symbol, Spell, Written, Pack;
    var bits: nat := 0;
    var nbits: nat := 0;
    out := [];
    ghost var syms: seq<int> := [];
    ghost var low: nat := 0;
    WriteNothing();
    var i := 0;
    assert data[..0] == [];
    while i < |data|
      invariant 0 <= i <= |data| && nbits < 5 && 5 * |syms| + nbits == 8 * i
      invariant IsDigits(32, syms) && out == Spell(syms)
      invariant Value(0x100, data[..i]) >= 0
      invariant bits == Value(0x100, data[..i]) % TWO_TO_THE_64
      invariant Written(Value(0x100, data[..i]), syms, low, nbits)
    {
      ghost var x := Value(0x100, data[..i]);
      ReadByte(x, syms, low, nbits, data[i]);
      ShiftInByte(x, data[i]);
      ValuePush(0x100, data[..i], data[i]);
      assert data[..i + 1] == data[..i] + [data[i]];
      bits := Or(Shl64(bits, 8), data[i]);
      nbits := nbits + 8;
      low := low * 0x100 + data[i];
      i := i + 1;
      x := x * 0x100 + data[i - 1];
      while nbits >= 5
        invariant nbits <= 12 && 5 * |syms| + nbits == 8 * i
        invariant IsDigits(32, syms) && out == Spell(syms)
        invariant Written(x, syms, low, nbits)
      {
        WriteSymbol(x, syms, low, nbits);
        nbits := nbits - 5;
        DivNonNegative(low, Pow2(nbits));
        low := low % Pow2(nbits);
        SpellSnoc(syms, Quintet(bits, nbits));
        syms := syms + [Quintet(bits, nbits)];
        out := out + [Symbol(Quintet(bits, nbits))];
      }
    }
    assert data[..i] == data;
    if nbits > 0 {
      Finish(data, syms, low, nbits);
      SpellSnoc(syms, LastQuintet(bits, nbits));
      out := out + [Symbol(LastQuintet(bits, nbits))];
    } else {
      NoCarry(Value(0x100, data), syms, low);
      FinishAligned(data, syms);
    }
  }

  // ----- IP addresses -------------------------------------------------------

  datatype IpAddr = V4(octets: Bytes) | V6(octets: Bytes)

  function DecodeIp(encoded: Str): Option<IpAddr> {
    var data := Decode(encoded);
    if data.None? then None
    else if |data.value| == 4 then Some(V4(data.value))
    else if |data.value| == 16 then Some(V6(data.value))
    else None
  }

  // A string with less than a symbol of spare bits decodes to `data` only if it
  // is the encoding of `data`, up to letter case.
  lemma OnlySpelling(s: Str, data: Bytes)
    requires Decode(s) == Some(data) && SpareBits(5, |s|) < 5
    ensures Upper(s) == Encode(data)
  {
    hide Value, Pack, Unpack, Spare;
    Pow2Values();
    var syms := Values(s);
    PackUnpack(5, syms);
    ValueInjective(32, Pack(5, data), syms);
    SpellOfValues(s);
  }

  // A whole spare symbol must be zero, and dropping it changes nothing.
  lemma DropSpareSymbol(s: Str, data: Bytes)
    requires s != [] && Decode(s) == Some(data) && SpareBits(5, |s|) >= 5
    ensures SymbolValue(s[|s| - 1]) == Some(0) && Decode(s[..|s| - 1]) == Some(data)
  {
    hide Unpack, Value;
    Pow2Values();
    var front, syms := s[..|s| - 1], Values(s);
    var last := syms[|s| - 1];
    assert syms == Values(front) + [last];
    var r := SpareBits(5, |front|);
    PushLengths(5, |front|);
    assert r < 3;
    UnpackKeep(5, Values(front), last);
    ValuePush(32, Values(front), last);
    ValueNonNegative(32, Values(front));
    Pow2Add(r, 5);
    SpareOfPush(Value(32, Values(front)), last, Pow2(r));
  }

  lemma SpareOfPush(x: nat, v: nat, m: nat)
    requires m > 0 && v < 32 && (x * 32 + v) % (m * 32) == 0
    ensures v == 0 && x % m == 0
  {
    var q := (x * 32 + v) / (m * 32);
    assert x * 32 + v == q * (m * 32) == (q * m) * 32;
    DivModUnique(x * 32 + v, 32, x, v);
    DivModUnique(x * 32 + v, 32, q * m, 0);
    DivModUnique(x, m, q, 0);
  }

  const ZERO_SYMBOL: u8 := 'A' as int

  // A zero symbol that completes no byte changes nothing.
  lemma AppendZero(s: Str, data: Bytes)
    requires Decode(s) == Some(data) && SpareBits(5, |s|) < 3
    ensures Decode(s + [ZERO_SYMBOL]) == Some(data)
  {
    hide Unpack, Value;
    Pow2Values();
    var syms, r := Values(s), SpareBits(5, |s|);
    ValuesSnoc(s, ZERO_SYMBOL);
    UnpackKeep(5, syms, 0);
    ValuePush(32, syms, 0);
    ValueNonNegative(32, syms);
    Pow2Add(r, 5);
    var q := Value(32, syms) / Pow2(r);
    assert Value(32, syms) * 32 == q * (Pow2(r) * 32);
    DivModUnique(Value(32, syms) * 32, Pow2(r) * 32, q, 0);
  }

  lemma IpLengths(s: Str)
    ensures DecodeIp(s).Some? && DecodeIp(s).value.V4? ==> |s| == 7
    ensures DecodeIp(s).Some? && DecodeIp(s).value.V6? ==> |s| == 26 || |s| == 27
  {
    hide Unpack, Spare;
  }

  lemma EncodedIpLength(data: Bytes)
    ensures |data| == 4 ==> |Encode(data)| == 7
    ensures |data| == 16 ==> |Encode(data)| == 26
  {
    hide Pack;
  }

  // Up to letter case, an IPv4 address has exactly one accepted spelling.
  lemma Ipv4Spelling(s: Str, octets: Bytes)
    ensures DecodeIp(s) == Some(V4(octets)) <==> |octets| == 4 && Upper(s) == Encode(octets)
  {
    hide Decode, Encode;
    IpLengths(s);
    EncodedIpLength(octets);
    if DecodeIp(s) == Some(V4(octets)) {
      OnlySpelling(s, octets);
    }
    if |octets| == 4 && Upper(s) == Encode(octets) {
      DecodeEncode(octets);
      DecodeIgnoresCase(s);
    }
  }

  // Up to letter case, an IPv6 address has exactly two: the canonical one, and
  // that one followed by a zero symbol.
  lemma Ipv6Spellings(s: Str, octets: Bytes)
    ensures DecodeIp(s) == Some(V6(octets))
       <==> |octets| == 16
            && (Upper(s) == Encode(octets) || Upper(s) == Encode(octets) + [ZERO_SYMBOL])
  {
    hide Decode, Encode;
    IpLengths(s);
    EncodedIpLength(octets);
    if DecodeIp(s) == Some(V6(octets)) {
      if |s| == 26 {
        OnlySpelling(s, octets);
      } else {
        var front := s[..26];
        DropSpareSymbol(s, octets);
        OnlySpelling(front, octets);
        UpperIsSymbol(s[26]);
        assert Upper(s) == Upper(front) + [ZERO_SYMBOL];
      }
    }
    if |octets| == 16 {
      DecodeEncode(octets);
      AppendZero(Encode(octets), octets);
      DecodeIgnoresCase(s);
    }
  }
}
