/** Big-endian digit strings in base `m`, read as one unbounded integer. This is
    the reference meaning both text codecs are proved against: encoding and
    decoding regroup the same integer into digits of another width (sections 5
    and 6 of RFC 4648). */
module Radix {
  import opened Common
  import opened Bits

  predicate IsDigits(m: nat, ds: seq<int>) {
    forall i :: 0 <= i < |ds| ==> 0 <= ds[i] < m
  }

  function Value(m: nat, ds: seq<int>): int {
    if ds == [] then 0 else Value(m, ds[..|ds| - 1]) * m + ds[|ds| - 1]
  }

  function ToDigits(m: nat, len: nat, v: nat): (ds: seq<int>)
    requires m > 0
    ensures |ds| == len && IsDigits(m, ds)
    decreases len
  {
    if len == 0 then [] else
      DivNonNegative(v, m);
      ToDigits(m, len - 1, v / m) + [v % m]
  }

  lemma ValuePush(m: nat, ds: seq<int>, d: int)
    ensures Value(m, ds + [d]) == Value(m, ds) * m + d
  {
    assert (ds + [d])[..|ds|] == ds;
  }

  lemma SmallValues(m: nat, a: int, b: int, c: int, d: int)
    ensures Value(m, [a]) == a
    ensures Value(m, [a, b]) == a * m + b
    ensures Value(m, [a, b, c]) == (a * m + b) * m + c
    ensures Value(m, [a, b, c, d]) == ((a * m + b) * m + c) * m + d
  {
    ValuePush(m, [], a);
    ValuePush(m, [a], b);
    ValuePush(m, [a, b], c);
    ValuePush(m, [a, b, c], d);
    assert [] + [a] == [a] && [a] + [b] == [a, b];
    assert [a, b] + [c] == [a, b, c] && [a, b, c] + [d] == [a, b, c, d];
  }

  lemma {:induction false} ValueNonNegative(m: nat, ds: seq<int>)
    requires IsDigits(m, ds)
    ensures Value(m, ds) >= 0
  {
    if ds != [] {
      ValueNonNegative(m, ds[..|ds| - 1]);
      assert Value(m, ds[..|ds| - 1]) * m >= 0;
    }
  }

  // Digits are recovered from the value, so a digit string of a given length is
  // determined by its value.
  lemma {:induction false} DigitsOfValue(m: nat, ds: seq<int>)
    requires m > 0 && IsDigits(m, ds)
    ensures 0 <= Value(m, ds) && ToDigits(m, |ds|, Value(m, ds)) == ds
  {
    if ds != [] {
      var front, last := ds[..|ds| - 1], ds[|ds| - 1];
      DigitsOfValue(m, front);
      assert Value(m, front) * m >= 0;
      DivModUnique(Value(m, ds), m, Value(m, front), last);
      assert ds == front + [last];
    }
  }

  lemma ValueInjective(m: nat, a: seq<int>, b: seq<int>)
    requires m > 0 && IsDigits(m, a) && IsDigits(m, b)
    requires |a| == |b| && Value(m, a) == Value(m, b)
    ensures a == b
  {
    DigitsOfValue(m, a);
    DigitsOfValue(m, b);
  }

  // p * m bounds v * m + d when p bounds v and m bounds d.
  lemma StepBound(p: nat, m: nat, v: nat, d: nat)
    requires v < p && d < m
    ensures v * m + d < p * m
  {
    MulMonotone(p - v, m);
    assert (p - v) * m == p * m - v * m;
  }

  lemma DivBound(p: nat, m: nat, v: nat)
    requires m > 0 && v < p * m
    ensures v / m < p
  {
    assert v == m * (v / m) + v % m;
    MulMonotone(v / m - p, m);
    assert (v / m - p) * m == v / m * m - p * m;
  }

  lemma Pow2Digit(w: nat, n: nat)
    ensures Pow2(w * (n + 1)) == Pow2(w * n) * Pow2(w)
  {
    assert w * (n + 1) == w * n + w;
    Pow2Add(w * n, w);
  }

  lemma {:induction false} ValueBound(w: nat, ds: seq<int>)
    requires IsDigits(Pow2(w), ds)
    ensures 0 <= Value(Pow2(w), ds) < Pow2(w * |ds|)
  {
    var m := Pow2(w);
    ValueNonNegative(m, ds);
    if ds == [] {
      assert w * |ds| == 0;
    } else {
      var front := ds[..|ds| - 1];
      ValueBound(w, front);
      StepBound(Pow2(w * |front|), m, Value(m, front), ds[|ds| - 1]);
      Pow2Digit(w, |front|);
    }
  }

  lemma {:induction false} ValueOfDigits(w: nat, len: nat, v: nat)
    requires v < Pow2(w * len)
    ensures Value(Pow2(w), ToDigits(Pow2(w), len, v)) == v
  {
    var m := Pow2(w);
    if len == 0 {
      assert w * len == 0;
    } else {
      Pow2Digit(w, len - 1);
      DivBound(Pow2(w * (len - 1)), m, v);
      DivNonNegative(v, m);
      var q, r := v / m, v % m;
      ValueOfDigits(w, len - 1, q);
      ValuePush(m, ToDigits(m, len - 1, q), r);
    }
  }

  // ----- Regrouping bytes as k-bit symbols and back ------------------------

  // Symbols needed for n bytes, and the zero bits that fill the last one.
  function EncodedLength(k: nat, n: nat): nat
    requires k > 0
  {
    (8 * n + k - 1) / k
  }

  function PadBits(k: nat, n: nat): (pad: nat)
    requires k > 0
    ensures pad < k
    ensures k * EncodedLength(k, n) == 8 * n + pad
  {
    var len := EncodedLength(k, n);
    assert 8 * n + k - 1 == k * len + (8 * n + k - 1) % k;
    k - 1 - (8 * n + k - 1) % k
  }

  // Bytes carried by n symbols, and the bits left over.
  function DecodedLength(k: nat, n: nat): nat { k * n / 8 }

  function SpareBits(k: nat, n: nat): nat { k * n % 8 }

  function Pack(k: nat, bytes: Bytes): (syms: seq<int>)
    requires k > 0
    ensures |syms| == EncodedLength(k, |bytes|) && IsDigits(Pow2(k), syms)
  {
    ValueNonNegative(0x100, bytes);
    var padding := Pow2(PadBits(k, |bytes|));
    assert Value(0x100, bytes) * padding >= 0;
    ToDigits(Pow2(k), EncodedLength(k, |bytes|), Value(0x100, bytes) * padding)
  }

  function Unpack(k: nat, syms: seq<int>): (bytes: Bytes)
    requires IsDigits(Pow2(k), syms)
    ensures |bytes| == DecodedLength(k, |syms|)
  {
    ValueNonNegative(Pow2(k), syms);
    DivNonNegative(Value(Pow2(k), syms), Pow2(SpareBits(k, |syms|)));
    ToDigits(0x100, DecodedLength(k, |syms|), Value(Pow2(k), syms) / Pow2(SpareBits(k, |syms|)))
  }

  // The value of the bits that Unpack drops.
  function Spare(k: nat, syms: seq<int>): int {
    Value(Pow2(k), syms) % Pow2(SpareBits(k, |syms|))
  }

  // Packed symbols spell the byte value followed by zero padding.
  lemma PackValue(k: nat, bytes: Bytes)
    requires k > 0
    ensures Value(Pow2(k), Pack(k, bytes)) == Value(0x100, bytes) * Pow2(PadBits(k, |bytes|))
  {
    Pow2Values();
    ValueBound(8, bytes);
    var v, pad := Value(0x100, bytes), PadBits(k, |bytes|);
    StepBound(Pow2(8 * |bytes|), Pow2(pad), v, 0);
    Pow2Add(8 * |bytes|, pad);
    ValueOfDigits(k, EncodedLength(k, |bytes|), v * Pow2(pad));
  }

  lemma UnpackPack(k: nat, bytes: Bytes)
    requires 0 < k <= 8
    ensures Unpack(k, Pack(k, bytes)) == bytes && Spare(k, Pack(k, bytes)) == 0
  {
    var v, pad := Value(0x100, bytes), PadBits(k, |bytes|);
    PackValue(k, bytes);
    DivModUnique(v * Pow2(pad), Pow2(pad), v, 0);
    DigitsOfValue(0x100, bytes);
  }

  // Dropping the low b bits of an (a + b)-bit number leaves an a-bit number.
  lemma SplitBits(v: nat, a: nat, b: nat)
    requires v < Pow2(a + b)
    ensures 0 <= v / Pow2(b) < Pow2(a)
    ensures v == v / Pow2(b) * Pow2(b) + v % Pow2(b)
  {
    Pow2Add(a, b);
    DivBound(Pow2(a), Pow2(b), v);
    DivNonNegative(v, Pow2(b));
  }

  // Unpacking keeps the leading bits: the symbols' value is the bytes' value
  // followed by the spare bits.
  lemma UnpackValue(k: nat, syms: seq<int>)
    requires IsDigits(Pow2(k), syms)
    ensures 0 <= Spare(k, syms) < Pow2(SpareBits(k, |syms|))
    ensures Value(Pow2(k), syms)
         == Value(0x100, Unpack(k, syms)) * Pow2(SpareBits(k, |syms|)) + Spare(k, syms)
  {
    var n, r, v := DecodedLength(k, |syms|), SpareBits(k, |syms|), Value(Pow2(k), syms);
    ValueBound(k, syms);
    SplitBits(v, 8 * n, r);
    Pow2Values();
    ValueOfDigits(8, n, v / Pow2(r));
  }

  // Unpack is the only byte string of its length that leaves less than the spare bits.
  lemma UnpackUnique(k: nat, syms: seq<int>, bytes: Bytes, low: nat)
    requires IsDigits(Pow2(k), syms) && |bytes| == DecodedLength(k, |syms|)
    requires low < Pow2(SpareBits(k, |syms|))
    requires Value(Pow2(k), syms) == Value(0x100, bytes) * Pow2(SpareBits(k, |syms|)) + low
    ensures Unpack(k, syms) == bytes
  {
    hide Value, Unpack, Spare;
    var m := Pow2(SpareBits(k, |syms|));
    UnpackValue(k, syms);
    DivModUnique(Value(Pow2(k), syms), m, Value(0x100, bytes), low);
    DivModUnique(Value(Pow2(k), syms), m, Value(0x100, Unpack(k, syms)), Spare(k, syms));
    ValueInjective(0x100, Unpack(k, syms), bytes);
  }

  lemma LengthsAgree(k: nat, len: nat)
    requires k > 0 && SpareBits(k, len) < k
    ensures EncodedLength(k, DecodedLength(k, len)) == len
    ensures PadBits(k, DecodedLength(k, len)) == SpareBits(k, len)
  {
    var n := DecodedLength(k, len);
    var e := EncodedLength(k, n);
    assert k * e - k * len == PadBits(k, n) - SpareBits(k, len);
    assert (e - len) * k == k * e - k * len;
    MulMonotone(e - len, k);
  }

  // Packing what was unpacked replaces the spare bits by zeros and changes
  // nothing else, provided no whole symbol is spare.
  lemma PackUnpack(k: nat, syms: seq<int>)
    requires 0 < k && IsDigits(Pow2(k), syms) && SpareBits(k, |syms|) < k
    ensures |Pack(k, Unpack(k, syms))| == |syms|
    ensures Value(Pow2(k), Pack(k, Unpack(k, syms))) == Value(Pow2(k), syms) - Spare(k, syms)
  {
    UnpackValue(k, syms);
    PackValue(k, Unpack(k, syms));
    LengthsAgree(k, |syms|);
  }

  lemma ModOfSum(x: nat, base: nat, h: nat, m: nat, d: nat)
    requires m > 0 && base == h * m
    ensures (x * base + d) % m == d % m <= d
  {
    DivNonNegative(d, m);
    var q, low := d / m, d % m;
    assert x * base == x * h * m && x * h >= 0;
    assert x * h * m + q * m == (x * h + q) * m && q * m >= 0;
    DivModUnique(x * base + d, m, x * h + q, low);
  }

  // The spare bits are the low bits of the last symbol.
  lemma SpareInLast(k: nat, syms: seq<int>)
    requires IsDigits(Pow2(k), syms) && syms != [] && SpareBits(k, |syms|) <= k
    ensures Spare(k, syms) == syms[|syms| - 1] % Pow2(SpareBits(k, |syms|)) <= syms[|syms| - 1]
  {
    var r, base := SpareBits(k, |syms|), Pow2(k);
    ValueNonNegative(base, syms[..|syms| - 1]);
    Pow2Add(k - r, r);
    ModOfSum(Value(base, syms[..|syms| - 1]), base, Pow2(k - r), Pow2(r), syms[|syms| - 1]);
  }

  // Repacking changes at most the last symbol, by its spare bits.
  lemma RepackDiffersInLast(k: nat, syms: seq<int>)
    requires 0 < k && IsDigits(Pow2(k), syms) && syms != [] && SpareBits(k, |syms|) < k
    ensures var last := syms[|syms| - 1];
            Pack(k, Unpack(k, syms))
              == syms[|syms| - 1 := last - last % Pow2(SpareBits(k, |syms|))]
  {
    PackUnpack(k, syms);
    SpareInLast(k, syms);
    UnpackValue(k, syms);
    var d := Spare(k, syms);
    DifferInLast(Pow2(k), Pack(k, Unpack(k, syms)), syms, d);
  }

  // Digit strings whose values differ by no more than the last digit of the
  // larger one differ in that last digit only.
  lemma DifferInLast(m: nat, a: seq<int>, b: seq<int>, d: nat)
    requires m > 0 && IsDigits(m, a) && IsDigits(m, b) && |a| == |b| > 0
    requires Value(m, a) == Value(m, b) - d && d <= b[|b| - 1]
    ensures a == b[|b| - 1 := b[|b| - 1] - d]
  {
    var c := b[|b| - 1 := b[|b| - 1] - d];
    assert c[..|b| - 1] == b[..|b| - 1];
    ValueInjective(m, a, c);
  }

  // ----- Regrouping in chunks -----------------------------------------------

  lemma {:induction false} ValueCat(w: nat, a: seq<int>, b: seq<int>)
    ensures Value(Pow2(w), a + b) == Value(Pow2(w), a) * Pow2(w * |b|) + Value(Pow2(w), b)
  {
    var m := Pow2(w);
    if b == [] {
      assert a + b == a && w * |b| == 0;
    } else {
      var front, last := b[..|b| - 1], b[|b| - 1];
      assert a + b == a + front + [last];
      ValuePush(m, a + front, last);
      ValueCat(w, a, front);
      Pow2Digit(w, |front|);
      Distribute(Value(m, a), Pow2(w * |front|), Value(m, front), m);
    }
  }

  lemma Distribute(x: int, p: int, y: int, m: int)
    ensures (x * p + y) * m == x * (p * m) + y * m
  {
  }

  lemma ValueOfPackedCat(k: nat, a: Bytes, c: Bytes)
    requires k > 0 && PadBits(k, |a|) == 0
    ensures Value(Pow2(k), Pack(k, a + c))
         == (Value(0x100, a) * Pow2(8 * |c|) + Value(0x100, c)) * Pow2(PadBits(k, |c|))
  {
    hide Pack, Value;
    PackLengths(k, |a|, |c|);
    PackValue(k, a + c);
    assert Pow2(8) == 0x100 by { Pow2Values(); }
    ValueCat(8, a, c);
  }

  lemma ValueOfCatPacked(k: nat, a: Bytes, c: Bytes)
    requires k > 0 && PadBits(k, |a|) == 0
    ensures Value(Pow2(k), Pack(k, a) + Pack(k, c))
         == Value(0x100, a) * (Pow2(8 * |c|) * Pow2(PadBits(k, |c|)))
            + Value(0x100, c) * Pow2(PadBits(k, |c|))
  {
    hide Pack, Value, PadBits, EncodedLength;
    PackValue(k, a);
    PackValue(k, c);
    ValueCat(k, Pack(k, a), Pack(k, c));
    Pow2Add(8 * |c|, PadBits(k, |c|));
  }

  // Chunks that fill a whole number of symbols can be packed one at a time.
  lemma PackCat(k: nat, a: Bytes, c: Bytes)
    requires k > 0 && PadBits(k, |a|) == 0
    ensures Pack(k, a + c) == Pack(k, a) + Pack(k, c)
  {
    hide Pack, Value, PadBits, EncodedLength;
    PackLengths(k, |a|, |c|);
    ValueOfPackedCat(k, a, c);
    ValueOfCatPacked(k, a, c);
    Distribute(Value(0x100, a), Pow2(8 * |c|), Value(0x100, c), Pow2(PadBits(k, |c|)));
    ValueInjective(Pow2(k), Pack(k, a + c), Pack(k, a) + Pack(k, c));
  }

  lemma PackLengths(k: nat, n: nat, m: nat)
    requires k > 0 && PadBits(k, n) == 0
    ensures EncodedLength(k, n + m) == EncodedLength(k, n) + EncodedLength(k, m)
    ensures PadBits(k, n + m) == PadBits(k, m)
  {
    var e := EncodedLength(k, n + m) - EncodedLength(k, n) - EncodedLength(k, m);
    assert e * k == PadBits(k, n + m) - PadBits(k, m) by {
      assert e * k == k * EncodedLength(k, n + m) - k * EncodedLength(k, n) - k * EncodedLength(k, m);
    }
    MulMonotone(e, k);
  }

  lemma QuotientOfCat(va: int, p: nat, vc: int, r: nat, sc: nat, u: int, s: nat)
    requires sc < r && s < r && va * (p * r) + (vc * r + sc) == u * r + s
    ensures u == va * p + vc
  {
    Distribute(va, p, vc, r);
    DivModUnique(u * r + s, r, u, s);
    DivModUnique(u * r + s, r, va * p + vc, sc);
  }

  lemma UnpackCatValue(k: nat, a: seq<int>, c: seq<int>)
    requires IsDigits(Pow2(k), a) && IsDigits(Pow2(k), c) && SpareBits(k, |a|) == 0
    ensures Value(0x100, Unpack(k, a + c))
         == Value(0x100, Unpack(k, a)) * Pow2(8 * DecodedLength(k, |c|)) + Value(0x100, Unpack(k, c))
  {
    hide Value, Unpack, Spare;
    var n, r := DecodedLength(k, |c|), SpareBits(k, |c|);
    UnpackLengths(k, |a|, |c|);
    UnpackValue(k, a);
    UnpackValue(k, c);
    UnpackValue(k, a + c);
    ValueCat(k, a, c);
    Pow2Add(8 * n, r);
    QuotientOfCat(Value(0x100, Unpack(k, a)), Pow2(8 * n), Value(0x100, Unpack(k, c)), Pow2(r),
                  Spare(k, c), Value(0x100, Unpack(k, a + c)), Spare(k, a + c));
  }

  // Chunks that hold a whole number of bytes can be unpacked one at a time.
  lemma UnpackCat(k: nat, a: seq<int>, c: seq<int>)
    requires IsDigits(Pow2(k), a) && IsDigits(Pow2(k), c) && SpareBits(k, |a|) == 0
    ensures Unpack(k, a + c) == Unpack(k, a) + Unpack(k, c)
  {
    hide Unpack, Value;
    UnpackLengths(k, |a|, |c|);
    UnpackCatValue(k, a, c);
    assert Pow2(8) == 0x100 by { Pow2Values(); }
    ValueCat(8, Unpack(k, a), Unpack(k, c));
    ValueInjective(0x100, Unpack(k, a + c), Unpack(k, a) + Unpack(k, c));
  }

  lemma UnpackLengths(k: nat, n: nat, m: nat)
    requires SpareBits(k, n) == 0
    ensures DecodedLength(k, n + m) == DecodedLength(k, n) + DecodedLength(k, m)
    ensures SpareBits(k, n + m) == SpareBits(k, m)
    ensures k * m == 8 * DecodedLength(k, m) + SpareBits(k, m)
  {
    assert k * (n + m) == k * n + k * m;
  }

  // ----- Regrouping one symbol at a time ------------------------------------

  // The spare bits with one more symbol shifted in.
  function Carry(k: nat, syms: seq<int>, v: nat): nat
    requires IsDigits(Pow2(k), syms) && v < Pow2(k)
  {
    UnpackValue(k, syms);
    var s: nat := Spare(k, syms);
    StepBound(s + 1, Pow2(k), s, v);
    s * Pow2(k) + v
  }

  lemma CarryBound(s: nat, a: nat, v: nat, b: nat)
    requires s < Pow2(a) && v < Pow2(b)
    ensures s * Pow2(b) + v < Pow2(a + b)
  {
    StepBound(Pow2(a), Pow2(b), s, v);
    Pow2Add(a, b);
  }

  lemma PushValue(k: nat, syms: seq<int>, v: nat)
    requires IsDigits(Pow2(k), syms) && v < Pow2(k)
    ensures Value(Pow2(k), syms + [v])
         == Value(0x100, Unpack(k, syms)) * Pow2(SpareBits(k, |syms|) + k) + Carry(k, syms, v)
    ensures Carry(k, syms, v) < Pow2(SpareBits(k, |syms|) + k)
  {
    hide Unpack, Value, Spare;
    var r := SpareBits(k, |syms|);
    UnpackValue(k, syms);
    ValuePush(Pow2(k), syms, v);
    CarryBound(Spare(k, syms), r, v, k);
    Pow2Add(r, k);
    Distribute(Value(0x100, Unpack(k, syms)), Pow2(r), Spare(k, syms), Pow2(k));
  }

  lemma PushLengths(k: nat, n: nat)
    requires k <= 8
    ensures var total := SpareBits(k, n) + k;
            && SpareBits(k, n + 1) == (if total < 8 then total else total - 8)
            && DecodedLength(k, n + 1) == DecodedLength(k, n) + (if total < 8 then 0 else 1)
  {
    assert k * (n + 1) == k * n + k;
  }

  // The carried bits plus one more symbol do not yet make a byte.
  lemma UnpackKeep(k: nat, syms: seq<int>, v: nat)
    requires IsDigits(Pow2(k), syms) && k <= 8 && v < Pow2(k) && SpareBits(k, |syms|) + k < 8
    ensures Unpack(k, syms + [v]) == Unpack(k, syms)
    ensures SpareBits(k, |syms| + 1) == SpareBits(k, |syms|) + k
  {
    hide Unpack, Value, Spare, Carry;
    PushLengths(k, |syms|);
    PushValue(k, syms, v);
    UnpackUnique(k, syms + [v], Unpack(k, syms), Carry(k, syms, v));
  }

  lemma SplitByte(u: nat, carry: nat, m: nat)
    requires m > 0 && carry < 0x100 * m
    ensures 0 <= carry / m < 0x100
    ensures u * (0x100 * m) + carry == (u * 0x100 + carry / m) * m + carry % m
    ensures (u * (0x100 * m) + carry) / m % 0x100 == carry / m
  {
    DivNonNegative(carry, m);
    DivBound(0x100, m, carry);
    var b := carry / m;
    Distribute(u, 0x100, b, m);
    DivModUnique(u * (0x100 * m) + carry, m, u * 0x100 + b, carry % m);
    DivModUnique(u * 0x100 + b, 0x100, u, b);
  }

  // The carried bits plus one more symbol complete a byte.
  lemma UnpackEmit(k: nat, syms: seq<int>, v: nat)
    requires IsDigits(Pow2(k), syms) && k <= 8 && v < Pow2(k) && SpareBits(k, |syms|) + k >= 8
    ensures SpareBits(k, |syms| + 1) == SpareBits(k, |syms|) + k - 8
    ensures Unpack(k, syms + [v])
         == Unpack(k, syms) + [Value(Pow2(k), syms + [v]) / Pow2(SpareBits(k, |syms| + 1)) % 0x100]
  {
    hide Unpack, Value, Spare, Carry, SpareBits, DecodedLength;
    var r', carry := SpareBits(k, |syms|) + k - 8, Carry(k, syms, v);
    PushLengths(k, |syms|);
    PushValue(k, syms, v);
    assert Pow2(8 + r') == 0x100 * Pow2(r') by {
      Pow2Add(8, r');
      Pow2Values();
    }
    ValueNonNegative(0x100, Unpack(k, syms));
    SplitByte(Value(0x100, Unpack(k, syms)), carry, Pow2(r'));
    ValuePush(0x100, Unpack(k, syms), carry / Pow2(r'));
    UnpackUnique(k, syms + [v], Unpack(k, syms) + [carry / Pow2(r')], carry % Pow2(r'));
  }
}
