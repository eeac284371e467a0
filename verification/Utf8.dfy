/** UTF-8 well-formedness and lossy decoding: every maximal ill-formed part is
    replaced by U+FFFD, as Rust's `String::from_utf8_lossy` does when a name or
    an error text is read off the wire. */
module Utf8 {
  import opened Common

  // The bytes of U+FFFD.
  const REPLACEMENT: Bytes := [0xEF, 0xBF, 0xBD]

  predicate IsContinuation(b: u8) { 0x80 <= b <= 0xBF }

  // Width of a sequence introduced by this byte; 0 for bytes that introduce none.
  function Width(first: u8): (w: nat)
    ensures w <= 4
  {
    if first < 0x80 then 1
    else if 0xC2 <= first <= 0xDF then 2
    else if 0xE0 <= first <= 0xEF then 3
    else if 0xF0 <= first <= 0xF4 then 4
    else 0
  }

  predicate SecondOk(first: u8, second: u8) {
    match first
    case 0xE0 => 0xA0 <= second <= 0xBF
    case 0xED => 0x80 <= second <= 0x9F
    case 0xF0 => 0x90 <= second <= 0xBF
    case 0xF4 => 0x80 <= second <= 0x8F
    case _ => IsContinuation(second)
  }

  // Length of the longest prefix of one well-formed sequence.
  function PrefixLength(s: Bytes): (n: nat)
    requires s != []
    ensures n <= Width(s[0]) && n <= |s|
  {
    var w := Width(s[0]);
    if w <= 1 then w
    else if |s| < 2 || !SecondOk(s[0], s[1]) then 1
    else if w == 2 then 2
    else if |s| < 3 || !IsContinuation(s[2]) then 2
    else if w == 3 then 3
    else if |s| < 4 || !IsContinuation(s[3]) then 3
    else 4
  }

  // A complete sequence starts here.
  predicate Complete(s: Bytes)
    requires s != []
  {
    Width(s[0]) != 0 && PrefixLength(s) == Width(s[0])
  }

  // How many bytes the decoder consumes at once.
  function Consumed(s: Bytes): (n: nat)
    requires s != []
    ensures 1 <= n <= |s|
  {
    if PrefixLength(s) == 0 then 1 else PrefixLength(s)
  }

  predicate Valid(s: Bytes) {
    s == [] || (Complete(s) && Valid(s[Consumed(s)..]))
  }

  function Lossy(s: Bytes): Str {
    if s == [] then []
    else (if Complete(s) then s[..Consumed(s)] else REPLACEMENT) + Lossy(s[Consumed(s)..])
  }

  // Looking past the sequence does not change it.
  lemma CompleteCat(a: Bytes, b: Bytes)
    requires a != [] && Complete(a)
    ensures Complete(a + b) && Consumed(a + b) == Consumed(a)
  {
  }

  lemma {:induction false} ValidCat(a: Bytes, b: Bytes)
    requires Valid(a) && Valid(b)
    ensures Valid(a + b)
  {
    if a == [] {
      assert a + b == b;
    } else {
      CompleteCat(a, b);
      var n := Consumed(a);
      assert (a + b)[n..] == a[n..] + b;
      ValidCat(a[n..], b);
    }
  }

  lemma {:induction false} AsciiValid(s: Bytes)
    requires forall i :: 0 <= i < |s| ==> s[i] < 0x80
    ensures Valid(s)
  {
    if s != [] {
      AsciiValid(s[1..]);
    }
  }

  lemma {:induction false} ValidPrefix(s: Bytes)
    requires s != [] && Complete(s)
    ensures Valid(s[..Consumed(s)])
  {
    var t := s[..Consumed(s)];
    assert Complete(t) && Consumed(t) == |t|;
  }

  lemma {:induction false} LossyIsValid(s: Bytes)
    ensures Valid(Lossy(s))
  {
    if s != [] {
      var n := Consumed(s);
      LossyIsValid(s[n..]);
      if Complete(s) {
        ValidPrefix(s);
        ValidCat(s[..n], Lossy(s[n..]));
      } else {
        assert Valid(REPLACEMENT);
        ValidCat(REPLACEMENT, Lossy(s[n..]));
      }
    }
  }

  lemma ReplacementComplete(s: Bytes)
    requires s != []
    ensures REPLACEMENT <= s ==> Complete(s)
  {
  }

  // Decoding keeps exactly the text that is already well-formed.
  lemma {:induction false} LossyKeepsValid(s: Bytes)
    ensures Valid(s) <==> Lossy(s) == s
  {
    if s != [] {
      var n := Consumed(s);
      LossyKeepsValid(s[n..]);
      ReplacementComplete(s);
      if Complete(s) {
        assert s == s[..n] + s[n..];
        assert Lossy(s)[n..] == Lossy(s[n..]);
      } else {
        assert Lossy(s)[..3] == REPLACEMENT;
      }
    }
  }

  lemma {:induction false} LossyGrowth(s: Bytes)
    ensures |Lossy(s)| <= 3 * |s|
  {
    if s != [] {
      LossyGrowth(s[Consumed(s)..]);
    }
  }

  // ----- Against the encoding of scalar values ------------------------------

  // Unicode scalar values: code points that are no surrogates.
  predicate IsScalar(c: int) { 0 <= c < 0xD800 || 0xE000 <= c < 0x11_0000 }

  // Section 3 of RFC 3629.
  function EncodeScalar(c: int): (s: Bytes)
    requires IsScalar(c)
    ensures 1 <= |s| <= 4
  {
    if c < 0x80 then [c]
    else if c < 0x800 then [0xC0 + c / 64, 0x80 + c % 64]
    else if c < 0x1_0000 then [0xE0 + c / 4096, 0x80 + c / 64 % 64, 0x80 + c % 64]
    else [0xF0 + c / 262144, 0x80 + c / 4096 % 64, 0x80 + c / 64 % 64, 0x80 + c % 64]
  }

  lemma ScalarBytes(c: int)
    requires IsScalar(c)
    ensures var s := EncodeScalar(c);
            && Width(s[0]) == |s|
            && (|s| >= 2 ==> SecondOk(s[0], s[1]))
            && (|s| >= 3 ==> IsContinuation(s[2]))
            && (|s| >= 4 ==> IsContinuation(s[3]))
  {
  }

  lemma ScalarComplete(c: int)
    requires IsScalar(c)
    ensures Complete(EncodeScalar(c)) && Consumed(EncodeScalar(c)) == |EncodeScalar(c)|
  {
    ScalarBytes(c);
    hide EncodeScalar, Width, SecondOk, IsContinuation;
  }

  lemma Two(p: int, q: int)
    requires 2 <= p < 32 && 0 <= q < 64
    ensures IsScalar(p * 64 + q) && EncodeScalar(p * 64 + q) == [0xC0 + p, 0x80 + q]
  {
  }

  lemma Three(p: int, q: int, r: int)
    requires 0 <= p < 16 && 0 <= q < 64 && 0 <= r < 64
    requires (p == 0 ==> q >= 32) && (p == 13 ==> q < 32)
    ensures var c := p * 4096 + q * 64 + r;
            IsScalar(c) && EncodeScalar(c) == [0xE0 + p, 0x80 + q, 0x80 + r]
  {
    var c := p * 4096 + q * 64 + r;
    assert c / 64 == p * 64 + q && c % 64 == r;
    assert c / 4096 == p && (p * 64 + q) % 64 == q;
  }

  lemma Four(p: int, q: int, r: int, t: int)
    requires 0 <= p < 5 && 0 <= q < 64 && 0 <= r < 64 && 0 <= t < 64
    requires (p == 0 ==> q >= 16) && (p == 4 ==> q < 16)
    ensures var c := p * 262144 + q * 4096 + r * 64 + t;
            IsScalar(c) && EncodeScalar(c) == [0xF0 + p, 0x80 + q, 0x80 + r, 0x80 + t]
  {
    var c := p * 262144 + q * 4096 + r * 64 + t;
    assert c / 64 == p * 4096 + q * 64 + r && c % 64 == t;
    assert c / 4096 == p * 64 + q && (p * 4096 + q * 64 + r) % 64 == r;
    assert c / 262144 == p && (p * 64 + q) % 64 == q;
  }

  // Every sequence taken for complete is the encoding of a scalar value.
  lemma CompleteScalar(s: Bytes) returns (c: int)
    requires s != [] && Complete(s)
    ensures IsScalar(c) && s[..Consumed(s)] == EncodeScalar(c)
  {
    var w := Width(s[0]);
    if w == 1 {
      c := s[0];
    } else {
      hide EncodeScalar, IsScalar;
      if w == 2 {
        var p: int, q: int := s[0] - 0xC0, s[1] - 0x80;
        c := p * 64 + q;
        Two(p, q);
      } else if w == 3 {
        var p: int, q: int, r: int := s[0] - 0xE0, s[1] - 0x80, s[2] - 0x80;
        c := p * 4096 + q * 64 + r;
        Three(p, q, r);
      } else {
        var p: int, q: int, r: int, t: int := s[0] - 0xF0, s[1] - 0x80, s[2] - 0x80, s[3] - 0x80;
        c := p * 262144 + q * 4096 + r * 64 + t;
        Four(p, q, r, t);
      }
    }
  }

  predicate AllScalars(cs: seq<int>) { forall i :: 0 <= i < |cs| ==> IsScalar(cs[i]) }

  function EncodeAll(cs: seq<int>): Bytes
    requires AllScalars(cs)
  {
    if cs == [] then [] else EncodeScalar(cs[0]) + EncodeAll(cs[1..])
  }

  lemma {:induction false} EncodedIsValid(cs: seq<int>)
    requires AllScalars(cs)
    ensures Valid(EncodeAll(cs))
  {
    if cs != [] {
      hide EncodeScalar, Width, SecondOk, PrefixLength;
      var first := EncodeScalar(cs[0]);
      ScalarComplete(cs[0]);
      EncodedIsValid(cs[1..]);
      CompleteCat(first, EncodeAll(cs[1..]));
      assert EncodeAll(cs)[|first|..] == EncodeAll(cs[1..]);
    }
  }

  lemma {:induction false} ValidIsEncoded(s: Bytes) returns (cs: seq<int>)
    requires Valid(s)
    ensures AllScalars(cs) && s == EncodeAll(cs)
  {
    hide EncodeScalar, Width, SecondOk, PrefixLength;
    if s == [] {
      cs := [];
    } else {
      var c := CompleteScalar(s);
      var rest := ValidIsEncoded(s[Consumed(s)..]);
      cs := [c] + rest;
      assert cs[1..] == rest;
      assert s == s[..Consumed(s)] + s[Consumed(s)..];
    }
  }

  // Well-formed text is exactly the encodings of sequences of scalar values.
  lemma ValidExactly(s: Bytes)
    ensures Valid(s) <==> exists cs :: AllScalars(cs) && s == EncodeAll(cs)
  {
    hide Valid, EncodeAll;
    if Valid(s) {
      var cs := ValidIsEncoded(s);
    }
    forall cs | AllScalars(cs) && s == EncodeAll(cs) ensures Valid(s) {
      EncodedIsValid(cs);
    }
  }

  lemma ReplacementIsFffd()
    ensures EncodeScalar(0xFFFD) == REPLACEMENT
  {
  }

  // A continuation of the bytes that start an incomplete sequence.
  function Filled(s: Bytes): Bytes
    requires s != [] && 1 <= |s| <= 3
  {
    var second := if |s| > 1 then s[1] else if s[0] == 0xE0 then 0xA0 else if s[0] == 0xF0 then 0x90 else 0x80;
    var third := if |s| > 2 then s[2] else 0x80;
    match Width(s[0])
    case 2 => [s[0], second]
    case 3 => [s[0], second, third]
    case 4 => [s[0], second, third, 0x80]
    case _ => s
  }

  // What is replaced at once is the longest start of an encoded scalar value, or
  // one byte if it starts none.
  lemma ReplacesMaximal(s: Bytes)
    requires s != [] && !Complete(s)
    ensures var n := PrefixLength(s);
            && Consumed(s) == (if n == 0 then 1 else n)
            && (n > 0 ==> exists c :: IsScalar(c) && s[..n] < EncodeScalar(c))
            && (n < |s| ==> forall c :: IsScalar(c) ==> !(s[..n + 1] <= EncodeScalar(c)))
  {
    var n := PrefixLength(s);
    if n > 0 {
      StartsScalar(s);
    }
    if n < |s| {
      forall c | IsScalar(c) ensures !(s[..n + 1] <= EncodeScalar(c)) {
        ReachesFurther(s, c, n + 1);
      }
    }
  }

  lemma StartsScalar(s: Bytes)
    requires s != [] && !Complete(s) && PrefixLength(s) > 0
    ensures exists c :: IsScalar(c) && s[..PrefixLength(s)] < EncodeScalar(c)
  {
    var n := PrefixLength(s);
    var t := Filled(s[..n]);
    assert Complete(t) && Consumed(t) == |t| && s[..n] < t;
    var c := CompleteScalar(t);
    assert t[..|t|] == t;
  }

  // As far as the bytes agree with an encoding, they count as one sequence.
  lemma ReachesFurther(s: Bytes, c: int, k: nat)
    requires 1 <= k <= |s| && IsScalar(c)
    ensures s[..k] <= EncodeScalar(c) ==> PrefixLength(s) >= k
  {
    ScalarBytes(c);
    hide EncodeScalar, SecondOk, IsContinuation;
    var e := EncodeScalar(c);
    assert s[..k] <= e ==> forall i :: 0 <= i < k ==> s[i] == s[..k][i] == e[i];
  }
}
