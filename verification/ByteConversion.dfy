/** byteconversion/conversion.go: integers as big-endian two's-complement bytes. */
module ByteConversion {
  import opened Basics

  type Byte = x: nat | x < 256

  // ---------- unsigned bytes ----------

  function Pow256(n: nat): (p: int)
    ensures p > 0
  {
    if n == 0 then 1 else 256 * Pow256(n - 1)
  }

  /** big.Int.SetBytes. */
  function Value(bytes: seq<Byte>): (v: int)
    ensures v >= 0
  {
    if bytes == [] then 0 else Value(bytes[..|bytes| - 1]) * 256 + bytes[|bytes| - 1]
  }

  /** big.Int.Bytes: the shortest big-endian form of the absolute value. */
  function Magnitude(v: nat): seq<Byte> {
    if v == 0 then [] else Magnitude(v / 256) + [v % 256]
  }

  lemma {:induction false} ValueOfMagnitude(v: nat)
    ensures Value(Magnitude(v)) == v
    ensures v > 0 ==> Magnitude(v) != [] && Magnitude(v)[0] > 0
  {
    if v > 0 {
      ValueOfMagnitude(v / 256);
    }
  }

  lemma Scale(a: int, b: int, p: int)
    requires a <= b && p >= 0
    ensures a * p <= b * p
  {}

  /** The first byte bounds the value. */
  lemma {:induction false} HeadBounds(bytes: seq<Byte>)
    requires bytes != []
    ensures bytes[0] * Pow256(|bytes| - 1) <= Value(bytes) < (bytes[0] + 1) * Pow256(|bytes| - 1)
  {
    if |bytes| > 1 {
      HeadBounds(bytes[..|bytes| - 1]);
      TimesByte(bytes[0], Pow256(|bytes| - 2));
    }
  }

  lemma TimesByte(h: int, p: int)
    ensures h * (256 * p) == h * p * 256 && (h + 1) * (256 * p) == (h + 1) * p * 256
  {}

  /** The first bit is set exactly from half of the range on. */
  lemma FirstBit(bytes: seq<Byte>)
    requires bytes != []
    ensures bytes[0] >= 128 <==> Value(bytes) >= Half(|bytes|)
    ensures bytes[0] > 0 ==> Value(bytes) >= Pow256(|bytes| - 1)
  {
    hide Value, Pow256;
    HeadBounds(bytes);
    var h: int, p := bytes[0], Pow256(|bytes| - 1);
    if h >= 128 {
      Scale(128, h, p);
    } else {
      Scale(h + 1, 128, p);
    }
    if h > 0 {
      Scale(1, h, p);
    }
  }

  lemma {:induction false} ValueBounds(bytes: seq<Byte>)
    ensures Value(bytes) < Pow256(|bytes|)
  {
    if bytes != [] {
      ValueBounds(bytes[..|bytes| - 1]);
    }
  }

  /** The shortest form of a value between 256^(n-1) and 256^n has n bytes. */
  lemma MagnitudeLength(v: nat, n: nat)
    requires n > 0 && Pow256(n - 1) <= v < Pow256(n)
    ensures |Magnitude(v)| == n
  {
    hide Magnitude, Value, Pow256;
    ValueOfMagnitude(v);
    var m := Magnitude(v);
    ValueBounds(m);
    FirstBit(m);
    Between(v, |m|, n);
  }

  lemma Between(v: int, m: nat, n: nat)
    requires m > 0 && n > 0 && Pow256(m - 1) <= v < Pow256(m) && Pow256(n - 1) <= v < Pow256(n)
    ensures m == n
  {
    hide Pow256;
    if m < n {
      Pow256Grows(m, n - 1);
    } else if m > n {
      Pow256Grows(n, m - 1);
    }
  }

  lemma {:induction false} Pow256Grows(m: nat, n: nat)
    requires m <= n
    ensures Pow256(m) <= Pow256(n)
  {
    if m < n {
      Pow256Grows(m, n - 1);
    }
  }

  // ---------- flipping ----------

  function Pow2(n: nat): (p: nat)
    ensures p > 0
  {
    if n == 0 then 1 else 2 * Pow2(n - 1)
  }

  /** Exclusive or of the lowest `n` bits of a number with ones, bit by bit. */
  function FlipBits(b: nat, n: nat): nat {
    if n == 0 then 0 else 2 * FlipBits(b / 2, n - 1) + if b % 2 == 1 then 0 else 1
  }

  lemma {:induction false} FlipBitsIsComplement(b: nat, n: nat)
    requires b < Pow2(n)
    ensures FlipBits(b, n) == Pow2(n) - 1 - b
  {
    if n > 0 {
      FlipBitsIsComplement(b / 2, n - 1);
    }
  }

  /** Flipping the bits of a byte is the complement to 255 ... */
  lemma FlippedByte(b: Byte)
    ensures FlipBits(b, 8) == 255 - b
  {
    assert Pow2(8) == 2 * 2 * 2 * 2 * Pow2(4) && Pow2(4) == 16;
    FlipBitsIsComplement(b, 8);
  }

  /** Bit `i` of a number. */
  predicate BitSet(b: nat, i: nat) {
    b / Pow2(i) % 2 == 1
  }

  /** ... and its sign bit is set from 128 on. */
  lemma SignBitIsHalf(b: Byte)
    ensures BitSet(b, 7) <==> b >= 128
  {
    assert Pow2(7) == 2 * 2 * 2 * Pow2(4) && Pow2(4) == 16;
  }

  function Flipped(bytes: seq<Byte>): (r: seq<Byte>)
    ensures |r| == |bytes|
  {
    if bytes == [] then [] else Flipped(bytes[..|bytes| - 1]) + [255 - bytes[|bytes| - 1]]
  }

  lemma {:induction false} ValueOfFlipped(bytes: seq<Byte>)
    ensures Value(Flipped(bytes)) == Pow256(|bytes|) - 1 - Value(bytes)
  {
    if bytes != [] {
      ValueOfFlipped(bytes[..|bytes| - 1]);
    }
  }

  lemma {:induction false} FlippedAt(bytes: seq<Byte>, i: nat)
    requires i < |bytes|
    ensures Flipped(bytes)[i] == 255 - bytes[i]
  {
    if i < |bytes| - 1 {
      FlippedAt(bytes[..|bytes| - 1], i);
    }
  }

  /** FlipBytes fills a fresh array. */
  method FlipBytes(bytesIn: seq<Byte>) returns (flipped: seq<Byte>)
    ensures flipped == Flipped(bytesIn)
  {
    hide FlipBits;
    var a := new Byte[|bytesIn|](_ => 0);
    for i := 0 to |bytesIn|
      invariant a[..i] == Flipped(bytesIn[..i])
    {
      assert bytesIn[..i + 1][..i] == bytesIn[..i];
      FlippedByte(bytesIn[i]);
      a[i] := FlipBits(bytesIn[i], 8);
      assert a[..i + 1] == a[..i] + [a[i]];
    }
    assert bytesIn[..|bytesIn|] == bytesIn;
    return a[..];
  }

  // ---------- two's complement ----------

  /** The integer that a non-empty byte string stands for in two's complement. */
  function Signed(bytes: seq<Byte>): int
    requires bytes != []
  {
    if bytes[0] >= 128 then Value(bytes) - Pow256(|bytes|) else Value(bytes)
  }

  /** Half of the range of n bytes, 2^(8n-1). */
  function Half(n: nat): (h: int)
    requires n > 0
    ensures h > 0
  {
    128 * Pow256(n - 1)
  }

  /** Exactly the integers of this range have a form of n bytes. */
  predicate Fits(x: int, n: nat)
    requires n > 0
  {
    -Half(n) <= x < Half(n)
  }

  lemma SignedFits(bytes: seq<Byte>)
    requires bytes != []
    ensures Fits(Signed(bytes), |bytes|)
    ensures Signed(bytes) < 0 <==> bytes[0] >= 128
  {
    hide Value;
    FirstBit(bytes);
    ValueBounds(bytes);
  }

  /** Two's complement of a fixed length is unambiguous. */
  lemma SignedInjective(a: seq<Byte>, b: seq<Byte>)
    requires a != [] && |a| == |b| && Signed(a) == Signed(b)
    ensures a == b
  {
    SignedFits(a);
    SignedFits(b);
    ValueInjective(a, b);
  }

  lemma {:induction false} ValueInjective(a: seq<Byte>, b: seq<Byte>)
    requires |a| == |b| && Value(a) == Value(b)
    ensures a == b
  {
    if a != [] {
      var a', b' := a[..|a| - 1], b[..|b| - 1];
      ValueInjective(a', b');
      assert a == a' + [a[|a| - 1]] && b == b' + [b[|b| - 1]];
    }
  }

  /** FromByteArray decodes two's complement, and refuses only the empty string. */
  method FromByteArray(bytesIn: seq<Byte>) returns (r: Option<int>)
    ensures r == if bytesIn == [] then None else Some(Signed(bytesIn))
  {
    hide BitSet;
    if |bytesIn| == 0 {
      return None;
    }
    SignBitIsHalf(bytesIn[0]);
    if BitSet(bytesIn[0], 7) {
      var tmpInt := Value(bytesIn);
      NegativeMinusOne(bytesIn);
      tmpInt := tmpInt - 1;
      var tmpBytes := Magnitude(tmpInt);
      var convertedBytes := FlipBytes(tmpBytes);
      ValueOfMagnitude(tmpInt);
      ValueOfFlipped(tmpBytes);
      if tmpBytes[0] == 255 {
        FlippedAt(tmpBytes, 0);
        LeadingZero(convertedBytes);
        convertedBytes := convertedBytes[1..];
      }
      return Some(-Value(convertedBytes));
    }
    return Some(Value(bytesIn));
  }

  /** Taking one from a value whose first bit is set does not make its form shorter. */
  lemma NegativeMinusOne(bytes: seq<Byte>)
    requires bytes != [] && bytes[0] >= 128
    ensures Value(bytes) > 0 && |Magnitude(Value(bytes) - 1)| == |bytes|
  {
    hide Value, Magnitude;
    FirstBit(bytes);
    ValueBounds(bytes);
    MagnitudeLength(Value(bytes) - 1, |bytes|);
  }

  lemma {:induction false} LeadingZero(bytes: seq<Byte>)
    requires bytes != [] && bytes[0] == 0
    ensures Value(bytes[1..]) == Value(bytes)
  {
    if |bytes| > 1 {
      var before := bytes[..|bytes| - 1];
      LeadingZero(before);
      assert bytes[1..][..|bytes| - 2] == before[1..];
    }
  }

  lemma {:induction false} ValueOfHead(h: Byte, bytes: seq<Byte>)
    ensures Value([h] + bytes) == h * Pow256(|bytes|) + Value(bytes)
  {
    if bytes != [] {
      var before := bytes[..|bytes| - 1];
      ValueOfHead(h, before);
      assert ([h] + bytes)[..|bytes|] == [h] + before;
      assert h * (256 * Pow256(|bytes| - 1)) == h * Pow256(|bytes| - 1) * 256;
    }
  }

  /** What ToByteArray promises: the form decodes to x, and it is the shortest one, except that it has one
      byte more than needed exactly at x = -2^(8k-1). */
  ghost predicate Encodes(r: seq<Byte>, x: int) {
    && r != [] && Signed(r) == x
    && (|r| > 1 && Fits(x, |r| - 1) ==> x == -Half(|r| - 1))
    && (forall k :: k > 0 && x == -Half(k) ==> |r| == k + 1)
  }

  method ToByteArray(x: int) returns (r: seq<Byte>)
    ensures Encodes(r, x)
  {
    hide Value, Encodes, BitSet;
    var bytes := Magnitude(if x < 0 then -x else x);
    if |bytes| == 0 {
      EncodesZero(x);
      return [0];
    }
    ValueOfMagnitude(if x < 0 then -x else x);
    SignBitIsHalf(bytes[0]);
    if x >= 0 {
      EncodesPositive(bytes);
      if BitSet(bytes[0], 7) {
        return [0] + bytes;
      }
      return bytes;
    }
    var convertedBytes := FlipBytes(bytes);
    EncodesNegative(bytes);
    if BitSet(bytes[0], 7) {
      convertedBytes := [255] + convertedBytes;
    }
    var convertedInt := Value(convertedBytes) + 1;
    return Magnitude(convertedInt);
  }

  lemma EncodesZero(x: int)
    requires Magnitude(if x < 0 then -x else x) == []
    ensures Encodes([0], x)
  {
    assert x == 0;
    assert Value([0]) == 0;
  }

  lemma EncodesPositive(bytes: seq<Byte>)
    requires bytes != [] && bytes[0] > 0
    ensures Encodes(if bytes[0] >= 128 then [0] + bytes else bytes, Value(bytes))
  {
    hide Value;
    FirstBit(bytes);
    ValueOfHead(0, bytes);
    assert bytes[0] >= 128 ==> ([0] + bytes)[0] == 0;
  }

  /** The form of -Value(bytes) is the shortest form of 256^n - Value(bytes), with n one larger if the first
      bit is set. */
  lemma EncodesNegative(bytes: seq<Byte>)
    requires bytes != [] && bytes[0] > 0
    ensures var converted := if bytes[0] >= 128 then [255] + Flipped(bytes) else Flipped(bytes);
            Encodes(Magnitude(Value(converted) + 1), -Value(bytes))
  {
    hide Value, Magnitude, Encodes, Flipped, Half;
    var n := if bytes[0] >= 128 then |bytes| + 1 else |bytes|;
    ValueOfFlipped(bytes);
    ValueOfHead(255, Flipped(bytes));
    assert Pow256(|bytes| + 1) == 256 * Pow256(|bytes|);
    Complement(bytes, n);
  }

  lemma Complement(bytes: seq<Byte>, n: nat)
    requires bytes != [] && bytes[0] > 0 && n == if bytes[0] >= 128 then |bytes| + 1 else |bytes|
    ensures Pow256(n) - Value(bytes) > 0 && Encodes(Magnitude(Pow256(n) - Value(bytes)), -Value(bytes))
  {
    hide Value, Magnitude, Pow256, Signed, Half;
    FirstBit(bytes);
    ValueBounds(bytes);
    HalfSteps(|bytes|);
    HalfSteps(|bytes| + 1);
    NegativeForm(Value(bytes), n);
    ShortOfLength(Value(bytes), |bytes|);
    forall k | k > 0 && Value(bytes) == Half(k)
      ensures n == k + 1
    {
      HalfSteps(k);
      Between(Value(bytes), k, |bytes|);
    }
  }

  lemma HalfSteps(n: nat)
    requires n > 0
    ensures Pow256(n) == 2 * Half(n) && Pow256(n - 1) < Half(n) && (n > 1 ==> Half(n - 1) < Pow256(n - 1) < Half(n))
  {}

  /** The two's complement of a number up to half of the range. */
  lemma NegativeForm(v: int, n: nat)
    requires n > 0 && 0 < v <= Half(n)
    ensures Pow256(n) - v > 0
    ensures var r := Magnitude(Pow256(n) - v); |r| == n && Signed(r) == -v
  {
    hide Value, Magnitude, Pow256, Half;
    HalfSteps(n);
    var u := Pow256(n) - v;
    MagnitudeLength(u, n);
    ValueOfMagnitude(u);
    FirstBit(Magnitude(u));
  }

  /** A number of `n` bytes does not fit fewer as a negative one. */
  lemma ShortOfLength(v: int, n: nat)
    requires n > 0 && Pow256(n - 1) <= v
    ensures n > 1 ==> !Fits(-v, n - 1)
    ensures Fits(-v, n) && v >= Half(n) ==> v == Half(n)
  {
    hide Pow256, Half;
    if n > 1 {
      HalfSteps(n - 1);
    }
  }

  /** A number in exactly `n` bytes. */
  function Padded(v: nat, n: nat): (r: seq<Byte>)
    ensures |r| == n
  {
    if n == 0 then [] else Padded(v / 256, n - 1) + [v % 256]
  }

  lemma {:induction false} ValueOfPadded(v: nat, n: nat)
    requires v < Pow256(n)
    ensures Value(Padded(v, n)) == v
  {
    if n > 0 {
      ValueOfPadded(v / 256, n - 1);
    }
  }

  /** Every integer of the range of `n` bytes has a form of `n` bytes. */
  lemma HasForm(x: int, n: nat) returns (r: seq<Byte>)
    requires n > 0 && Fits(x, n)
    ensures |r| == n && Signed(r) == x
  {
    hide Value, Padded;
    var v := if x < 0 then x + Pow256(n) else x;
    assert Pow256(n) == 2 * Half(n);
    r := Padded(v, n);
    ValueOfPadded(v, n);
    FirstBit(r);
  }

  /** The form is the shortest one if and only if x is not -2^(8k-1) for any k. */
  lemma MinimalExactly(r: seq<Byte>, x: int)
    requires Encodes(r, x)
    ensures (forall other :: other != [] && Signed(other) == x ==> |r| <= |other|) <==>
            !exists k: nat :: k > 0 && x == -Half(k)
  {
    hide Signed, Pow256;
    forall other | other != [] && Signed(other) == x
      ensures |r| <= |other| || exists k: nat :: k > 0 && x == -Half(k)
    {
      ShortestForm(r, x, other);
    }
    if k: nat :| k > 0 && x == -Half(k) {
      var other := HasForm(x, k);
      assert other != [] && |other| < |r|;
    }
  }

  /** At -128 the promise of the fewest bytes is broken: one byte would do, and two are used. */
  lemma NotMinimal(r: seq<Byte>)
    requires Encodes(r, -128)
    ensures |r| == 2 && Signed([128]) == -128
  {
    assert Pow256(0) == 1 && Half(1) == 128;
    assert Value([128]) == 128 && Pow256(1) == 256;
  }

  /** No two's-complement form of x is shorter, except at x = -2^(8k-1), where one is, by one byte. */
  lemma ShortestForm(r: seq<Byte>, x: int, other: seq<Byte>)
    requires Encodes(r, x) && other != [] && Signed(other) == x
    ensures if exists k :: k > 0 && x == -Half(k) then |r| <= |other| + 1 else |r| <= |other|
    ensures |r| > |other| ==> |r| == |other| + 1 && x == -Half(|other|)
  {
    hide Signed, Pow256;
    SignedFits(other);
    if |r| > |other| {
      Pow256Grows(|other| - 1, |r| - 2);
      assert x == -Half(|r| - 1);
    }
  }

  /** Decoding the form of any integer gives it back. */
  method RoundTrip(x: int) returns (y: Option<int>)
    ensures y == Some(x)
  {
    var bytes := ToByteArray(x);
    y := FromByteArray(bytes);
  }
}
