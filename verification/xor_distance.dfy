/** The XOR distance between two hashes, and its hexadecimal text. */
module XorDistance {
  import opened Ordering

  type Bytes = seq<bv8>

  const HEX_DIGITS: string := "0123456789abcdef"

  function HexDigit(d: nat): char
    requires d < 16
  {
    HEX_DIGITS[d]
  }

  function ByteAt(b: Bytes, i: nat): bv8 { if i < |b| then b[i] else 0 }

  /** The shorter operand is extended with zero bytes at its end. */
  function XorBytes(left: Bytes, right: Bytes): (out: Bytes)
    ensures |out| == Max(|left|, |right|)
  {
    seq(Max(|left|, |right|), i requires 0 <= i => ByteAt(left, i) ^ ByteAt(right, i))
  }

  function Hex(b: Bytes): string {
    if b == [] then ""
    else
      var v := b[0] as nat;
      [HexDigit(v / 16), HexDigit(v % 16)] + Hex(b[1..])
  }

  /** The loop writes one byte at a time into a fresh buffer. */
  method CreateXorDistanceHex(left: array<bv8>, right: array<bv8>) returns (hex: string)
    ensures hex == Hex(XorBytes(left[..], right[..]))
  {
    var maxLength := Max(left.Length, right.Length);
    var out := new bv8[maxLength](_ => 0);
    for index := 0 to maxLength
      invariant forall j :: 0 <= j < index ==> out[j] == XorBytes(left[..], right[..])[j]
    {
      var leftByte := if index < left.Length then left[index] else 0;
      var rightByte := if index < right.Length then right[index] else 0;
      out[index] := leftByte ^ rightByte;
    }
    assert out[..] == XorBytes(left[..], right[..]);
    hex := Hex(out[..]);
  }

  // ----- the number a byte string stands for -----

  function Power256(n: nat): (p: nat)
    ensures p >= 1
  {
    if n == 0 then 1 else 256 * Power256(n - 1)
  }

  /** Big-endian value. */
  function Value(b: Bytes): nat {
    if b == [] then 0 else (b[0] as nat) * Power256(|b| - 1) + Value(b[1..])
  }

  lemma ValueStep(v: nat, p: nat, rest: nat)
    requires v <= 255 && rest < p
    ensures v * p + rest < 256 * p
  {
    assert v * p <= 255 * p;
  }

  lemma {:induction false} ValueBound(b: Bytes)
    ensures Value(b) < Power256(|b|)
  {
    if b != [] {
      ValueBound(b[1..]);
      ValueStep(b[0] as nat, Power256(|b| - 1), Value(b[1..]));
    }
  }

  /** A smaller leading digit outweighs everything after it. */
  lemma LeadingDigit(x: nat, y: nat, p: nat, u: nat, v: nat)
    requires u < p && v < p
    ensures x < y ==> x * p + u < y * p + v
    ensures x == y ==> (x * p + u < y * p + v <==> u < v)
  {
    if x < y {
      assert (x + 1) * p <= y * p;
    }
  }

  lemma ByteInjective(a: bv8, b: bv8)
    requires a as nat == b as nat
    ensures a == b
  {}

  lemma XorTwice(k: bv8, a: bv8)
    ensures k ^ (k ^ a) == a
  {}

  lemma DigitOrder(d: nat, e: nat)
    requires d < 16 && e < 16
    ensures HexDigit(d) < HexDigit(e) <==> d < e
    ensures HexDigit(d) == HexDigit(e) <==> d == e
  {}

  /** Two digits compare as the byte they write. */
  lemma DigitsOfByte(x: nat, y: nat)
    requires x < 256 && y < 256
    ensures x == y <==> HexDigit(x / 16) == HexDigit(y / 16) && HexDigit(x % 16) == HexDigit(y % 16)
    ensures x < y <==> HexDigit(x / 16) < HexDigit(y / 16)
                       || (HexDigit(x / 16) == HexDigit(y / 16) && HexDigit(x % 16) < HexDigit(y % 16))
  {
    DigitOrder(x / 16, y / 16);
    DigitOrder(x % 16, y % 16);
  }

  lemma LexTwo(p: char, q: char, s: string, u: char, v: char, t: string)
    ensures LexLess([p, q] + s, [u, v] + t) <==> p < u || (p == u && (q < v || (q == v && LexLess(s, t))))
    ensures [p, q] + s == [u, v] + t <==> p == u && q == v && s == t
  {
    var a, b := [p, q] + s, [u, v] + t;
    assert a[1..] == [q] + s && b[1..] == [v] + t;
    assert a[1..][1..] == s && b[1..][1..] == t;
    assert LexLess(a[1..], b[1..]) <==> q < v || (q == v && LexLess(s, t));
  }

  /** The texts compare by their first byte, then by the rest. */
  lemma FirstByte(a: Bytes, b: Bytes)
    requires a != [] && b != []
    ensures var x, y := a[0] as nat, b[0] as nat;
      && (LexLess(Hex(a), Hex(b)) <==> x < y || (x == y && LexLess(Hex(a[1..]), Hex(b[1..]))))
      && (Hex(a) == Hex(b) <==> x == y && Hex(a[1..]) == Hex(b[1..]))
  {
    var x, y := a[0] as nat, b[0] as nat;
    DigitsOfByte(x, y);
    LexTwo(HexDigit(x / 16), HexDigit(x % 16), Hex(a[1..]), HexDigit(y / 16), HexDigit(y % 16), Hex(b[1..]));
  }

  /** Lexicographic order of equally long hexadecimal texts is the numeric order of what they encode. */
  lemma {:induction false} HexOrderIsNumeric(a: Bytes, b: Bytes)
    requires |a| == |b|
    ensures LexLess(Hex(a), Hex(b)) <==> Value(a) < Value(b)
    ensures Hex(a) == Hex(b) <==> a == b
    ensures Value(a) == Value(b) <==> a == b
  {
    if a != [] {
      var x, y := a[0] as nat, b[0] as nat;
      HexOrderIsNumeric(a[1..], b[1..]);
      ValueBound(a[1..]);
      ValueBound(b[1..]);
      LeadingDigit(x, y, Power256(|a| - 1), Value(a[1..]), Value(b[1..]));
      LeadingDigit(y, x, Power256(|a| - 1), Value(b[1..]), Value(a[1..]));
      FirstByte(a, b);
      if x == y { ByteInjective(a[0], b[0]); }
      assert a == [a[0]] + a[1..] && b == [b[0]] + b[1..];
    }
  }

  /** For one key and equally long hashes, ranking by the hexadecimal text is ranking by XOR distance. */
  lemma HexRankingIsXorRanking(key: Bytes, a: Bytes, b: Bytes)
    requires |key| == |a| == |b|
    ensures LexLess(Hex(XorBytes(key, a)), Hex(XorBytes(key, b)))
      <==> Value(XorBytes(key, a)) < Value(XorBytes(key, b))
  {
    HexOrderIsNumeric(XorBytes(key, a), XorBytes(key, b));
  }

  /** XOR with the same key undoes itself. */
  lemma XorInvolution(key: Bytes, a: Bytes)
    requires |key| == |a|
    ensures XorBytes(key, XorBytes(key, a)) == a
  {
    forall i | 0 <= i < |a| ensures XorBytes(key, XorBytes(key, a))[i] == a[i] {
      XorTwice(key[i], a[i]);
    }
  }

  /** Distinct hashes have distinct distances to one key, both as numbers and as texts. */
  lemma DistancesAreDistinct(key: Bytes, a: Bytes, b: Bytes)
    requires |key| == |a| == |b| && a != b
    ensures Value(XorBytes(key, a)) != Value(XorBytes(key, b))
    ensures Hex(XorBytes(key, a)) != Hex(XorBytes(key, b))
  {
    HexOrderIsNumeric(XorBytes(key, a), XorBytes(key, b));
    if XorBytes(key, a) == XorBytes(key, b) {
      XorInvolution(key, a);
      XorInvolution(key, b);
      assert false;
    }
  }
}
