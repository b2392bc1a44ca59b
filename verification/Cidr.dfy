/** Address ranges written as a network prefix (core/network.cpp, core/network.hpp). */
module Cidr {
  import opened Wrappers

  type Bytes = seq<bv8>

  datatype Address = Address(isV6: bool, bytes: Bytes)

  predicate ValidAddress(a: Address) {
    |a.bytes| == if a.isV6 then 16 else 4
  }

  // ---- Order: IPv4 before IPv6, then byte by byte ----

  predicate Below(x: bv8, y: bv8) { x < y }

  predicate BytesLeq(a: Bytes, b: Bytes)
    requires |a| == |b|
  {
    a == [] || Below(a[0], b[0]) || (a[0] == b[0] && BytesLeq(a[1..], b[1..]))
  }

  predicate AddressLeq(a: Address, b: Address)
    requires ValidAddress(a) && ValidAddress(b)
  {
    if a.isV6 != b.isV6 then b.isV6 else BytesLeq(a.bytes, b.bytes)
  }

  // ---- Bits, the most significant of the first byte first ----

  function Power(k: nat): bv8
    requires k < 8
  {
    (1 as bv8) << k
  }

  predicate HasBit(b: bv8, k: nat)
    requires k < 8
  {
    b & Power(7 - k) != 0
  }

  function SetBit(b: bv8, k: nat): bv8
    requires k < 8
  {
    b | Power(7 - k)
  }

  predicate BitAt(a: Bytes, i: nat)
    requires i < 8 * |a|
  {
    HasBit(a[i / 8], i % 8)
  }

  /** The first p bits are the same (section 3.1 of RFC 4632). */
  ghost predicate Agree(a: Bytes, b: Bytes, p: nat)
    requires |a| == |b| && p <= 8 * |a|
  {
    forall i :: 0 <= i < p ==> BitAt(a, i) == BitAt(b, i)
  }

  // ---- Masks ----

  // The first k bits set.
  function LeadingOnes(k: nat): bv8
    requires k <= 8
  {
    match k
    case 0 => 0x00
    case 1 => 0x80
    case 2 => 0xC0
    case 3 => 0xE0
    case 4 => 0xF0
    case 5 => 0xF8
    case 6 => 0xFC
    case 7 => 0xFE
    case _ => 0xFF
  }

  function InByte(p: nat): nat { if p < 8 then p else 8 }

  function PastByte(p: nat): nat { if p < 8 then 0 else p - 8 }

  function Mask(p: nat, n: nat): (m: Bytes)
    ensures |m| == n
  {
    if n == 0 then [] else [LeadingOnes(InByte(p))] + Mask(PastByte(p), n - 1)
  }

  function Low(x: bv8, m: bv8): bv8 { x & m }

  function High(x: bv8, m: bv8): bv8 { x | !m }

  function Min(a: Bytes, m: Bytes): (r: Bytes)
    requires |a| == |m|
    ensures |r| == |a|
  {
    seq(|a|, i requires 0 <= i < |a| => Low(a[i], m[i]))
  }

  function Max(a: Bytes, m: Bytes): (r: Bytes)
    requires |a| == |m|
    ensures |r| == |a|
  {
    seq(|a|, i requires 0 <= i < |a| => High(a[i], m[i]))
  }

  lemma OneMoreBit(k: nat)
    requires k < 8
    ensures LeadingOnes(k + 1) == SetBit(LeadingOnes(k), k)
  {
  }

  lemma {:induction false} MaskStep(p: nat, n: nat)
    requires p < 8 * n
    ensures Mask(p + 1, n) == Mask(p, n)[p / 8 := SetBit(Mask(p, n)[p / 8], p % 8)]
  {
    hide LeadingOnes, SetBit;
    if p < 8 {
      OneMoreBit(p);
      assert Mask(p + 1, n) == [LeadingOnes(p + 1)] + Mask(0, n - 1);
    } else {
      MaskStep(p - 8, n - 1);
      var rest, q := Mask(p - 8, n - 1), (p - 8) / 8;
      assert p / 8 == q + 1 && p % 8 == (p - 8) % 8;
      assert Mask(p, n) == [LeadingOnes(8)] + rest;
      assert Mask(p + 1, n) == [LeadingOnes(8)] + rest[q := SetBit(rest[q], p % 8)];
    }
  }

  lemma {:induction false} NoMask(n: nat)
    ensures Mask(0, n) == seq(n, i => 0)
  {
    if n > 0 {
      NoMask(n - 1);
    }
  }

  // ---- One byte ----

  ghost predicate SameLeading(x: bv8, y: bv8, k: nat)
    requires k <= 8
  {
    SameUnder(x, y, LeadingOnes(k))
  }

  lemma ByteInRange(x: bv8, y: bv8, k: nat)
    requires k <= 8
    ensures var l, h := Low(x, LeadingOnes(k)), High(x, LeadingOnes(k));
            && ((Below(l, y) || l == y) && (Below(y, h) || y == h) <==> SameLeading(x, y, k))
            && (k == 8 ==> l == x == h)
            && (k == 0 ==> l == 0 && h == 0xFF)
  {
  }

  lemma NotBothLess(x: bv8, y: bv8)
    ensures !(Below(x, y) && Below(y, x)) && (Below(x, y) ==> x != y)
  {
  }

  lemma PowersAre()
    ensures Power(0) == 0x01 && Power(1) == 0x02 && Power(2) == 0x04 && Power(3) == 0x08
    ensures Power(4) == 0x10 && Power(5) == 0x20 && Power(6) == 0x40 && Power(7) == 0x80
  {
  }

  lemma HasBitIs(b: bv8)
    ensures HasBit(b, 0) <==> b & 0x80 != 0
    ensures HasBit(b, 1) <==> b & 0x40 != 0
    ensures HasBit(b, 2) <==> b & 0x20 != 0
    ensures HasBit(b, 3) <==> b & 0x10 != 0
    ensures HasBit(b, 4) <==> b & 0x08 != 0
    ensures HasBit(b, 5) <==> b & 0x04 != 0
    ensures HasBit(b, 6) <==> b & 0x02 != 0
    ensures HasBit(b, 7) <==> b & 0x01 != 0
  {
    PowersAre();
  }

  // SameLeading with the mask given.
  predicate SameUnder(x: bv8, y: bv8, m: bv8) { y & m == x & m }

  lemma LiteralMasks(x: bv8, y: bv8)
    ensures SameUnder(x, y, 0x00)
    ensures SameUnder(x, y, 0x80) <==> SameUnder(x, y, 0x00) && (x & 0x80 != 0 <==> y & 0x80 != 0)
    ensures SameUnder(x, y, 0xC0) <==> SameUnder(x, y, 0x80) && (x & 0x40 != 0 <==> y & 0x40 != 0)
    ensures SameUnder(x, y, 0xE0) <==> SameUnder(x, y, 0xC0) && (x & 0x20 != 0 <==> y & 0x20 != 0)
    ensures SameUnder(x, y, 0xF0) <==> SameUnder(x, y, 0xE0) && (x & 0x10 != 0 <==> y & 0x10 != 0)
    ensures SameUnder(x, y, 0xF8) <==> SameUnder(x, y, 0xF0) && (x & 0x08 != 0 <==> y & 0x08 != 0)
    ensures SameUnder(x, y, 0xFC) <==> SameUnder(x, y, 0xF8) && (x & 0x04 != 0 <==> y & 0x04 != 0)
    ensures SameUnder(x, y, 0xFE) <==> SameUnder(x, y, 0xFC) && (x & 0x02 != 0 <==> y & 0x02 != 0)
    ensures SameUnder(x, y, 0xFF) <==> SameUnder(x, y, 0xFE) && (x & 0x01 != 0 <==> y & 0x01 != 0)
  {
  }

  lemma LeadingIs(x: bv8, y: bv8)
    ensures SameLeading(x, y, 0) <==> SameUnder(x, y, 0x00)
    ensures SameLeading(x, y, 1) <==> SameUnder(x, y, 0x80)
    ensures SameLeading(x, y, 2) <==> SameUnder(x, y, 0xC0)
    ensures SameLeading(x, y, 3) <==> SameUnder(x, y, 0xE0)
    ensures SameLeading(x, y, 4) <==> SameUnder(x, y, 0xF0)
    ensures SameLeading(x, y, 5) <==> SameUnder(x, y, 0xF8)
    ensures SameLeading(x, y, 6) <==> SameUnder(x, y, 0xFC)
    ensures SameLeading(x, y, 7) <==> SameUnder(x, y, 0xFE)
    ensures SameLeading(x, y, 8) <==> SameUnder(x, y, 0xFF)
  {
    hide SameUnder;
  }

  lemma NextBitAgrees(x: bv8, y: bv8, k: nat)
    requires k < 8
    ensures SameLeading(x, y, k + 1) <==> SameLeading(x, y, k) && HasBit(x, k) == HasBit(y, k)
  {
    LeadingIs(x, y);
    LiteralMasks(x, y);
    HasBitIs(x);
    HasBitIs(y);
    hide HasBit, SameLeading, SameUnder;
    assert k in {0, 1, 2, 3, 4, 5, 6, 7};
  }

  lemma {:induction false} ByteAgrees(x: bv8, y: bv8, k: nat)
    requires k <= 8
    ensures SameLeading(x, y, k) <==> forall i :: 0 <= i < k ==> HasBit(x, i) == HasBit(y, i)
  {
    NoneAgree(x, y);
    hide HasBit, SameLeading;
    if k > 0 {
      ByteAgrees(x, y, k - 1);
      NextBitAgrees(x, y, k - 1);
    }
  }

  lemma NoneAgree(x: bv8, y: bv8)
    ensures SameLeading(x, y, 0)
  {
  }

  // ---- Whole addresses ----

  lemma {:induction false} WholeRange(b: Bytes)
    ensures BytesLeq(seq(|b|, i => 0), b) && BytesLeq(b, seq(|b|, i => 0xFF))
  {
    if b != [] {
      WholeRange(b[1..]);
      assert seq(|b|, i => 0 as bv8)[1..] == seq(|b[1..]|, i => 0);
      assert seq(|b|, i => 0xFF as bv8)[1..] == seq(|b[1..]|, i => 0xFF);
    }
  }

  /** Agreement splits into that of the first byte and that of the rest. */
  lemma AgreeSplits(a: Bytes, b: Bytes, p: nat)
    requires |a| == |b| > 0 && p <= 8 * |a|
    ensures Agree(a, b, p) <==>
            (forall i :: 0 <= i < InByte(p) ==> HasBit(a[0], i) == HasBit(b[0], i))
                && Agree(a[1..], b[1..], PastByte(p))
  {
    hide HasBit;
    if Agree(a, b, p) {
      forall i | 0 <= i < InByte(p)
        ensures HasBit(a[0], i) == HasBit(b[0], i)
      {
        assert BitAt(a, i) == BitAt(b, i);
      }
      forall i | 0 <= i < PastByte(p)
        ensures BitAt(a[1..], i) == BitAt(b[1..], i)
      {
        assert BitAt(a, i + 8) == BitAt(b, i + 8);
      }
    }
    if (forall i :: 0 <= i < InByte(p) ==> HasBit(a[0], i) == HasBit(b[0], i)) && Agree(a[1..], b[1..], PastByte(p)) {
      forall i | 0 <= i < p
        ensures BitAt(a, i) == BitAt(b, i)
      {
        if i >= 8 {
          assert BitAt(a[1..], i - 8) == BitAt(b[1..], i - 8);
        }
      }
    }
  }

  lemma MaskedOut(a: Bytes)
    ensures Min(a, Mask(0, |a|)) == seq(|a|, i => 0) && Max(a, Mask(0, |a|)) == seq(|a|, i => 0xFF)
  {
    NoMask(|a|);
    forall i | 0 <= i < |a|
      ensures Min(a, Mask(0, |a|))[i] == 0 && Max(a, Mask(0, |a|))[i] == 0xFF
    {
      ByteInRange(a[i], a[i], 0);
    }
  }

  ghost predicate InRange(a: Bytes, b: Bytes, p: nat)
    requires |a| == |b|
  {
    BytesLeq(Min(a, Mask(p, |a|)), b) && BytesLeq(b, Max(a, Mask(p, |a|)))
  }

  lemma EverythingInRange(a: Bytes, b: Bytes)
    requires |a| == |b|
    ensures InRange(a, b, 0)
  {
    MaskedOut(a);
    WholeRange(b);
  }

  lemma RangeSplits(a: Bytes, b: Bytes, p: nat)
    requires |a| == |b| > 0 && p <= 8 * |a|
    ensures InRange(a, b, p) <==> SameLeading(a[0], b[0], InByte(p)) && InRange(a[1..], b[1..], PastByte(p))
  {
    hide SameLeading, Low, High, LeadingOnes, Below;
    ByteInRange(a[0], b[0], InByte(p));
    NotBothLess(a[0], b[0]);
    if p < 8 {
      EverythingInRange(a[1..], b[1..]);
    }
    var m, rest := Mask(p, |a|), Mask(PastByte(p), |a| - 1);
    assert m[0] == LeadingOnes(InByte(p)) && m[1..] == rest;
    hide Mask;
    assert Min(a, m)[1..] == Min(a[1..], rest) && Max(a, m)[1..] == Max(a[1..], rest);
  }

  /** The bytes between the least and the greatest address of a prefix are those that share its first p bits. */
  lemma {:induction false} RangeIsPrefix(a: Bytes, b: Bytes, p: nat)
    requires |a| == |b| && p <= 8 * |a|
    ensures InRange(a, b, p) <==> Agree(a, b, p)
  {
    if a != [] {
      hide HasBit, SameLeading, InRange;
      RangeIsPrefix(a[1..], b[1..], PastByte(p));
      AgreeSplits(a, b, p);
      ByteAgrees(a[0], b[0], InByte(p));
      RangeSplits(a, b, p);
      hide Agree;
    }
  }

  lemma {:induction false} FullMask(a: Bytes)
    ensures Min(a, Mask(8 * |a|, |a|)) == a && Max(a, Mask(8 * |a|, |a|)) == a
  {
    if a != [] {
      var m := Mask(8 * |a|, |a|);
      ByteInRange(a[0], a[0], 8);
      FullMask(a[1..]);
      assert 8 * |a[1..]| == PastByte(8 * |a|);
      assert m[1..] == Mask(8 * |a[1..]|, |a[1..]|);
      assert Min(a, m) == [Low(a[0], m[0])] + Min(a[1..], m[1..]);
      assert Max(a, m) == [High(a[0], m[0])] + Max(a[1..], m[1..]);
      assert a == [a[0]] + a[1..];
    }
  }

  // ---- Ranges as sets of addresses ----

  /** a has the family and the first p bits of n. */
  ghost predicate Covers(n: Address, p: nat, a: Address)
    requires ValidAddress(n) && p <= 8 * |n.bytes| && ValidAddress(a)
  {
    a.isV6 == n.isV6 && Agree(n.bytes, a.bytes, p)
  }

  /** Two prefixes that share an address: the longer one lies within the shorter. */
  lemma SharingMeansNested(n1: Address, p1: nat, n2: Address, p2: nat, shared: Address, a: Address)
    requires ValidAddress(n1) && ValidAddress(n2) && p1 <= p2 <= 8 * |n2.bytes| && p1 <= 8 * |n1.bytes|
    requires ValidAddress(shared) && Covers(n1, p1, shared) && Covers(n2, p2, shared)
    requires ValidAddress(a) && Covers(n2, p2, a)
    ensures Covers(n1, p1, a)
  {
    hide HasBit;
    forall i | 0 <= i < p1
      ensures BitAt(n1.bytes, i) == BitAt(a.bytes, i)
    {
      assert BitAt(n1.bytes, i) == BitAt(shared.bytes, i);
      assert BitAt(n2.bytes, i) == BitAt(shared.bytes, i);
      assert BitAt(n2.bytes, i) == BitAt(a.bytes, i);
    }
  }

  // ---- The text form ----

  predicate IsDigit(c: char) { '0' <= c <= '9' }

  function DigitsValue(s: string): nat
    requires forall c :: c in s ==> IsDigit(c)
  {
    if s == "" then 0
    else
      assert IsDigit(s[|s| - 1]);
      10 * DigitsValue(s[..|s| - 1]) + (s[|s| - 1] - '0') as nat
  }

  function MaxLength(isV6: bool): nat { if isV6 then 128 else 32 }

  /**
   The prefix length that the text after the slash gives; a number too large for size_t fails like any other past the
   limit.
   */
  function PrefixLength(s: string, isV6: bool): (p: Option<nat>)
    ensures p.Some? ==> p.value <= MaxLength(isV6)
  {
    if s == "" || (exists c :: c in s && !IsDigit(c)) then None
    else if DigitsValue(s) > MaxLength(isV6) then None
    else Some(DigitsValue(s))
  }

  /** The prefix length of a text form: all bits where there is no slash. */
  function Length(isV6: bool, prefixLen: Option<string>): (p: Option<nat>)
    ensures p.Some? ==> p.value <= MaxLength(isV6)
  {
    if prefixLen.None? then Some(MaxLength(isV6)) else PrefixLength(prefixLen.value, isV6)
  }

  // ---- Decimal writing ----

  function Digit(d: nat): char
    requires d < 10
  {
    '0' + d as char
  }

  /** The digits of n, without leading zeros. */
  function Decimal(n: nat): string {
    if n < 10 then [Digit(n)] else Decimal(n / 10) + [Digit(n % 10)]
  }

  function Zeros(z: nat): string {
    seq(z, i => '0')
  }

  lemma {:induction false} DecimalIsRead(n: nat, z: nat)
    ensures (forall c :: c in Zeros(z) + Decimal(n) ==> IsDigit(c)) && DigitsValue(Zeros(z) + Decimal(n)) == n
  {
    if n < 10 {
      ZerosAreRead(z);
      assert (Zeros(z) + Decimal(n))[..z] == Zeros(z);
    } else {
      DecimalIsRead(n / 10, z);
      var s := Zeros(z) + Decimal(n);
      assert s[..|s| - 1] == Zeros(z) + Decimal(n / 10);
    }
  }

  lemma {:induction false} ZerosAreRead(z: nat)
    ensures DigitsValue(Zeros(z)) == 0
  {
    if z > 0 {
      ZerosAreRead(z - 1);
      assert Zeros(z)[..z - 1] == Zeros(z - 1);
    }
  }

  lemma LastDigit(s: string) returns (d: nat)
    requires s != "" && forall c :: c in s ==> IsDigit(c)
    ensures d < 10 && s == s[..|s| - 1] + [Digit(d)] && DigitsValue(s) == 10 * DigitsValue(s[..|s| - 1]) + d
  {
    var c := s[|s| - 1];
    assert IsDigit(c);
    d := (c - '0') as nat;
    assert Digit(d) == c;
  }

  lemma OneDigit(d: nat)
    requires d < 10
    ensures [Digit(d)] == Zeros(0) + Decimal(d) && DigitsValue("") == 0
  {
  }

  /** Every string of digits is the decimal writing of its value behind some zeros. */
  lemma {:induction false} ReadIsDecimal(s: string) returns (z: nat)
    requires s != "" && forall c :: c in s ==> IsDigit(c)
    ensures s == Zeros(z) + Decimal(DigitsValue(s))
  {
    hide Decimal, Zeros, DigitsValue, Digit;
    var front := s[..|s| - 1];
    var d := LastDigit(s);
    if front == "" {
      OneDigit(d);
      z := 0;
    } else {
      z := ReadIsDecimal(front);
      OneMoreDigit(z, DigitsValue(front), d);
      z := if DigitsValue(front) == 0 then z + 1 else z;
    }
  }

  lemma OneMoreDigit(z: nat, v: nat, d: nat)
    requires d < 10
    ensures Zeros(z) + Decimal(v) + [Digit(d)] == Zeros(if v == 0 then z + 1 else z) + Decimal(10 * v + d)
  {
    if v == 0 {
      assert Zeros(z + 1) == Zeros(z) + Decimal(0);
    } else {
      assert (10 * v + d) / 10 == v && (10 * v + d) % 10 == d;
      assert Zeros(z) + Decimal(v) + [Digit(d)] == Zeros(z) + (Decimal(v) + [Digit(d)]);
    }
  }

  /** The text after the slash is accepted as p exactly when it writes p in decimal, and p is at most 32 or 128. */
  lemma PrefixLengthIsDecimal(s: string, isV6: bool, p: nat)
    ensures PrefixLength(s, isV6) == Some(p) <==>
            p <= (if isV6 then 128 else 32) && exists z :: s == Zeros(z) + Decimal(p)
    ensures Length(isV6, None) == Some(if isV6 then 128 else 32)
  {
    if s != "" && forall c :: c in s ==> IsDigit(c) {
      var z := ReadIsDecimal(s);
    }
    if exists z :: s == Zeros(z) + Decimal(p) {
      var z :| s == Zeros(z) + Decimal(p);
      DecimalIsRead(p, z);
    }
    hide Decimal, DigitsValue, Zeros;
  }

  class Network {
    var minAddress: Address
    var maxAddress: Address

    ghost predicate Valid()
      reads this
    {
      ValidAddress(minAddress) && ValidAddress(maxAddress)
    }

    constructor ()
      ensures Valid()
    {
      var zero := Address(false, [0, 0, 0, 0]);
      minAddress, maxAddress := zero, zero;
    }

    predicate DoesContain(a: Address)
      requires Valid() && ValidAddress(a)
      reads this
    {
      AddressLeq(minAddress, a) && AddressLeq(a, maxAddress)
    }

    /** address is what from_string makes of the text before the slash, prefixLen the text after it. */
    method Read(address: Option<Address>, prefixLen: Option<string>) returns (ok: bool)
      requires Valid() && (address.Some? ==> ValidAddress(address.value))
      modifies this
      ensures ok <==> address.Some? && Length(address.value.isV6, prefixLen).Some?
      ensures !ok ==> minAddress == old(minAddress) && maxAddress == old(maxAddress)
      ensures Valid()
      ensures ok ==> forall a :: ValidAddress(a) ==>
                (DoesContain(a) <==> Covers(address.value, Length(address.value.isV6, prefixLen).value, a))
    {
      if address.None? {
        return false;
      }
      var n := address.value;
      if prefixLen.None? {
        minAddress, maxAddress := n, n;
        FullMask(n.bytes);
        ContainsExactly(n, 8 * |n.bytes|);
        return true;
      }
      var mask := PrefixLength(prefixLen.value, n.isV6);
      if mask.None? {
        return false;
      }
      var maskBytes := MakeMask(|n.bytes|, mask.value);
      var min, max := ApplyMask(n.bytes, maskBytes);
      minAddress, maxAddress := Address(n.isV6, min[..]), Address(n.isV6, max[..]);
      ContainsExactly(n, mask.value);
      return true;
    }

    lemma ContainsExactly(n: Address, p: nat)
      requires ValidAddress(n) && p <= 8 * |n.bytes|
      requires minAddress == Address(n.isV6, Min(n.bytes, Mask(p, |n.bytes|)))
      requires maxAddress == Address(n.isV6, Max(n.bytes, Mask(p, |n.bytes|)))
      ensures Valid() && forall a :: ValidAddress(a) ==> (DoesContain(a) <==> Covers(n, p, a))
    {
      hide Agree, BytesLeq, Min, Max;
      forall a | ValidAddress(a)
        ensures DoesContain(a) <==> Covers(n, p, a)
      {
        if a.isV6 == n.isV6 {
          RangeIsPrefix(n.bytes, a.bytes, p);
        }
      }
    }
  }

  method MakeMask(n: nat, mask: nat) returns (maskBytes: array<bv8>)
    requires mask <= 8 * n
    ensures fresh(maskBytes) && maskBytes[..] == Mask(mask, n)
  {
    hide LeadingOnes, SetBit;
    maskBytes := new bv8[n](i => 0);
    NoMask(n);
    assert maskBytes[..] == Mask(0, n);
    var i := 0;
    while i < mask
      invariant 0 <= i <= mask && maskBytes[..] == Mask(i, n)
    {
      var byteId := i / 8;
      var bitIndex := 7 - i % 8;
      MaskStep(i, n);
      SetBitIs(maskBytes[byteId], i % 8);
      maskBytes[byteId] := maskBytes[byteId] | ((1 as bv8) << bitIndex);
      i := i + 1;
    }
  }

  lemma SetBitIs(b: bv8, k: nat)
    requires k < 8
    ensures SetBit(b, k) == b | ((1 as bv8) << (7 - k))
  {
  }

  method ApplyMask(addressBytes: Bytes, maskBytes: array<bv8>) returns (min: array<bv8>, max: array<bv8>)
    requires maskBytes.Length == |addressBytes|
    ensures fresh(min) && fresh(max) && min[..] == Min(addressBytes, maskBytes[..])
            && max[..] == Max(addressBytes, maskBytes[..])
  {
    min := new bv8[|addressBytes|];
    max := new bv8[|addressBytes|];
    var i := 0;
    while i < |addressBytes|
      invariant 0 <= i <= |addressBytes|
      invariant forall j :: 0 <= j < i ==>
              min[j] == Low(addressBytes[j], maskBytes[j]) && max[j] == High(addressBytes[j], maskBytes[j])
    {
      min[i] := addressBytes[i] & maskBytes[i];
      max[i] := addressBytes[i] | !maskBytes[i];
      i := i + 1;
    }
  }
}
