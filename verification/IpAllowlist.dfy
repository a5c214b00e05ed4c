/** IPv4 addresses as the allow-list computes them, with the signed 32-bit arithmetic of the
    shift and mask operators, and the address blocks of section 3.1 of RFC 4632 they stand for. */
module IpAllowlist {
  import opened Wrappers

  const TWO_31 := 0x8000_0000
  const TWO_32 := 0x1_0000_0000

  /** What `Number(text)` makes of a piece of text. */
  datatype Numeric = NaN | Num(value: real)

  predicate IsInteger(n: Numeric) {
    n.Num? && n.value.Floor as real == n.value
  }

  // ----- the operators -----

  function Pow2(n: nat): nat {
    if n == 0 then 1 else 2 * Pow2(n - 1)
  }

  function ToUint32(x: int): nat {
    x % TWO_32
  }

  function ToInt32(x: int): int {
    if x % TWO_32 < TWO_31 then x % TWO_32 else x % TWO_32 - TWO_32
  }

  /** `x << n`: shifted within 32 bits, and read as a signed number. */
  function ShiftLeft(x: int, n: nat): int {
    ToInt32(ToInt32(x) * Pow2(n))
  }

  /** Bitwise and of two non-negative numbers. */
  function BitAnd(x: nat, y: nat): nat {
    if x == 0 || y == 0 then 0 else (x % 2) * (y % 2) + 2 * BitAnd(x / 2, y / 2)
  }

  /** `x & y`: on 32 bits, read as a signed number. */
  function And32(x: int, y: int): int {
    ToInt32(BitAnd(ToUint32(x), ToUint32(y)))
  }

  // ----- the allow-list -----

  function Fold(parts: seq<int>): int {
    if parts == [] then 0 else ShiftLeft(Fold(parts[..|parts| - 1]), 8) + parts[|parts| - 1]
  }

  predicate IsOctet(n: Numeric) {
    IsInteger(n) && 0.0 <= n.value <= 255.0
  }

  /** `ipv4ToInt`, from the numbers between the dots. */
  function Ipv4ToInt(parts: seq<Numeric>): Option<int> {
    if !IsAddress(parts) then None
    else Some(ToUint32(Fold(Octets(parts))))
  }

  predicate IsAddress(parts: seq<Numeric>) {
    |parts| == 4 && forall i :: 0 <= i < 4 ==> IsOctet(parts[i])
  }

  function Octets(parts: seq<Numeric>): (o: seq<int>)
    requires IsAddress(parts)
    ensures |o| == 4 && forall i :: 0 <= i < 4 ==> 0 <= o[i] <= 255 && o[i] as real == parts[i].value
  {
    seq(4, i requires 0 <= i < 4 => parts[i].value.Floor)
  }

  /** The mask of a prefix length. */
  function Mask(prefix: nat): int
    requires prefix <= 32
  {
    if prefix == 0 then 0 else ToUint32(ShiftLeft(0xffff_ffff, 32 - prefix))
  }

  /** `matchesCidr`, from the numbers of the two addresses and of the prefix. */
  predicate MatchesCidr(ip: seq<Numeric>, range: seq<Numeric>, prefix: Numeric) {
    if !IsInteger(prefix) || prefix.value < 0.0 || prefix.value > 32.0 then false
    else
      var ipInt, rangeInt := Ipv4ToInt(ip), Ipv4ToInt(range);
      if ipInt.None? || rangeInt.None? then false
      else And32(ipInt.value, Mask(prefix.value.Floor)) == And32(rangeInt.value, Mask(prefix.value.Floor))
  }

  // ----- the wrap-around does no harm -----

  lemma ToInt32Congruent(x: int)
    ensures -TWO_31 <= ToInt32(x) < TWO_31
    ensures exists k: int :: ToInt32(x) == x + k * TWO_32
  {
    var q := x / TWO_32;
    assert x == q * TWO_32 + x % TWO_32;
    assert ToInt32(x) == x + (-q) * TWO_32 || ToInt32(x) == x + (-q - 1) * TWO_32;
  }

  lemma CongruentSameUint(x: int, k: int)
    ensures ToUint32(x + k * TWO_32) == ToUint32(x)
  {
    var q := x / TWO_32;
    assert x + k * TWO_32 == (q + k) * TWO_32 + x % TWO_32;
  }

  lemma Pow2Of8()
    ensures Pow2(8) == 256
  {
    assert Pow2(4) == 16;
  }

  /** One step of the fold is exact up to a multiple of 2^32. */
  lemma ShiftStep(acc: int) returns (m: int)
    ensures ShiftLeft(acc, 8) == acc * 256 + m * TWO_32
  {
    Pow2Of8();
    ToInt32Congruent(acc);
    var k :| ToInt32(acc) == acc + k * TWO_32;
    ToInt32Congruent(ToInt32(acc) * 256);
    var n :| ToInt32(ToInt32(acc) * 256) == ToInt32(acc) * 256 + n * TWO_32;
    m := 256 * k + n;
  }

  /** The value of digits in base 256. */
  function Base256(o: seq<int>): int {
    if o == [] then 0 else Base256(o[..|o| - 1]) * 256 + o[|o| - 1]
  }

  lemma {:induction false} FoldCongruent(o: seq<int>)
    ensures exists k: int :: Fold(o) == Base256(o) + k * TWO_32
  {
    if o == [] {
      assert Fold(o) == Base256(o) + 0 * TWO_32;
    } else {
      var front, last := o[..|o| - 1], o[|o| - 1];
      FoldCongruent(front);
      var k :| Fold(front) == Base256(front) + k * TWO_32;
      var m := ShiftStep(Fold(front));
      assert Fold(o) == Base256(o) + (256 * k + m) * TWO_32;
    }
  }

  lemma FourOctets(o: seq<int>)
    requires |o| == 4 && forall i :: 0 <= i < 4 ==> 0 <= o[i] <= 255
    ensures Base256(o) == ((o[0] * 256 + o[1]) * 256 + o[2]) * 256 + o[3]
    ensures 0 <= Base256(o) < TWO_32
  {
    var p := o[..3];
    assert p[..2] == o[..2] && o[..2][..1] == o[..1] && o[..1][..0] == [];
    assert Base256(o[..1]) == o[0];
    assert Base256(o[..2]) == o[0] * 256 + o[1];
    assert Base256(p) == (o[0] * 256 + o[1]) * 256 + o[2];
  }

  /** Despite the signed wrap-around the number of an address is its octets in base 256,
      and anything but four octets has no number. */
  lemma AddressValue(parts: seq<Numeric>)
    ensures Ipv4ToInt(parts).Some? <==> IsAddress(parts)
    ensures IsAddress(parts) ==>
              var o := Octets(parts);
              && Ipv4ToInt(parts).value == ((o[0] * 256 + o[1]) * 256 + o[2]) * 256 + o[3]
              && 0 <= Ipv4ToInt(parts).value < TWO_32
  {
    if IsAddress(parts) {
      FoldValue(Octets(parts));
    }
  }

  lemma FoldValue(o: seq<int>)
    requires |o| == 4 && forall i :: 0 <= i < 4 ==> 0 <= o[i] <= 255
    ensures ToUint32(Fold(o)) == ((o[0] * 256 + o[1]) * 256 + o[2]) * 256 + o[3] < TWO_32
  {
    FoldCongruent(o);
    FourOctets(o);
    var k :| Fold(o) == Base256(o) + k * TWO_32;
    CongruentSameUint(Base256(o), k);
    SmallNumbers(Base256(o), 0);
  }

  // ----- masks are blocks -----

  lemma {:induction false} Pow2Positive(n: nat)
    ensures Pow2(n) > 0
  {
    if n > 0 {
      Pow2Positive(n - 1);
    }
  }

  lemma Pow2Of32()
    ensures Pow2(32) == TWO_32 && Pow2(31) == TWO_31
  {
    assert Pow2(8) == 256;
    assert Pow2(16) == 65536;
    assert Pow2(24) == 16777216;
  }

  lemma {:induction false} Pow2Grows(m: nat, n: nat)
    requires m <= n
    ensures Pow2(m) <= Pow2(n)
    decreases n
  {
    Pow2Positive(m);
    if m < n {
      Pow2Grows(m, n - 1);
    }
  }

  /** A number with `k` zero bits appended. */
  function Append(x: nat, k: nat): nat {
    if k == 0 then x else 2 * Append(x, k - 1)
  }

  /** What is left of a number without its low `k` bits. */
  function Drop(x: nat, k: nat): nat {
    if k == 0 then x else Drop(x / 2, k - 1)
  }

  lemma {:induction false} AppendAdds(x: nat, y: nat, k: nat)
    ensures Append(x + y, k) == Append(x, k) + Append(y, k)
  {
    if k > 0 {
      AppendAdds(x, y, k - 1);
    }
  }

  lemma {:induction false} AppendPow2(p: nat, k: nat)
    ensures Append(Pow2(p), k) == Pow2(p + k)
  {
    if k > 0 {
      AppendPow2(p, k - 1);
    }
  }

  lemma {:induction false} AppendOrders(d: nat, e: nat, k: nat)
    ensures d < e ==> Append(d + 1, k) <= Append(e, k)
    ensures Append(d + 1, k) == Append(d, k) + Pow2(k)
    ensures Append(d, k) == Append(e, k) ==> d == e
  {
    if k > 0 {
      AppendOrders(d, e, k - 1);
    }
  }

  /** A number lies in the block of the numbers that share its high bits. */
  lemma {:induction false} DropBounds(x: nat, k: nat)
    ensures Append(Drop(x, k), k) <= x < Append(Drop(x, k) + 1, k)
  {
    if k > 0 {
      DropBounds(x / 2, k - 1);
    }
  }

  lemma {:induction false} DropDrops(x: nat, k: nat, m: nat)
    ensures Drop(Drop(x, k), m) == Drop(x, k + m)
  {
    if k > 0 {
      DropDrops(x / 2, k - 1, m);
    }
  }

  lemma {:induction false} DropBelow(x: nat, p: nat, k: nat)
    requires x < Pow2(p + k)
    ensures Drop(x, k) < Pow2(p)
  {
    if k > 0 {
      DropBelow(x / 2, p, k - 1);
    }
  }

  /** And with all ones up to bit `m` changes nothing below `2^m`. */
  lemma {:induction false} AndOnes(x: nat, m: nat)
    requires x < Pow2(m)
    ensures Pow2(m) >= 1 && BitAnd(x, Pow2(m) - 1) == x
  {
    Pow2Positive(m);
    if m > 0 {
      AndOnes(x / 2, m - 1);
      assert (Pow2(m) - 1) / 2 == Pow2(m - 1) - 1 && (Pow2(m) - 1) % 2 == 1;
    }
  }

  /** And with a number whose low bits are zero drops them. */
  lemma {:induction false} AndAppended(x: nat, y: nat, k: nat)
    ensures BitAnd(x, Append(y, k)) == Append(BitAnd(Drop(x, k), y), k)
  {
    if k > 0 {
      AndAppended(x / 2, y, k - 1);
      AppendZero(k - 1);
      var z := Append(y, k - 1);
      assert Append(y, k) / 2 == z && Append(y, k) % 2 == 0;
      assert BitAnd(x, Append(y, k)) == 2 * BitAnd(x / 2, z);
    }
  }

  lemma {:induction false} AppendZero(k: nat)
    ensures Append(0, k) == 0
  {
    if k > 0 {
      AppendZero(k - 1);
    }
  }

  lemma MinusModulo(p: int)
    requires 0 < p <= TWO_31
    ensures ToUint32(ToInt32(-p)) == TWO_32 - p
  {
    assert -p % TWO_32 == TWO_32 - p;
  }

  /** All ones shifted left: minus one, as the shift sees it, times a power of two. */
  lemma ShiftOnes(k: nat)
    requires k <= 31
    ensures ToUint32(ShiftLeft(0xffff_ffff, k)) == TWO_32 - Pow2(k)
  {
    Pow2Of32();
    Pow2Grows(k, 31);
    Pow2Positive(k);
    var p: int := Pow2(k);
    assert ToInt32(0xffff_ffff) == -1;
    assert -1 * p == -p;
    MinusModulo(p);
  }

  lemma SmallNumbers(u: nat, v: nat)
    requires u < TWO_32 && v < TWO_32
    ensures ToUint32(u) == u && (ToInt32(u) == ToInt32(v) <==> u == v)
  {
  }

  lemma MaskValue(prefix: nat)
    requires prefix <= 32
    ensures Pow2(prefix) >= 1 && Mask(prefix) == Append(Pow2(prefix) - 1, 32 - prefix) < TWO_32
  {
    var k := 32 - prefix;
    Pow2Of32();
    Pow2Positive(prefix);
    Pow2Positive(k);
    AppendAdds(Pow2(prefix) - 1, 1, k);
    AppendPow2(prefix, k);
    AppendPow2(0, k);
    if prefix > 0 {
      ShiftOnes(k);
    }
  }

  /** Masking keeps exactly the top `prefix` bits. */
  lemma MaskedValue(x: nat, prefix: nat)
    requires x < TWO_32 && prefix <= 32
    ensures BitAnd(x, Mask(prefix)) == Append(Drop(x, 32 - prefix), 32 - prefix) <= x
  {
    var k := 32 - prefix;
    Pow2Of32();
    MaskValue(prefix);
    AndAppended(x, Pow2(prefix) - 1, k);
    DropBelow(x, prefix, k);
    AndOnes(Drop(x, k), prefix);
    DropBounds(x, k);
  }

  lemma SameMasked(x: nat, y: nat, prefix: nat)
    requires x < TWO_32 && y < TWO_32 && prefix <= 32
    ensures And32(x, Mask(prefix)) == And32(y, Mask(prefix)) <==> Drop(x, 32 - prefix) == Drop(y, 32 - prefix)
  {
    MaskValue(prefix);
    MaskedValue(x, prefix);
    MaskedValue(y, prefix);
    AppendOrders(Drop(x, 32 - prefix), Drop(y, 32 - prefix), 32 - prefix);
    SmallNumbers(x, y);
    SmallNumbers(y, x);
    SmallNumbers(Mask(prefix), 0);
    SmallNumbers(BitAnd(x, Mask(prefix)), BitAnd(y, Mask(prefix)));
  }

  // ----- the claims -----

  function Bit(x: nat, i: nat): nat {
    Drop(x, i) % 2
  }

  ghost predicate SameTopBits(x: nat, y: nat, k: nat) {
    forall i :: k <= i < 32 ==> Bit(x, i) == Bit(y, i)
  }

  lemma {:induction false} TopBits(x: nat, y: nat, k: nat)
    requires x < TWO_32 && y < TWO_32 && k <= 32
    ensures SameTopBits(x, y, k) <==> Drop(x, k) == Drop(y, k)
    decreases 32 - k
  {
    Pow2Of32();
    DropBelow(x, 0, 32);
    DropBelow(y, 0, 32);
    if k < 32 {
      TopBits(x, y, k + 1);
      DropDrops(x, k, 1);
      DropDrops(y, k, 1);
      assert Drop(Drop(x, k), 1) == Drop(x, k) / 2 && Drop(Drop(y, k), 1) == Drop(y, k) / 2;
      assert SameTopBits(x, y, k) <==> SameTopBits(x, y, k + 1) && Bit(x, k) == Bit(y, k);
    }
  }

  predicate IsPrefix(n: Numeric) {
    IsInteger(n) && 0.0 <= n.value <= 32.0
  }

  /** Masked alike, equal top bits, and one block, for numbers of 32 bits. */
  lemma SameBlock(x: nat, r: nat, prefix: nat)
    requires x < TWO_32 && r < TWO_32 && prefix <= 32
    ensures var k := 32 - prefix;
            && (And32(x, Mask(prefix)) == And32(r, Mask(prefix)) <==> SameTopBits(x, r, k))
            && (SameTopBits(x, r, k) <==> Append(Drop(r, k), k) <= x < Append(Drop(r, k), k) + Pow2(k))
  {
    var k := 32 - prefix;
    SameMasked(x, r, prefix);
    TopBits(x, r, k);
    DropBounds(x, k);
    AppendOrders(Drop(x, k), Drop(r, k), k);
    AppendOrders(Drop(r, k), Drop(x, k), k);
  }

  /** A match says that both addresses and the prefix are well formed, that the addresses agree on
      their top `prefix` bits, and that the one lies in the other's block of `2^(32 - prefix)` addresses. */
  lemma MatchIsBlockMembership(ip: seq<Numeric>, range: seq<Numeric>, prefix: Numeric)
    ensures MatchesCidr(ip, range, prefix) ==> IsAddress(ip) && IsAddress(range) && IsPrefix(prefix)
    ensures IsAddress(ip) && IsAddress(range) && IsPrefix(prefix) ==>
              var x, r, k := Ipv4ToInt(ip).value, Ipv4ToInt(range).value, 32 - prefix.value.Floor;
              && x >= 0 && r >= 0
              && (MatchesCidr(ip, range, prefix) <==> SameTopBits(x, r, k))
              && (MatchesCidr(ip, range, prefix) <==> Append(Drop(r, k), k) <= x < Append(Drop(r, k), k) + Pow2(k))
  {
    AddressValue(ip);
    AddressValue(range);
    if IsAddress(ip) && IsAddress(range) && IsPrefix(prefix) {
      SameBlock(Ipv4ToInt(ip).value, Ipv4ToInt(range).value, prefix.value.Floor);
    }
  }

  /** The pieces are four whole numbers of a byte each: these. */
  predicate Reads(parts: seq<Numeric>, o: seq<int>) {
    |parts| == |o| == 4 && forall i :: 0 <= i < 4 ==> parts[i] == Num(o[i] as real) && 0 <= o[i] <= 255
  }

  function ValueOf(o: seq<int>): int
    requires |o| == 4
  {
    16777216 * o[0] + 65536 * o[1] + 256 * o[2] + o[3]
  }

  /** The `q`-th block of `2^k` numbers. */
  predicate InBlock(x: int, q: nat, k: nat) {
    q * Pow2(k) <= x < q * Pow2(k) + Pow2(k)
  }

  lemma {:induction false} AppendTimes(q: nat, k: nat)
    ensures Append(q, k) == q * Pow2(k)
  {
    if k > 0 {
      AppendTimes(q, k - 1);
      assert q * Pow2(k) == q * (2 * Pow2(k - 1)) == 2 * (q * Pow2(k - 1));
    }
  }

  lemma BlockIsDrop(x: nat, q: nat, k: nat)
    ensures InBlock(x, q, k) <==> q == Drop(x, k)
  {
    AppendTimes(q, k);
    DropBounds(x, k);
    AppendOrders(Drop(x, k), q, k);
    AppendOrders(q, Drop(x, k), k);
  }

  lemma AddressReads(parts: seq<Numeric>, o: seq<int>)
    requires Reads(parts, o)
    ensures IsAddress(parts) && Ipv4ToInt(parts) == Some(ValueOf(o)) && 0 <= ValueOf(o)
  {
    forall i | 0 <= i < 4 ensures IsOctet(parts[i]) && parts[i].value.Floor == o[i] {}
    assert Octets(parts) == o;
    AddressValue(parts);
  }

  /** The two addresses are four bytes each and lie in one block of `2^(32 - p)`. */
  ghost predicate InOneBlock(a: seq<int>, b: seq<int>, q: nat, p: nat) {
    |a| == |b| == 4 && p <= 32 && InBlock(ValueOf(a), q, 32 - p) && InBlock(ValueOf(b), q, 32 - p)
  }

  /** From the numbers to the blocks: what is no four bytes, or no prefix from 0 to 32, matches nothing; the rest match
      exactly when their values lie in one block of `2^(32 - p)` numbers. */
  lemma MatchesExactlyWhen(ip: seq<Numeric>, range: seq<Numeric>, prefix: Numeric)
    ensures MatchesCidr(ip, range, prefix) <==>
              exists a, b, q, p: nat :: Reads(ip, a) && Reads(range, b) && prefix == Num(p as real)
                                        && InOneBlock(a, b, q, p)
  {
    if MatchesCidr(ip, range, prefix) {
      MatchIsBlockMembership(ip, range, prefix);
      var a, b, p: nat := Octets(ip), Octets(range), prefix.value.Floor;
      AddressReads(ip, a);
      AddressReads(range, b);
      SameBlock(ValueOf(a), ValueOf(b), p);
      TopBits(ValueOf(a), ValueOf(b), 32 - p);
      var q := Drop(ValueOf(b), 32 - p);
      BlockIsDrop(ValueOf(a), q, 32 - p);
      BlockIsDrop(ValueOf(b), q, 32 - p);
      assert InOneBlock(a, b, q, p);
    }
    forall a, b, q, p: nat | Reads(ip, a) && Reads(range, b) && prefix == Num(p as real) && InOneBlock(a, b, q, p)
      ensures MatchesCidr(ip, range, prefix)
    {
      OneBlockMatches(ip, range, a, b, q, p);
    }
  }

  lemma OneBlockMatches(ip: seq<Numeric>, range: seq<Numeric>, a: seq<int>, b: seq<int>, q: nat, p: nat)
    requires Reads(ip, a) && Reads(range, b) && InOneBlock(a, b, q, p)
    ensures MatchesCidr(ip, range, Num(p as real))
  {
    AddressReads(ip, a);
    AddressReads(range, b);
    MatchIsBlockMembership(ip, range, Num(p as real));
    AddressValue(ip);
    AddressValue(range);
    BlockIsDrop(ValueOf(a), q, 32 - p);
    BlockIsDrop(ValueOf(b), q, 32 - p);
    TopBits(ValueOf(a), ValueOf(b), 32 - p);
  }

  /** A match at a longer prefix is a match at every shorter one. */
  lemma ShorterPrefixMatches(ip: seq<Numeric>, range: seq<Numeric>, prefix: Numeric, shorter: Numeric)
    requires MatchesCidr(ip, range, prefix) && IsPrefix(shorter) && shorter.value <= prefix.value
    ensures MatchesCidr(ip, range, shorter)
  {
    MatchIsBlockMembership(ip, range, prefix);
    MatchIsBlockMembership(ip, range, shorter);
  }
}
