/** Octets and fixed-width integers. */
module Bytes {

  type Byte = b: nat | b < 256

  function Pow256(k: nat): nat {
    if k == 0 then 1 else 256 * Pow256(k - 1)
  }

  /** The lowest `k` octets of `n`, most significant first. */
  function BigEndian(n: nat, k: nat): (bytes: seq<Byte>)
    ensures |bytes| == k
  {
    if k == 0 then [] else BigEndian(n / 256, k - 1) + [n % 256]
  }

  function FromBigEndian(bytes: seq<Byte>): nat {
    if bytes == [] then 0 else 256 * FromBigEndian(bytes[..|bytes| - 1]) + bytes[|bytes| - 1]
  }

  /** The octets of a `k`-octet integer as a little-endian machine stores it. */
  function LittleEndian(n: nat, k: nat): (bytes: seq<Byte>)
    ensures |bytes| == k
  {
    if k == 0 then [] else [n % 256] + LittleEndian(n / 256, k - 1)
  }

  function FromLittleEndian(bytes: seq<Byte>): nat {
    if bytes == [] then 0 else bytes[0] + 256 * FromLittleEndian(bytes[1..])
  }

  /** htons and htonl on a little-endian machine. */
  function Swap(n: nat, k: nat): nat {
    FromLittleEndian(BigEndian(n, k))
  }

  lemma ModShift(n: nat, k: nat)
    requires k > 0
    ensures Pow256(k) > 0 && Pow256(k - 1) > 0
    ensures n % Pow256(k) == 256 * (n / 256 % Pow256(k - 1)) + n % 256
  {
    PowPositive(k);
    PowPositive(k - 1);
    ModOfProduct(n, Pow256(k - 1));
  }

  /** A remainder, one octet at a time. */
  lemma ModOfProduct(n: nat, p: nat)
    requires p > 0
    ensures n % (256 * p) == 256 * (n / 256 % p) + n % 256
  {
    var q, r := n / 256, n % 256;
    var a, b := q / p, q % p;
    assert q == a * p + b;
    assert a * (256 * p) == 256 * (a * p) by { Rearranged(a, p); }
    DivModUnique(n, 256 * p, a, 256 * b + r);
  }

  lemma Rearranged(a: nat, p: nat)
    ensures a * (256 * p) == 256 * (a * p)
  {
  }

  lemma ProductSign(x: int, d: int)
    requires d >= 0
    ensures x >= 1 ==> x * d >= d
    ensures x <= -1 ==> x * d <= -d
  {
    assert x * d == (x - 1) * d + d;
    assert x * d == (x + 1) * d - d;
    if x >= 1 {
      assert (x - 1) * d >= 0;
    } else if x <= -1 {
      assert (-x - 1) * d >= 0;
      assert (x + 1) * d == -((-x - 1) * d);
    }
  }

  lemma DivModUnique(n: nat, d: nat, a: nat, b: nat)
    requires d > 0 && b < d && n == a * d + b
    ensures n / d == a && n % d == b
  {
    var q, r := n / d, n % d;
    assert n == q * d + r;
    assert (q - a) * d == q * d - a * d;
    ProductSign(q - a, d);
  }

  lemma {:induction false} PowPositive(k: nat)
    ensures Pow256(k) > 0
  {
    if k > 0 { PowPositive(k - 1); }
  }

  /** Reading back what was written gives the value, cut to the octets there are. */
  lemma {:induction false} BigEndianRoundTrip(n: nat, k: nat)
    ensures Pow256(k) > 0 && FromBigEndian(BigEndian(n, k)) == n % Pow256(k)
  {
    PowPositive(k);
    if k > 0 {
      BigEndianRoundTrip(n / 256, k - 1);
      ModShift(n, k);
      var bytes := BigEndian(n, k);
      assert bytes[..k - 1] == BigEndian(n / 256, k - 1);
    }
  }

  lemma {:induction false} LittleEndianRoundTrip(bytes: seq<Byte>)
    ensures LittleEndian(FromLittleEndian(bytes), |bytes|) == bytes
  {
    if bytes != [] {
      LittleEndianRoundTrip(bytes[1..]);
      assert FromLittleEndian(bytes) / 256 == FromLittleEndian(bytes[1..]);
    }
  }

  /** A swapped integer lies in memory in network order. */
  lemma SwapIsNetworkOrder(n: nat, k: nat)
    ensures LittleEndian(Swap(n, k), k) == BigEndian(n, k)
  {
    LittleEndianRoundTrip(BigEndian(n, k));
  }

  lemma PowValues()
    ensures Pow256(1) == 0x100 && Pow256(2) == 0x1_0000 && Pow256(3) == 0x100_0000 && Pow256(4) == 0x1_0000_0000
    ensures Pow256(5) == 0x100_0000_0000
  {
    assert Pow256(2) == 256 * Pow256(1);
    assert Pow256(3) == 256 * Pow256(2);
    assert Pow256(4) == 256 * Pow256(3);
    assert Pow256(5) == 256 * Pow256(4);
  }

  /** Octets that were read are written again as they were. */
  lemma {:induction false} BigEndianInverse(bytes: seq<Byte>)
    ensures FromBigEndian(bytes) < Pow256(|bytes|)
    ensures BigEndian(FromBigEndian(bytes), |bytes|) == bytes
  {
    if bytes != [] {
      var front, last := bytes[..|bytes| - 1], bytes[|bytes| - 1];
      BigEndianInverse(front);
      assert FromBigEndian(bytes) / 256 == FromBigEndian(front) && FromBigEndian(bytes) % 256 == last;
      assert bytes == front + [last];
    }
  }

  // ---- octet by octet

  lemma TwoOctets(n: nat)
    ensures BigEndian(n, 1) == [n % 256]
    ensures BigEndian(n, 2) == [n / 256 % 256, n % 256]
  {
    assert BigEndian(n, 1) == BigEndian(n / 256, 0) + [n % 256];
    assert BigEndian(n / 256, 1) == BigEndian(n / 256 / 256, 0) + [n / 256 % 256];
  }

  lemma FourOctets(n: nat)
    ensures BigEndian(n, 3) == [n / 0x1_0000 % 256, n / 256 % 256, n % 256]
    ensures BigEndian(n, 4) == [n / 0x100_0000 % 256, n / 0x1_0000 % 256, n / 256 % 256, n % 256]
  {
    TwoOctets(n / 256);
    TwoOctets(n / 256 / 256);
    Quotients(n);
    assert BigEndian(n, 3) == BigEndian(n / 256, 2) + [n % 256];
    assert BigEndian(n / 256, 3) == BigEndian(n / 256 / 256, 2) + [n / 256 % 256];
    assert BigEndian(n, 4) == BigEndian(n / 256, 3) + [n % 256];
    hide BigEndian;
  }

  lemma Quotients(n: nat)
    ensures n / 256 / 256 == n / 0x1_0000 && n / 256 / 256 / 256 == n / 0x100_0000
  {
  }

  /** Most significant first. */
  lemma {:induction false} BigEndianAt(n: nat, k: nat, i: nat)
    requires i < k
    ensures Pow256(k - 1 - i) > 0 && BigEndian(n, k)[i] == n / Pow256(k - 1 - i) % 256
  {
    PowPositive(k - 1 - i);
    if i < k - 1 {
      BigEndianAt(n / 256, k - 1, i);
      QuotientOfQuotient(n, Pow256(k - 2 - i));
    }
  }

  /** Least significant first. */
  lemma {:induction false} LittleEndianAt(n: nat, k: nat, i: nat)
    requires i < k
    ensures Pow256(i) > 0 && LittleEndian(n, k)[i] == n / Pow256(i) % 256
  {
    PowPositive(i);
    if i > 0 {
      LittleEndianAt(n / 256, k - 1, i - 1);
      QuotientOfQuotient(n, Pow256(i - 1));
    }
  }

  lemma QuotientOfQuotient(n: nat, p: nat)
    requires p > 0
    ensures n / 256 / p == n / (256 * p)
  {
    var q, r := n / 256, n % 256;
    var a, b := q / p, q % p;
    assert q == a * p + b;
    Rearranged(a, p);
    DivModUnique(n, 256 * p, a, 256 * b + r);
  }
}
