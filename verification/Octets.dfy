/**
 Octets, octet strings and big-endian numbers: the vocabulary shared by the
 receive path and the frame writers.
 */
module Octets {

  type byte = b: int | 0 <= b < 256
  type bytes = seq<byte>

  /** The largest value of the source's 32-bit `unsigned int`. */
  const UINT_MAX: nat := 0xFFFF_FFFF

  /** Which compiled form of a blocked loop runs: plain words, AVX2 or NEON. */
  datatype Simd = Word | Avx2 | Neon

  /** Shortest input for which the AVX2 and NEON forms are chosen. */
  const SIMD_MIN_LENGTH := 64

  datatype Option<+T> = None | Some(value: T)

  function Concat(pieces: seq<bytes>): bytes {
    if pieces == [] then [] else pieces[0] + Concat(pieces[1..])
  }

  lemma ConcatFrom(pieces: seq<bytes>, i: nat)
    requires i < |pieces|
    ensures Concat(pieces[i..]) == pieces[i] + Concat(pieces[i + 1..])
  {
    assert pieces[i..][1..] == pieces[i + 1..];
  }

  // ----- slices

  lemma SliceOfSlice<T>(b: seq<T>, i: nat, j: nat, k: nat, l: nat)
    requires i <= j <= |b| && k <= l <= j - i
    ensures b[i..j][k..l] == b[i + k..i + l]
  {
    DropOfTake(b[i..j], l, k);
    TakeOfSlice(b, i, j, l);
    DropOfSlice(b, i, i + l, k);
  }

  lemma DropOfDrop<T>(b: seq<T>, i: nat, k: nat)
    requires i + k <= |b|
    ensures b[i..][k..] == b[i + k..]
  {
    assert forall n | 0 <= n < |b| - i - k :: b[i..][k..][n] == b[i + k + n] == b[i + k..][n];
  }

  lemma TakeOfDrop<T>(b: seq<T>, i: nat, n: nat)
    requires i + n <= |b|
    ensures b[i..][..n] == b[i..i + n]
  {
    assert forall k | 0 <= k < n :: b[i..][..n][k] == b[i + k];
  }

  lemma DropOfTake<T>(b: seq<T>, n: nat, i: nat)
    requires i <= n <= |b|
    ensures b[..n][i..] == b[i..n]
  {
    assert forall k | 0 <= k < n - i :: b[..n][i..][k] == b[i + k];
  }

  lemma SliceOfFirst<T>(x: seq<T>, y: seq<T>, i: nat, j: nat)
    requires i <= j <= |x|
    ensures (x + y)[i..j] == x[i..j]
  {
    assert forall n | 0 <= n < j - i :: (x + y)[i..j][n] == x[i + n];
  }

  lemma TakeOfSlice<T>(b: seq<T>, i: nat, j: nat, n: nat)
    requires i <= j <= |b| && n <= j - i
    ensures b[i..j][..n] == b[i..i + n]
  {
    assert forall k | 0 <= k < n :: b[i..j][..n][k] == b[i + k];
  }

  lemma DropOfSlice<T>(b: seq<T>, i: nat, j: nat, n: nat)
    requires i <= j <= |b| && n <= j - i
    ensures b[i..j][n..] == b[i + n..j]
  {
    assert forall k | 0 <= k < j - i - n :: b[i..j][n..][k] == b[i + n + k];
  }

  lemma TakeOfFirst<T>(x: seq<T>, y: seq<T>, n: nat)
    requires n <= |x|
    ensures (x + y)[..n] == x[..n]
  {
    assert forall k | 0 <= k < n :: (x + y)[..n][k] == x[k];
  }

  lemma SliceOfSecond<T>(x: seq<T>, y: seq<T>, i: nat, j: nat)
    requires i <= j <= |y|
    ensures (x + y)[|x| + i..|x| + j] == y[i..j]
  {
    assert forall n | 0 <= n < j - i :: y[i..j][n] == y[i + n] == (x + y)[|x| + i..|x| + j][n];
  }

  lemma DropOfSecond<T>(x: seq<T>, y: seq<T>, n: nat)
    requires n <= |y|
    ensures (x + y)[|x| + n..] == y[n..]
  {
    assert forall k | 0 <= k < |y| - n :: y[n..][k] == y[n + k] == (x + y)[|x| + n..][k];
  }

  lemma DropOfFirst<T>(x: seq<T>, y: seq<T>, i: nat)
    requires i <= |x|
    ensures (x + y)[i..] == x[i..] + y
  {
    assert forall n | 0 <= n < |x| + |y| - i :: (x + y)[i..][n] == (x + y)[i + n] == (x[i..] + y)[n];
  }

  /** A slice that takes in the join of two strings. */
  lemma SliceOfBoth<T>(x: seq<T>, y: seq<T>, i: nat, n: nat)
    requires i <= |x| && n <= |y|
    ensures (x + y)[i..|x| + n] == x[i..] + y[..n]
  {
    assert forall k | 0 <= k < |x| + n - i :: (x + y)[i..|x| + n][k] == (x + y)[i + k] == (x[i..] + y[..n])[k];
  }

  /** Two slices that meet. */
  lemma SlicesJoin<T>(b: seq<T>, i: nat, j: nat, k: nat)
    requires i <= j <= k <= |b|
    ensures b[i..k] == b[i..j] + b[j..k]
  {
    assert forall n | 0 <= n < k - i :: b[i..k][n] == b[i + n] == (b[i..j] + b[j..k])[n];
  }

  /** What was written in two parts. */
  lemma TwoParts<T>(now: seq<T>, x: seq<T>, y: seq<T>)
    requires |x| + |y| <= |now|
    requires (forall i | 0 <= i < |x| :: now[i] == x[i]) && (forall i | 0 <= i < |y| :: now[|x| + i] == y[i])
    ensures now[..|x| + |y|] == x + y
  {
    var r, s := now[..|x| + |y|], x + y;
    forall k | 0 <= k < |x| + |y|
      ensures r[k] == s[k]
    {
      assert k >= |x| ==> now[|x| + (k - |x|)] == y[k - |x|];
    }
  }

  /** The field of `b` that starts at the bit worth `low` and takes `range` values. */
  function Bits(b: byte, low: nat, range: nat): nat
    requires low > 0 && range > 0
  {
    b / low % range
  }

  function Pow2(k: nat): (p: nat)
    ensures p >= 1
  {
    if k == 0 then 1 else 2 * Pow2(k - 1)
  }

  /** Exclusive or of the low `k` bits of `x` and `y`. */
  function XorBits(x: nat, y: nat, k: nat): (r: nat)
    ensures r < Pow2(k)
  {
    if k == 0 then 0 else 2 * XorBits(x / 2, y / 2, k - 1) + (x + y) % 2
  }

  function Xor(x: byte, y: byte): byte {
    XorBits(x, y, 8)
  }

  lemma {:induction false} XorBitsInvolution(x: nat, y: nat, k: nat)
    requires x < Pow2(k)
    ensures XorBits(XorBits(x, y, k), y, k) == x
  {
    if k > 0 {
      var q := XorBits(x / 2, y / 2, k - 1);
      XorBitsInvolution(x / 2, y / 2, k - 1);
      Parity(q, x, y);
      assert XorBits(XorBits(x, y, k), y, k) == 2 * XorBits(q, y / 2, k - 1) + x % 2;
    }
  }

  lemma Parity(q: nat, x: nat, y: nat)
    ensures var r := 2 * q + (x + y) % 2; r / 2 == q && r % 2 == (x + y) % 2 && (r + y) % 2 == x % 2
  {
    var r := 2 * q + (x + y) % 2;
    assert r + y == x + 2 * (q + y - (x + y) / 2);
    EvenPart(x, q + y - (x + y) / 2);
  }

  lemma EvenPart(x: nat, m: int)
    ensures (x + 2 * m) % 2 == x % 2
  {
  }

  lemma XorInvolution(x: byte, y: byte)
    ensures Xor(Xor(x, y), y) == x
  {
    assert Pow2(8) == 256;
    XorBitsInvolution(x, y, 8);
  }

  /** Bit `k` of a number, the lowest being bit 0. */
  function BitAt(n: nat, k: nat): nat {
    n / Pow2(k) % 2
  }

  lemma FirstBit(n: nat)
    ensures BitAt(n, 0) == n % 2
  {
  }

  lemma NextBit(n: nat, k: nat)
    requires k > 0
    ensures BitAt(n, k) == BitAt(n / 2, k - 1)
  {
    HalfThenDiv(n, Pow2(k - 1));
  }

  lemma SumParity(x: nat, y: nat)
    ensures (x % 2 + y % 2) % 2 == (x + y) % 2
  {
    EvenPart(x % 2 + y % 2, x / 2 + y / 2);
  }

  lemma XorBitsHalved(x: nat, y: nat, n: nat)
    requires n > 0
    ensures var r := XorBits(x, y, n); r / 2 == XorBits(x / 2, y / 2, n - 1) && r % 2 == (x + y) % 2
  {
    Parity(XorBits(x / 2, y / 2, n - 1), x, y);
  }

  lemma {:induction false} XorBitsAt(x: nat, y: nat, n: nat, k: nat)
    requires k < n
    ensures BitAt(XorBits(x, y, n), k) == (BitAt(x, k) + BitAt(y, k)) % 2
    decreases k
  {
    hide BitAt, XorBits;
    var r := XorBits(x, y, n);
    XorBitsHalved(x, y, n);
    if k == 0 {
      FirstBit(r);
      FirstBit(x);
      FirstBit(y);
      SumParity(x, y);
    } else {
      NextBit(r, k);
      NextBit(x, k);
      NextBit(y, k);
      XorBitsAt(x / 2, y / 2, n - 1, k - 1);
    }
  }

  lemma HalfThenDiv(n: nat, p: nat)
    requires p > 0
    ensures n / 2 / p == n / (2 * p)
  {
    var q, r := n / 2 / p, n / 2 % p;
    var s := n % 2;
    assert n == 2 * (p * q + r) + s;
    assert n == (2 * p) * q + (2 * r + s);
    QuotientUnique(n, 2 * p, q, 2 * r + s);
  }

  /** Exclusive or: a bit of the result is set exactly when the two bits differ. */
  lemma XorIsExclusiveOr(x: byte, y: byte, k: nat)
    requires k < 8
    ensures Xor(x, y) / Pow2(k) % 2 == (x / Pow2(k) + y / Pow2(k)) % 2
    ensures Pow2(k) == [1, 2, 4, 8, 16, 32, 64, 128][k]
  {
    hide XorBits;
    PowersOfTwo(k);
    XorBitsAt(x, y, 8, k);
    SumOfBits(x, y, k);
  }

  lemma SumOfBits(x: nat, y: nat, k: nat)
    ensures (BitAt(x, k) + BitAt(y, k)) % 2 == (x / Pow2(k) + y / Pow2(k)) % 2
  {
    hide Pow2;
    SumParity(x / Pow2(k), y / Pow2(k));
  }

  lemma PowersOfTwo(k: nat)
    requires k < 8
    ensures Pow2(k) == [1, 2, 4, 8, 16, 32, 64, 128][k]
  {
    assert Pow2(0) == 1 && Pow2(1) == 2 && Pow2(2) == 4 && Pow2(3) == 8;
    assert Pow2(4) == 16 && Pow2(5) == 32 && Pow2(6) == 64 && Pow2(7) == 128;
  }

  /** Value of `b` read most significant octet first (network order). */
  function FromBigEndian(b: bytes): nat {
    if b == [] then 0 else FromBigEndian(b[..|b| - 1]) * 256 + b[|b| - 1]
  }

  /** The low `k` octets of `n`, most significant first. */
  function ToBigEndian(n: nat, k: nat): (b: bytes)
    ensures |b| == k
  {
    if k == 0 then [] else ToBigEndian(n / 256, k - 1) + [n % 256]
  }

  function Pow256(k: nat): (p: nat)
    ensures p >= 1
  {
    if k == 0 then 1 else 256 * Pow256(k - 1)
  }

  lemma {:induction false} BigEndianRoundTrip(n: nat, k: nat)
    requires n < Pow256(k)
    ensures FromBigEndian(ToBigEndian(n, k)) == n
  {
    if k > 0 {
      BigEndianRoundTrip(n / 256, k - 1);
      assert ToBigEndian(n, k)[..k - 1] == ToBigEndian(n / 256, k - 1);
    }
  }

  lemma ToBigEndianAppend(m: nat, r: nat, k: nat)
    requires r < 256
    ensures ToBigEndian(m * 256 + r, k + 1) == ToBigEndian(m, k) + [r]
  {
    assert (m * 256 + r) / 256 == m && (m * 256 + r) % 256 == r;
  }

  lemma {:induction false} FromBigEndianRoundTrip(b: bytes)
    ensures ToBigEndian(FromBigEndian(b), |b|) == b
    decreases |b|
  {
    if b != [] {
      var front, last := b[..|b| - 1], b[|b| - 1];
      FromBigEndianRoundTrip(front);
      ToBigEndianAppend(FromBigEndian(front), last, |front|);
      assert b == front + [last];
    }
  }

  /** The octet that a byte-at-a-time writer puts at place `i`. */
  lemma {:induction false} BigEndianOctet(n: nat, k: nat, i: nat)
    requires i < k
    ensures ToBigEndian(n, k)[i] == (n / Pow256(k - 1 - i)) % 256
  {
    if i < k - 1 {
      BigEndianOctet(n / 256, k - 1, i);
      DivDiv(n, Pow256(k - 2 - i));
    }
  }

  lemma DivDiv(n: nat, p: nat)
    requires p > 0
    ensures n / 256 / p == n / (256 * p)
  {
    var q, r := n / 256 / p, n / 256 % p;
    var s := n % 256;
    assert n == 256 * (p * q + r) + s;
    assert n == (256 * p) * q + (256 * r + s);
    assert 0 <= 256 * r + s < 256 * p;
    QuotientUnique(n, 256 * p, q, 256 * r + s);
  }

  lemma QuotientUnique(n: nat, d: nat, q: nat, r: nat)
    requires d > 0 && r < d && n == d * q + r
    ensures n / d == q
  {
    assert d * (n / d - q) == r - n % d;
    NoMultipleBetween(d, n / d - q);
  }

  lemma NoMultipleBetween(d: int, m: int)
    requires -d < d * m < d
    ensures m == 0
  {
    assert m >= 1 ==> d * m >= d;
    assert m <= -1 ==> d * m <= -d;
  }
}
