/**
 Client masking (section 5.3 of RFC 6455): what unmasking means, and the
 loops that do it in place in the caller's buffer.
 */
module Masking {
  import opened Octets

  type Key = k: bytes | |k| == 4 witness [0, 0, 0, 0]

  /** Payload octet `i` is masked with key octet `i mod 4`. */
  function Unmask(p: bytes, key: Key): (r: bytes)
    ensures |r| == |p|
  {
    seq(|p|, i requires 0 <= i < |p| => Xor(p[i], key[i % 4]))
  }

  /** The key as seen by octets that follow the first `n` octets of a payload. */
  function Rotate(key: Key, n: nat): Key {
    [key[n % 4], key[(n + 1) % 4], key[(n + 2) % 4], key[(n + 3) % 4]]
  }

  lemma RotateAt(key: Key, n: nat, i: nat)
    ensures Rotate(key, n)[i % 4] == key[(n + i) % 4]
  {
    var r := i % 4;
    assert (n + i) % 4 == (n + r) % 4;
  }

  lemma UnmaskInvolution(p: bytes, key: Key)
    ensures Unmask(Unmask(p, key), key) == p
  {
    forall i | 0 <= i < |p|
      ensures Unmask(Unmask(p, key), key)[i] == p[i]
    {
      XorInvolution(p[i], key[i % 4]);
    }
  }

  /** Bit by bit, a payload octet is the exclusive or of the wire octet and the key octet for its place. */
  lemma UnmaskIsExclusiveOr(p: bytes, key: Key, i: nat, k: nat)
    requires i < |p| && k < 8
    ensures Unmask(p, key)[i] / Pow2(k) % 2 == (p[i] / Pow2(k) + key[i % 4] / Pow2(k)) % 2
  {
    XorIsExclusiveOr(p[i], key[i % 4], k);
  }

  /** A payload unmasked in two deliveries, with the key rotated in between. */
  lemma UnmaskSplit(p: bytes, q: bytes, key: Key)
    ensures Unmask(p + q, key) == Unmask(p, key) + Unmask(q, Rotate(key, |p|))
  {
    hide Xor, Rotate;
    var r, s := Unmask(p, key), Unmask(q, Rotate(key, |p|));
    forall i | 0 <= i < |p| + |q|
      ensures Unmask(p + q, key)[i] == (r + s)[i]
    {
      if i >= |p| {
        RotateAt(key, |p|, i - |p|);
      }
    }
  }

  lemma RotateRotate(key: Key, m: nat, n: nat)
    ensures Rotate(Rotate(key, m), n) == Rotate(key, m + n)
  {
    forall i | 0 <= i < 4
      ensures Rotate(Rotate(key, m), n)[i] == Rotate(key, m + n)[i]
    {
      RotateAt(key, m, n + i);
    }
  }

  lemma RotateModulo(key: Key, n: nat)
    ensures Rotate(key, n) == Rotate(key, n % 4)
  {
  }

  /** Moves key octet `i` to place `(i + offset) mod 4`. */
  method RotateMask(offset: nat, mask: Key) returns (r: Key)
    ensures forall n: nat | (n + offset) % 4 == 0 :: r == Rotate(mask, n)
  {
    hide Xor;
    var m := new byte[4];
    m[offset % 4] := mask[0];
    m[(1 + offset) % 4] := mask[1];
    m[(2 + offset) % 4] := mask[2];
    m[(3 + offset) % 4] := mask[3];
    r := m[..];
  }

  /** Octets `lo` to `hi` of a payload at `src` were unmasked to `dst`, and nothing else changed. */
  twostate predicate Unmasked(buf: array<byte>, dst: nat, src: nat, lo: nat, hi: nat, key: Key)
    requires dst <= src && lo <= hi && src + hi <= buf.Length
    reads buf
  {
    && (forall k {:trigger buf[k]} | dst + lo <= k < dst + hi :: buf[k] == Xor(old(buf[k - dst + src]), key[(k - dst) % 4]))
    && (forall k {:trigger buf[k]} | 0 <= k < buf.Length && !(dst + lo <= k < dst + hi) :: buf[k] == old(buf[k]))
  }

  /** The same, said of slices. */
  lemma UnmaskedSlices(before: bytes, now: bytes, dst: nat, src: nat, length: nat, key: Key)
    requires dst <= src && src + length <= |now| == |before|
    requires forall k {:trigger now[k]} | dst <= k < dst + length :: now[k] == Xor(before[k - dst + src], key[(k - dst) % 4])
    requires forall k {:trigger now[k]} | 0 <= k < |now| && !(dst <= k < dst + length) :: now[k] == before[k]
    ensures now[dst..dst + length] == Unmask(before[src..src + length], key)
    ensures now[..dst] == before[..dst] && now[dst + length..] == before[dst + length..]
  {
    hide Xor;
    var r, s := now[dst..dst + length], Unmask(before[src..src + length], key);
    forall i | 0 <= i < length
      ensures r[i] == s[i]
    {
      assert now[dst + i] == Xor(before[src + i], key[i % 4]);
    }
  }

  /** One vector operation: the whole block is read before any of it is written. */
  method UnmaskBlock(buf: array<byte>, dst: nat, src: nat, mask: Key, i: nat, block: nat)
    requires dst <= src && src + i + block <= buf.Length
    requires i % 4 == 0
    modifies buf
    ensures Unmasked(buf, dst, src, i, i + block, mask)
  {
    hide Xor;
    forall k | 0 <= k < block {
      buf[dst + i + k] := Xor(buf[src + i + k], mask[k % 4]);
    }
    forall k | dst + i <= k < dst + i + block
      ensures buf[k] == Xor(old(buf[k - dst + src]), mask[(k - dst) % 4])
    {
      var j := k - dst - i;
      assert (k - dst) % 4 == j % 4;
      assert buf[dst + i + j] == Xor(old(buf[src + i + j]), mask[j % 4]);
    }
  }

  method UnmaskOctet(buf: array<byte>, dst: nat, src: nat, mask: Key, i: nat)
    requires dst <= src && src + i < buf.Length
    modifies buf
    ensures Unmasked(buf, dst, src, i, i + 1, mask)
  {
    hide Xor;
    buf[dst + i] := Xor(buf[src + i], mask[i % 4]);
  }

  /** One turn of the word loop: four octets, each read and written before the next. */
  method UnmaskWord(buf: array<byte>, dst: nat, src: nat, mask: Key, i: nat)
    requires dst <= src && src + i + 4 <= buf.Length
    modifies buf
    ensures Unmasked(buf, dst, src, i, i + 4, mask)
  {
    var j := 0;
    while j < 4
      invariant j <= 4 && Unmasked(buf, dst, src, i, i + j, mask)
    {
      UnmaskOctet(buf, dst, src, mask, i + j);
      j := j + 1;
    }
  }

  /** Whole blocks of `block` octets (32 for AVX2, 16 for NEON, 4 for words), then single octets. */
  method UnmaskBlocks(buf: array<byte>, dst: nat, src: nat, mask: Key, length: nat, block: nat)
    requires dst <= src && src + length <= buf.Length
    requires block == 32 || block == 16 || block == 4
    modifies buf
    ensures Unmasked(buf, dst, src, 0, length, mask)
  {
    var i := 0;
    while i + block <= length
      invariant i <= length && i % 4 == 0
      invariant Unmasked(buf, dst, src, 0, i, mask)
    {
      if block == 4 {
        UnmaskWord(buf, dst, src, mask, i);
      } else {
        UnmaskBlock(buf, dst, src, mask, i, block);
      }
      i := i + block;
    }
    while i < length
      invariant i <= length
      invariant Unmasked(buf, dst, src, 0, i, mask)
    {
      UnmaskOctet(buf, dst, src, mask, i);
      i := i + 1;
    }
  }

  method UnmaskRange(buf: array<byte>, dst: nat, src: nat, mask: Key, length: nat, simd: Simd)
    requires dst <= src && src + length <= buf.Length
    modifies buf
    ensures Unmasked(buf, dst, src, 0, length, mask)
  {
    if simd == Avx2 && length >= SIMD_MIN_LENGTH {
      UnmaskBlocks(buf, dst, src, mask, length, 32);
    } else if simd == Neon && length >= SIMD_MIN_LENGTH {
      UnmaskBlocks(buf, dst, src, mask, length, 16);
    } else {
      UnmaskBlocks(buf, dst, src, mask, length, 4);
    }
  }

  /** Unmasks towards the front of the buffer; the two ranges may overlap. */
  method UnmaskImprecise(buf: array<byte>, dst: nat, src: nat, mask: Key, length: nat, simd: Simd)
    requires dst <= src && src + length <= buf.Length
    modifies buf
    ensures buf[dst..dst + length] == Unmask(old(buf[src..src + length]), mask)
    ensures buf[..dst] == old(buf[..dst]) && buf[dst + length..] == old(buf[dst + length..])
  {
    ghost var before := buf[..];
    UnmaskRange(buf, dst, src, mask, length, simd);
    UnmaskedSlices(before, buf[..], dst, src, length, mask);
  }

  /** The last octets of a frame: its whole words in one go, then the remaining one to three. */
  method UnmaskLast(buf: array<byte>, start: nat, length: nat, mask: Key, simd: Simd)
    requires start + length <= buf.Length
    modifies buf
    ensures buf[start..start + length] == Unmask(old(buf[start..start + length]), mask)
    ensures buf[..start] == old(buf[..start]) && buf[start + length..] == old(buf[start + length..])
  {
    ghost var before := buf[..];
    var n := length / 4;
    UnmaskRange(buf, start, start, mask, n * 4, simd);
    var i := 0;
    while i < length % 4
      invariant i <= length % 4
      invariant Unmasked(buf, start, start, 0, n * 4 + i, mask)
    {
      UnmaskOctet(buf, start, start, mask, n * 4 + i);
      i := i + 1;
    }
    UnmaskedSlices(before, buf[..], start, start, length, mask);
  }

  method UnmaskInplace(buf: array<byte>, start: nat, stop: nat, mask: Key, simd: Simd)
    requires start <= stop <= buf.Length
    modifies buf
    ensures buf[start..stop] == Unmask(old(buf[start..stop]), mask)
    ensures buf[..start] == old(buf[..start]) && buf[stop..] == old(buf[stop..])
  {
    ghost var before := buf[..];
    UnmaskRange(buf, start, start, mask, stop - start, simd);
    UnmaskedSlices(before, buf[..], start, start, stop - start, mask);
  }
}
