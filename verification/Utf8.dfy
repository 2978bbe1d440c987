/**
 Validation of UTF-8 text: the grammar of section 4 of RFC 3629, and the
 pointer-walking validator with its three ways of skipping plain ASCII.
 */
module Utf8 {
  import opened Octets

  // ----- the grammar

  predicate Tail(b: byte) { 0x80 <= b <= 0xBF }

  /** `UTF8-char`: one well-formed character. */
  predicate Character(c: bytes) {
    || (|c| == 1 && c[0] <= 0x7F)
    || (|c| == 2 && 0xC2 <= c[0] <= 0xDF && Tail(c[1]))
    || (|c| == 3 && Tail(c[2]) && (
        || (c[0] == 0xE0 && 0xA0 <= c[1] <= 0xBF)
        || (0xE1 <= c[0] <= 0xEC && Tail(c[1]))
        || (c[0] == 0xED && 0x80 <= c[1] <= 0x9F)
        || (0xEE <= c[0] <= 0xEF && Tail(c[1]))))
    || (|c| == 4 && Tail(c[2]) && Tail(c[3]) && (
        || (c[0] == 0xF0 && 0x90 <= c[1] <= 0xBF)
        || (0xF1 <= c[0] <= 0xF3 && Tail(c[1]))
        || (c[0] == 0xF4 && 0x80 <= c[1] <= 0x8F)))
  }

  /** `UTF8-octets`: a sequence of characters. */
  predicate Text(s: bytes)
    decreases |s|
  {
    s == [] || exists n | 1 <= n <= 4 :: n <= |s| && Character(s[..n]) && Text(s[n..])
  }

  predicate Ascii(s: bytes) {
    forall k | 0 <= k < |s| :: s[k] < 0x80
  }

  // ----- how the grammar reads one character at a time

  /** The first octet fixes the length of the first character. */
  lemma TextStep(s: bytes, n: nat)
    requires 1 <= n <= 4 && n <= |s| && Character(s[..n])
    ensures Text(s) <==> Text(s[n..])
  {
    forall m | 1 <= m <= 4 && m <= |s| && Character(s[..m])
      ensures m == n
    {
      assert s[..m][0] == s[0] && s[..n][0] == s[0];
    }
  }

  lemma {:induction false} AsciiPrefix(s: bytes, n: nat)
    requires n <= |s| && Ascii(s[..n])
    ensures Text(s) <==> Text(s[n..])
    decreases n
  {
    hide Text;
    if n > 0 {
      assert s[..n][0] == s[0] && s[..1] == [s[0]];
      TextStep(s, 1);
      TakeOfDrop(s, 1, n - 1);
      DropOfTake(s, n, 1);
      DropOfDrop(s, 1, n - 1);
      AsciiPrefix(s[1..], n - 1);
    }
  }

  /** Two texts written one after the other are a text, and nothing is lost. */
  lemma {:induction false} TextConcat(s: bytes, t: bytes)
    requires Text(s)
    ensures Text(s + t) <==> Text(t)
    decreases |s|
  {
    if s == [] {
      assert s + t == t;
    } else {
      var n :| 1 <= n <= 4 && n <= |s| && Character(s[..n]) && Text(s[n..]);
      hide Text, Character;
      TakeOfFirst(s, t, n);
      TextStep(s + t, n);
      DropOfFirst(s, t, n);
      TextConcat(s[n..], t);
    }
  }

  lemma AsciiJoin(s: bytes, i: nat, j: nat, k: nat)
    requires i <= j <= k <= |s| && Ascii(s[i..j]) && Ascii(s[j..k])
    ensures Ascii(s[i..k])
  {
    forall n | 0 <= n < k - i
      ensures s[i..k][n] < 0x80
    {
      if n < j - i {
        assert s[i..k][n] == s[i + n] == s[i..j][n];
      } else {
        assert s[i..k][n] == s[i + n] == s[j..k][n - (j - i)];
      }
    }
  }

  lemma AsciiOne(s: bytes, i: nat)
    requires i < |s| && s[i] < 0x80
    ensures Ascii(s[i..i + 1])
  {
    assert s[i..i + 1] == [s[i]];
  }

  // ----- the validator

  method HasHighBit(s: bytes, i: nat, n: nat) returns (high: bool)
    requires i + n <= |s|
    ensures !high <==> Ascii(s[i..i + n])
  {
    var k := 0;
    while k < n
      invariant k <= n && Ascii(s[i..i + k])
    {
      if s[i + k] >= 0x80 {
        assert s[i..i + n][k] == s[i + k];
        return true;
      }
      AsciiOne(s, i + k);
      AsciiJoin(s, i, i + k, i + k + 1);
      k := k + 1;
    }
    return false;
  }

  method SkipAsciiOctets(s: bytes, i: nat) returns (j: nat)
    requires i <= |s|
    ensures i <= j <= |s| && Ascii(s[i..j])
    ensures j < |s| ==> s[j] >= 0x80
  {
    j := i;
    while j != |s| && s[j] < 0x80
      invariant i <= j <= |s| && Ascii(s[i..j])
    {
      AsciiOne(s, j);
      AsciiJoin(s, i, j, j + 1);
      j := j + 1;
    }
  }

  method SkipAsciiAvx2(s: bytes, i: nat) returns (j: nat)
    requires i <= |s|
    ensures i <= j <= |s| && Ascii(s[i..j])
    ensures j < |s| ==> s[j] >= 0x80
  {
    j := i;
    while j + 32 <= |s|
      invariant i <= j <= |s| && Ascii(s[i..j])
    {
      var high := HasHighBit(s, j, 32);
      if high {
        var k := SkipAsciiOctets(s, j);
        AsciiJoin(s, i, j, k);
        return k;
      }
      AsciiJoin(s, i, j, j + 32);
      j := j + 32;
    }
    var k := SkipAsciiOctets(s, j);
    AsciiJoin(s, i, j, k);
    j := k;
  }

  method SkipAsciiNeon(s: bytes, i: nat) returns (j: nat)
    requires i <= |s|
    ensures i <= j <= |s| && Ascii(s[i..j])
    ensures j < |s| ==> s[j] >= 0x80
  {
    j := i;
    while j + 64 <= |s|
      invariant i <= j <= |s| && Ascii(s[i..j])
    {
      var high := HasHighBit(s, j, 64);
      if high {
        break;
      }
      AsciiJoin(s, i, j, j + 64);
      j := j + 64;
    }
    while j + 16 <= |s|
      invariant i <= j <= |s| && Ascii(s[i..j])
    {
      var high := HasHighBit(s, j, 16);
      if high {
        break;
      }
      AsciiJoin(s, i, j, j + 16);
      j := j + 16;
    }
    var k := SkipAsciiOctets(s, j);
    AsciiJoin(s, i, j, k);
    j := k;
  }

  /** What the masks used below select. */
  lemma MaskMeanings(b: byte)
    ensures Bits(b, 64, 4) == 2 <==> Tail(b)
    ensures b >= 0x80 ==> (Bits(b, 32, 4) == 2 <==> 0xC0 <= b <= 0xDF)
    ensures Bits(b, 2, 128) == 0x60 <==> 0xC0 <= b <= 0xC1
    ensures Bits(b, 16, 16) == 0xE <==> 0xE0 <= b <= 0xEF
    ensures Bits(b, 8, 32) == 0x1E <==> 0xF0 <= b <= 0xF7
    ensures Bits(b, 32, 8) == 4 <==> 0x80 <= b <= 0x9F
    ensures Bits(b, 32, 8) == 5 <==> 0xA0 <= b <= 0xBF
    ensures Bits(b, 16, 16) == 8 <==> 0x80 <= b <= 0x8F
  {
    assert b / 64 < 4 && b / 32 < 8 && b / 16 < 16 && b / 8 < 32 && b / 2 < 128;
    assert b / 64 % 4 == b / 64 && b / 32 % 8 == b / 32 && b / 16 % 16 == b / 16;
    assert b / 8 % 32 == b / 8 && b / 2 % 128 == b / 2;
  }

  /** A text starts with a character whose length its first octet tells. */
  lemma FirstCharacter(t: bytes)
    requires t != [] && Text(t)
    ensures exists n | 1 <= n <= 4 :: n <= |t| && Character(t[..n])
  {
  }

  /** Length of the character that starts with the lead octet `s[i]`, or 0 when it is ill-formed. */
  method MultiOctet(s: bytes, i: nat) returns (n: nat)
    requires i < |s| && s[i] >= 0x80
    ensures n == 0 ==> !Text(s[i..])
    ensures n > 0 ==> i + n <= |s| && n <= 4 && Character(s[i..i + n])
  {
    var e := |s|;
    ghost var t := s[i..];
    if Text(t) {
      FirstCharacter(t);
    }
    assert forall k | 1 <= k <= |t| :: t[..k] == s[i..i + k];
    forall k | i <= k < e
      ensures Bits(s[k], 64, 4) == 2 <==> Tail(s[k])
    {
      MaskMeanings(s[k]);
    }
    MaskMeanings(s[i]);
    if i + 1 < e {
      MaskMeanings(s[i + 1]);
    }
    if Bits(s[i], 32, 4) == 2 {
      if i + 1 >= e || Bits(s[i + 1], 64, 4) != 2 || Bits(s[i], 2, 128) == 0x60 {
        return 0;
      }
      return 2;
    } else if Bits(s[i], 16, 16) == 0xE {
      if i + 2 >= e || Bits(s[i + 1], 64, 4) != 2 || Bits(s[i + 2], 64, 4) != 2
         || (s[i] == 0xE0 && Bits(s[i + 1], 32, 8) == 4) || (s[i] == 0xED && Bits(s[i + 1], 32, 8) == 5) {
        return 0;
      }
      return 3;
    } else if Bits(s[i], 8, 32) == 0x1E {
      if i + 3 >= e || Bits(s[i + 1], 64, 4) != 2 || Bits(s[i + 2], 64, 4) != 2 || Bits(s[i + 3], 64, 4) != 2
         || (s[i] == 0xF0 && Bits(s[i + 1], 16, 16) == 8) || (s[i] == 0xF4 && s[i + 1] > 0x8F) || s[i] > 0xF4 {
        return 0;
      }
      return 4;
    } else {
      return 0;
    }
  }

  /** One turn of the validator's slow branch: ASCII octets one by one, then a longer character. */
  method SkipCharacter(s: bytes, i: nat) returns (valid: bool, j: nat)
    requires i < |s|
    ensures valid ==> i < j <= |s| && (Text(s[i..]) <==> Text(s[j..]))
    ensures !valid ==> !Text(s[i..])
  {
    j := i;
    while s[j] < 0x80
      invariant i <= j < |s| && Ascii(s[i..j])
      decreases |s| - j
    {
      AsciiOne(s, j);
      AsciiJoin(s, i, j, j + 1);
      j := j + 1;
      if j == |s| {
        AsciiPrefixAt(s, i, j);
        return true, j;
      }
    }
    AsciiPrefixAt(s, i, j);
    var n := MultiOctet(s, j);
    if n == 0 {
      return false, j;
    }
    TakeOfDrop(s, j, n);
    TextStep(s[j..], n);
    DropOfDrop(s, j, n);
    return true, j + n;
  }

  method IsValidUtf8(s: bytes, simd: Simd) returns (valid: bool)
    ensures valid <==> Text(s)
  {
    var wide := |s| >= SIMD_MIN_LENGTH;
    var i := 0;
    while i != |s|
      invariant i <= |s|
      invariant Text(s) <==> Text(s[i..])
      decreases |s| - i
    {
      if i + 4 <= |s| && s[i] < 0x80 && s[i + 1] < 0x80 && s[i + 2] < 0x80 && s[i + 3] < 0x80 {
        var j := i + 4;
        if wide && simd == Avx2 {
          j := SkipAsciiAvx2(s, i);
        } else if wide && simd == Neon {
          j := SkipAsciiNeon(s, i);
        }
        AsciiPrefixAt(s, i, j);
        i := j;
      } else {
        var more, j := SkipCharacter(s, i);
        if !more {
          return false;
        }
        i := j;
      }
    }
    return true;
  }

  lemma AsciiPrefixAt(s: bytes, i: nat, j: nat)
    requires i <= j <= |s| && Ascii(s[i..j])
    ensures Text(s[i..]) <==> Text(s[j..])
  {
    TakeOfDrop(s, i, j - i);
    AsciiPrefix(s[i..], j - i);
    DropOfDrop(s, i, j - i);
  }
}
