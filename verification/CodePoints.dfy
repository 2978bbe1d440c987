/**
 What UTF-8 text is: the encodings, one after the other, of Unicode scalar values (section 3 of
 RFC 3629). The octet grammar that the validator is proved against writes exactly these.
 */
module CodePoints {
  import opened Octets
  import opened Utf8

  /** A code point that is not a surrogate. */
  type Scalar = c: nat | c <= 0x10_FFFF && !(0xD800 <= c <= 0xDFFF)

  /** The shortest of the four forms: the bits of the code point, six to each octet but the first. */
  function Encoded(c: Scalar): (b: bytes) {
    var high := c / 0x40;
    var higher := high / 0x40;
    if c < 0x80 then [c]
    else if c < 0x800 then [0xC0 + high, 0x80 + c % 0x40]
    else if c < 0x1_0000 then [0xE0 + higher, 0x80 + high % 0x40, 0x80 + c % 0x40]
    else [0xF0 + higher / 0x40, 0x80 + higher % 0x40, 0x80 + high % 0x40, 0x80 + c % 0x40]
  }

  function Joined(high: nat, low: nat): nat {
    high * 0x40 + low
  }

  lemma JoinedParts(high: nat, low: nat)
    requires low < 0x40
    ensures Joined(high, low) / 0x40 == high && Joined(high, low) % 0x40 == low
  {
  }

  /** Every character encodes a scalar value. */
  lemma CharacterIsEncoded(b: bytes) returns (c: Scalar)
    requires Character(b)
    ensures Encoded(c) == b
  {
    if |b| == 1 {
      c := b[0];
    } else if |b| == 2 {
      JoinedParts(b[0] - 0xC0, b[1] - 0x80);
      c := Joined(b[0] - 0xC0, b[1] - 0x80);
    } else if |b| == 3 {
      c := ThreeOctets(b);
    } else {
      c := FourOctets(b);
    }
  }

  lemma ThreeOctets(b: bytes) returns (c: Scalar)
    requires Character(b) && |b| == 3
    ensures Encoded(c) == b
  {
    hide Joined;
    var high := Joined(b[0] - 0xE0, b[1] - 0x80);
    var whole := Joined(high, b[2] - 0x80);
    JoinedParts(b[0] - 0xE0, b[1] - 0x80);
    JoinedParts(high, b[2] - 0x80);
    assert 0x800 <= whole < 0x1_0000 && !(0xD800 <= whole <= 0xDFFF);
    c := whole;
  }

  lemma FourOctets(b: bytes) returns (c: Scalar)
    requires Character(b) && |b| == 4
    ensures Encoded(c) == b
  {
    hide Joined;
    var higher := Joined(b[0] - 0xF0, b[1] - 0x80);
    var high := Joined(higher, b[2] - 0x80);
    var whole := Joined(high, b[3] - 0x80);
    JoinedParts(b[0] - 0xF0, b[1] - 0x80);
    JoinedParts(higher, b[2] - 0x80);
    JoinedParts(high, b[3] - 0x80);
    assert 0x1_0000 <= whole <= 0x10_FFFF;
    c := whole;
  }

  lemma EncodedIsCharacter(c: Scalar)
    ensures Character(Encoded(c))
  {
    var high := c / 0x40;
    var higher := high / 0x40;
    assert c == high * 0x40 + c % 0x40 && high == higher * 0x40 + high % 0x40;
    if 0x800 <= c < 0x1_0000 {
      assert higher < 0x10 && (higher == 0 ==> high % 0x40 >= 0x20) && (higher == 0xD ==> high % 0x40 < 0x20);
    } else if c >= 0x1_0000 {
      var highest := higher / 0x40;
      assert higher == highest * 0x40 + higher % 0x40;
      assert highest <= 4 && (highest == 0 ==> higher % 0x40 >= 0x10) && (highest == 4 ==> higher % 0x40 < 0x10);
    }
  }

  function EncodedAll(cs: seq<Scalar>): bytes {
    if cs == [] then [] else Encoded(cs[0]) + EncodedAll(cs[1..])
  }

  lemma {:induction false} TextIsEncoded(s: bytes) returns (cs: seq<Scalar>)
    requires Text(s)
    ensures EncodedAll(cs) == s
    decreases |s|
  {
    if s == [] {
      cs := [];
    } else {
      var n :| 1 <= n <= 4 && n <= |s| && Character(s[..n]) && Text(s[n..]);
      hide Text, Character;
      var more := TextIsEncoded(s[n..]);
      var c := CharacterIsEncoded(s[..n]);
      cs := [c] + more;
      assert cs[1..] == more && s == s[..n] + s[n..];
    }
  }

  lemma {:induction false} EncodedIsText(cs: seq<Scalar>)
    ensures Text(EncodedAll(cs))
    decreases |cs|
  {
    if cs != [] {
      var first, rest := Encoded(cs[0]), EncodedAll(cs[1..]);
      EncodedIsText(cs[1..]);
      EncodedIsCharacter(cs[0]);
      TakeOfFirst(first, rest, |first|);
      DropOfSecond(first, rest, 0);
      TextStep(first + rest, |first|);
    }
  }

  /** Octets are text if and only if they encode scalar values: no surrogate, no overlong form, nothing above U+10FFFF. */
  lemma TextIsScalars(s: bytes)
    ensures Text(s) <==> exists cs: seq<Scalar> :: EncodedAll(cs) == s
  {
    if Text(s) {
      var cs := TextIsEncoded(s);
    }
    forall cs: seq<Scalar> | EncodedAll(cs) == s
      ensures Text(s)
    {
      EncodedIsText(cs);
    }
  }
}
