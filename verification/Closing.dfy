/**
 The body of a Close frame (sections 5.5.1 and 7.4 of RFC 6455): reading one,
 writing one, and the two being inverse.
 */
module Closing {
  import opened Octets
  import Utf8

  datatype Close = Close(code: nat, reason: bytes)

  /** Reported for an empty body. */
  const NO_STATUS: nat := 1005
  /** Stands for a malformed body; it never travels on the wire. */
  const ABNORMAL: nat := 1006

  const MAX_REASON: nat := 123

  predicate ValidCode(code: nat) {
    || (1000 <= code <= 1014 && code != 1004 && code != NO_STATUS && code != ABNORMAL)
    || 3000 <= code <= 4999
  }

  function ParseClosePayload(p: bytes): Close {
    if |p| == 0 then Close(NO_STATUS, [])
    else if |p| == 1 then Close(ABNORMAL, [])
    else
      var code := FromBigEndian(p[..2]);
      if ValidCode(code) && Utf8.Text(p[2..]) then Close(code, p[2..]) else Close(ABNORMAL, [])
  }

  /** The body written for a code and reason; a reason that is not text is left out. */
  function CloseBody(code: nat, reason: bytes): (b: bytes)
    ensures |b| <= 2 + |reason|
  {
    if code == 0 || code == NO_STATUS || code == ABNORMAL then []
    else ToBigEndian(code, 2) + (if Utf8.Text(reason) then reason else [])
  }

  /** What is written is what a peer reads. */
  lemma ParseInvertsFormat(code: nat, reason: bytes)
    requires ValidCode(code)
    ensures ParseClosePayload(CloseBody(code, reason)) == Close(code, if Utf8.Text(reason) then reason else [])
  {
    var b := CloseBody(code, reason);
    BigEndianRoundTrip(code, 2);
    TakeOfFirst(ToBigEndian(code, 2), if Utf8.Text(reason) then reason else [], 2);
    DropOfSecond(ToBigEndian(code, 2), if Utf8.Text(reason) then reason else [], 0);
  }

  /** A well-formed body that was read and written again is unchanged: a Close is answered in kind. */
  lemma FormatInvertsParse(p: bytes)
    requires ParseClosePayload(p).code != ABNORMAL
    ensures CloseBody(ParseClosePayload(p).code, ParseClosePayload(p).reason) == p
  {
    if |p| >= 2 {
      FromBigEndianRoundTrip(p[..2]);
      assert p == p[..2] + p[2..];
    }
  }

  /** Writes the body at the front of `dst`, which has room for it. */
  method FormatClosePayload(dst: array<byte>, code: nat, message: bytes, simd: Simd) returns (size: nat)
    requires dst.Length >= 2 + |message| && code < 0x1_0000
    modifies dst
    ensures size <= dst.Length && dst[..size] == CloseBody(code, message)
    ensures dst[size..] == old(dst[size..])
  {
    if code != 0 && code != NO_STATUS && code != ABNORMAL {
      var network := ToBigEndian(code, 2);
      dst[0] := network[0];
      dst[1] := network[1];
      if |message| > 0 {
        var valid := Utf8.IsValidUtf8(message, simd);
        if valid {
          forall i | 0 <= i < |message| { dst[2 + i] := message[i]; }
          TwoParts(dst[..], network, message);
          return |message| + 2;
        }
      }
      TwoParts(dst[..], network, []);
      return 2;
    }
    return 0;
  }
}
