/** Length-prefixed padding of requests, so that requests to all shards have one length. */
module StringPadder {

  import opened Basics

  const MAX_INT32 := 0x7fff_ffff

  const PADDING: Byte := 48 // '0'

  function Uint32(n: int): Bytes
    requires 0 <= n < 0x1_0000_0000
  {
    [n / 0x100_0000, n / 0x1_0000 % 256, n / 256 % 256, n % 256]
  }

  function FromUint32(b: Bytes): int
    requires |b| == 4
  {
    (((b[0] as int) * 256 + b[1] as int) * 256 + b[2] as int) * 256 + b[3] as int
  }

  lemma {:induction false} Uint32RoundTrip(n: int)
    requires 0 <= n < 0x1_0000_0000
    ensures FromUint32(Uint32(n)) == n
  {
    assert n == n / 256 * 256 + n % 256;
    assert n / 256 == n / 0x1_0000 * 256 + n / 256 % 256;
    assert n / 0x1_0000 == n / 0x100_0000 * 256 + n / 0x1_0000 % 256;
  }

  /** The length, the string, and `extra` characters of padding. */
  function Padded(s: Bytes, extra: nat): Bytes
    requires 4 + |s| + extra <= MAX_INT32
  {
    Uint32(|s|) + s + seq(extra, _ => PADDING)
  }

  function Unpadded(p: Bytes): Option<Bytes> {
    if |p| < 4 then None
    else
      var size := FromUint32(p[..4]);
      if |p| - 4 < size then None else Some(p[4..4 + size])
  }

  lemma {:induction false} UnpadUndoesPad(s: Bytes, extra: nat)
    requires 4 + |s| + extra <= MAX_INT32
    ensures Unpadded(Padded(s, extra)) == Some(s)
  {
    var p := Padded(s, extra);
    assert p[..4] == Uint32(|s|);
    Uint32RoundTrip(|s|);
    assert p[4..4 + |s|] == s;
  }

  /** Writes the length and the string into a buffer that is filled with padding. */
  method Pad(s: Bytes, extra: int) returns (output: Bytes)
    requires extra >= 0 && 4 + |s| + extra <= MAX_INT32
    ensures output == Padded(s, extra)
  {
    var size := 4 + |s| + extra;
    var buffer := new Byte[size](_ => PADDING);
    var length := Uint32(|s|);
    for i := 0 to 4
      invariant forall j :: 0 <= j < i ==> buffer[j] == length[j]
      invariant forall j :: i <= j < size ==> buffer[j] == PADDING
    {
      buffer[i] := length[i];
    }
    for i := 0 to |s|
      invariant forall j :: 0 <= j < 4 ==> buffer[j] == length[j]
      invariant forall j :: 0 <= j < i ==> buffer[4 + j] == s[j]
      invariant forall j :: 4 + i <= j < size ==> buffer[j] == PADDING
    {
      buffer[4 + i] := s[i];
    }
    output := buffer[..];
    assert forall j :: 4 <= j < 4 + |s| ==> output[j] == s[j - 4];
  }

  method Unpad(padded: Bytes) returns (result: Option<Bytes>)
    ensures result == Unpadded(padded)
  {
    var position := 0;
    if |padded| - position < 4 {
      return None;
    }
    var size := FromUint32(padded[position..position + 4]);
    position := position + 4;
    if |padded| - position < size {
      return None;
    }
    return Some(padded[position..position + size]);
  }
}
