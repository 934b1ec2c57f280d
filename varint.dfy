/**
 * Unsigned LEB128 variable-length integers: seven bits per byte, least
 * significant group first, high bit set on every byte but the last.
 * The map codec uses one as the length prefix of the entry key.
 */
module Varint {
  import opened Base

  function Encode(n: nat): (r: seq<byte>)
    ensures 1 <= |r|
    ensures forall i :: 0 <= i < |r| - 1 ==> 128 <= r[i]
    ensures r[|r| - 1] < 128
    decreases n
  {
    if n < 128 then [n] else [n % 128 + 128] + Encode(n / 128)
  }

  /**
   * Reads one varint from the front of `s`; the result is the number and
   * how many bytes it took. `None` when `s` ends before the last byte.
   */
  function Decode(s: seq<byte>): (r: Option<(nat, nat)>)
    ensures r.Some? ==> 1 <= r.value.1 <= |s|
    ensures r.None? <==> forall i :: 0 <= i < |s| ==> 128 <= s[i]
    decreases |s|
  {
    if |s| == 0 then None
    else if s[0] < 128 then Some((s[0], 1))
    else match Decode(s[1..])
      case None => None
      case Some((v, len)) => Some((s[0] - 128 + 128 * v, len + 1))
  }

  /** Decoding reads back exactly the number encoded, whatever follows it. */
  lemma {:induction false} RoundTrip(n: nat, rest: seq<byte>)
    ensures Decode(Encode(n) + rest) == Some((n, |Encode(n)|))
    decreases n
  {
    var s := Encode(n) + rest;
    if n >= 128 {
      assert s[1..] == Encode(n / 128) + rest;
      RoundTrip(n / 128, rest);
    }
  }
}
