/**
 * The map strategy's encoder and the decoding of a single stored value.
 *
 * A stored `Value` is the strategy-agnostic record the segment and memtable
 * layers keep: a byte payload and a tombstone flag. This model lays a map
 * entry out in the payload as a varint key length, the key bytes, then the
 * value bytes. That layout is this model's own choice; it is not the
 * repository's wire format.
 */
module MapCodec {
  import opened Base
  import Varint

  /** One entry of a map-valued key: the entry key, its payload, and whether this write deletes it. */
  datatype MapPair = MapPair(key: seq<byte>, value: seq<byte>, tombstone: bool)

  /** The generic stored value shared by all value strategies. */
  datatype Value = Value(payload: seq<byte>, tombstone: bool)

  datatype Error =
    // A pair too large for the layout; unreachable here, since the varint prefix has no size limit.
    | SerializationError
    | TruncatedKeyLength
    | KeyOutOfBounds(declared: nat, available: nat)

  /**
   * The map encoder: a pair becomes exactly one stored value, and no pair is
   * refused (the varint prefix has no size limit, so SerializationError is
   * never produced).
   */
  function Encode(p: MapPair): (r: Result<seq<Value>, Error>)
    ensures r.Success? && |r.value| == 1
    ensures r.value[0].tombstone == p.tombstone
    ensures |r.value[0].payload| > |p.key| + |p.value|
  {
    Success([Value(Varint.Encode(|p.key|) + p.key + p.value, p.tombstone)])
  }

  /**
   * Decodes one stored value back into a pair. A payload whose length prefix
   * is cut off, or whose declared key runs past the end, is corrupt.
   */
  function DecodeOne(v: Value): (r: Result<MapPair, Error>)
    ensures r.Success? ==> r.value.tombstone == v.tombstone
    ensures r.Success? ==> |r.value.key| + |r.value.value| < |v.payload|
    ensures r.Success? ==>
      v.payload[|v.payload| - |r.value.key| - |r.value.value|..] == r.value.key + r.value.value
    ensures |v.payload| == 0 ==> r == Failure(TruncatedKeyLength)
  {
    match Varint.Decode(v.payload)
    case None => Failure(TruncatedKeyLength)
    case Some((n, len)) =>
      if len + n <= |v.payload| then
        var key, value := v.payload[len..len + n], v.payload[len + n..];
        assert v.payload[len..] == key + value;
        Success(MapPair(key, value, v.tombstone))
      else
        Failure(KeyOutOfBounds(n, |v.payload| - len))
  }

  /** Decoding what the encoder wrote gives back the same pair, tombstones included. */
  lemma RoundTrip(p: MapPair)
    ensures DecodeOne(Encode(p).value[0]) == Success(p)
  {
    var prefix := Varint.Encode(|p.key|);
    var payload := Encode(p).value[0].payload;
    assert payload == prefix + (p.key + p.value);
    Varint.RoundTrip(|p.key|, p.key + p.value);
    assert payload[|prefix|..|prefix| + |p.key|] == p.key;
    assert payload[|prefix| + |p.key|..] == p.value;
  }
}
