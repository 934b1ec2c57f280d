/**
 * The encoder/decoder journey the map strategy's test drives: every pair of
 * a test case is encoded, the first stored value of each is kept, the lot is
 * decoded, and the result is compared with the expected pairs as a multiset.
 * The five test cases are stated here for arbitrary keys and values.
 */
module MapJourney {
  import opened Base
  import opened MapCodec
  import opened MapFold
  import opened MapDecoder

  function Write(k: seq<byte>, v: seq<byte>): (p: MapPair)
  {
    MapPair(k, v, false)
  }

  /** A deletion as the tests write it: a key, no value, the tombstone flag set. */
  function Tomb(k: seq<byte>): (p: MapPair)
  {
    MapPair(k, [], true)
  }

  /**
   * One test case: the encoder never fails, the decoder never fails on what
   * it wrote, and the multiset comparison passes exactly when the expected
   * pairs list the fold of the input.
   */
  method Journey(input: seq<MapPair>, expected: seq<MapPair>)
    returns (res: Result<seq<MapPair>, Error>, matches: bool)
    ensures res.Success? && Represents(res.value, Fold(input))
    ensures matches <==> Represents(expected, Fold(input))
  {
    var encoded := new Value[|input|];
    for i := 0 to |input|
      invariant forall j :: 0 <= j < i ==> Encode(input[j]) == Success([encoded[j]])
    {
      var enc := Encode(input[i]);
      encoded[i] := enc.value[0];
      assert enc.value == [encoded[i]];
    }
    EncodedHistoryDecodes(encoded[..], input);
    res := Decode(encoded[..]);
    matches := res.Success? && multiset(res.value) == multiset(expected);
    if matches {
      ListingReordered(res.value, expected, Fold(input));
    } else if Represents(expected, Fold(input)) {
      ListingsMatch(res.value, expected, Fold(input));
    }
  }

  /** "single pair": the one pair written comes back. */
  lemma SinglePair(foo: seq<byte>, bar: seq<byte>)
    ensures Represents([Write(foo, bar)], Fold([Write(foo, bar)]))
  {
    LastWriteWins([], Write(foo, bar), []);
  }

  /** "single pair, updated value": only the later value survives. */
  lemma UpdatedValue(foo: seq<byte>, bar: seq<byte>, bar2: seq<byte>)
    ensures Represents([Write(foo, bar2)], Fold([Write(foo, bar), Write(foo, bar2)]))
  {
    var h := [Write(foo, bar), Write(foo, bar2)];
    assert h == [Write(foo, bar)] + [Write(foo, bar2)] + [];
    LastWriteWins([Write(foo, bar)], Write(foo, bar2), []);
    FoldKeysBound(h);
  }

  /** "single pair, tombstone added": nothing is left. */
  lemma TombstoneAdded(foo: seq<byte>, bar: seq<byte>)
    ensures Represents([], Fold([Write(foo, bar), Tomb(foo)]))
  {
    var h := [Write(foo, bar), Tomb(foo)];
    assert h == [Write(foo, bar)] + [Tomb(foo)] + [];
    LastWriteWins([Write(foo, bar)], Tomb(foo), []);
    FoldKeysBound(h);
  }

  /** "single pair, tombstone added, same value added again": the newest write is back. */
  lemma Resurrected(foo: seq<byte>, bar: seq<byte>, bar2: seq<byte>)
    ensures Represents([Write(foo, bar2)], Fold([Write(foo, bar), Tomb(foo), Write(foo, bar2)]))
  {
    var h := [Write(foo, bar), Tomb(foo), Write(foo, bar2)];
    assert h == [Write(foo, bar), Tomb(foo)] + [Write(foo, bar2)] + [];
    LastWriteWins([Write(foo, bar), Tomb(foo)], Write(foo, bar2), []);
    FoldKeysBound(h);
  }

  /** The input of the "multiple values" test case. */
  function InterleavedHistory(foo: seq<byte>, foo1: seq<byte>, foo2: seq<byte>,
                              neverUpdated: seq<byte>, bar1: seq<byte>, bar2: seq<byte>,
                              bar22: seq<byte>, bar23: seq<byte>, bar12: seq<byte>): (h: seq<MapPair>)
  {
    [Write(foo, neverUpdated), Write(foo1, bar1), Write(foo2, bar2), Write(foo2, bar22),
     Tomb(foo1), Write(foo2, bar23), Write(foo1, bar12)]
  }

  /** The table the "multiple values" history folds to. */
  lemma InterleavedTable(foo: seq<byte>, foo1: seq<byte>, foo2: seq<byte>,
                         neverUpdated: seq<byte>, bar1: seq<byte>, bar2: seq<byte>,
                         bar22: seq<byte>, bar23: seq<byte>, bar12: seq<byte>)
    requires foo != foo1 && foo != foo2 && foo1 != foo2
    ensures Fold(InterleavedHistory(foo, foo1, foo2, neverUpdated, bar1, bar2, bar22, bar23, bar12))
      == map[foo := neverUpdated, foo1 := bar12, foo2 := bar23]
  {
    var h := InterleavedHistory(foo, foo1, foo2, neverUpdated, bar1, bar2, bar22, bar23, bar12);
    FoldIsLastWrite(h, 0);
    FoldIsLastWrite(h, 5);
    FoldIsLastWrite(h, 6);
    InterleavedKeys(foo, foo1, foo2, neverUpdated, bar1, bar2, bar22, bar23, bar12);
  }

  /** The "multiple values" history mentions only its three keys, so its table has no others. */
  lemma InterleavedKeys(foo: seq<byte>, foo1: seq<byte>, foo2: seq<byte>,
                        neverUpdated: seq<byte>, bar1: seq<byte>, bar2: seq<byte>,
                        bar22: seq<byte>, bar23: seq<byte>, bar12: seq<byte>)
    ensures Fold(InterleavedHistory(foo, foo1, foo2, neverUpdated, bar1, bar2, bar22, bar23, bar12)).Keys
      <= {foo, foo1, foo2}
  {
    var h := InterleavedHistory(foo, foo1, foo2, neverUpdated, bar1, bar2, bar22, bar23, bar12);
    FoldKeysBound(h);
    forall p | p in h ensures p.key in {foo, foo1, foo2} {
      var i :| 0 <= i < |h| && h[i] == p;
    }
  }

  /**
   * "multiple values, combination of updates and tombstones": each key ends
   * at its own last write, and the key never updated keeps its value.
   */
  lemma Interleaved(foo: seq<byte>, foo1: seq<byte>, foo2: seq<byte>,
                    neverUpdated: seq<byte>, bar1: seq<byte>, bar2: seq<byte>,
                    bar22: seq<byte>, bar23: seq<byte>, bar12: seq<byte>)
    requires foo != foo1 && foo != foo2 && foo1 != foo2
    ensures Represents(
      [Write(foo, neverUpdated), Write(foo1, bar12), Write(foo2, bar23)],
      Fold(InterleavedHistory(foo, foo1, foo2, neverUpdated, bar1, bar2, bar22, bar23, bar12)))
  {
    InterleavedTable(foo, foo1, foo2, neverUpdated, bar1, bar2, bar22, bar23, bar12);
  }
}
