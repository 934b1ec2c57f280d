# Map-value merge engine of the `lsmkv` store

This project models the map strategy of the LSM key-value store (`lsmkv`).
A map-valued key holds many entries. Each write to one entry is a
`MapPair {Key, Value, Tombstone}`. The model covers two parts:

- the **map encoder**, which turns one pair into the generic stored value;
- the **map decoder**, which takes every stored value written for one outer
  key, oldest first, and returns the live entries: the last write for an
  entry key wins, a tombstone removes the entry, a later write brings it
  back, and the order of the result is not promised.

`TestMapEncoderDecoderJourney` in `adapters/repos/db/lsmkv/strategies_map_test.go`
fixes the behaviour on the encoder's own output: the last write per entry key
wins, a tombstone removes the entry, a later write brings it back, and the
result is compared in no particular order. This model also decides what
happens to a corrupt stored value, which the test never exercises: decoding
stops at the first value that does not decode and reports that value's error,
with no partial result.

Files, one module each:

- `base.dfy` (`Base`): bytes, `Option`, `Result`.
- `varint.dfy` (`Varint`): the LEB128 length prefix used by the codec, with its round trip.
- `map_codec.dfy` (`MapCodec`): `MapPair`, the stored `Value`, `Encode`, `DecodeOne`.
- `map_fold.dfy` (`MapFold`): the reference semantics `Fold` (a write does
  `m[k := v]`, a tombstone does `m - {k}`) and its last-write-wins laws.
- `map_decoder.dfy` (`MapDecoder`): the decoder as three loops (decode, merge,
  list), proved against `DecodeHistory` and `Fold`, and the multiset
  comparison the test uses.
- `map_journey.dfy` (`MapJourney`): the test harness loop and its five cases,
  stated for arbitrary keys and values.

The stored `Value` is modelled as a payload plus a tombstone flag. The
payload is a varint key length, the key, then the value. That layout is
this model's own; it does not claim to match the store's real byte format.

## Model

| member | source | states |
|---|---|---|
| `MapCodec.Encode` | adapters/repos/db/lsmkv/strategies_map_test.go:153-158 | encoding never fails and yields exactly one stored value, which carries the pair's tombstone flag and a payload longer than key and value together |
| `MapCodec.DecodeOne` | adapters/repos/db/lsmkv/strategies_map_test.go:159-160 | a decoded pair keeps the value's tombstone flag and its key and value are the tail of the payload; an empty payload is a decode error |
| `MapCodec.RoundTrip` | adapters/repos/db/lsmkv/strategies_map_test.go:31-45 | decoding the encoder's value gives back exactly the pair that was encoded |
| `Varint.Encode` | adapters/repos/db/lsmkv/strategies_map_test.go:153-158 | a layout helper of this model's own payload format, not shown in the cited lines: the length prefix is non-empty, every byte but the last has the continuation bit, the last does not |
| `Varint.Decode` | adapters/repos/db/lsmkv/strategies_map_test.go:159-160 | a layout helper of this model's own payload format, not shown in the cited lines: a prefix read consumes between one byte and the whole input, and fails exactly when no byte ends the number |
| `Varint.RoundTrip` | adapters/repos/db/lsmkv/strategies_map_test.go:153-160 | a layout helper of this model's own payload format, not shown in the cited lines: reading the prefix back gives the encoded number and its length, whatever bytes follow |
| `MapFold.Apply` | adapters/repos/db/lsmkv/strategies_map_test.go:46-101 | a write makes the entry hold its value, a tombstone removes the entry, and every other entry is unchanged |
| `MapFold.FoldIsLastWrite` | adapters/repos/db/lsmkv/strategies_map_test.go:46-101 | when a pair is the last one for its key, the entry is live exactly when that pair is not a tombstone, and then holds its value |
| `MapFold.FoldNeverWritten` | adapters/repos/db/lsmkv/strategies_map_test.go:102-148 | an entry key the history never mentions is absent from the result |
| `MapFold.FoldUntouched` | adapters/repos/db/lsmkv/strategies_map_test.go:102-148 | writes and tombstones on other keys leave an entry exactly as it was, present or absent |
| `MapFold.LastWriteWins` | adapters/repos/db/lsmkv/strategies_map_test.go:46-101 | after a write or tombstone and any history on other keys, the entry holds that write's value or is absent after the tombstone; this covers replacement, deletion and resurrection |
| `MapFold.RepeatedWrite` | adapters/repos/db/lsmkv/strategies_map_test.go:46-64 | the equal-values case of the updated-value test, which writes two different values: writing the same pair twice in a row leaves the same table as writing it once |
| `MapFold.FoldKeysBound` | adapters/repos/db/lsmkv/strategies_map_test.go:102-148 | the table's keys are among the keys the history mentions, so it does not grow with repeated updates |
| `MapDecoder.HistorySucceeds` | adapters/repos/db/lsmkv/strategies_map_test.go:159-160 | a history that decodes gives one pair per stored value, in order, each the decoding of its value |
| `MapDecoder.HistoryFails` | adapters/repos/db/lsmkv/strategies_map_test.go:159-160 | a history that does not decode reports the error of its first value that does not decode |
| `MapDecoder.FailurePersists` | adapters/repos/db/lsmkv/strategies_map_test.go:159-160 | once a prefix of the history fails to decode, the whole history fails with the same error (no partial result) |
| `MapDecoder.EncodedHistoryDecodes` | adapters/repos/db/lsmkv/strategies_map_test.go:153-160 | a history made of the encoder's values always decodes, back to the pairs that were encoded |
| `MapDecoder.DecodePairs` | adapters/repos/db/lsmkv/strategies_map_test.go:159-160 | the decoding loop returns the decoded history or the first value's error |
| `MapDecoder.Merge` | adapters/repos/db/lsmkv/strategies_map_test.go:21-23 | the merging loop leaves exactly the fold of the pairs: last write per key, tombstoned keys removed |
| `MapDecoder.Listing` | adapters/repos/db/lsmkv/strategies_map_test.go:161-162 | the listing holds every entry of the table once, as a live pair, with no tombstones and no repeated key, in no promised order |
| `MapDecoder.Decode` | adapters/repos/db/lsmkv/strategies_map_test.go:159-162 | on a history that decodes the result lists the fold of the decoded pairs; otherwise it is the first value's error |
| `MapDecoder.DistinctCount` | adapters/repos/db/lsmkv/strategies_map_test.go:161-162 | a list without repeated elements counts each of its elements once |
| `MapDecoder.TwiceCounted` | adapters/repos/db/lsmkv/strategies_map_test.go:161-162 | an element at two positions is counted at least twice |
| `MapDecoder.ListingCount` | adapters/repos/db/lsmkv/strategies_map_test.go:161-162 | a listing of a table counts each pair at most once |
| `MapDecoder.ListingsMatch` | adapters/repos/db/lsmkv/strategies_map_test.go:161-162 | any two listings of the same table are equal as multisets, so the order of the result does not matter |
| `MapDecoder.ListingReordered` | adapters/repos/db/lsmkv/strategies_map_test.go:161-162 | any reordering of a listing of a table is again a listing of it |
| `MapJourney.Journey` | adapters/repos/db/lsmkv/strategies_map_test.go:151-163 | for every input the encoder and decoder report no error, the decoded result lists the fold of the input, and the multiset comparison passes exactly when the expected pairs list that fold |
| `MapJourney.SinglePair` | adapters/repos/db/lsmkv/strategies_map_test.go:31-45 | one pair written comes back as itself |
| `MapJourney.UpdatedValue` | adapters/repos/db/lsmkv/strategies_map_test.go:46-64 | two writes to a key leave only the later value |
| `MapJourney.TombstoneAdded` | adapters/repos/db/lsmkv/strategies_map_test.go:65-78 | a write then a tombstone for the key leaves an empty result |
| `MapJourney.Resurrected` | adapters/repos/db/lsmkv/strategies_map_test.go:79-101 | write, tombstone, write leaves the key present with the newest value |
| `MapJourney.InterleavedTable` | adapters/repos/db/lsmkv/strategies_map_test.go:102-148 | the interleaved history of three distinct keys folds to the never-updated value, the write after the tombstone and the last update |
| `MapJourney.InterleavedKeys` | adapters/repos/db/lsmkv/strategies_map_test.go:102-133 | the interleaved history leaves no entry for keys other than its three |
| `MapJourney.Interleaved` | adapters/repos/db/lsmkv/strategies_map_test.go:102-148 | the expected three pairs are a listing of the interleaved history's fold, so that test case passes |

## Left out

- The store's real byte layout of the generic value and of a map entry is not modelled; the payload layout is this model's own and makes no wire-compatibility claim.
- `MapCodec.Encode`: the SerializationError an oversized pair could cause is not modelled, because the model's varint length prefix has no size limit; the error kind exists but the encoder never returns it.
- Segment and memtable reading, the write-ahead log, compaction scheduling, bloom filters and disk I/O: the decoder receives an already ordered list.
- The replace, set and sorted-set strategies, which have their own merge rules.
- Concurrency between writers: ordering the history is the caller's contract.
- The testify assertions and `t.Run` subtests: the journey method returns whether the comparison holds instead of failing a test; byte slices are compared by content, so nil and empty slices are not distinguished.
- The test cases are stated for arbitrary byte strings in place of the literals "foo", "bar" and so on; the interleaved case requires its three keys to be distinct, as the literals are.
