/**
 * The reference semantics of the map merge: the history of one outer key,
 * oldest write first, folded into a table from entry key to live value.
 * A write sets the entry, a tombstone removes it.
 */
module MapFold {
  import opened Base
  import opened MapCodec

  type Table = map<seq<byte>, seq<byte>>

  /** One event of the history applied to the table. */
  function Apply(m: Table, p: MapPair): (r: Table)
    ensures p.tombstone ==> p.key !in r
    ensures !p.tombstone ==> p.key in r && r[p.key] == p.value
    ensures forall k :: k != p.key ==> (k in r <==> k in m)
    ensures forall k :: k != p.key && k in m ==> r[k] == m[k]
  {
    if p.tombstone then m - {p.key} else m[p.key := p.value]
  }

  /** The whole history, oldest first, applied to the empty table. */
  function Fold(h: seq<MapPair>): (m: Table)
  {
    if h == [] then map[] else Apply(Fold(h[..|h| - 1]), h[|h| - 1])
  }

  function Lookup(m: Table, k: seq<byte>): (r: Option<seq<byte>>)
  {
    if k in m then Some(m[k]) else None
  }

  /** No pair of `s` touches entry key `k`. */
  predicate Untouched(s: seq<MapPair>, k: seq<byte>)
  {
    forall j :: 0 <= j < |s| ==> s[j].key != k
  }

  /** The set of entry keys the history mentions. */
  function KeysOf(h: seq<MapPair>): (keys: set<seq<byte>>)
  {
    set p | p in h :: p.key
  }

  /**
   * Last write wins: when `h[i]` is the last pair for key `k`, the entry is
   * live exactly when that pair is not a tombstone, and then holds its value.
   */
  lemma {:induction false} FoldIsLastWrite(h: seq<MapPair>, i: nat)
    requires i < |h|
    requires forall j :: i < j < |h| ==> h[j].key != h[i].key
    ensures h[i].key in Fold(h) <==> !h[i].tombstone
    ensures h[i].key in Fold(h) ==> Fold(h)[h[i].key] == h[i].value
    decreases |h|
  {
    if i < |h| - 1 {
      FoldIsLastWrite(h[..|h| - 1], i);
    }
  }

  /** An entry key the history never mentions is absent from the table. */
  lemma {:induction false} FoldNeverWritten(h: seq<MapPair>, k: seq<byte>)
    requires Untouched(h, k)
    ensures k !in Fold(h)
    decreases |h|
  {
    if h != [] {
      FoldNeverWritten(h[..|h| - 1], k);
    }
  }

  /**
   * Keys are independent: writes and tombstones on other entry keys leave
   * the entry for `k` as it was, present or absent.
   */
  lemma {:induction false} FoldUntouched(h: seq<MapPair>, s: seq<MapPair>, k: seq<byte>)
    requires Untouched(s, k)
    ensures Lookup(Fold(h + s), k) == Lookup(Fold(h), k)
    decreases |s|
  {
    if s == [] {
      assert h + s == h;
    } else {
      var init := s[..|s| - 1];
      assert (h + s)[..|h + s| - 1] == h + init;
      FoldUntouched(h, init, k);
    }
  }

  /**
   * A write followed by history that leaves its key alone: the entry holds
   * the write's value; a tombstone in the same place leaves it absent.
   * With a tombstone inside `h` this is the resurrection case.
   */
  lemma LastWriteWins(h: seq<MapPair>, p: MapPair, s: seq<MapPair>)
    requires Untouched(s, p.key)
    ensures p.key in Fold(h + [p] + s) <==> !p.tombstone
    ensures !p.tombstone ==> Fold(h + [p] + s)[p.key] == p.value
  {
    var full := h + [p] + s;
    assert full[|h|] == p;
    assert forall j :: |h| < j < |full| ==> full[j] == s[j - |h| - 1];
    FoldIsLastWrite(full, |h|);
  }

  /** Writing the same pair twice in a row is the same as writing it once. */
  lemma RepeatedWrite(h: seq<MapPair>, p: MapPair)
    ensures Fold(h + [p, p]) == Fold(h + [p])
  {
    assert (h + [p, p])[..|h| + 1] == h + [p];
    assert (h + [p])[..|h|] == h;
  }

  /**
   * The table never holds more entries than the history has distinct keys,
   * however long the history is.
   */
  lemma {:induction false} FoldKeysBound(h: seq<MapPair>)
    ensures Fold(h).Keys <= KeysOf(h)
    decreases |h|
  {
    if h != [] {
      var init := h[..|h| - 1];
      FoldKeysBound(init);
      assert forall p :: p in init ==> p in h;
      assert h[|h| - 1] in h;
    }
  }
}
