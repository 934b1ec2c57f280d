/**
 * The map decoder: all stored values written for one outer key, oldest
 * first, become the live entries of the map. Every value is decoded first
 * (a corrupt one aborts the whole decode), the pairs are merged into a table
 * by last-write-wins with tombstone removal, and the table is listed in no
 * particular order.
 */
module MapDecoder {
  import opened Base
  import opened MapCodec
  import opened MapFold

  /**
   * Decoding a whole history: the pairs in input order, or the error of the
   * first value that does not decode.
   */
  function DecodeHistory(vals: seq<Value>): (r: Result<seq<MapPair>, Error>)
    decreases |vals|
  {
    if vals == [] then Success([])
    else
      match DecodeHistory(vals[..|vals| - 1])
      case Failure(e) => Failure(e)
      case Success(ps) =>
        match DecodeOne(vals[|vals| - 1])
        case Failure(e) => Failure(e)
        case Success(p) => Success(ps + [p])
  }

  /** A history that decodes gives one pair per value, each the decoding of its value. */
  lemma {:induction false} HistorySucceeds(vals: seq<Value>)
    requires DecodeHistory(vals).Success?
    ensures |DecodeHistory(vals).value| == |vals|
    ensures forall i :: 0 <= i < |vals| ==> DecodeOne(vals[i]) == Success(DecodeHistory(vals).value[i])
    decreases |vals|
  {
    if vals != [] {
      HistorySucceeds(vals[..|vals| - 1]);
    }
  }

  /** `vals[i]` is the first value of the history that does not decode, and fails with `e`. */
  predicate FirstFailureAt(vals: seq<Value>, i: int, e: Error)
  {
    && 0 <= i < |vals|
    && DecodeOne(vals[i]) == Failure(e)
    && forall j :: 0 <= j < i ==> DecodeOne(vals[j]).Success?
  }

  /**
   * A history that does not decode reports the error of its first value
   * that does not decode.
   */
  lemma {:induction false} HistoryFails(vals: seq<Value>)
    requires DecodeHistory(vals).Failure?
    ensures exists i :: FirstFailureAt(vals, i, DecodeHistory(vals).error)
    decreases |vals|
  {
    var init := vals[..|vals| - 1];
    assert forall j :: 0 <= j < |init| ==> vals[j] == init[j];
    if DecodeHistory(init).Failure? {
      assert DecodeHistory(vals) == DecodeHistory(init);
      HistoryFails(init);
      var i :| FirstFailureAt(init, i, DecodeHistory(init).error);
      assert FirstFailureAt(vals, i, DecodeHistory(vals).error);
    } else {
      var i := |vals| - 1;
      assert DecodeOne(vals[i]) == Failure(DecodeHistory(vals).error);
      HistorySucceeds(init);
      assert forall j :: 0 <= j < i ==> DecodeOne(vals[j]).Success?;
      assert FirstFailureAt(vals, i, DecodeHistory(vals).error);
    }
  }

  /** Once a prefix of the history fails to decode, the whole history fails with the same error. */
  lemma {:induction false} FailurePersists(vals: seq<Value>, n: nat)
    requires n <= |vals|
    requires DecodeHistory(vals[..n]).Failure?
    ensures DecodeHistory(vals) == DecodeHistory(vals[..n])
    decreases |vals|
  {
    if n < |vals| {
      var init := vals[..|vals| - 1];
      assert init[..n] == vals[..n];
      FailurePersists(init, n);
    } else {
      assert vals[..n] == vals;
    }
  }

  /** Every value the encoder wrote decodes, so the history comes back unchanged. */
  lemma EncodedHistoryDecodes(vals: seq<Value>, pairs: seq<MapPair>)
    requires |vals| == |pairs|
    requires forall i :: 0 <= i < |pairs| ==> Encode(pairs[i]) == Success([vals[i]])
    ensures DecodeHistory(vals) == Success(pairs)
  {
    forall i | 0 <= i < |pairs|
      ensures DecodeOne(vals[i]) == Success(pairs[i])
    {
      RoundTrip(pairs[i]);
      assert Encode(pairs[i]).value[0] == vals[i];
    }
    var r := DecodeHistory(vals);
    if r.Failure? {
      HistoryFails(vals);
    }
    assert r.Success?;
    HistorySucceeds(vals);
    assert r.value == pairs;
  }

  /** No two pairs of `s` share an entry key. */
  predicate UniqueKeys(s: seq<MapPair>)
  {
    forall i, j :: 0 <= i < j < |s| ==> s[i].key != s[j].key
  }

  /**
   * `s` lists the table `m`: no tombstones, no repeated key, every pair an
   * entry of `m` and every entry of `m` a pair of `s`, in any order.
   */
  predicate Represents(s: seq<MapPair>, m: Table)
  {
    && UniqueKeys(s)
    && (forall p :: p in s ==> !p.tombstone && p.key in m && m[p.key] == p.value)
    && (forall k :: k in m ==> MapPair(k, m[k], false) in s)
  }

  /** Phase one: decode each stored value in order, stopping at the first corrupt one. */
  method DecodePairs(vals: seq<Value>) returns (r: Result<seq<MapPair>, Error>)
    ensures r == DecodeHistory(vals)
  {
    var pairs: seq<MapPair> := [];
    var i := 0;
    while i < |vals|
      invariant 0 <= i <= |vals|
      invariant DecodeHistory(vals[..i]) == Success(pairs)
    {
      assert vals[..i + 1][..i] == vals[..i];
      var d := DecodeOne(vals[i]);
      if d.Failure? {
        FailurePersists(vals, i + 1);
        return Failure(d.error);
      }
      pairs := pairs + [d.value];
      i := i + 1;
    }
    assert vals[..i] == vals;
    r := Success(pairs);
  }

  /** Phase two: walk the pairs oldest first, keeping the latest live value per entry key. */
  method Merge(pairs: seq<MapPair>) returns (table: Table)
    ensures table == Fold(pairs)
  {
    table := map[];
    var i := 0;
    while i < |pairs|
      invariant 0 <= i <= |pairs|
      invariant table == Fold(pairs[..i])
    {
      assert pairs[..i + 1][..i] == pairs[..i];
      var p := pairs[i];
      if p.tombstone {
        table := table - {p.key};
      } else {
        table := table[p.key := p.value];
      }
      i := i + 1;
    }
    assert pairs[..i] == pairs;
  }

  /** Phase three: list the table's entries, each as a live pair, in an unspecified order. */
  method Listing(table: Table) returns (out: seq<MapPair>)
    ensures Represents(out, table)
  {
    out := [];
    var rest := table.Keys;
    while rest != {}
      invariant rest <= table.Keys
      invariant UniqueKeys(out)
      invariant forall p :: p in out ==> !p.tombstone && p.key in table && p.key !in rest && table[p.key] == p.value
      invariant forall k :: k in table && k !in rest ==> MapPair(k, table[k], false) in out
      decreases rest
    {
      var k :| k in rest;
      out := out + [MapPair(k, table[k], false)];
      rest := rest - {k};
    }
  }

  /**
   * The map decoder. On a well-formed history the result lists the fold of
   * the decoded pairs; on a corrupt one it is the first value's error and no
   * partial result.
   */
  method Decode(vals: seq<Value>) returns (res: Result<seq<MapPair>, Error>)
    ensures DecodeHistory(vals).Failure? ==> res == Failure(DecodeHistory(vals).error)
    ensures DecodeHistory(vals).Success? ==>
      res.Success? && Represents(res.value, Fold(DecodeHistory(vals).value))
  {
    var pairs := DecodePairs(vals);
    if pairs.Failure? {
      return Failure(pairs.error);
    }
    var table := Merge(pairs.value);
    var out := Listing(table);
    res := Success(out);
  }

  /** A list without repeated elements holds each of its elements exactly once. */
  lemma {:induction false} DistinctCount(s: seq<MapPair>, x: MapPair)
    requires forall i, j :: 0 <= i < j < |s| ==> s[i] != s[j]
    ensures multiset(s)[x] == if x in s then 1 else 0
    decreases |s|
  {
    if s != [] {
      assert s == [s[0]] + s[1..];
      DistinctCount(s[1..], x);
      if x == s[0] {
        assert x !in s[1..] by {
          forall i | 0 <= i < |s[1..]| ensures s[1..][i] != x {
            assert s[1..][i] == s[i + 1];
          }
        }
      }
    }
  }

  /** An element found at two positions is counted at least twice. */
  lemma TwiceCounted(s: seq<MapPair>, i: nat, j: nat)
    requires i < j < |s| && s[i] == s[j]
    ensures multiset(s)[s[i]] >= 2
  {
    assert s == s[..j] + s[j..];
    assert s[..j][i] == s[i];
    assert s[j..][0] == s[j];
    assert s[i] in multiset(s[..j]) && s[j] in multiset(s[j..]);
  }

  /** A listing of a table has no repeated pair, so each pair is counted once. */
  lemma ListingCount(s: seq<MapPair>, m: Table, x: MapPair)
    requires Represents(s, m)
    ensures multiset(s)[x] == if x in s then 1 else 0
  {
    DistinctCount(s, x);
  }

  /**
   * Order is not part of the result: two listings of the same table are the
   * same multiset of pairs (what the test's ElementsMatch compares).
   */
  lemma ListingsMatch(a: seq<MapPair>, b: seq<MapPair>, m: Table)
    requires Represents(a, m) && Represents(b, m)
    ensures multiset(a) == multiset(b)
  {
    forall x ensures multiset(a)[x] == multiset(b)[x] {
      ListingCount(a, m, x);
      ListingCount(b, m, x);
      if x in a {
        assert x == MapPair(x.key, m[x.key], false);
      }
      if x in b {
        assert x == MapPair(x.key, m[x.key], false);
      }
    }
  }

  /** Any reordering of a listing of a table is itself a listing of that table. */
  lemma ListingReordered(a: seq<MapPair>, b: seq<MapPair>, m: Table)
    requires Represents(a, m) && multiset(a) == multiset(b)
    ensures Represents(b, m)
  {
    forall x ensures x in b <==> x in a {
      assert x in b <==> x in multiset(b);
      assert x in a <==> x in multiset(a);
    }
    forall i, j | 0 <= i < j < |b| ensures b[i].key != b[j].key {
      if b[i].key == b[j].key {
        assert b[i] in a && b[j] in a;
        assert b[i] == b[j];
        TwiceCounted(b, i, j);
        ListingCount(a, m, b[i]);
        assert false;
      }
    }
  }
}
