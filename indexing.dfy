/**
 * `mapFromArray` of src/sample.tsx: a JavaScript `Map` built by walking an
 * array and `set`-ting every element under the value of one of its fields.
 * The field read `obj[key]` is the projection `key`. A Map is modelled by
 * its entries (a `map`) together with the order its keys iterate in, which
 * for a JavaScript Map is the order keys were first inserted.
 */
module Indexing {
  import opened Records

  /** The entries after setting each element of `arr` under `key(obj)`,
      first to last, starting from an empty Map. */
  function Indexed<T, K>(arr: seq<T>, key: T -> K): (entries: map<K, T>)
  {
    if arr == [] then map[]
    else
      var obj := arr[|arr| - 1];
      Indexed(arr[..|arr| - 1], key)[key(obj) := obj]
  }

  /** The keys of Indexed(arr, key) in iteration order: a key is appended the
      first time it is set, and setting it again leaves it where it is. */
  function KeyOrder<T, K(==)>(arr: seq<T>, key: T -> K): (order: seq<K>)
  {
    if arr == [] then []
    else
      var prev := KeyOrder(arr[..|arr| - 1], key);
      var k := key(arr[|arr| - 1]);
      if k in prev then prev else prev + [k]
  }

  /** No key occurs twice. */
  ghost predicate Distinct<K>(ks: seq<K>)
  {
    forall a, b :: 0 <= a < b < |ks| ==> ks[a] != ks[b]
  }

  /** The element of `arr` at `i` has key `k`, and no later element has that key. */
  ghost predicate LastWithKey<T, K>(arr: seq<T>, key: T -> K, k: K, i: int)
  {
    0 <= i < |arr| && key(arr[i]) == k && forall j :: i < j < |arr| ==> key(arr[j]) != k
  }

  /** The Map's keys are exactly the keys of the array's elements. */
  lemma {:induction false} IndexedKeys<T, K>(arr: seq<T>, key: T -> K)
    ensures Indexed(arr, key).Keys == set obj | obj in arr :: key(obj)
  {
    if arr != [] {
      var n := |arr| - 1;
      IndexedKeys(arr[..n], key);
      assert arr == arr[..n] + [arr[n]];
      assert (set obj | obj in arr :: key(obj))
        == (set obj | obj in arr[..n] :: key(obj)) + {key(arr[n])};
    }
  }

  /** A later element overwrites an earlier one with the same key: the value
      stored under each key is the last element of `arr` with that key. */
  lemma {:induction false} IndexedLastWins<T, K>(arr: seq<T>, key: T -> K, k: K)
    requires k in Indexed(arr, key)
    ensures exists i :: LastWithKey(arr, key, k, i) && Indexed(arr, key)[k] == arr[i]
  {
    var n := |arr| - 1;
    if key(arr[n]) == k {
      assert LastWithKey(arr, key, k, n);
    } else {
      IndexedLastWins(arr[..n], key, k);
      var i :| LastWithKey(arr[..n], key, k, i) && Indexed(arr[..n], key)[k] == arr[..n][i];
      assert LastWithKey(arr, key, k, i);
    }
  }

  /** The Map never holds more entries than the array has elements. */
  lemma {:induction false} IndexedSize<T, K>(arr: seq<T>, key: T -> K)
    ensures |Indexed(arr, key)| <= |arr|
  {
    if arr != [] {
      var n := |arr| - 1;
      IndexedSize(arr[..n], key);
      var prev := Indexed(arr[..n], key);
      var k := key(arr[n]);
      if k in prev {
        assert prev[k := arr[n]].Keys == prev.Keys;
      } else {
        assert prev[k := arr[n]].Keys == prev.Keys + {k};
      }
    }
  }

  /** The iteration order lists every key of the Map exactly once. */
  lemma {:induction false} KeyOrderListsKeys<T, K>(arr: seq<T>, key: T -> K)
    ensures Distinct(KeyOrder(arr, key))
    ensures forall k :: k in KeyOrder(arr, key) <==> k in Indexed(arr, key)
  {
    if arr != [] {
      KeyOrderListsKeys(arr[..|arr| - 1], key);
    }
  }

  /** Keys keep their place: the order after a prefix of the array is a
      prefix of the final order, so an overwrite never moves a key. */
  lemma {:induction false} KeyOrderStable<T, K>(arr: seq<T>, key: T -> K, n: nat)
    requires n <= |arr|
    ensures KeyOrder(arr[..n], key) <= KeyOrder(arr, key)
  {
    if n < |arr| {
      var m := |arr| - 1;
      KeyOrderStable(arr[..m], key, n);
      assert arr[..m][..n] == arr[..n];
    } else {
      assert arr[..n] == arr;
    }
  }

  /** An empty array gives an empty Map. */
  lemma IndexedEmpty<T, K>(key: T -> K)
    ensures Indexed([], key) == map[] && KeyOrder([], key) == []
  {
  }

  /**
   * `mapFromArray(arr, key)`: a fresh Map is filled by one `set` per element,
   * in array order. Returns the Map's entries and its key iteration order.
   */
  method MapFromArray<T, K(==)>(arr: seq<T>, key: T -> K) returns (result: map<K, T>, order: seq<K>)
    ensures result == Indexed(arr, key) && order == KeyOrder(arr, key)
    ensures result.Keys == set obj | obj in arr :: key(obj)
    ensures forall k :: k in result ==>
      exists i :: LastWithKey(arr, key, k, i) && result[k] == arr[i]
    ensures |result| <= |arr|
    ensures Distinct(order) && forall k :: k in order <==> k in result
  {
    result, order := map[], [];
    var i := 0;
    while i < |arr|
      invariant 0 <= i <= |arr|
      invariant result == Indexed(arr[..i], key)
      invariant order == KeyOrder(arr[..i], key)
    {
      var obj := arr[i];
      assert arr[..i + 1][..i] == arr[..i];
      if key(obj) !in order {
        KeyOrderListsKeys(arr[..i], key);
        order := order + [key(obj)];
      }
      result := result[key(obj) := obj];
      i := i + 1;
    }
    assert arr[..i] == arr;
    IndexedKeys(arr, key);
    IndexedSize(arr, key);
    KeyOrderListsKeys(arr, key);
    forall k | k in result
      ensures exists i :: LastWithKey(arr, key, k, i) && result[k] == arr[i]
    {
      IndexedLastWins(arr, key, k);
    }
  }

  /** The example array of the source, keyed by its `name` field. */
  function SampleData(): (data: seq<Record>)
  {
    [ map["id" := Num(1), "name" := Str("John Smith")],
      map["id" := Num(2), "name" := Str("Mary Sue")],
      map["id" := Num(100), "name" := Str("Taro Yamada")] ]
  }

  /** The call's key: the `name` field of a record. */
  function ByName(r: Record): (name: Value)
  {
    Field(r, "name")
  }

  /** Keyed by "name", the Map's keys are the three names, not the ids. */
  lemma SampleDataByName()
    ensures Indexed(SampleData(), ByName) ==
      map[Str("John Smith") := SampleData()[0],
          Str("Mary Sue") := SampleData()[1],
          Str("Taro Yamada") := SampleData()[2]]
    ensures KeyOrder(SampleData(), ByName) ==
      [Str("John Smith"), Str("Mary Sue"), Str("Taro Yamada")]
  {
    var data := SampleData();
    assert data[..3] == data;
    assert data[..3][..2] == data[..2];
    assert data[..2][..1] == data[..1];
    assert data[..1][..0] == [];
    assert ByName(data[0]) == Str("John Smith");
    assert ByName(data[1]) == Str("Mary Sue");
    assert ByName(data[2]) == Str("Taro Yamada");
    assert Indexed(data[..1], ByName) == map[Str("John Smith") := data[0]];
    assert KeyOrder(data[..1], ByName) == [Str("John Smith")];
    assert Indexed(data[..2], ByName) == map[Str("John Smith") := data[0], Str("Mary Sue") := data[1]];
    assert KeyOrder(data[..2], ByName) == [Str("John Smith"), Str("Mary Sue")];
  }
}
