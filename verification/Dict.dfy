/** Python's insertion-ordered dictionary: a sequence of entries whose keys are distinct. */
module Dict {

  datatype Entry<+K, +V> = Entry(key: K, value: V)

  /** The first position from `from` on that holds key k, or |d| when there is none. */
  function IndexFrom<K(==), V>(d: seq<Entry<K, V>>, k: K, from: nat): (i: nat)
    requires from <= |d|
    ensures from <= i <= |d|
    ensures i < |d| ==> d[i].key == k
    ensures forall j :: from <= j < i ==> d[j].key != k
    decreases |d| - from
  {
    if from == |d| || d[from].key == k then from else IndexFrom(d, k, from + 1)
  }

  /** The position of key k, or |d| when k is absent. */
  function IndexOf<K(==), V>(d: seq<Entry<K, V>>, k: K): (i: nat)
    ensures i <= |d|
    ensures i < |d| ==> d[i].key == k
    ensures forall j :: 0 <= j < i ==> d[j].key != k
  {
    IndexFrom(d, k, 0)
  }

  predicate HasKey<K(==), V>(d: seq<Entry<K, V>>, k: K) {
    IndexOf(d, k) < |d|
  }

  ghost predicate Distinct<K, V>(d: seq<Entry<K, V>>) {
    forall i, j :: 0 <= i < j < |d| ==> d[i].key != d[j].key
  }

  /** `d[k] = v`: an existing key keeps its place, a new key goes last. */
  function Put<K(==), V>(d: seq<Entry<K, V>>, k: K, v: V): (r: seq<Entry<K, V>>)
  {
    if HasKey(d, k) then d[IndexOf(d, k) := Entry(k, v)] else d + [Entry(k, v)]
  }

  lemma PutDistinct<K, V>(d: seq<Entry<K, V>>, k: K, v: V)
    requires Distinct(d)
    ensures Distinct(Put(d, k, v))
  {}

  /** `d.pop(k, None)`: the other entries keep their order. */
  function Remove<K(==), V>(d: seq<Entry<K, V>>, k: K): (r: seq<Entry<K, V>>)
    ensures !HasKey(d, k) ==> r == d
    ensures HasKey(d, k) ==> |r| == |d| - 1
    ensures HasKey(d, k) ==> forall i :: 0 <= i < |r| ==> r[i] == d[if i < IndexOf(d, k) then i else i + 1]
  {
    var i := IndexOf(d, k);
    if i < |d| then d[..i] + d[i + 1..] else d
  }

  /** With distinct keys, the entry a key is found at is the only one carrying it. */
  lemma FoundAt<K, V>(d: seq<Entry<K, V>>, j: nat)
    requires Distinct(d) && j < |d|
    ensures IndexOf(d, d[j].key) == j
  {
  }

  /** Dictionaries with the same keys find a key at the same place. */
  lemma SameKeys<K, V, W>(d: seq<Entry<K, V>>, e: seq<Entry<K, W>>, k: K)
    requires |d| == |e|
    requires forall i :: 0 <= i < |d| ==> d[i].key == e[i].key
    ensures IndexOf(d, k) == IndexOf(e, k)
  {}

  /** `dict(pairs)`: of several pairs with one key the last value counts, at the first one's place. */
  function FromPairs<K(==), V>(pairs: seq<Entry<K, V>>): seq<Entry<K, V>> {
    if pairs == [] then []
    else
      var last := pairs[|pairs| - 1];
      Put(FromPairs(pairs[..|pairs| - 1]), last.key, last.value)
  }

  /** All pairs are kept exactly when no key repeats. */
  lemma {:induction false} FromPairsKeeps<K, V>(pairs: seq<Entry<K, V>>)
    ensures |FromPairs(pairs)| <= |pairs| && Distinct(FromPairs(pairs))
    ensures |FromPairs(pairs)| == |pairs| ==> FromPairs(pairs) == pairs
    ensures FromPairs(pairs) == pairs <==> Distinct(pairs)
  {
    if pairs != [] {
      var init, last := pairs[..|pairs| - 1], pairs[|pairs| - 1];
      FromPairsKeeps(init);
      PutDistinct(FromPairs(init), last.key, last.value);
      assert pairs == init + [last];
      if Distinct(pairs) {
        assert Distinct(init);
        assert !HasKey(init, last.key);
      }
    }
  }
}
