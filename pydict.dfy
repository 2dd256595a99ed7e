/**
 An insertion-ordered dictionary with string keys, as a Python `dict` is:
 iteration visits the keys in the order they were first inserted, and
 assigning to a key that is already present keeps its position.
 */
module PyDict {

  datatype DictRep<V> = DictRep(keys: seq<string>, entries: map<string, V>)

  /** The keys at positions `i` and `j` (in that order) differ. */
  predicate DifferentAt(keys: seq<string>, i: int, j: int) {
    0 <= i < j < |keys| ==> keys[i] != keys[j]
  }

  /**
   The keys are listed once each, and exactly the keys of `entries` are listed.
   The first clause is instantiated only for the pairs of positions a proof names.
   */
  ghost predicate WellFormed<V>(d: DictRep<V>) {
    && (forall i, j {:trigger DifferentAt(d.keys, i, j)} :: DifferentAt(d.keys, i, j))
    && (forall k :: k in d.entries <==> k in d.keys)
  }

  type Dict<V> = d: DictRep<V> | WellFormed(d) witness DictRep([], map[])

  /** `{}` */
  function Empty<V>(): Dict<V> {
    DictRep([], map[])
  }

  /** `d[k] = v`: a new key goes to the end of the iteration order, an old key keeps its place. */
  function Put<V>(d: Dict<V>, k: string, v: V): (r: Dict<V>)
    ensures k in r.entries && r.entries[k] == v
    ensures forall k' :: k' != k ==> (k' in r.entries <==> k' in d.entries)
    ensures forall k' :: k' != k && k' in d.entries ==> r.entries[k'] == d.entries[k']
    ensures k in d.entries ==> r.keys == d.keys
    ensures k !in d.entries ==> r.keys == d.keys + [k]
  {
    if k in d.entries then
      DictRep(d.keys, d.entries[k := v])
    else
      var keys := d.keys + [k];
      assert forall i, j :: DifferentAt(keys, i, j) by {
        forall i, j ensures DifferentAt(keys, i, j) {
          if 0 <= i < j < |keys| {
            if j < |d.keys| {
              assert DifferentAt(d.keys, i, j);
            } else {
              assert keys[i] in d.keys;
            }
          }
        }
      }
      DictRep(keys, d.entries[k := v])
  }

  /** Assigning the same value twice is the same as assigning it once. */
  lemma PutIdempotent<V>(d: Dict<V>, k: string, v: V)
    ensures Put(Put(d, k, v), k, v) == Put(d, k, v)
  {
  }

  /** A later assignment to the same key wins and the key keeps the place of the first. */
  lemma PutOverwrites<V>(d: Dict<V>, k: string, a: V, b: V)
    ensures Put(Put(d, k, a), k, b) == Put(d, k, b)
  {
  }

  /** A dictionary that lists no keys is `{}`. */
  lemma NoKeysIsEmpty<V>(d: Dict<V>)
    requires d.keys == []
    ensures d == Empty()
  {
    assert d.entries == map[];
  }

  /** Keys at different positions differ. */
  lemma Distinct<V>(d: Dict<V>, i: nat, j: nat)
    requires i < |d.keys| && j < |d.keys| && i != j
    ensures d.keys[i] != d.keys[j]
  {
    if i < j {
      assert DifferentAt(d.keys, i, j);
    } else {
      assert DifferentAt(d.keys, j, i);
    }
  }

  /** A key is listed only once, so it is not among the keys listed before it. */
  lemma KeyNotBefore<V>(d: Dict<V>, n: nat)
    requires n < |d.keys|
    ensures d.keys[n] !in d.keys[..n]
  {
    forall i | 0 <= i < n ensures d.keys[..n][i] != d.keys[n] {
      assert DifferentAt(d.keys, i, n);
    }
  }

  /** The first `n` keys of a dictionary are listed once each. */
  lemma PrefixListedOnce<V>(d: Dict<V>, n: nat)
    requires n <= |d.keys|
    ensures forall i, j :: DifferentAt(d.keys[..n], i, j)
  {
    forall i, j ensures DifferentAt(d.keys[..n], i, j) {
      assert DifferentAt(d.keys, i, j);
    }
  }

  /** A key is found at exactly one position. */
  lemma IndexOfUnique<V>(d: Dict<V>, i: nat)
    requires i < |d.keys|
    ensures IndexOf(d, d.keys[i]) == i
  {
    var j := IndexOf(d, d.keys[i]);
    if j != i {
      Distinct(d, i, j);
    }
  }

  /** The position of a key in the iteration order. */
  function IndexOf<V>(d: Dict<V>, k: string): (i: nat)
    requires k in d.entries
    ensures i < |d.keys| && d.keys[i] == k
  {
    IndexIn(d.keys, k)
  }

  function IndexIn(s: seq<string>, k: string): (i: nat)
    requires k in s
    ensures i < |s| && s[i] == k
  {
    if s[0] == k then 0 else 1 + IndexIn(s[1..], k)
  }
}
