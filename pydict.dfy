/**
 * Python's `dict` with its insertion order: an association list whose keys
 * are distinct. Assigning to an existing key keeps its position; a new key
 * goes to the end; `pop`/`del` remove the key.
 */
module PyDict {
  import opened Wrappers

  type Dict<K(==,!new), V> = seq<(K, V)>

  predicate DistinctKeys<K(==,!new), V>(d: Dict<K, V>)
  {
    forall i, j :: 0 <= i < j < |d| ==> d[i].0 != d[j].0
  }

  function Keys<K(==,!new), V>(d: Dict<K, V>): (r: seq<K>)
    ensures |r| == |d| && forall i :: 0 <= i < |d| ==> r[i] == d[i].0
  {
    seq(|d|, i requires 0 <= i < |d| => d[i].0)
  }

  predicate HasKey<K(==,!new), V>(d: Dict<K, V>, k: K)
  {
    exists i :: 0 <= i < |d| && d[i].0 == k
  }

  /** Position of `k`, if present. */
  function IndexOf<K(==,!new), V>(d: Dict<K, V>, k: K): (r: Option<nat>)
    ensures r.Some? ==> r.value < |d| && d[r.value].0 == k && forall j :: 0 <= j < r.value ==> d[j].0 != k
    ensures r.None? ==> !HasKey(d, k)
    decreases |d|
  {
    if |d| == 0 then None
    else if d[0].0 == k then Some(0)
    else
      match IndexOf(d[1..], k)
      case None =>
        assert forall i :: 1 <= i < |d| ==> d[i] == d[1..][i - 1];
        None
      case Some(i) => Some(i + 1)
  }

  /** `d.get(k)`. */
  function Get<K(==,!new), V>(d: Dict<K, V>, k: K): (r: Option<V>)
    ensures r.Some? <==> HasKey(d, k)
    ensures r.Some? ==> exists i :: 0 <= i < |d| && d[i] == (k, r.value)
  {
    match IndexOf(d, k)
    case None => None
    case Some(i) => Some(d[i].1)
  }

  /** `d[k] = v`. */
  function Put<K(==,!new), V>(d: Dict<K, V>, k: K, v: V): (r: Dict<K, V>)
    requires DistinctKeys(d)
    ensures DistinctKeys(r)
    ensures Get(r, k) == Some(v)
    ensures forall k' :: k' != k ==> Get(r, k') == Get(d, k')
    ensures HasKey(d, k) ==> Keys(r) == Keys(d)
    ensures !HasKey(d, k) ==> Keys(r) == Keys(d) + [k]
  {
    match IndexOf(d, k)
    case None =>
      var r := d + [(k, v)];
      assert DistinctKeys(r);
      IndexOfAt(r, |d|);
      assert forall k' :: k' != k ==> Get(r, k') == Get(d, k') by {
        forall k' | k' != k ensures Get(r, k') == Get(d, k') { GetAppend(d, k, v, k'); }
      }
      r
    case Some(i) =>
      var r := d[i := (k, v)];
      assert Keys(r) == Keys(d);
      assert DistinctKeys(r);
      IndexOfAt(r, i);
      assert forall k' :: k' != k ==> Get(r, k') == Get(d, k') by {
        forall k' | k' != k ensures Get(r, k') == Get(d, k') { GetUpdate(d, i, v, k'); }
      }
      r
  }

  /** A key not yet present goes to the end. */
  lemma PutNew<K(!new), V>(d: Dict<K, V>, k: K, v: V)
    requires DistinctKeys(d) && !HasKey(d, k)
    ensures Put(d, k, v) == d + [(k, v)]
  {
  }

  lemma IndexOfAt<K(!new), V>(d: Dict<K, V>, i: nat)
    requires DistinctKeys(d) && i < |d|
    ensures IndexOf(d, d[i].0) == Some(i)
  {
    assert HasKey(d, d[i].0);
  }

  lemma GetAppend<K(!new), V>(d: Dict<K, V>, k: K, v: V, k': K)
    requires DistinctKeys(d) && !HasKey(d, k) && k' != k
    ensures Get(d + [(k, v)], k') == Get(d, k')
  {
    var r := d + [(k, v)];
    assert DistinctKeys(r);
    if HasKey(d, k') {
      var i :| 0 <= i < |d| && d[i].0 == k';
      IndexOfAt(d, i);
      assert r[i] == d[i];
      IndexOfAt(r, i);
    } else {
      forall a | 0 <= a < |r| ensures r[a].0 != k' {
        if a < |d| { assert r[a] == d[a]; }
      }
    }
  }

  lemma GetUpdate<K(!new), V>(d: Dict<K, V>, i: nat, v: V, k': K)
    requires DistinctKeys(d) && i < |d| && k' != d[i].0
    ensures Get(d[i := (d[i].0, v)], k') == Get(d, k')
  {
    var r := d[i := (d[i].0, v)];
    assert DistinctKeys(r);
    if HasKey(d, k') {
      var j :| 0 <= j < |d| && d[j].0 == k';
      IndexOfAt(d, j);
      IndexOfAt(r, j);
    } else {
      forall a | 0 <= a < |r| ensures r[a].0 != k' {
        assert r[a].0 == d[a].0;
      }
    }
  }

  /** `d.pop(k, None)` / `del d[k]`: the key disappears, the others keep their order. */
  function Remove<K(==,!new), V>(d: Dict<K, V>, k: K): (r: Dict<K, V>)
    requires DistinctKeys(d)
    ensures DistinctKeys(r)
    ensures Get(r, k) == None
    ensures forall k' :: k' != k ==> Get(r, k') == Get(d, k')
    ensures |r| == if HasKey(d, k) then |d| - 1 else |d|
  {
    match IndexOf(d, k)
    case None => d
    case Some(i) =>
      var r := d[..i] + d[i + 1..];
      assert forall a :: 0 <= a < |r| ==> r[a] == (if a < i then d[a] else d[a + 1]);
      assert !HasKey(r, k) by {
        forall a | 0 <= a < |r| ensures r[a].0 != k {
          if a < i { assert r[a] == d[a]; } else { assert r[a] == d[a + 1]; }
        }
      }
      assert forall k' :: k' != k ==> Get(r, k') == Get(d, k') by {
        forall k' | k' != k ensures Get(r, k') == Get(d, k') { GetRemove(d, i, k'); }
      }
      r
  }

  lemma GetRemove<K(!new), V>(d: Dict<K, V>, i: nat, k': K)
    requires DistinctKeys(d) && i < |d| && k' != d[i].0
    ensures Get(d[..i] + d[i + 1..], k') == Get(d, k')
  {
    var r := d[..i] + d[i + 1..];
    assert forall a :: 0 <= a < |r| ==> r[a] == (if a < i then d[a] else d[a + 1]);
    assert DistinctKeys(r);
    if HasKey(d, k') {
      var j :| 0 <= j < |d| && d[j].0 == k';
      IndexOfAt(d, j);
      var b := if j < i then j else j - 1;
      assert r[b] == d[j];
      IndexOfAt(r, b);
    } else {
      forall a | 0 <= a < |r| ensures r[a].0 != k' {
        if a < i { assert r[a] == d[a]; } else { assert r[a] == d[a + 1]; }
      }
    }
  }

  /** Assigning the same key twice is the same as assigning the last value once. */
  lemma PutTwice<K(!new), V>(d: Dict<K, V>, k: K, v1: V, v2: V)
    requires DistinctKeys(d)
    ensures Put(Put(d, k, v1), k, v2) == Put(d, k, v2)
  {
    match IndexOf(d, k)
    case None =>
      var r := d + [(k, v1)];
      assert Put(d, k, v1) == r;
      IndexOfAt(r, |d|);
    case Some(i) =>
      var r := d[i := (k, v1)];
      assert Put(d, k, v1) == r;
      IndexOfAt(r, i);
  }

  /** The dictionary as a Dafny map (order forgotten). */
  function ToMap<K(==,!new), V>(d: Dict<K, V>): (m: map<K, V>)
    requires DistinctKeys(d)
    ensures forall k :: k in m <==> HasKey(d, k)
    ensures forall k :: k in m ==> Get(d, k) == Some(m[k])
  {
    map k | k in Keys(d) :: Get(d, k).value
  }

  /** `dict(pairs)` (or a comprehension over them) as a map: a later pair for a key wins. */
  function DictOf<K(==,!new), V>(pairs: seq<(K, V)>): map<K, V>
  {
    if pairs == [] then map[]
    else DictOf(pairs[..|pairs| - 1])[pairs[|pairs| - 1].0 := pairs[|pairs| - 1].1]
  }

  /** `dict(pairs)` with its insertion order: a key sits where it first appeared and holds its last value. */
  function FromPairs<K(==,!new), V>(pairs: seq<(K, V)>): (d: Dict<K, V>)
    ensures DistinctKeys(d)
    ensures forall k :: Get(d, k) == if k in DictOf(pairs) then Some(DictOf(pairs)[k]) else None
  {
    if pairs == [] then []
    else Put(FromPairs(pairs[..|pairs| - 1]), pairs[|pairs| - 1].0, pairs[|pairs| - 1].1)
  }

  /** `(k, v)` is the last pair with key `k`. */
  ghost predicate LastPair<K(!new), V>(pairs: seq<(K, V)>, k: K, v: V)
  {
    exists i :: 0 <= i < |pairs| && pairs[i] == (k, v) && forall j :: i < j < |pairs| ==> pairs[j].0 != k
  }

  /** A key of `dict(pairs)` maps to the value of its last pair; any other key has no pair. */
  lemma {:induction false} DictOfAt<K(!new), V>(pairs: seq<(K, V)>, k: K)
    ensures k in DictOf(pairs) ==> LastPair(pairs, k, DictOf(pairs)[k])
    ensures k !in DictOf(pairs) ==> forall i :: 0 <= i < |pairs| ==> pairs[i].0 != k
  {
    if pairs != [] {
      var pre, last := pairs[..|pairs| - 1], pairs[|pairs| - 1];
      DictOfAt(pre, k);
      var m := DictOf(pre);
      if k == last.0 {
        assert pairs[|pairs| - 1] == (k, DictOf(pairs)[k]);
      } else if k in m {
        var i :| 0 <= i < |pre| && pre[i] == (k, m[k]) && forall j :: i < j < |pre| ==> pre[j].0 != k;
        assert pairs[i] == pre[i];
        forall j | i < j < |pairs| ensures pairs[j].0 != k {
          if j < |pre| { assert pairs[j] == pre[j]; }
        }
      } else {
        forall i | 0 <= i < |pairs| ensures pairs[i].0 != k {
          if i < |pre| { assert pairs[i] == pre[i]; }
        }
      }
    }
  }

  /** A key has one last pair. */
  lemma LastPairFunctional<K(!new), V>(pairs: seq<(K, V)>, k: K, v: V, v': V)
    requires LastPair(pairs, k, v) && LastPair(pairs, k, v')
    ensures v == v'
  {
    var i :| 0 <= i < |pairs| && pairs[i] == (k, v) && forall j :: i < j < |pairs| ==> pairs[j].0 != k;
    var i' :| 0 <= i' < |pairs| && pairs[i'] == (k, v') && forall j :: i' < j < |pairs| ==> pairs[j].0 != k;
    assert i == i';
  }

  /** Exactly the last pair of a key is in `dict(pairs)`. */
  lemma DictOfIff<K(!new), V>(pairs: seq<(K, V)>, k: K, v: V)
    ensures k in DictOf(pairs) && DictOf(pairs)[k] == v <==> LastPair(pairs, k, v)
  {
    DictOfAt(pairs, k);
    if LastPair(pairs, k, v) {
      var i :| 0 <= i < |pairs| && pairs[i] == (k, v) && forall j :: i < j < |pairs| ==> pairs[j].0 != k;
      LastPairFunctional(pairs, k, v, DictOf(pairs)[k]);
    }
  }
}
