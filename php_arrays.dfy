/**
 * PHP values and PHP's ordered arrays with string (or integer) keys, as
 * association lists. `Put` is `$a[$k] = $v` (an existing key keeps its
 * place, a new key goes to the end), `Remove` is `unset($a[$k])`, and
 * `Merge` is `array_merge` for non-numeric keys.
 */
module PhpArrays {
  import opened Wrappers

  /** An ordered array: a list of key/value entries. */
  type Assoc<K, V> = seq<(K, V)>

  /** The PHP values the core passes around. */
  datatype Value =
    | Str(s: string)
    | Bool(b: bool)
    | Int(i: int)
    | Null
    | List(items: seq<Value>)
    | Dict(entries: seq<(string, Value)>)
    | Object(className: string)

  /** `is_array`: a list or a string-keyed array. */
  predicate IsArray(v: Value) {
    v.List? || v.Dict?
  }

  /** PHP truthiness of a string: neither `""` nor `"0"`. */
  predicate TruthyString(s: string) {
    s != "" && s != "0"
  }

  /** PHP truthiness of a `?string`: null is falsy. */
  predicate Truthy(s: Option<string>) {
    s.Some? && TruthyString(s.value)
  }

  function Keys<K, V>(m: Assoc<K, V>): (ks: seq<K>)
    ensures |ks| == |m|
    ensures forall i :: 0 <= i < |m| ==> ks[i] == m[i].0
  {
    if m == [] then [] else [m[0].0] + Keys(m[1..])
  }

  predicate HasKey<K(==), V>(m: Assoc<K, V>, k: K) {
    k in Keys(m)
  }

  /** No key occurs twice: every PHP array has this shape. */
  predicate UniqueKeys<K(==), V>(m: Assoc<K, V>) {
    m == [] || (!HasKey(m[1..], m[0].0) && UniqueKeys(m[1..]))
  }

  /** `$m[$k] ?? null`, as an option. */
  function Get<K(==), V>(m: Assoc<K, V>, k: K): (r: Option<V>)
    ensures r.Some? <==> HasKey(m, k)
    ensures r.Some? ==> exists i :: 0 <= i < |m| && m[i] == (k, r.value)
  {
    if m == [] then None
    else if m[0].0 == k then Some(m[0].1)
    else Get(m[1..], k)
  }

  /** `$m[$k] = $v`. */
  function Put<K(==), V>(m: Assoc<K, V>, k: K, v: V): (r: Assoc<K, V>)
    ensures HasKey(m, k) ==> Keys(r) == Keys(m)
    ensures !HasKey(m, k) ==> r == m + [(k, v)]
  {
    if m == [] then [(k, v)]
    else if m[0].0 == k then [(k, v)] + m[1..]
    else [m[0]] + Put(m[1..], k, v)
  }

  /** `unset($m[$k])`. */
  function Remove<K(==), V>(m: Assoc<K, V>, k: K): (r: Assoc<K, V>)
    ensures !HasKey(r, k)
    ensures |r| <= |m|
    ensures !HasKey(m, k) ==> r == m
  {
    if m == [] then []
    else if m[0].0 == k then Remove(m[1..], k)
    else [m[0]] + Remove(m[1..], k)
  }

  /** `array_merge($a, $b)` for non-numeric keys: each entry of b is put in turn. */
  function Merge<K(==), V>(a: Assoc<K, V>, b: Assoc<K, V>): Assoc<K, V>
    decreases |b|
  {
    if b == [] then a else Merge(Put(a, b[0].0, b[0].1), b[1..])
  }

  /** The keys of m other than k, in order. */
  function KeysWithout<K(==)>(ks: seq<K>, k: K): seq<K> {
    if ks == [] then [] else (if ks[0] == k then [] else [ks[0]]) + KeysWithout(ks[1..], k)
  }

  lemma {:induction false} PutGet<K, V>(m: Assoc<K, V>, k: K, v: V, j: K)
    ensures Get(Put(m, k, v), j) == if j == k then Some(v) else Get(m, j)
  {
    if m != [] && m[0].0 != k {
      PutGet(m[1..], k, v, j);
    }
  }

  lemma {:induction false} PutKeepsUnique<K, V>(m: Assoc<K, V>, k: K, v: V)
    requires UniqueKeys(m)
    ensures UniqueKeys(Put(m, k, v))
  {
    if m != [] && m[0].0 != k {
      PutKeepsUnique(m[1..], k, v);
      PutHasKey(m[1..], k, v, m[0].0);
    }
  }

  lemma HasKeyAt<K, V>(m: Assoc<K, V>, i: nat)
    requires i < |m|
    ensures HasKey(m, m[i].0)
  {
    assert Keys(m)[i] == m[i].0;
  }

  lemma {:induction false} PutHasKey<K, V>(m: Assoc<K, V>, k: K, v: V, j: K)
    ensures HasKey(Put(m, k, v), j) <==> j == k || HasKey(m, j)
  {
    PutGet(m, k, v, j);
  }

  lemma {:induction false} RemoveGet<K, V>(m: Assoc<K, V>, k: K, j: K)
    ensures Get(Remove(m, k), j) == if j == k then None else Get(m, j)
  {
    if m != [] {
      RemoveGet(m[1..], k, j);
    }
  }

  lemma {:induction false} RemoveKeys<K, V>(m: Assoc<K, V>, k: K)
    ensures Keys(Remove(m, k)) == KeysWithout(Keys(m), k)
  {
    if m != [] {
      RemoveKeys(m[1..], k);
      assert Keys(m)[1..] == Keys(m[1..]);
    }
  }

  lemma {:induction false} MergeGet<K, V>(a: Assoc<K, V>, b: Assoc<K, V>, j: K)
    ensures Get(Merge(a, b), j) == if HasKey(b, j) then Some(LastValue(b, j)) else Get(a, j)
    decreases |b|
  {
    if b != [] {
      MergeGet(Put(a, b[0].0, b[0].1), b[1..], j);
      PutGet(a, b[0].0, b[0].1, j);
      assert Keys(b) == [b[0].0] + Keys(b[1..]);
    }
  }

  /** The value of the last entry of b with key j (later writes win). */
  function LastValue<K(==), V>(b: Assoc<K, V>, j: K): V
    requires HasKey(b, j)
  {
    assert Keys(b) == [b[0].0] + Keys(b[1..]);
    if HasKey(b[1..], j) then LastValue(b[1..], j) else b[0].1
  }

  lemma {:induction false} RemoveKeepsUnique<K, V>(m: Assoc<K, V>, k: K)
    requires UniqueKeys(m)
    ensures UniqueKeys(Remove(m, k))
  {
    if m != [] {
      RemoveKeepsUnique(m[1..], k);
      if m[0].0 != k {
        RemoveGet(m[1..], k, m[0].0);
      }
    }
  }

  /** With unique keys, the last entry under a key is the only one. */
  lemma {:induction false} LastValueUnique<K, V>(b: Assoc<K, V>, j: K)
    requires UniqueKeys(b) && HasKey(b, j)
    ensures LastValue(b, j) == Get(b, j).value
  {
    assert Keys(b) == [b[0].0] + Keys(b[1..]);
    if HasKey(b[1..], j) {
      LastValueUnique(b[1..], j);
    }
  }

  /** A key of the front part is read there; any other key from the back part. */
  lemma {:induction false} GetAppend<K, V>(a: Assoc<K, V>, b: Assoc<K, V>, k: K)
    ensures Get(a + b, k) == if HasKey(a, k) then Get(a, k) else Get(b, k)
    decreases |a|
  {
    if a != [] {
      var ab := a + b;
      assert ab[0] == a[0];
      assert ab[1..] == a[1..] + b;
      assert Keys(a) == [a[0].0] + Keys(a[1..]);
      if a[0].0 != k {
        GetAppend(a[1..], b, k);
        assert Get(ab, k) == Get(ab[1..], k);
      } else {
        assert Get(ab, k) == Some(a[0].1);
      }
    } else {
      assert a + b == b;
      assert !HasKey(a, k);
    }
  }

  lemma HasKeyAppend<K, V>(a: Assoc<K, V>, b: Assoc<K, V>, k: K)
    ensures HasKey(a + b, k) <==> HasKey(a, k) || HasKey(b, k)
  {
    GetAppend(a, b, k);
  }

  /** One step of a lookup from position i on. */
  lemma GetDrop<K, V>(m: Assoc<K, V>, i: nat, k: K)
    requires i < |m|
    ensures Get(m[i..], k) == if m[i].0 == k then Some(m[i].1) else Get(m[i + 1..], k)
  {
    assert m[i..][0] == m[i];
    assert m[i..][1..] == m[i + 1..];
  }

  /** Uniqueness depends on the keys alone. */
  lemma {:induction false} SameKeysUnique<K, V, W>(a: Assoc<K, V>, b: Assoc<K, W>)
    requires Keys(a) == Keys(b)
    ensures UniqueKeys(a) <==> UniqueKeys(b)
    decreases |a|
  {
    if a != [] {
      assert Keys(a) == [a[0].0] + Keys(a[1..]);
      assert Keys(b) == [b[0].0] + Keys(b[1..]);
      assert Keys(a[1..]) == Keys(a)[1..] == Keys(b)[1..] == Keys(b[1..]);
      SameKeysUnique(a[1..], b[1..]);
    }
  }
}
