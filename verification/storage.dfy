/** The browser's `localStorage`: a finite map from string keys to string values. */
module Storage {
  import opened Wrappers

  type Store = map<string, string>

  /** `localStorage.getItem(key)`: the stored value, or `null` when the key is absent. */
  function GetItem(st: Store, key: string): (r: Option<string>)
    ensures r.Some? <==> key in st
    ensures r.Some? ==> r.value == st[key]
  {
    if key in st then Some(st[key]) else None
  }

  /** `localStorage.setItem(key, value)`: `key` now holds `value`; every other key
      reads as before. */
  function SetItem(st: Store, key: string, value: string): (r: Store)
    ensures GetItem(r, key) == Some(value)
    ensures forall k :: k != key ==> GetItem(r, k) == GetItem(st, k)
    ensures r.Keys == st.Keys + {key}
  {
    st[key := value]
  }

  /** `localStorage.clear()`: every key, whoever wrote it, is removed. */
  function Clear(st: Store): (r: Store)
    ensures forall k :: GetItem(r, k) == None
    ensures |r| == 0
  {
    map[]
  }

  /** No key occurs twice in `keys`. */
  predicate Distinct(keys: seq<string>) {
    forall i, j :: 0 <= i < j < |keys| ==> keys[i] != keys[j]
  }

  /** The keys of the first `n` entries of `keys`. */
  function WrittenKeys(keys: seq<string>, n: nat): set<string> {
    set i | 0 <= i < |keys| && i < n :: keys[i]
  }

  lemma WrittenKeysCons(keys: seq<string>, n: nat)
    requires |keys| > 0 && n > 0
    ensures WrittenKeys(keys, n) == {keys[0]} + WrittenKeys(keys[1..], n - 1)
  {
    forall k | k in WrittenKeys(keys, n) ensures k in {keys[0]} + WrittenKeys(keys[1..], n - 1) {
      var i :| 0 <= i < |keys| && i < n && keys[i] == k;
      if i > 0 {
        assert keys[1..][i - 1] == k;
      }
    }
  }

  /** A run of `setItem(keys[i], values[i])` calls in order, of which only the
      first `succeeded` complete: the next one throws and the rest never run. */
  function SetItems(st: Store, keys: seq<string>, values: seq<string>, succeeded: nat): (r: Store)
    requires |keys| == |values| && Distinct(keys)
    ensures forall i :: 0 <= i < |keys| && i < succeeded ==> GetItem(r, keys[i]) == Some(values[i])
    ensures forall i :: 0 <= i < |keys| && succeeded <= i ==> GetItem(r, keys[i]) == GetItem(st, keys[i])
    ensures forall k :: k !in keys ==> GetItem(r, k) == GetItem(st, k)
    ensures r.Keys == st.Keys + WrittenKeys(keys, succeeded)
    decreases |keys|
  {
    if succeeded == 0 || |keys| == 0 then st
    else
      var first := SetItem(st, keys[0], values[0]);
      var r := SetItems(first, keys[1..], values[1..], succeeded - 1);
      WrittenKeysCons(keys, succeeded);
      assert forall i :: 0 < i < |keys| ==> keys[1..][i - 1] == keys[i] && values[1..][i - 1] == values[i];
      assert forall k :: k in keys[1..] ==> k in keys;
      r
  }

  /** Two stores that read alike on every key are equal. */
  lemma SameReadsSameStore(a: Store, b: Store)
    requires forall k :: GetItem(a, k) == GetItem(b, k)
    ensures a == b
  {
    forall k | k in a ensures k in b && a[k] == b[k] {
      assert GetItem(a, k) == GetItem(b, k);
    }
    forall k | k in b ensures k in a {
      assert GetItem(a, k) == GetItem(b, k);
    }
  }
}
