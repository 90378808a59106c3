/** Python's `filter(lambda key: table[key] == value, keys)` over the keys of a
    dictionary, and what it finds when the dictionary is injective. */
module KeyFilter {

  predicate NoDuplicates(s: seq<int>) {
    forall i, j :: 0 <= i < j < |s| ==> s[i] != s[j]
  }

  /** No two keys share a value. */
  predicate Injective(m: map<int, string>) {
    forall j, k :: j in m && k in m && m[j] == m[k] ==> j == k
  }

  /** `filter(lambda key: table[key] == status, keys)`: the keys, in the order
      given, whose name in `table` is `status`. */
  function FilterKeys(table: map<int, string>, keys: seq<int>, status: string): (hits: seq<int>)
    requires forall i :: 0 <= i < |keys| ==> keys[i] in table
    ensures forall k :: k in hits <==> k in keys && table[k] == status
    ensures |hits| == 0 <==> forall i :: 0 <= i < |keys| ==> table[keys[i]] != status
    ensures NoDuplicates(keys) ==> NoDuplicates(hits)
  {
    if keys == [] then []
    else if table[keys[0]] == status then
      assert keys[0] in keys;
      [keys[0]] + FilterKeys(table, keys[1..], status)
    else FilterKeys(table, keys[1..], status)
  }

  /** Over an injective table and keys that do not repeat, the filter finds at
      most one key. */
  lemma {:induction false} FilterAtMostOne(table: map<int, string>, keys: seq<int>, status: string)
    requires forall i :: 0 <= i < |keys| ==> keys[i] in table
    requires Injective(table) && NoDuplicates(keys)
    ensures |FilterKeys(table, keys, status)| <= 1
  {
    if keys != [] {
      var rest := FilterKeys(table, keys[1..], status);
      if table[keys[0]] == status {
        // a later hit would be a second code with the same name
        assert forall k :: k in keys[1..] ==> k != keys[0];
      } else {
        FilterAtMostOne(table, keys[1..], status);
      }
    }
  }
}
