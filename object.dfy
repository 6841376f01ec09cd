/** A JavaScript object used as a dictionary and filled by `obj[key] = value`
    assignments made in order, starting from `{}`. Both `_parseEnv` and
    `convertToKeyVal` build their result this way. */
module JsObject {

  /** The dictionary left by assigning each pair in turn. */
  function Assign<K, V>(pairs: seq<(K, V)>): map<K, V> {
    if pairs == [] then map[]
    else Assign(pairs[..|pairs| - 1])[pairs[|pairs| - 1].0 := pairs[|pairs| - 1].1]
  }

  lemma AssignStep<K, V>(pairs: seq<(K, V)>, i: nat)
    requires i < |pairs|
    ensures Assign(pairs[..i + 1]) == Assign(pairs[..i])[pairs[i].0 := pairs[i].1]
  {
    assert pairs[..i + 1][..i] == pairs[..i];
  }

  /** A key is present exactly when some pair assigns it. */
  lemma {:induction false} AssignKeys<K, V>(pairs: seq<(K, V)>, k: K)
    ensures k in Assign(pairs) <==> exists i :: 0 <= i < |pairs| && pairs[i].0 == k
    decreases |pairs|
  {
    if pairs != [] {
      var init := pairs[..|pairs| - 1];
      AssignKeys(init, k);
      if k in Assign(init) {
        var i :| 0 <= i < |init| && init[i].0 == k;
        assert pairs[i] == init[i];
      }
      forall i | 0 <= i < |pairs| - 1 ensures pairs[i] == init[i] { }
    }
  }

  /** The last assignment to a key decides its value; earlier ones to the
      same key are overwritten. */
  lemma {:induction false} AssignLastWins<K, V>(pairs: seq<(K, V)>, i: nat)
    requires i < |pairs|
    requires forall j :: i < j < |pairs| ==> pairs[j].0 != pairs[i].0
    ensures pairs[i].0 in Assign(pairs) && Assign(pairs)[pairs[i].0] == pairs[i].1
    decreases |pairs|
  {
    if i < |pairs| - 1 {
      var init := pairs[..|pairs| - 1];
      assert init[i] == pairs[i];
      AssignLastWins(init, i);
    }
  }

  /** `Object.keys` (and the order of `for (k in obj)`): each key once, in
      the order of its first assignment. */
  function KeysInOrder<K(==,!new), V>(pairs: seq<(K, V)>): (r: seq<K>)
    ensures forall k :: k in r <==> k in Assign(pairs)
    ensures forall i, j :: 0 <= i < j < |r| ==> r[i] != r[j]
  {
    if pairs == [] then []
    else
      var ks := KeysInOrder(pairs[..|pairs| - 1]);
      if pairs[|pairs| - 1].0 in ks then ks else ks + [pairs[|pairs| - 1].0]
  }
}
