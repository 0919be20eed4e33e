/** `new Map(pairs)` in JavaScript: a later pair whose key is already present
    overwrites the earlier value. Only the key/value content is modelled, not the
    iteration order. */
module JsMap {

  /** The map built from `pairs`, read from the end so that the last pair for a key wins. */
  function FromPairs<K(!new), V>(pairs: seq<(K, V)>): (m: map<K, V>)
    ensures forall k :: k in m <==> exists i :: 0 <= i < |pairs| && pairs[i].0 == k
  {
    if pairs == [] then map[]
    else
      var init := pairs[..|pairs| - 1];
      assert forall i :: 0 <= i < |init| ==> init[i] == pairs[i];
      FromPairs(init)[pairs[|pairs| - 1].0 := pairs[|pairs| - 1].1]
  }

  /** Appending a pair sets its key to its value and leaves the other keys alone. */
  lemma AppendPair<K(!new), V>(pairs: seq<(K, V)>, p: (K, V))
    ensures FromPairs(pairs + [p]) == FromPairs(pairs)[p.0 := p.1]
  {
    var s := pairs + [p];
    assert s[..|s| - 1] == pairs;
  }

  /** Index `i` holds the last pair of `pairs` whose key is `pairs[i].0`. */
  ghost predicate IsLastFor<K(!new), V>(pairs: seq<(K, V)>, i: int)
  {
    0 <= i < |pairs| && forall j :: i < j < |pairs| ==> pairs[j].0 != pairs[i].0
  }

  /** The value stored for a key is the one carried by its last pair. */
  lemma {:induction false} LastPairWins<K(!new), V>(pairs: seq<(K, V)>, i: int)
    requires IsLastFor(pairs, i)
    ensures pairs[i].0 in FromPairs(pairs) && FromPairs(pairs)[pairs[i].0] == pairs[i].1
  {
    if i < |pairs| - 1 {
      var init := pairs[..|pairs| - 1];
      assert IsLastFor(init, i) by {
        forall j | i < j < |init| ensures init[j].0 != init[i].0 {
          assert init[j] == pairs[j];
        }
      }
      LastPairWins(init, i);
      assert pairs[|pairs| - 1].0 != pairs[i].0;
    }
  }

  /** Every value of the map comes from the last pair with that key. */
  lemma {:induction false} ValueFromLastPair<K(!new), V>(pairs: seq<(K, V)>, k: K)
    requires k in FromPairs(pairs)
    ensures exists i :: IsLastFor(pairs, i) && pairs[i].0 == k && FromPairs(pairs)[k] == pairs[i].1
  {
    var n := |pairs| - 1;
    if pairs[n].0 == k {
      assert IsLastFor(pairs, n);
    } else {
      var init := pairs[..n];
      assert k in FromPairs(init);
      ValueFromLastPair(init, k);
      var i :| IsLastFor(init, i) && init[i].0 == k && FromPairs(init)[k] == init[i].1;
      assert init[i] == pairs[i];
      assert IsLastFor(pairs, i) by {
        forall j | i < j < |pairs| ensures pairs[j].0 != pairs[i].0 {
          if j < n { assert init[j] == pairs[j]; }
        }
      }
    }
  }
}
