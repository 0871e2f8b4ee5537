/** Building a map by inserting key/value pairs in order, as the decoder's
    `HashMap::insert` loops do: a later pair with the same key replaces
    an earlier one. */
module Keyed {

  /** The map `acc` extended by inserting `pairs` left to right. */
  function InsertAll<K, V>(acc: map<K, V>, pairs: seq<(K, V)>): (m: map<K, V>)
    ensures m.Keys == acc.Keys + set i | 0 <= i < |pairs| :: pairs[i].0
    decreases |pairs|
  {
    if |pairs| == 0 then acc
    else
      var m := InsertAll(acc[pairs[0].0 := pairs[0].1], pairs[1..]);
      assert (set i | 0 <= i < |pairs| :: pairs[i].0)
          == {pairs[0].0} + set i | 0 <= i < |pairs[1..]| :: pairs[1..][i].0 by {
        forall i | 0 <= i < |pairs| ensures pairs[i].0 in {pairs[0].0} + set i | 0 <= i < |pairs[1..]| :: pairs[1..][i].0 {
          if i > 0 { assert pairs[i] == pairs[1..][i - 1]; }
        }
      }
      m
  }

  function MapOf<K, V>(pairs: seq<(K, V)>): map<K, V>
  {
    InsertAll(map[], pairs)
  }

  /** Index `i` is the last pair that carries key `k`. */
  ghost predicate LastFor<K, V>(pairs: seq<(K, V)>, k: K, i: int)
  {
    0 <= i < |pairs| && pairs[i].0 == k && forall j :: i < j < |pairs| ==> pairs[j].0 != k
  }

  /** The value a key ends up with is the one of its last pair; keys with
      no pair keep the value they had. */
  lemma {:induction false} InsertAllLastWins<K, V>(acc: map<K, V>, pairs: seq<(K, V)>, k: K)
    ensures forall i :: LastFor(pairs, k, i) ==> InsertAll(acc, pairs)[k] == pairs[i].1
    ensures (forall j :: 0 <= j < |pairs| ==> pairs[j].0 != k) && k in acc ==>
              InsertAll(acc, pairs)[k] == acc[k]
    decreases |pairs|
  {
    if |pairs| > 0 {
      var acc' := acc[pairs[0].0 := pairs[0].1];
      InsertAllLastWins(acc', pairs[1..], k);
      forall i | LastFor(pairs, k, i)
        ensures InsertAll(acc, pairs)[k] == pairs[i].1
      {
        if i > 0 {
          assert LastFor(pairs[1..], k, i - 1);
        } else {
          assert forall j :: 0 <= j < |pairs[1..]| ==> pairs[1..][j].0 != k by {
            forall j | 0 <= j < |pairs[1..]| ensures pairs[1..][j].0 != k {
              assert pairs[1..][j] == pairs[j + 1];
            }
          }
        }
      }
      if (forall j :: 0 <= j < |pairs| ==> pairs[j].0 != k) && k in acc {
        assert forall j :: 0 <= j < |pairs[1..]| ==> pairs[1..][j].0 != k by {
          forall j | 0 <= j < |pairs[1..]| ensures pairs[1..][j].0 != k {
            assert pairs[1..][j] == pairs[j + 1];
          }
        }
      }
    }
  }

  /** `MapOf` holds exactly the keys that occur, each with its last value. */
  lemma LastWins<K, V>(pairs: seq<(K, V)>)
    ensures forall k :: k in MapOf(pairs) <==> exists i :: 0 <= i < |pairs| && pairs[i].0 == k
    ensures forall k, i :: LastFor(pairs, k, i) ==> MapOf(pairs)[k] == pairs[i].1
  {
    forall k, i | LastFor(pairs, k, i) ensures MapOf(pairs)[k] == pairs[i].1 {
      InsertAllLastWins(map[], pairs, k);
    }
  }

  /** A key that occurs has a last occurrence, at or after any given one. */
  lemma {:induction false} LastExists<K, V>(pairs: seq<(K, V)>, k: K, j: int)
    requires 0 <= j < |pairs| && pairs[j].0 == k
    ensures exists i :: j <= i && LastFor(pairs, k, i)
    decreases |pairs| - j
  {
    if !LastFor(pairs, k, j) {
      var j' :| j < j' < |pairs| && pairs[j'].0 == k;
      LastExists(pairs, k, j');
    }
  }

  /** What holds of every pair holds of every entry of `MapOf`. */
  lemma MapOfAll<K, V>(pairs: seq<(K, V)>, p: (K, V) -> bool)
    requires forall i :: 0 <= i < |pairs| ==> p(pairs[i].0, pairs[i].1)
    ensures forall k :: k in MapOf(pairs) ==> p(k, MapOf(pairs)[k])
  {
    LastWins(pairs);
    forall k | k in MapOf(pairs) ensures p(k, MapOf(pairs)[k]) {
      var j :| 0 <= j < |pairs| && pairs[j].0 == k;
      LastExists(pairs, k, j);
    }
  }

  /** Inserting two runs of pairs is inserting their concatenation. */
  lemma {:induction false} InsertAllAppend<K, V>(acc: map<K, V>, a: seq<(K, V)>, b: seq<(K, V)>)
    ensures InsertAll(InsertAll(acc, a), b) == InsertAll(acc, a + b)
    decreases |a|
  {
    if |a| > 0 {
      assert (a + b)[0] == a[0] && (a + b)[1..] == a[1..] + b;
      InsertAllAppend(acc[a[0].0 := a[0].1], a[1..], b);
    } else {
      assert a + b == b;
    }
  }
}
