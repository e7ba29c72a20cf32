/** Python dictionaries written to in a loop: `d[keys[i]] = vals[i]` for
    i = 0, 1, ... in order, so a later write to a key replaces an earlier one. */
module Dicts {

  /** Position i holds the last occurrence of its key. */
  ghost predicate LastOf<K>(keys: seq<K>, i: int)
    requires 0 <= i < |keys|
  {
    forall j :: i < j < |keys| ==> keys[j] != keys[i]
  }

  function Elements<T>(s: seq<T>): set<T>
  {
    set i | 0 <= i < |s| :: s[i]
  }

  /** d after the loop of writes. */
  function Overwrite<K, V>(d: map<K, V>, keys: seq<K>, vals: seq<V>): (r: map<K, V>)
    requires |keys| == |vals|
    ensures r.Keys == d.Keys + Elements(keys)
    decreases |keys|
  {
    if |keys| == 0 then d
    else
      var k := |keys| - 1;
      assert Elements(keys) == Elements(keys[..k]) + {keys[k]} by {
        assert forall i :: 0 <= i < k ==> keys[..k][i] == keys[i];
      }
      Overwrite(d, keys[..k], vals[..k])[keys[k] := vals[k]]
  }

  /** A key no write mentions keeps the value it had in d. */
  lemma {:induction false} OverwriteUnwritten<K, V>(d: map<K, V>, keys: seq<K>, vals: seq<V>, n: K)
    requires |keys| == |vals| && n in d && n !in keys
    ensures n in Overwrite(d, keys, vals) && Overwrite(d, keys, vals)[n] == d[n]
  {
    if |keys| > 0 {
      var k := |keys| - 1;
      assert n !in keys[..k] by {
        forall m | 0 <= m < k ensures keys[..k][m] != n {
          assert keys[..k][m] == keys[m];
        }
      }
      OverwriteUnwritten(d, keys[..k], vals[..k], n);
    }
  }

  /** The last write to a key decides its value. */
  lemma {:induction false} OverwriteLast<K, V>(d: map<K, V>, keys: seq<K>, vals: seq<V>, i: nat)
    requires |keys| == |vals| && i < |keys| && LastOf(keys, i)
    ensures keys[i] in Overwrite(d, keys, vals) && Overwrite(d, keys, vals)[keys[i]] == vals[i]
  {
    var k := |keys| - 1;
    var prev := Overwrite(d, keys[..k], vals[..k]);
    assert Overwrite(d, keys, vals) == prev[keys[k] := vals[k]];
    if i < k {
      assert LastOf(keys[..k], i) by {
        assert forall j :: i < j < k ==> keys[..k][j] == keys[j];
      }
      OverwriteLast(d, keys[..k], vals[..k], i);
      assert keys[..k][i] == keys[i] && vals[..k][i] == vals[i];
      assert keys[k] != keys[i];
    }
  }

  /** Every value in the result was in d or was written. */
  lemma OverwriteValues<K, V>(d: map<K, V>, keys: seq<K>, vals: seq<V>, n: K)
    requires |keys| == |vals| && n in Overwrite(d, keys, vals)
    ensures (n in d && Overwrite(d, keys, vals)[n] == d[n]) || exists i :: 0 <= i < |vals| && Overwrite(d, keys, vals)[n] == vals[i]
  {
    if n in keys {
      var i := LastOfExists(keys, n);
      OverwriteLast(d, keys, vals, i);
    } else {
      assert n !in Elements(keys);
      OverwriteUnwritten(d, keys, vals, n);
    }
  }

  /** Every key written has a last write. */
  lemma {:induction false} LastOfExists<K>(keys: seq<K>, n: K) returns (i: nat)
    requires n in keys
    ensures i < |keys| && keys[i] == n && LastOf(keys, i)
  {
    var k := |keys| - 1;
    if keys[k] == n {
      i := k;
    } else {
      assert n in keys[..k] by {
        var m :| 0 <= m < |keys| && keys[m] == n;
        assert m < k && keys[..k][m] == n;
      }
      i := LastOfExists(keys[..k], n);
    }
  }
}
