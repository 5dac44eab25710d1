/** A JavaScript `Map` keyed by strings: its entries in first-insertion
    order, each key at most once. Setting a key already present overwrites
    the value in place; a new key goes to the end. */
module JsMap {
  import opened Options

  predicate KeysUnique<V>(m: seq<(string, V)>) {
    forall i, j :: 0 <= i < j < |m| ==> m[i].0 != m[j].0
  }

  function Keys<V>(m: seq<(string, V)>): set<string> {
    set i | 0 <= i < |m| :: m[i].0
  }

  /** Where key `k` sits, or -1. */
  function IndexOf<V>(m: seq<(string, V)>, k: string): (i: int)
    ensures -1 <= i < |m|
    ensures i >= 0 ==> m[i].0 == k
    ensures i < 0 <==> k !in Keys(m)
    decreases |m|
  {
    if |m| == 0 then -1
    else if m[|m| - 1].0 == k then |m| - 1
    else
      KeysSnoc(m);
      IndexOf(m[..|m| - 1], k)
  }

  /** The keys of a non-empty map: those of all but the last entry, and the last. */
  lemma KeysSnoc<V>(m: seq<(string, V)>)
    requires |m| > 0
    ensures Keys(m) == Keys(m[..|m| - 1]) + {m[|m| - 1].0}
  {
    var init := m[..|m| - 1];
    forall x | x in Keys(m) ensures x in Keys(init) + {m[|m| - 1].0} {
      var j :| 0 <= j < |m| && m[j].0 == x;
      if j < |init| { assert init[j].0 == x; }
    }
    forall x | x in Keys(init) ensures x in Keys(m) {
      var j :| 0 <= j < |init| && init[j].0 == x;
      assert m[j].0 == x;
    }
  }

  /** `Map.prototype.get`: `None` for `undefined`. */
  function Get<V>(m: seq<(string, V)>, k: string): (r: Option<V>)
    ensures r.None? <==> k !in Keys(m)
  {
    var i := IndexOf(m, k);
    if i < 0 then None else Some(m[i].1)
  }

  /** A value found under `k` is the value of an entry with key `k`. */
  lemma GetIsEntry<V>(m: seq<(string, V)>, k: string)
    ensures Get(m, k).Some? ==> exists i :: 0 <= i < |m| && m[i] == (k, Get(m, k).value)
  {
    var i := IndexOf(m, k);
    if i >= 0 {
      assert m[i] == (k, Get(m, k).value);
    }
  }

  /** In a map, an entry's key finds that entry. */
  lemma GetAt<V>(m: seq<(string, V)>, i: int)
    requires KeysUnique(m) && 0 <= i < |m|
    ensures Get(m, m[i].0) == Some(m[i].1)
  {
  }

  /** `Map.prototype.set`. */
  function Set<V>(m: seq<(string, V)>, k: string, v: V): (r: seq<(string, V)>)
    requires KeysUnique(m)
    ensures KeysUnique(r)
    ensures Keys(r) == Keys(m) + {k}
    ensures Get(r, k) == Some(v)
    ensures forall k' :: k' != k ==> Get(r, k') == Get(m, k')
    ensures k in Keys(m) ==> |r| == |m| && forall i :: 0 <= i < |m| ==> r[i].0 == m[i].0
    ensures k !in Keys(m) ==> r == m + [(k, v)]
  {
    var i := IndexOf(m, k);
    if i >= 0 then
      var r := m[i := (k, v)];
      assert Keys(r) == Keys(m) by {
        forall x | x in Keys(m) ensures x in Keys(r) {
          var j :| 0 <= j < |m| && m[j].0 == x;
          assert r[j].0 == x;
        }
      }
      forall k' | k' != k ensures Get(r, k') == Get(m, k') {
        var j := IndexOf(m, k');
        if j >= 0 { GetAt(r, j); GetAt(m, j); }
      }
      GetAt(r, i);
      r
    else
      var r := m + [(k, v)];
      assert Keys(r) == Keys(m) + {k} by {
        assert r[|m|].0 == k;
        forall x | x in Keys(m) ensures x in Keys(r) {
          var j :| 0 <= j < |m| && m[j].0 == x;
          assert r[j].0 == x;
        }
      }
      forall k' | k' != k ensures Get(r, k') == Get(m, k') {
        var j := IndexOf(m, k');
        if j >= 0 { GetAt(r, j); GetAt(m, j); }
      }
      GetAt(r, |m|);
      r
  }

  /** The value the last entry with key `k` carries: what a `Map` built
      from `pairs` must hold under `k`. */
  function LastValue<V>(pairs: seq<(string, V)>, k: string): Option<V>
    decreases |pairs|
  {
    if |pairs| == 0 then None
    else if pairs[|pairs| - 1].0 == k then Some(pairs[|pairs| - 1].1)
    else LastValue(pairs[..|pairs| - 1], k)
  }

  /** `new Map(pairs)`: the entries set one after the other. */
  function FromEntries<V>(pairs: seq<(string, V)>): (r: seq<(string, V)>)
    ensures KeysUnique(r)
    ensures Keys(r) == Keys(pairs)
    ensures forall k :: Get(r, k) == LastValue(pairs, k)
    decreases |pairs|
  {
    if |pairs| == 0 then []
    else
      var init := pairs[..|pairs| - 1];
      var last := pairs[|pairs| - 1];
      KeysSnoc(pairs);
      Set(FromEntries(init), last.0, last.1)
  }

  /** The last entry with a key is one of the entries. */
  lemma {:induction false} LastValueIsEntry<V>(pairs: seq<(string, V)>, k: string)
    requires LastValue(pairs, k).Some?
    ensures exists i :: 0 <= i < |pairs| && pairs[i] == (k, LastValue(pairs, k).value)
    decreases |pairs|
  {
    if pairs[|pairs| - 1].0 != k {
      var init := pairs[..|pairs| - 1];
      LastValueIsEntry(init, k);
      var i :| 0 <= i < |init| && init[i] == (k, LastValue(init, k).value);
      assert pairs[i] == init[i];
    }
  }

  /** With distinct keys, every entry is the last one with its key. */
  lemma {:induction false} LastValueDistinct<V>(pairs: seq<(string, V)>, i: int)
    requires KeysUnique(pairs) && 0 <= i < |pairs|
    ensures LastValue(pairs, pairs[i].0) == Some(pairs[i].1)
    decreases |pairs|
  {
    if i < |pairs| - 1 {
      var init := pairs[..|pairs| - 1];
      LastValueDistinct(init, i);
    }
  }
}
