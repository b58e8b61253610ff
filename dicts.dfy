/**
  A Python `dict` from strings to strings, kept as an association list in
  insertion order, which is the order `dict.items()` reports.
 */
module Dicts {
  import opened Wrappers

  type Dict = seq<(string, string)>

  /** A dict never holds the same key twice. */
  predicate UniqueKeys(d: Dict)
  {
    forall i, j :: 0 <= i < j < |d| ==> d[i].0 != d[j].0
  }

  predicate HasKey(d: Dict, k: string)
  {
    exists i :: 0 <= i < |d| && d[i].0 == k
  }

  /** `d.get(k)`. */
  function Lookup(d: Dict, k: string): (r: Option<string>)
    ensures r.Some? <==> HasKey(d, k)
    ensures UniqueKeys(d) ==> forall i :: 0 <= i < |d| && d[i].0 == k ==> r == Some(d[i].1)
  {
    if d == [] then None
    else if d[0].0 == k then Some(d[0].1)
    else
      var r := Lookup(d[1..], k);
      assert forall i :: 1 <= i < |d| ==> d[i] == d[1..][i - 1];
      r
  }

  /** The position of key `k` in `d`. */
  function IndexOf(d: Dict, k: string): (i: nat)
    requires HasKey(d, k)
    ensures i < |d| && d[i].0 == k
  {
    if d[0].0 == k then 0
    else
      assert HasKey(d[1..], k) by {
        var j :| 0 <= j < |d| && d[j].0 == k;
        assert d[1..][j - 1] == d[j];
      }
      1 + IndexOf(d[1..], k)
  }

  /**
    `d[k] = v`: an existing key keeps its position and takes the new value,
    a new key goes at the end.
   */
  function Put(d: Dict, k: string, v: string): (r: Dict)
    requires UniqueKeys(d)
    ensures UniqueKeys(r)
    ensures Lookup(r, k) == Some(v)
    ensures forall k' :: k' != k ==> Lookup(r, k') == Lookup(d, k')
    ensures HasKey(d, k) ==> |r| == |d| && forall i :: 0 <= i < |d| ==> r[i].0 == d[i].0
    ensures !HasKey(d, k) ==> r == d + [(k, v)]
  {
    if HasKey(d, k) then
      var r := d[IndexOf(d, k) := (k, v)];
      PutLookup(d, r, k, v);
      r
    else
      var r := d + [(k, v)];
      PutLookup(d, r, k, v);
      r
  }

  lemma PutLookup(d: Dict, r: Dict, k: string, v: string)
    requires UniqueKeys(d)
    requires HasKey(d, k) ==> r == d[IndexOf(d, k) := (k, v)]
    requires !HasKey(d, k) ==> r == d + [(k, v)]
    ensures UniqueKeys(r)
    ensures Lookup(r, k) == Some(v)
    ensures forall k' :: k' != k ==> Lookup(r, k') == Lookup(d, k')
  {
    PutKeys(d, r, k, v);
    assert HasKey(r, k) by {
      if HasKey(d, k) { assert r[IndexOf(d, k)].0 == k; } else { assert r[|d|].0 == k; }
    }
    forall k' | k' != k ensures Lookup(r, k') == Lookup(d, k') {
      PutLookupOther(d, r, k, v, k');
    }
  }

  lemma PutKeys(d: Dict, r: Dict, k: string, v: string)
    requires UniqueKeys(d)
    requires HasKey(d, k) ==> r == d[IndexOf(d, k) := (k, v)]
    requires !HasKey(d, k) ==> r == d + [(k, v)]
    ensures UniqueKeys(r)
  {
    if !HasKey(d, k) {
      forall i | 0 <= i < |d| ensures r[i].0 != r[|d|].0 {
        assert r[i] == d[i];
      }
    }
  }

  lemma PutLookupOther(d: Dict, r: Dict, k: string, v: string, k': string)
    requires UniqueKeys(d) && UniqueKeys(r) && k' != k
    requires HasKey(d, k) ==> r == d[IndexOf(d, k) := (k, v)]
    requires !HasKey(d, k) ==> r == d + [(k, v)]
    ensures Lookup(r, k') == Lookup(d, k')
  {
    if HasKey(d, k') {
      var i :| 0 <= i < |d| && d[i].0 == k';
      assert r[i] == d[i];
    } else {
      forall i | 0 <= i < |r| ensures r[i].0 != k' {
        if i < |d| && r[i] != d[i] {
          assert r[i].0 == k;
        }
      }
    }
  }

  /** `for k, v in pairs: d[k] = v`. */
  function PutAll(d: Dict, pairs: seq<(string, string)>): (r: Dict)
    requires UniqueKeys(d)
    ensures UniqueKeys(r)
    decreases |pairs|
  {
    if pairs == [] then d else PutAll(Put(d, pairs[0].0, pairs[0].1), pairs[1..])
  }

  /** No pair of `pairs` assigns key `k`. */
  predicate KeyAbsent(k: string, pairs: seq<(string, string)>)
  {
    forall j :: 0 <= j < |pairs| ==> pairs[j].0 != k
  }

  /** On a duplicate key the last assignment wins. */
  lemma {:induction false} PutAllLastWins(d: Dict, pairs: seq<(string, string)>, i: nat)
    requires UniqueKeys(d)
    requires i < |pairs| && KeyAbsent(pairs[i].0, pairs[i + 1..])
    ensures Lookup(PutAll(d, pairs), pairs[i].0) == Some(pairs[i].1)
    decreases |pairs|
  {
    var d' := Put(d, pairs[0].0, pairs[0].1);
    var tail := pairs[1..];
    if i > 0 {
      assert tail[i - 1] == pairs[i] && tail[i..] == pairs[i + 1..];
      PutAllLastWins(d', tail, i - 1);
    } else {
      PutAllUntouched(d', tail, pairs[0].0);
    }
  }

  /** A key no pair assigns keeps its old value. */
  lemma {:induction false} PutAllUntouched(d: Dict, pairs: seq<(string, string)>, k: string)
    requires UniqueKeys(d) && KeyAbsent(k, pairs)
    ensures Lookup(PutAll(d, pairs), k) == Lookup(d, k)
    decreases |pairs|
  {
    if pairs != [] {
      assert pairs[0].0 != k;
      assert KeyAbsent(k, pairs[1..]) by {
        forall j | 0 <= j < |pairs| - 1 ensures pairs[1..][j].0 != k {
          assert pairs[1..][j] == pairs[j + 1];
        }
      }
      PutAllUntouched(Put(d, pairs[0].0, pairs[0].1), pairs[1..], k);
    }
  }

  /** The assignments one at a time: one more pair is one more `Put`. */
  lemma {:induction false} PutAllSnoc(d: Dict, pairs: seq<(string, string)>, k: string, v: string)
    requires UniqueKeys(d)
    ensures PutAll(d, pairs + [(k, v)]) == Put(PutAll(d, pairs), k, v)
    decreases |pairs|
  {
    if pairs == [] {
      assert pairs + [(k, v)] == [(k, v)];
    } else {
      assert (pairs + [(k, v)])[1..] == pairs[1..] + [(k, v)];
      PutAllSnoc(Put(d, pairs[0].0, pairs[0].1), pairs[1..], k, v);
    }
  }

  /** Assigning pairs with distinct fresh keys appends them in order. */
  lemma {:induction false} PutAllFresh(d: Dict, pairs: seq<(string, string)>)
    requires UniqueKeys(d + pairs)
    ensures UniqueKeys(d) && PutAll(d, pairs) == d + pairs
    decreases |pairs|
  {
    assert forall i :: 0 <= i < |d| ==> d[i] == (d + pairs)[i];
    if pairs != [] {
      forall i | 0 <= i < |d| ensures d[i].0 != pairs[0].0 {
        assert (d + pairs)[i] == d[i] && (d + pairs)[|d|] == pairs[0];
      }
      assert d + [pairs[0]] + pairs[1..] == d + pairs;
      PutAllFresh(d + [pairs[0]], pairs[1..]);
    }
  }
}
