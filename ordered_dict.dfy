/** Python's insertion-ordered `dict`, as the cleanup script uses it: a
    sequence of key/value pairs whose keys are pairwise distinct. Assigning
    `d[k] = v` keeps the position of an existing key and appends a new one. */
module OrderedDict {

  type Dict<K, V> = seq<(K, V)>

  /** The position of the first pair of `d` (a dictionary, or any sequence of
      pairs) whose key is `k`, or `|d|` when there is none. */
  function Find<K(==), V>(d: seq<(K, V)>, k: K): (i: nat)
    ensures i <= |d|
    ensures i < |d| ==> d[i].0 == k
    ensures forall j :: 0 <= j < i ==> d[j].0 != k
  {
    if d == [] then 0
    else if d[0].0 == k then 0
    else 1 + Find(d[1..], k)
  }

  /** `k in d`. */
  predicate HasKey<K(==), V>(d: seq<(K, V)>, k: K) {
    Find(d, k) < |d|
  }

  ghost predicate DistinctKeys<K, V>(d: seq<(K, V)>) {
    forall i, j :: 0 <= i < j < |d| ==> d[i].0 != d[j].0
  }

  /** `d[k] = v`: an existing key keeps its position and takes the new value,
      a new key is appended. */
  function Put<K(==), V>(d: Dict<K, V>, k: K, v: V): (r: Dict<K, V>)
    requires DistinctKeys(d)
    ensures DistinctKeys(r)
    ensures HasKey(r, k) && r[Find(r, k)] == (k, v)
  {
    var i := Find(d, k);
    var r := if i < |d| then d[i := (k, v)] else d + [(k, v)];
    FindIsFirst(r, k, i);
    r
  }

  /** The dictionary left by `for k, v in ps: d[k] = v` run from `d = {}`. */
  function FromPairs<K(==), V>(ps: seq<(K, V)>): (d: Dict<K, V>)
    ensures DistinctKeys(d)
  {
    if ps == [] then [] else Put(FromPairs(ps[..|ps| - 1]), ps[|ps| - 1].0, ps[|ps| - 1].1)
  }

  /** A pair whose key no pair of `d` has can go in front of it. */
  lemma ConsDistinct<K, V>(p: (K, V), d: seq<(K, V)>)
    requires DistinctKeys(d)
    requires forall j :: 0 <= j < |d| ==> d[j].0 != p.0
    ensures DistinctKeys([p] + d)
  {
    var r := [p] + d;
    forall i, j | 0 <= i < j < |r| ensures r[i].0 != r[j].0 {
      assert r[j] == d[j - 1];
      if i > 0 {
        assert r[i] == d[i - 1];
      }
    }
  }

  /** `Find` is the first position holding the key. */
  lemma FindIsFirst<K, V>(d: seq<(K, V)>, k: K, i: nat)
    requires i < |d| && d[i].0 == k
    requires forall j :: 0 <= j < i ==> d[j].0 != k
    ensures Find(d, k) == i
  {
  }

  /** The keys after `d[k] = v` are the old keys and `k`. */
  lemma PutKeys<K, V>(d: Dict<K, V>, k: K, v: V, x: K)
    requires DistinctKeys(d)
    ensures HasKey(Put(d, k, v), x) <==> x == k || HasKey(d, x)
  {
    var r := Put(d, k, v);
    var i := Find(d, k);
    if HasKey(r, x) {
      var m := Find(r, x);
      if m < |d| && m != i {
        assert d[m].0 == x;
      }
    }
    if x != k && HasKey(d, x) {
      var m := Find(d, x);
      assert r[m].0 == x;
    }
  }

  /** `d[k] = v` leaves the position of every key already there alone. */
  lemma PutKeepsPosition<K, V>(d: Dict<K, V>, k: K, v: V, a: K)
    requires DistinctKeys(d)
    requires HasKey(d, a)
    ensures Find(Put(d, k, v), a) == Find(d, a)
  {
    var r := Put(d, k, v);
    var m := Find(d, a);
    assert r[m].0 == a;
    FindIsFirst(r, a, m);
  }

  /** `d[k] = v` leaves the entries of the other keys in place. */
  lemma PutKeepsEntry<K, V>(d: Dict<K, V>, k: K, v: V, e: (K, V))
    requires DistinctKeys(d)
    requires e in d && e.0 != k
    ensures e in Put(d, k, v)
  {
    var m :| 0 <= m < |d| && d[m] == e;
    assert Put(d, k, v)[m] == e;
  }

  /** Assigning one more pair is one more `Put`. */
  lemma FromPairsSnoc<K, V>(ps: seq<(K, V)>, p: (K, V))
    ensures FromPairs(ps + [p]) == Put(FromPairs(ps), p.0, p.1)
  {
    assert (ps + [p])[..|ps|] == ps;
  }

  /** A new key goes after all the others. */
  lemma PutAppendsNewKey<K, V>(d: Dict<K, V>, k: K, v: V)
    requires DistinctKeys(d)
    requires !HasKey(d, k)
    ensures Find(Put(d, k, v), k) == |d|
  {
    FindIsFirst(Put(d, k, v), k, |d|);
  }

  /** `d[k] = v` for a key not in `d` appends the pair. */
  lemma PutNewKey<K, V>(d: Dict<K, V>, k: K, v: V)
    requires DistinctKeys(d)
    requires forall j :: 0 <= j < |d| ==> d[j].0 != k
    ensures Put(d, k, v) == d + [(k, v)]
  {
  }

  /** Appending a pair leaves the first position of an earlier key alone,
      and a key not seen before is found at the appended pair. */
  lemma AppendFind<K, V>(ps: seq<(K, V)>, p: (K, V), k: K)
    ensures HasKey(ps, k) ==> Find(ps + [p], k) == Find(ps, k)
    ensures !HasKey(ps, k) ==> Find(ps + [p], k) == if p.0 == k then |ps| else |ps| + 1
  {
    var ps' := ps + [p];
    if HasKey(ps, k) {
      FindIsFirst(ps', k, Find(ps, k));
    } else if p.0 == k {
      FindIsFirst(ps', k, |ps|);
    } else {
      assert forall j :: 0 <= j < |ps'| ==> ps'[j].0 != k by {
        forall j | 0 <= j < |ps'| ensures ps'[j].0 != k {
          if j < |ps| {
            assert ps'[j] == ps[j];
          }
        }
      }
    }
  }

  /** Assigning `n` pairs leaves at most `n` entries. */
  lemma {:induction false} FromPairsLength<K, V>(ps: seq<(K, V)>)
    ensures |FromPairs(ps)| <= |ps|
  {
    if ps != [] {
      FromPairsLength(ps[..|ps| - 1]);
    }
  }

  /** A key is in the dictionary exactly when some pair assigned it. */
  lemma {:induction false} FromPairsKeys<K, V>(ps: seq<(K, V)>, k: K)
    ensures HasKey(FromPairs(ps), k) <==> HasKey(ps, k)
  {
    if ps != [] {
      var init, last := ps[..|ps| - 1], ps[|ps| - 1];
      assert ps == init + [last];
      FromPairsKeys(init, k);
      PutKeys(FromPairs(init), last.0, last.1, k);
      AppendFind(init, last, k);
    }
  }

  /** The value kept for a key is the one of the last pair that assigned it. */
  lemma {:induction false} LastWriteWins<K, V>(ps: seq<(K, V)>, i: nat)
    requires i < |ps|
    requires forall j :: i < j < |ps| ==> ps[j].0 != ps[i].0
    ensures ps[i] in FromPairs(ps)
  {
    var init, last := ps[..|ps| - 1], ps[|ps| - 1];
    var d := FromPairs(init);
    var r := FromPairs(ps);
    assert r == Put(d, last.0, last.1);
    if i < |ps| - 1 {
      LastWriteWins(init, i);
      var m :| 0 <= m < |d| && d[m] == ps[i];
      assert r[m] == ps[i];
    }
  }

  /** Keys keep the order in which they were first assigned. */
  lemma {:induction false} FirstAssignmentOrder<K, V>(ps: seq<(K, V)>, a: K, b: K)
    requires HasKey(ps, a) && HasKey(ps, b)
    ensures HasKey(FromPairs(ps), a) && HasKey(FromPairs(ps), b)
    ensures Find(FromPairs(ps), a) < Find(FromPairs(ps), b) <==> Find(ps, a) < Find(ps, b)
  {
    FromPairsKeys(ps, a);
    FromPairsKeys(ps, b);
    var init, last := ps[..|ps| - 1], ps[|ps| - 1];
    var d := FromPairs(init);
    assert ps == init + [last];
    assert FromPairs(ps) == Put(d, last.0, last.1);
    FromPairsKeys(init, a);
    FromPairsKeys(init, b);
    FromPairsKeys(init, last.0);
    AppendFind(init, last, a);
    AppendFind(init, last, b);
    if HasKey(init, a) {
      PutKeepsPosition(d, last.0, last.1, a);
    }
    if HasKey(init, b) {
      PutKeepsPosition(d, last.0, last.1, b);
    }
    if !HasKey(init, last.0) {
      PutAppendsNewKey(d, last.0, last.1);
    }
    if HasKey(init, a) && HasKey(init, b) {
      FirstAssignmentOrder(init, a, b);
    }
  }

  /** Every entry of the dictionary is one of the assigned pairs. */
  lemma {:induction false} FromPairsEntries<K, V>(ps: seq<(K, V)>, e: (K, V))
    requires e in FromPairs(ps)
    ensures e in ps
  {
    var init, last := ps[..|ps| - 1], ps[|ps| - 1];
    var d := FromPairs(init);
    var r := Put(d, last.0, last.1);
    assert r == FromPairs(ps);
    var m :| 0 <= m < |r| && r[m] == e;
    if e != last {
      assert m < |d| && d[m] == e;
      FromPairsEntries(init, e);
    }
  }
}
