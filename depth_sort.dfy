/** The order in which areas are deleted: the area entries sorted by the
    number of slashes in their hierarchy, largest first. Python's sort is
    stable, also when reversed, so the result is ordered by non-increasing
    slash count with ties in their old order. */
module DepthSort {
  import opened Records
  import opened OrderedDict

  type Item = (string, SiteValue)

  /** The number of slashes in `s`. */
  function SlashCount(s: string): nat {
    if s == [] then 0 else (if s[0] == '/' then 1 else 0) + SlashCount(s[1..])
  }

  /** The slash count is the multiplicity of `/` among the characters. */
  lemma {:induction false} SlashCountIsMultiplicity(s: string)
    ensures SlashCount(s) == multiset(s)['/']
  {
    if s != [] {
      assert s == [s[0]] + s[1..];
      SlashCountIsMultiplicity(s[1..]);
    }
  }

  lemma {:induction false} SlashCountAppend(a: string, b: string)
    ensures SlashCount(a + b) == SlashCount(a) + SlashCount(b)
  {
    if a == [] {
      assert a + b == b;
    } else {
      assert (a + b)[0] == a[0] && (a + b)[1..] == a[1..] + b;
      SlashCountAppend(a[1..], b);
    }
  }

  /** The sort key of an area: the slash count of its hierarchy. */
  function Depth(e: Item): nat {
    SlashCount(e.0)
  }

  ghost predicate DeepestFirst(s: seq<Item>) {
    forall i, j :: 0 <= i < j < |s| ==> Depth(s[i]) >= Depth(s[j])
  }

  /** Places `x` in front of the first item of `s` that is not deeper than it. */
  function Insert(x: Item, s: seq<Item>): (r: seq<Item>)
    requires DeepestFirst(s)
    ensures DeepestFirst(r)
    ensures multiset(r) == multiset(s) + multiset{x}
    ensures r[0] == x || (s != [] && r[0] == s[0])
  {
    if s == [] || Depth(s[0]) <= Depth(x) then
      ConsDeepestFirst(x, s);
      [x] + s
    else
      DeepestFirstTail(s);
      var r' := Insert(x, s[1..]);
      ConsDeepestFirst(s[0], r');
      assert s == [s[0]] + s[1..];
      [s[0]] + r'
  }

  lemma DeepestFirstTail(s: seq<Item>)
    requires s != [] && DeepestFirst(s)
    ensures DeepestFirst(s[1..])
    ensures |s| > 1 ==> Depth(s[0]) >= Depth(s[1])
  {
    forall i, j | 0 <= i < j < |s| - 1 ensures Depth(s[1..][i]) >= Depth(s[1..][j]) {
      assert s[1..][i] == s[i + 1] && s[1..][j] == s[j + 1];
    }
  }

  /** Putting an item in front of a deepest-first sequence whose head is not
      deeper keeps it deepest-first. */
  lemma ConsDeepestFirst(e: Item, t: seq<Item>)
    requires DeepestFirst(t)
    requires t != [] ==> Depth(e) >= Depth(t[0])
    ensures DeepestFirst([e] + t)
  {
    var r := [e] + t;
    forall i, j | 0 <= i < j < |r| ensures Depth(r[i]) >= Depth(r[j]) {
      if i == 0 {
        assert r[j] == t[j - 1];
      } else {
        assert r[i] == t[i - 1] && r[j] == t[j - 1];
      }
    }
  }

  /** The stable sort by non-increasing depth (an insertion sort). */
  function SortByDepth(s: seq<Item>): (r: seq<Item>)
    ensures DeepestFirst(r)
    ensures multiset(r) == multiset(s)
  {
    if s == [] then []
    else
      assert s == [s[0]] + s[1..];
      Insert(s[0], SortByDepth(s[1..]))
  }

  /** The items of depth `n`, in order. */
  function AtDepth(s: seq<Item>, n: nat): (r: seq<Item>)
    ensures forall e :: e in r <==> e in s && Depth(e) == n
  {
    if s == [] then []
    else (if Depth(s[0]) == n then [s[0]] else []) + AtDepth(s[1..], n)
  }

  lemma {:induction false} InsertAtDepth(x: Item, s: seq<Item>, n: nat)
    requires DeepestFirst(s)
    ensures AtDepth(Insert(x, s), n) == if Depth(x) == n then [x] + AtDepth(s, n) else AtDepth(s, n)
  {
    if s == [] || Depth(s[0]) <= Depth(x) {
      assert Insert(x, s) == [x] + s;
      AtDepthCons(x, s, n);
    } else {
      DeepestFirstTail(s);
      var r' := Insert(x, s[1..]);
      assert Insert(x, s) == [s[0]] + r';
      AtDepthCons(s[0], r', n);
      AtDepthCons(s[0], s[1..], n);
      assert [s[0]] + s[1..] == s;
      InsertAtDepth(x, s[1..], n);
    }
  }

  lemma AtDepthCons(y: Item, s: seq<Item>, n: nat)
    ensures AtDepth([y] + s, n) == (if Depth(y) == n then [y] else []) + AtDepth(s, n)
  {
    assert ([y] + s)[1..] == s;
  }

  /** Stability: items of equal depth keep their relative order. */
  lemma {:induction false} SortIsStable(s: seq<Item>, n: nat)
    ensures AtDepth(SortByDepth(s), n) == AtDepth(s, n)
  {
    if s != [] {
      SortIsStable(s[1..], n);
      InsertAtDepth(s[0], SortByDepth(s[1..]), n);
      AtDepthCons(s[0], s[1..], n);
      assert [s[0]] + s[1..] == s;
    }
  }

  /** `d` is a path below `a`: `a`, a `/`, and possibly more segments. */
  predicate NestedUnder(d: string, a: string) {
    |a| < |d| && d[..|a|] == a && d[|a|] == '/'
  }

  /** A path below another has more slashes. */
  lemma NestedIsDeeper(d: string, a: string)
    requires NestedUnder(d, a)
    ensures SlashCount(d) > SlashCount(a)
  {
    var rest := d[|a| + 1..];
    assert d == a + "/" + rest;
    SlashCountAppend(a + "/", rest);
    SlashCountAppend(a, "/");
  }

  /** In a deepest-first order, an area below another one comes first. */
  lemma DescendantFirst(s: seq<Item>, i: nat, j: nat)
    requires DeepestFirst(s)
    requires i < |s| && j < |s|
    requires NestedUnder(s[j].0, s[i].0)
    ensures j < i
  {
    NestedIsDeeper(s[j].0, s[i].0);
  }

  lemma {:induction false} InsertKeepsKeysDistinct(x: Item, s: seq<Item>)
    requires DeepestFirst(s) && DistinctKeys(s)
    requires forall e :: e in s ==> e.0 != x.0
    ensures DistinctKeys(Insert(x, s))
  {
    if s != [] && Depth(s[0]) > Depth(x) {
      var r' := Insert(x, s[1..]);
      InsertKeepsKeysDistinct(x, s[1..]);
      forall j | 0 <= j < |r'| ensures r'[j].0 != s[0].0 {
        assert r'[j] in multiset(r');
      }
      ConsDistinct(s[0], r');
    } else {
      ConsDistinct(x, s);
    }
  }

  /** Sorting a dictionary's items keeps their keys distinct. */
  lemma {:induction false} SortKeepsKeysDistinct(s: seq<Item>)
    requires DistinctKeys(s)
    ensures DistinctKeys(SortByDepth(s))
  {
    if s != [] {
      var r' := SortByDepth(s[1..]);
      SortKeepsKeysDistinct(s[1..]);
      forall e | e in r' ensures e.0 != s[0].0 {
        assert e in multiset(r');
      }
      InsertKeepsKeysDistinct(s[0], r');
    }
  }
}
