/** The pool half of the cleanup: the name-keyed dictionary built from one
    pool listing and the order in which its pools are deleted. */
module PoolPlanner {
  import opened Records
  import opened OrderedDict
  import opened Remote

  /** The (name, id) assignments the pool loop makes into its dictionary,
      in listing order. */
  function PoolPairs(records: seq<PoolRecord>): (ps: seq<(string, string)>)
    ensures |ps| == |records|
    ensures forall i :: 0 <= i < |records| ==> ps[i] == (records[i].name, records[i].id)
  {
    if records == [] then []
    else PoolPairs(records[..|records| - 1]) + [(records[|records| - 1].name, records[|records| - 1].id)]
  }

  /** The map-building loop over a pool listing. */
  method BuildPoolMap(records: seq<PoolRecord>) returns (pools: Dict<string, string>)
    ensures pools == FromPairs(PoolPairs(records))
  {
    pools := [];
    for i := 0 to |records|
      invariant pools == FromPairs(PoolPairs(records[..i]))
    {
      assert records[..i + 1][..i] == records[..i];
      FromPairsSnoc(PoolPairs(records[..i]), (records[i].name, records[i].id));
      pools := Put(pools, records[i].name, records[i].id);
    }
    assert records[..|records|] == records;
  }

  /** The dictionary's entries in order, each a pool to delete from collection `kind`. */
  function PoolTargets(kind: Kind, pools: Dict<string, string>): (plan: seq<Target>)
    ensures |plan| == |pools|
    ensures forall i :: 0 <= i < |pools| ==> plan[i] == Target(kind, pools[i].0, pools[i].1)
  {
    if pools == [] then [] else [Target(kind, pools[0].0, pools[0].1)] + PoolTargets(kind, pools[1..])
  }

  /** The deletions one pool listing leads to: all in collection `kind`, and
      no more than there are listed pools (fewer when names repeat). */
  function PoolPlan(kind: Kind, records: seq<PoolRecord>): (plan: seq<Target>)
    ensures |plan| <= |records|
    ensures forall i :: 0 <= i < |plan| ==> plan[i].kind == kind
  {
    FromPairsLength(PoolPairs(records));
    PoolTargets(kind, FromPairs(PoolPairs(records)))
  }

  /** Every planned deletion is of a listed pool, in collection `kind`, and
      each name is planned once. */
  lemma PoolPlanEntries(kind: Kind, records: seq<PoolRecord>)
    ensures forall t :: t in PoolPlan(kind, records) ==> t.kind == kind && PoolRecord(t.name, t.id) in records
    ensures var plan := PoolPlan(kind, records);
      forall i, j :: 0 <= i < j < |plan| ==> plan[i].name != plan[j].name
  {
    var ps := PoolPairs(records);
    var pools := FromPairs(ps);
    forall t | t in PoolPlan(kind, records)
      ensures t.kind == kind && PoolRecord(t.name, t.id) in records
    {
      var m :| 0 <= m < |pools| && PoolPlan(kind, records)[m] == t;
      FromPairsEntries(ps, pools[m]);
      var i :| 0 <= i < |ps| && ps[i] == pools[m];
      assert records[i] == PoolRecord(t.name, t.id);
    }
  }

  /** Of several pools listed under one name, only the last one's id is
      deleted; every listed name is deleted under some id. */
  lemma PoolPlanLastIdWins(kind: Kind, records: seq<PoolRecord>, i: nat)
    requires i < |records|
    requires forall j :: i < j < |records| ==> records[j].name != records[i].name
    ensures Target(kind, records[i].name, records[i].id) in PoolPlan(kind, records)
  {
    var ps := PoolPairs(records);
    LastWriteWins(ps, i);
    var m :| 0 <= m < |FromPairs(ps)| && FromPairs(ps)[m] == ps[i];
    assert PoolPlan(kind, records)[m] == Target(kind, records[i].name, records[i].id);
  }

  /** Pools are deleted in the order in which their names first occur in
      the listing. */
  lemma PoolPlanOrder(kind: Kind, records: seq<PoolRecord>, a: string, b: string)
    requires HasKey(PoolPairs(records), a) && HasKey(PoolPairs(records), b)
    ensures var pools := FromPairs(PoolPairs(records));
      var plan := PoolPlan(kind, records);
      && Find(pools, a) < |plan| && plan[Find(pools, a)].name == a
      && Find(pools, b) < |plan| && plan[Find(pools, b)].name == b
      && (Find(pools, a) < Find(pools, b) <==> Find(PoolPairs(records), a) < Find(PoolPairs(records), b))
  {
    FirstAssignmentOrder(PoolPairs(records), a, b);
  }
}
