/** The site half of the cleanup: the dictionary keyed by `nameHierarchy`
    built from the sites listing, its split into floors, buildings and areas,
    and the resulting delete order. */
module SitePlanner {
  import opened Records
  import opened OrderedDict
  import opened DepthSort
  import opened Remote

  type SiteMap = Dict<string, SiteValue>

  const FLOOR := "floor"
  const BUILDING := "building"
  const AREA := "area"

  /** The record's hierarchy is truthy: present, not null, and of non-zero
      length. */
  predicate Kept(r: SiteRecord)
  {
    r.nameHierarchy.Some? && r.nameHierarchy.value != ""
  }

  /** The entry a kept record writes: its hierarchy maps to its id and type. */
  function Assignment(r: SiteRecord): (string, SiteValue)
    requires Kept(r)
  {
    (r.nameHierarchy.value, SiteValue(r.id, r.siteType))
  }

  /** The assignments the map-building loop performs, in listing order. */
  function SitePairs(records: seq<SiteRecord>): (ps: seq<(string, SiteValue)>)
    ensures |ps| <= |records|
    ensures forall i :: 0 <= i < |ps| ==> ps[i].0 != ""
    ensures forall p :: p in ps ==> exists r :: r in records && Kept(r) && p == Assignment(r)
  {
    if records == [] then []
    else
      var init, r := records[..|records| - 1], records[|records| - 1];
      assert forall q :: q in init ==> q in records;
      SitePairs(init) + (if Kept(r) then [Assignment(r)] else [])
  }

  /** One more listed record adds its assignment when it is kept. */
  lemma SitePairsSnoc(records: seq<SiteRecord>, r: SiteRecord)
    ensures Kept(r) ==> SitePairs(records + [r]) == SitePairs(records) + [Assignment(r)]
    ensures !Kept(r) ==> SitePairs(records + [r]) == SitePairs(records)
  {
    assert (records + [r])[..|records|] == records;
  }

  /** The dictionary the loop leaves. */
  function SiteMapOf(records: seq<SiteRecord>): SiteMap {
    FromPairs(SitePairs(records))
  }

  /** The map-building loop over the sites listing. */
  method BuildSiteMap(records: seq<SiteRecord>) returns (sites: SiteMap)
    ensures sites == SiteMapOf(records)
  {
    sites := [];
    for i := 0 to |records|
      invariant sites == FromPairs(SitePairs(records[..i]))
    {
      assert records[..i + 1] == records[..i] + [records[i]];
      SitePairsSnoc(records[..i], records[i]);
      if Kept(records[i]) {
        FromPairsSnoc(SitePairs(records[..i]), Assignment(records[i]));
        sites := Put(sites, records[i].nameHierarchy.value, SiteValue(records[i].id, records[i].siteType));
      }
    }
    assert records[..|records|] == records;
  }

  /** The first listing position whose hierarchy is `h`, or `|records|`. */
  function FirstListed(records: seq<SiteRecord>, h: string): (i: nat)
    ensures i <= |records|
    ensures i < |records| ==> records[i].nameHierarchy == Some(h)
    ensures forall j :: 0 <= j < i ==> records[j].nameHierarchy != Some(h)
  {
    if records == [] then 0
    else if records[0].nameHierarchy == Some(h) then 0
    else 1 + FirstListed(records[1..], h)
  }

  lemma FirstListedIs(records: seq<SiteRecord>, h: string, i: nat)
    requires i <= |records|
    requires i < |records| ==> records[i].nameHierarchy == Some(h)
    requires forall j :: 0 <= j < i ==> records[j].nameHierarchy != Some(h)
    ensures FirstListed(records, h) == i
  {
  }

  lemma FirstListedSnoc(records: seq<SiteRecord>, r: SiteRecord, h: string)
    ensures FirstListed(records, h) < |records| ==>
      FirstListed(records + [r], h) == FirstListed(records, h)
    ensures FirstListed(records, h) == |records| ==>
      FirstListed(records + [r], h) == if r.nameHierarchy == Some(h) then |records| else |records| + 1
  {
    var rs := records + [r];
    var i := FirstListed(records, h);
    forall j | 0 <= j < i ensures rs[j].nameHierarchy != Some(h) {
      assert rs[j] == records[j];
    }
    if i < |records| {
      assert rs[i] == records[i];
      FirstListedIs(rs, h, i);
    } else if r.nameHierarchy == Some(h) {
      FirstListedIs(rs, h, i);
    } else {
      FirstListedIs(rs, h, |rs|);
    }
  }

  /** The assignments name a hierarchy exactly when a kept record has it;
      the first such assignment stands where the first such record does. */
  lemma {:induction false} SitePairsFind(records: seq<SiteRecord>, h: string)
    requires h != ""
    ensures HasKey(SitePairs(records), h) <==> FirstListed(records, h) < |records|
  {
    if records != [] {
      var init, r := records[..|records| - 1], records[|records| - 1];
      assert records == init + [r];
      SitePairsSnoc(init, r);
      SitePairsFind(init, h);
      FirstListedSnoc(init, r, h);
      if Kept(r) {
        AppendFind(SitePairs(init), Assignment(r), h);
      }
    }
  }

  lemma {:induction false} SitePairsOrder(records: seq<SiteRecord>, a: string, b: string)
    requires a != "" && b != ""
    requires FirstListed(records, a) < |records| && FirstListed(records, b) < |records|
    ensures HasKey(SitePairs(records), a) && HasKey(SitePairs(records), b)
    ensures Find(SitePairs(records), a) < Find(SitePairs(records), b)
        <==> FirstListed(records, a) < FirstListed(records, b)
  {
    SitePairsFind(records, a);
    SitePairsFind(records, b);
    var init, r := records[..|records| - 1], records[|records| - 1];
    assert records == init + [r];
    SitePairsSnoc(init, r);
    var ps := SitePairs(init);
    FirstListedSnoc(init, r, a);
    FirstListedSnoc(init, r, b);
    SitePairsFind(init, a);
    SitePairsFind(init, b);
    if Kept(r) {
      AppendFind(ps, Assignment(r), a);
      AppendFind(ps, Assignment(r), b);
    }
    if FirstListed(init, a) < |init| && FirstListed(init, b) < |init| {
      SitePairsOrder(init, a, b);
    }
  }

  /** Records whose `nameHierarchy` is missing, null or empty never reach the
      dictionary; every other hierarchy does. */
  lemma SiteMapKeys(records: seq<SiteRecord>, h: string)
    ensures HasKey(SiteMapOf(records), h) <==>
      h != "" && exists i :: 0 <= i < |records| && records[i].nameHierarchy == Some(h)
  {
    FromPairsKeys(SitePairs(records), h);
    if h != "" {
      SitePairsFind(records, h);
      var i := FirstListed(records, h);
      if i < |records| {
        assert records[i].nameHierarchy == Some(h);
      }
    }
  }

  /** Records sharing a hierarchy collapse to one entry holding the last
      one's id and type. */
  lemma {:induction false} SiteMapLastWins(records: seq<SiteRecord>, i: nat)
    requires i < |records| && Kept(records[i])
    requires forall j :: i < j < |records| ==> records[j].nameHierarchy != records[i].nameHierarchy
    ensures Assignment(records[i]) in SiteMapOf(records)
  {
    var init, r := records[..|records| - 1], records[|records| - 1];
    assert records == init + [r];
    SitePairsSnoc(init, r);
    var ps := SitePairs(init);
    if Kept(r) {
      FromPairsSnoc(ps, Assignment(r));
    }
    if i < |records| - 1 {
      SiteMapLastWins(init, i);
      if Kept(r) {
        PutKeepsEntry(FromPairs(ps), Assignment(r).0, Assignment(r).1, Assignment(records[i]));
      }
    }
  }

  /** Entries stand in the order of the first record listed with each
      hierarchy. */
  lemma SiteMapFirstPosition(records: seq<SiteRecord>, a: string, b: string)
    requires HasKey(SiteMapOf(records), a) && HasKey(SiteMapOf(records), b)
    ensures Find(SiteMapOf(records), a) < Find(SiteMapOf(records), b)
        <==> FirstListed(records, a) < FirstListed(records, b)
  {
    SiteMapKeys(records, a);
    SiteMapKeys(records, b);
    SitePairsOrder(records, a, b);
    FirstAssignmentOrder(SitePairs(records), a, b);
  }

  /** Every entry of the dictionary is the assignment of a listed record. */
  lemma SiteMapEntries(records: seq<SiteRecord>, e: (string, SiteValue))
    requires e in SiteMapOf(records)
    ensures exists r :: r in records && Kept(r) && e == Assignment(r)
  {
    FromPairsEntries(SitePairs(records), e);
  }

  /** The entries of `sites` whose type is `siteType`, in dictionary order. */
  function Bucket(sites: SiteMap, siteType: string): (b: SiteMap)
    ensures forall e :: e in b <==> e in sites && e.1.siteType == siteType
  {
    if sites == [] then []
    else (if sites[0].1.siteType == siteType then [sites[0]] else []) + Bucket(sites[1..], siteType)
  }

  /** A bucket keeps the dictionary's order: bucketing distributes over
      concatenation. */
  lemma {:induction false} BucketKeepsOrder(a: SiteMap, b: SiteMap, siteType: string)
    ensures Bucket(a + b, siteType) == Bucket(a, siteType) + Bucket(b, siteType)
  {
    if a == [] {
      assert a + b == b;
    } else {
      assert (a + b)[0] == a[0] && (a + b)[1..] == a[1..] + b;
      BucketKeepsOrder(a[1..], b, siteType);
    }
  }

  lemma {:induction false} BucketKeepsKeysDistinct(sites: SiteMap, siteType: string)
    requires DistinctKeys(sites)
    ensures DistinctKeys(Bucket(sites, siteType))
  {
    if sites != [] {
      var rest := Bucket(sites[1..], siteType);
      BucketKeepsKeysDistinct(sites[1..], siteType);
      if sites[0].1.siteType == siteType {
        forall j | 0 <= j < |rest| ensures rest[j].0 != sites[0].0 {
          assert rest[j] in sites[1..];
        }
        ConsDistinct(sites[0], rest);
      } else {
        assert Bucket(sites, siteType) == rest;
      }
    }
  }

  /** The DELETE targets of a bucket, in its order. */
  function SiteTargets(kind: Kind, items: SiteMap): (plan: seq<Target>)
    ensures |plan| == |items|
    ensures forall i :: 0 <= i < |items| ==> plan[i] == Target(kind, items[i].0, items[i].1.id)
  {
    if items == [] then [] else [Target(kind, items[0].0, items[0].1.id)] + SiteTargets(kind, items[1..])
  }

  /** The order of the three DELETE loops over a sites dictionary: every
      floor, then every building, then the areas deepest first. */
  function SitePlan(sites: SiteMap): (plan: seq<Target>)
    ensures |plan| == |Bucket(sites, FLOOR)| + |Bucket(sites, BUILDING)| + |Bucket(sites, AREA)|
  {
    var areas := Bucket(sites, AREA);
    assert |SortByDepth(areas)| == |multiset(SortByDepth(areas))| == |multiset(areas)| == |areas|;
    SiteTargets(Floor, Bucket(sites, FLOOR))
      + SiteTargets(Building, Bucket(sites, BUILDING))
      + SiteTargets(Area, SortByDepth(Bucket(sites, AREA)))
  }

  /** The `type` value a site collection holds. */
  function SiteType(kind: Kind): string {
    match kind
    case Floor => FLOOR
    case Building => BUILDING
    case Area => AREA
    case _ => ""
  }

  predicate IsSiteKind(kind: Kind) {
    kind == Floor || kind == Building || kind == Area
  }

  /** The rank of a collection's loop in the delete order. */
  function Phase(kind: Kind): nat {
    match kind
    case Floor => 0
    case Building => 1
    case _ => 2
  }

  /** Floors come first, then buildings, then areas; nothing else is deleted. */
  lemma SitePlanPhases(sites: SiteMap)
    ensures var plan := SitePlan(sites);
      && (forall t :: t in plan ==> IsSiteKind(t.kind))
      && (forall i, j :: 0 <= i < j < |plan| ==> Phase(plan[i].kind) <= Phase(plan[j].kind))
  {
    var plan := SitePlan(sites);
    forall i | 0 <= i < |plan| ensures plan[i].kind == PhaseKind(sites, i) {
      SitePlanKindAt(sites, i);
    }
  }

  /** The collection of the loop that plan position `i` falls in. */
  function PhaseKind(sites: SiteMap, i: nat): Kind {
    var nf, nb := |Bucket(sites, FLOOR)|, |Bucket(sites, BUILDING)|;
    if i < nf then Floor else if i < nf + nb then Building else Area
  }

  lemma SitePlanKindAt(sites: SiteMap, i: nat)
    requires i < |SitePlan(sites)|
    ensures SitePlan(sites)[i].kind == PhaseKind(sites, i)
  {
    SitePlanAt(sites, i);
  }

  /** Position `i` of the plan, read off the loop it falls in. */
  lemma SitePlanAt(sites: SiteMap, i: nat)
    requires i < |SitePlan(sites)|
    ensures var nf, nb := |Bucket(sites, FLOOR)|, |Bucket(sites, BUILDING)|;
      var sorted := SortByDepth(Bucket(sites, AREA));
      SitePlan(sites)[i] ==
        if i < nf then SiteTargets(Floor, Bucket(sites, FLOOR))[i]
        else if i < nf + nb then SiteTargets(Building, Bucket(sites, BUILDING))[i - nf]
        else SiteTargets(Area, sorted)[i - nf - nb]
  {
    var pf := SiteTargets(Floor, Bucket(sites, FLOOR));
    var pb := SiteTargets(Building, Bucket(sites, BUILDING));
    var pa := SiteTargets(Area, SortByDepth(Bucket(sites, AREA)));
    var plan := pf + pb + pa;
    if i < |pf| {
      assert plan[i] == pf[i];
    } else if i < |pf| + |pb| {
      assert plan[i] == pb[i - |pf|];
    } else {
      assert plan[i] == pa[i - |pf| - |pb|];
    }
  }

  /** The collection a site of the given `type` is deleted from (only
      floors, buildings and areas are ever planned). */
  function KindOf(siteType: string): Kind
    requires IsPlannedType(siteType)
  {
    if siteType == FLOOR then Floor else if siteType == BUILDING then Building else Area
  }

  predicate IsPlannedType(siteType: string) {
    siteType == FLOOR || siteType == BUILDING || siteType == AREA
  }

  /** The dictionary entries in the order the three loops visit them. */
  function PlanItems(sites: SiteMap): SiteMap {
    Bucket(sites, FLOOR) + Bucket(sites, BUILDING) + SortByDepth(Bucket(sites, AREA))
  }

  /** Plan entry `i` deletes item `i` from its type's collection. */
  lemma SitePlanFollowsItems(sites: SiteMap)
    ensures |SitePlan(sites)| == |PlanItems(sites)|
    ensures forall i :: 0 <= i < |PlanItems(sites)| ==>
      var e := PlanItems(sites)[i];
      IsPlannedType(e.1.siteType) && SitePlan(sites)[i] == Target(KindOf(e.1.siteType), e.0, e.1.id)
  {
    var floors, buildings, areas := Bucket(sites, FLOOR), Bucket(sites, BUILDING), Bucket(sites, AREA);
    var sorted := SortByDepth(areas);
    var items := PlanItems(sites);
    forall i | 0 <= i < |items|
      ensures IsPlannedType(items[i].1.siteType)
      ensures SitePlan(sites)[i] == Target(KindOf(items[i].1.siteType), items[i].0, items[i].1.id)
    {
      if i < |floors| {
        assert items[i] == floors[i] && floors[i] in floors;
      } else if i < |floors| + |buildings| {
        assert items[i] == buildings[i - |floors|] && buildings[i - |floors|] in buildings;
      } else {
        var k := i - |floors| - |buildings|;
        assert items[i] == sorted[k] && sorted[k] in multiset(areas);
      }
    }
  }

  /** The loops visit exactly the floor, building and area entries. */
  lemma PlanItemsMembers(sites: SiteMap)
    ensures forall e :: e in PlanItems(sites) <==> e in sites && IsPlannedType(e.1.siteType)
  {
    var areas := Bucket(sites, AREA);
    assert forall e :: e in SortByDepth(areas) <==> e in multiset(areas);
  }

  /** Two sequences with distinct keys and no key in common concatenate to
      one with distinct keys. */
  lemma ConcatDistinct(a: SiteMap, b: SiteMap)
    requires DistinctKeys(a) && DistinctKeys(b)
    requires forall x, y :: x in a && y in b ==> x.0 != y.0
    ensures DistinctKeys(a + b)
  {
    var r := a + b;
    forall i, j | 0 <= i < j < |r| ensures r[i].0 != r[j].0 {
      if j >= |a| {
        assert r[j] == b[j - |a|];
        if i < |a| {
          assert r[i] in a && r[j] in b;
        } else {
          assert r[i] == b[i - |a|];
        }
      }
    }
  }

  /** Buckets of two different types share no key. */
  lemma BucketsDisjoint(sites: SiteMap, s: string, u: string)
    requires DistinctKeys(sites) && s != u
    ensures forall x, y :: x in Bucket(sites, s) && y in Bucket(sites, u) ==> x.0 != y.0
  {
    forall x, y | x in Bucket(sites, s) && y in Bucket(sites, u) ensures x.0 != y.0 {
      if x.0 == y.0 {
        SameKeySameEntry(sites, x, y);
      }
    }
  }

  /** Two entries of a dictionary with the same key are the same entry. */
  lemma SameKeySameEntry(sites: SiteMap, e1: (string, SiteValue), e2: (string, SiteValue))
    requires DistinctKeys(sites)
    requires e1 in sites && e2 in sites && e1.0 == e2.0
    ensures e1 == e2
  {
  }

  /** No key is visited twice. */
  lemma PlanItemsDistinct(sites: SiteMap)
    requires DistinctKeys(sites)
    ensures DistinctKeys(PlanItems(sites))
  {
    var floors, buildings, areas := Bucket(sites, FLOOR), Bucket(sites, BUILDING), Bucket(sites, AREA);
    var sorted := SortByDepth(areas);
    BucketKeepsKeysDistinct(sites, FLOOR);
    BucketKeepsKeysDistinct(sites, BUILDING);
    BucketKeepsKeysDistinct(sites, AREA);
    SortKeepsKeysDistinct(areas);
    BucketsDisjoint(sites, FLOOR, BUILDING);
    ConcatDistinct(floors, buildings);
    BucketsDisjoint(sites, FLOOR, AREA);
    BucketsDisjoint(sites, BUILDING, AREA);
    assert forall y :: y in sorted <==> y in multiset(areas);
    ConcatDistinct(floors + buildings, sorted);
  }

  /** `KindOf` and `SiteType` are inverse on the three planned types. */
  lemma KindOfSiteType(kind: Kind)
    requires IsSiteKind(kind)
    ensures IsPlannedType(SiteType(kind)) && KindOf(SiteType(kind)) == kind
  {
  }

  lemma SiteTypeOfKind(siteType: string)
    requires IsPlannedType(siteType)
    ensures IsSiteKind(KindOf(siteType)) && SiteType(KindOf(siteType)) == siteType
  {
  }

  /** Only floor, building and area entries of the dictionary are planned,
      each under its own collection and id. */
  lemma SitePlanSound(sites: SiteMap, t: Target)
    requires t in SitePlan(sites)
    ensures IsSiteKind(t.kind) && (t.name, SiteValue(t.id, SiteType(t.kind))) in sites
  {
    var items := PlanItems(sites);
    var plan := SitePlan(sites);
    SitePlanFollowsItems(sites);
    var m :| 0 <= m < |plan| && plan[m] == t;
    assert items[m] in items;
    PlanItemsMembers(sites);
    SiteTypeOfKind(items[m].1.siteType);
  }

  /** Every floor, building and area entry of the dictionary is planned. */
  lemma SitePlanComplete(sites: SiteMap, t: Target)
    requires IsSiteKind(t.kind) && (t.name, SiteValue(t.id, SiteType(t.kind))) in sites
    ensures t in SitePlan(sites)
  {
    var items := PlanItems(sites);
    var e := (t.name, SiteValue(t.id, SiteType(t.kind)));
    KindOfSiteType(t.kind);
    PlanItemsMembers(sites);
    assert e in items;
    var m :| 0 <= m < |items| && items[m] == e;
    SitePlanFollowsItems(sites);
    assert SitePlan(sites)[m] == t;
  }

  /** Each planned site is deleted once: no name is planned twice. */
  lemma SitePlanOnce(sites: SiteMap)
    requires DistinctKeys(sites)
    ensures var plan := SitePlan(sites);
      forall i, j :: 0 <= i < j < |plan| ==> plan[i].name != plan[j].name
  {
    SitePlanFollowsItems(sites);
    PlanItemsDistinct(sites);
  }

  /** An area below another area is deleted before it. */
  lemma SitePlanDescendantFirst(sites: SiteMap)
    ensures var plan := SitePlan(sites);
      forall i, j ::
        (0 <= i < |plan| && 0 <= j < |plan| && plan[i].kind == Area && plan[j].kind == Area &&
         NestedUnder(plan[j].name, plan[i].name)) ==> j < i
  {
    var plan := SitePlan(sites);
    SitePlanAreasDeepestFirst(sites);
    forall i, j | 0 <= i < |plan| && 0 <= j < |plan| && plan[i].kind == Area && plan[j].kind == Area &&
        NestedUnder(plan[j].name, plan[i].name)
      ensures j < i
    {
      AreaBeforeAncestor(plan, i, j);
    }
  }

  /** In a plan whose areas are deepest first, an area below another one
      comes first. */
  lemma AreaBeforeAncestor(plan: seq<Target>, i: nat, j: nat)
    requires forall p, q :: 0 <= p < q < |plan| && plan[p].kind == Area && plan[q].kind == Area ==>
      SlashCount(plan[p].name) >= SlashCount(plan[q].name)
    requires i < |plan| && j < |plan| && plan[i].kind == Area && plan[j].kind == Area
    requires NestedUnder(plan[j].name, plan[i].name)
    ensures j < i
  {
    NestedIsDeeper(plan[j].name, plan[i].name);
  }

  /** The areas of the plan are ordered by non-increasing slash count. */
  lemma SitePlanAreasDeepestFirst(sites: SiteMap)
    ensures var plan := SitePlan(sites);
      forall p, q :: 0 <= p < q < |plan| && plan[p].kind == Area && plan[q].kind == Area ==>
        SlashCount(plan[p].name) >= SlashCount(plan[q].name)
  {
    var plan := SitePlan(sites);
    var sorted := SortByDepth(Bucket(sites, AREA));
    var o := |Bucket(sites, FLOOR)| + |Bucket(sites, BUILDING)|;
    forall p, q | 0 <= p < q < |plan| && plan[p].kind == Area && plan[q].kind == Area
      ensures SlashCount(plan[p].name) >= SlashCount(plan[q].name)
    {
      SitePlanAreaAt(sites, p);
      SitePlanAreaAt(sites, q);
      assert Depth(sorted[p - o]) >= Depth(sorted[q - o]);
    }
  }

  /** An area of the plan sits in the last loop, at its position in the
      sorted areas. */
  lemma SitePlanAreaAt(sites: SiteMap, i: nat)
    requires i < |SitePlan(sites)|
    ensures var o := |Bucket(sites, FLOOR)| + |Bucket(sites, BUILDING)|;
      var sorted := SortByDepth(Bucket(sites, AREA));
      SitePlan(sites)[i].kind == Area ==> o <= i < o + |sorted| && SitePlan(sites)[i].name == sorted[i - o].0
  {
    SitePlanAt(sites, i);
  }

  /** Records without a usable `nameHierarchy` plan nothing: when no record
      has one, the plan is empty. */
  lemma NoHierarchyNoPlan(records: seq<SiteRecord>)
    requires forall r :: r in records ==> !Kept(r)
    ensures SitePlan(SiteMapOf(records)) == []
  {
    NoHierarchyNoPairs(records);
  }

  lemma {:induction false} NoHierarchyNoPairs(records: seq<SiteRecord>)
    requires forall r :: r in records ==> !Kept(r)
    ensures SitePairs(records) == []
  {
    if records != [] {
      var init, last := records[..|records| - 1], records[|records| - 1];
      assert records == init + [last];
      SitePairsSnoc(init, last);
      NoHierarchyNoPairs(init);
    }
  }

  /** The three site types are distinct strings. */
  lemma SiteTypesDistinct()
    ensures FLOOR != BUILDING && FLOOR != AREA && BUILDING != AREA
  {
    assert FLOOR[0] != BUILDING[0] && FLOOR[0] != AREA[0] && BUILDING[0] != AREA[0];
  }

  /** Stage one of the example below: the sites dictionary. */
  lemma ExampleSiteMap(r1: SiteRecord, r2: SiteRecord, r3: SiteRecord)
    requires r1 == SiteRecord(Some("Global/Area1"), "a1", AREA)
    requires r2 == SiteRecord(Some("Global/Area1/Area2"), "a2", AREA)
    requires r3 == SiteRecord(Some("Global/Area1/B1"), "b1", BUILDING)
    ensures SiteMapOf([r1, r2, r3]) == [Assignment(r1), Assignment(r2), Assignment(r3)]
  {
    var e1, e2, e3 := Assignment(r1), Assignment(r2), Assignment(r3);
    SitePairsSnoc([], r1);
    SitePairsSnoc([r1], r2);
    SitePairsSnoc([r1, r2], r3);
    assert SitePairs([r1, r2, r3]) == [e1, e2, e3] by {
      assert [] + [r1] == [r1] && [r1] + [r2] == [r1, r2] && [r1, r2] + [r3] == [r1, r2, r3];
    }
    assert e1.0 != e2.0 && e1.0 != e3.0 && e2.0 != e3.0 by {
      assert |e1.0| != |e2.0| && |e1.0| != |e3.0| && e2.0[13] != e3.0[13];
    }
    ThreeNewKeys(e1, e2, e3);
  }

  /** Three pairs with distinct keys make a dictionary of three entries. */
  lemma ThreeNewKeys(e1: Item, e2: Item, e3: Item)
    requires e1.0 != e2.0 && e1.0 != e3.0 && e2.0 != e3.0
    ensures FromPairs([e1, e2, e3]) == [e1, e2, e3]
  {
    TwoNewKeys(e1, e2);
    FromPairsSnoc([e1, e2], e3);
    assert [e1, e2] + [e3] == [e1, e2, e3];
    PutNewKey([e1, e2], e3.0, e3.1);
  }

  lemma TwoNewKeys(e1: Item, e2: Item)
    requires e1.0 != e2.0
    ensures FromPairs([e1, e2]) == [e1, e2]
  {
    OneKey(e1);
    FromPairsSnoc([e1], e2);
    assert [e1] + [e2] == [e1, e2];
    PutNewKey([e1], e2.0, e2.1);
  }

  lemma OneKey(e1: Item)
    ensures FromPairs([e1]) == [e1]
  {
    FromPairsSnoc([], e1);
    assert [] + [e1] == [e1];
    PutNewKey([], e1.0, e1.1);
  }

  /** Stage two of the example below: the buckets. */
  lemma ExampleBuckets(e1: Item, e2: Item, e3: Item)
    requires e1.1.siteType == AREA && e2.1.siteType == AREA && e3.1.siteType == BUILDING
    ensures Bucket([e1, e2, e3], FLOOR) == []
    ensures Bucket([e1, e2, e3], BUILDING) == [e3]
    ensures Bucket([e1, e2, e3], AREA) == [e1, e2]
  {
    SiteTypesDistinct();
    BucketOfThree(e1, e2, e3, FLOOR);
    BucketOfThree(e1, e2, e3, BUILDING);
    BucketOfThree(e1, e2, e3, AREA);
  }

  lemma BucketOfThree(e1: Item, e2: Item, e3: Item, siteType: string)
    ensures Bucket([e1, e2, e3], siteType) ==
      (if e1.1.siteType == siteType then [e1] else [])
      + (if e2.1.siteType == siteType then [e2] else [])
      + (if e3.1.siteType == siteType then [e3] else [])
  {
    var b1 := if e1.1.siteType == siteType then [e1] else [];
    var b2 := if e2.1.siteType == siteType then [e2] else [];
    var b3 := if e3.1.siteType == siteType then [e3] else [];
    assert [e3][1..] == [];
    assert Bucket([e3], siteType) == b3 + [];
    assert [e2, e3][1..] == [e3];
    assert Bucket([e2, e3], siteType) == b2 + b3;
    assert [e1, e2, e3][1..] == [e2, e3];
    assert Bucket([e1, e2, e3], siteType) == b1 + (b2 + b3);
  }

  /** An area listed before a deeper one is sorted after it. */
  lemma DeeperGoesFirst(e1: Item, e2: Item)
    requires Depth(e2) > Depth(e1)
    ensures SortByDepth([e1, e2]) == [e2, e1]
  {
    assert [e1, e2][1..] == [e2];
    assert SortByDepth([e2]) == [e2];
  }

  /** Stage three of the example below: the plan of an area, an area
      nested in it and a building, in that dictionary order. */
  lemma ExamplePlan(e1: Item, e2: Item, e3: Item)
    requires e1.1.siteType == AREA && e2.1.siteType == AREA && e3.1.siteType == BUILDING
    requires NestedUnder(e2.0, e1.0)
    ensures SitePlan([e1, e2, e3]) ==
      [Target(Building, e3.0, e3.1.id), Target(Area, e2.0, e2.1.id), Target(Area, e1.0, e1.1.id)]
  {
    ExampleBuckets(e1, e2, e3);
    NestedIsDeeper(e2.0, e1.0);
    DeeperGoesFirst(e1, e2);
    ExampleTargets(e1, e2, e3);
  }

  lemma ExampleTargets(e1: Item, e2: Item, e3: Item)
    ensures SiteTargets(Floor, []) + SiteTargets(Building, [e3]) + SiteTargets(Area, [e2, e1]) ==
      [Target(Building, e3.0, e3.1.id), Target(Area, e2.0, e2.1.id), Target(Area, e1.0, e1.1.id)]
  {
    assert SiteTargets(Building, [e3]) == [Target(Building, e3.0, e3.1.id)];
    assert SiteTargets(Area, [e2, e1]) == [Target(Area, e2.0, e2.1.id), Target(Area, e1.0, e1.1.id)];
  }

  /** Two areas, one nested in the other, and a building under the outer
      one: the building goes first, then the inner area, then the outer. */
  lemma NestedAreasExample()
    ensures SitePlan(SiteMapOf([
        SiteRecord(Some("Global/Area1"), "a1", AREA),
        SiteRecord(Some("Global/Area1/Area2"), "a2", AREA),
        SiteRecord(Some("Global/Area1/B1"), "b1", BUILDING)]))
      == [Target(Building, "Global/Area1/B1", "b1"),
          Target(Area, "Global/Area1/Area2", "a2"),
          Target(Area, "Global/Area1", "a1")]
  {
    var r1 := SiteRecord(Some("Global/Area1"), "a1", AREA);
    var r2 := SiteRecord(Some("Global/Area1/Area2"), "a2", AREA);
    var r3 := SiteRecord(Some("Global/Area1/B1"), "b1", BUILDING);
    ExampleSiteMap(r1, r2, r3);
    ExamplePlan(Assignment(r1), Assignment(r2), Assignment(r3));
  }
}
