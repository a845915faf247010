/** The two cleanup routines and the `lab1` command that runs them: what
    requests each issues, in which order, under the `dryrun` flag, the
    listing status and transport failures. */
module Cleanup {
  import opened Records
  import opened DepthSort
  import opened Remote
  import opened PoolPlanner
  import opened SitePlanner

  /** What the controller answers: the three listings (already decoded) and
      the reply to every possible DELETE. */
  datatype Network = Network(
    subPools: Listing<PoolRecord>,
    globalPools: Listing<PoolRecord>,
    sites: Listing<SiteRecord>,
    delete: Request -> Reply)

  /** One pool `try` block: the GET of the collection, then, on status 200,
      the DELETE loop over the name-keyed pool dictionary. */
  function PoolBlock(kind: Kind, listing: Listing<PoolRecord>, del: Request -> Reply): (calls: seq<Call>)
    ensures calls != [] && calls[0] == Call(Get(kind), ListOutcome(listing))
    ensures ListedOk(listing) ==> |calls| <= 1 + |listing.records|
    ensures !ListedOk(listing) ==> |calls| == 1
  {
    [Call(Get(kind), ListOutcome(listing))]
      + (if ListedOk(listing) then DeleteRun(PoolPlan(kind, listing.records), del) else [])
  }

  /** The requests `cleanup_pools` issues: nothing when `dryrun` is falsy,
      else the sub-pool block and then, whatever happened in it, the
      global-pool block. */
  function PoolsTrace(dryrun: bool, net: Network): (calls: seq<Call>)
    ensures !dryrun ==> calls == []
    ensures dryrun ==> |calls| >= 2 && calls[0].req == Get(SubPool)
    ensures dryrun ==> Call(Get(GlobalPool), ListOutcome(net.globalPools)) in calls
  {
    if dryrun then PoolBlock(SubPool, net.subPools, net.delete) + PoolBlock(GlobalPool, net.globalPools, net.delete)
    else []
  }

  /** The sites `try` block: the GET of the sites, then, on status 200, the
      three DELETE loops of the site plan as one run, so that a transport
      failure in any loop skips the rest. */
  function SitesBlock(listing: Listing<SiteRecord>, del: Request -> Reply): (calls: seq<Call>)
    ensures calls != [] && calls[0] == Call(Get(Site), ListOutcome(listing))
    ensures !ListedOk(listing) ==> |calls| == 1
  {
    [Call(Get(Site), ListOutcome(listing))]
      + (if ListedOk(listing) then DeleteRun(SitePlan(SiteMapOf(listing.records)), del) else [])
  }

  /** The requests `cleanup_sites` issues. */
  function SitesTrace(dryrun: bool, net: Network): (calls: seq<Call>)
    ensures !dryrun ==> calls == []
    ensures dryrun ==> calls != [] && calls[0].req == Get(Site)
  {
    if dryrun then SitesBlock(net.sites, net.delete) else []
  }

  /** A token that Python treats as true: present and not empty. */
  predicate Authenticated(token: Option<string>)
  {
    token.Some? && token.value != ""
  }

  /** The requests `lab1` issues after authenticating: the pools routine
      with its default flag (false), then the sites routine with its default
      flag (true). */
  function Lab1Trace(token: Option<string>, net: Network): (calls: seq<Call>)
    ensures !Authenticated(token) ==> calls == []
    ensures Authenticated(token) ==> calls != [] && calls[0].req == Get(Site)
  {
    if Authenticated(token) then PoolsTrace(false, net) + SitesTrace(true, net) else []
  }

  /** One pool block as the code runs it. */
  method CleanPoolKind(kind: Kind, listing: Listing<PoolRecord>, del: Request -> Reply) returns (calls: seq<Call>)
    ensures calls == PoolBlock(kind, listing, del)
  {
    calls := [Call(Get(kind), ListOutcome(listing))];
    if ListedOk(listing) {
      var pools := BuildPoolMap(listing.records);
      var run := DeleteEach(PoolTargets(kind, pools), del);
      calls := calls + run;
    }
  }

  /** `cleanup_pools`: returns true on every path. */
  method CleanupPools(dryrun: bool, net: Network) returns (trace: seq<Call>, ok: bool)
    ensures ok
    ensures !dryrun ==> trace == []
    ensures trace == PoolsTrace(dryrun, net)
  {
    trace := [];
    if dryrun {
      var sub := CleanPoolKind(SubPool, net.subPools, net.delete);
      var global := CleanPoolKind(GlobalPool, net.globalPools, net.delete);
      trace := sub + global;
    }
    ok := true;
  }

  /** Running the loops of two plans one after the other, the second only
      when the first was not aborted, is one run over both plans. */
  lemma RunThenRun(a: seq<Target>, b: seq<Target>, del: Request -> Reply)
    ensures Aborted(DeleteRun(a, del)) ==> DeleteRun(a + b, del) == DeleteRun(a, del)
    ensures !Aborted(DeleteRun(a, del)) ==>
      && DeleteRun(a + b, del) == DeleteRun(a, del) + DeleteRun(b, del)
      && (Aborted(DeleteRun(a + b, del)) <==> Aborted(DeleteRun(b, del)))
  {
    DeleteRunConcat(a, b, del);
    var ra, rb := DeleteRun(a, del), DeleteRun(b, del);
    if !Aborted(ra) && rb != [] {
      assert (ra + rb)[|ra + rb| - 1] == rb[|rb| - 1];
    }
  }

  /** `cleanup_sites`: returns true on every path. */
  method CleanupSites(dryrun: bool, net: Network) returns (trace: seq<Call>, ok: bool)
    ensures ok
    ensures !dryrun ==> trace == []
    ensures trace == SitesTrace(dryrun, net)
  {
    trace := [];
    if dryrun {
      trace := [Call(Get(Site), ListOutcome(net.sites))];
      if ListedOk(net.sites) {
        var sites := BuildSiteMap(net.sites.records);
        var floors := SiteTargets(Floor, Bucket(sites, FLOOR));
        var buildings := SiteTargets(Building, Bucket(sites, BUILDING));
        var areas := SiteTargets(Area, SortByDepth(Bucket(sites, AREA)));
        assert SitePlan(sites) == (floors + buildings) + areas;
        RunThenRun(floors, buildings, net.delete);
        RunThenRun(floors + buildings, areas, net.delete);
        var run := DeleteEach(floors, net.delete);
        if !Aborted(run) {
          var more := DeleteEach(buildings, net.delete);
          var aborted := Aborted(more);
          run := run + more;
          if !aborted {
            more := DeleteEach(areas, net.delete);
            run := run + more;
          }
        }
        trace := trace + run;
      }
    }
    ok := true;
  }

  /** `lab1`: both routines run only with a token, each with its default
      flag. */
  method Lab1(token: Option<string>, net: Network) returns (trace: seq<Call>)
    ensures !Authenticated(token) ==> trace == []
    ensures trace == Lab1Trace(token, net)
  {
    trace := [];
    if Authenticated(token) {
      var pools, _ := CleanupPools(false, net);
      var sites, _ := CleanupSites(true, net);
      trace := pools + sites;
    }
  }

  // ---------------------------------------------------------------------
  // Properties of the traces

  /** A DELETE loop only deletes planned targets, one call per target in
      plan order. */
  lemma RunRequests(plan: seq<Target>, del: Request -> Reply, i: nat)
    requires i < |DeleteRun(plan, del)|
    ensures i < |plan| && DeleteRun(plan, del)[i].req == DeleteRequest(plan[i])
  {
    DeleteRunFollowsPlan(plan, del);
  }

  /** A pool block is the GET of its collection, then DELETEs of that same
      collection only, each of the id of a listed pool, and none unless the
      listing returned 200. */
  lemma PoolBlockRequests(kind: Kind, listing: Listing<PoolRecord>, del: Request -> Reply)
    ensures var block := PoolBlock(kind, listing, del);
      && block[0].req == Get(kind)
      && forall i :: 1 <= i < |block| ==>
           && ListedOk(listing)
           && block[i].req.Delete? && block[i].req.kind == kind
           && exists r :: r in listing.records && r.id == block[i].req.id
  {
    var block := PoolBlock(kind, listing, del);
    forall i | 1 <= i < |block|
      ensures ListedOk(listing)
      ensures block[i].req.Delete? && block[i].req.kind == kind
      ensures exists r :: r in listing.records && r.id == block[i].req.id
    {
      var plan := PoolPlan(kind, listing.records);
      RunRequests(plan, del, i - 1);
      PoolPlanEntries(kind, listing.records);
      assert plan[i - 1] in plan;
      assert PoolRecord(plan[i - 1].name, plan[i - 1].id) in listing.records;
    }
  }

  /** With the flag set, every sub-pool request precedes every global-pool
      request, and the global-pool listing is attempted whatever happened to
      the sub-pools (a failed listing or a transport failure there). */
  lemma PoolsTraceOrder(net: Network)
    ensures var trace := PoolsTrace(true, net);
      && (forall i :: 0 <= i < |trace| ==> trace[i].req.kind == SubPool || trace[i].req.kind == GlobalPool)
      && (forall i, j ::
            0 <= i < |trace| && 0 <= j < |trace| && trace[i].req.kind == GlobalPool && trace[j].req.kind == SubPool
            ==> j < i)
      && Call(Get(GlobalPool), ListOutcome(net.globalPools)) in trace
  {
    PoolsTraceKinds(net);
    var sub := PoolBlock(SubPool, net.subPools, net.delete);
    assert PoolsTrace(true, net)[|sub|] == PoolBlock(GlobalPool, net.globalPools, net.delete)[0];
  }

  /** With the flag set, the requests up to the end of the sub-pool block
      are sub-pool requests and the rest are global-pool requests. */
  lemma PoolsTraceKinds(net: Network)
    ensures var sub := PoolBlock(SubPool, net.subPools, net.delete);
      var trace := PoolsTrace(true, net);
      && |sub| < |trace|
      && forall i :: 0 <= i < |trace| ==> trace[i].req.kind == if i < |sub| then SubPool else GlobalPool
  {
    var sub := PoolBlock(SubPool, net.subPools, net.delete);
    var global := PoolBlock(GlobalPool, net.globalPools, net.delete);
    var trace := sub + global;
    assert trace == PoolsTrace(true, net);
    PoolBlockRequests(SubPool, net.subPools, net.delete);
    PoolBlockRequests(GlobalPool, net.globalPools, net.delete);
    forall i | 0 <= i < |trace|
      ensures trace[i].req.kind == if i < |sub| then SubPool else GlobalPool
    {
      if i < |sub| {
        assert trace[i] == sub[i];
      } else {
        assert trace[i] == global[i - |sub|];
      }
    }
  }

  /** The sites block is the GET of the sites, then the DELETE of plan entry
      `i - 1` as call `i`; no DELETE unless the listing returned 200. */
  lemma SitesBlockFollowsPlan(listing: Listing<SiteRecord>, del: Request -> Reply)
    ensures var block := SitesBlock(listing, del);
      && block[0].req == Get(Site)
      && (!ListedOk(listing) ==> |block| == 1)
      && (ListedOk(listing) ==>
            var plan := SitePlan(SiteMapOf(listing.records));
            |block| <= |plan| + 1 &&
            forall i :: 1 <= i < |block| ==> block[i].req == DeleteRequest(plan[i - 1]))
  {
    if ListedOk(listing) {
      GetThenRun(Call(Get(Site), ListOutcome(listing)), SitePlan(SiteMapOf(listing.records)), del);
    }
  }

  /** A GET followed by a DELETE loop: call `i` is the DELETE of plan entry
      `i - 1`. */
  lemma GetThenRun(get: Call, plan: seq<Target>, del: Request -> Reply)
    ensures var block := [get] + DeleteRun(plan, del);
      |block| <= |plan| + 1 &&
      forall i :: 1 <= i < |block| ==> block[i].req == DeleteRequest(plan[i - 1])
  {
    var run := DeleteRun(plan, del);
    var block := [get] + run;
    forall i | 1 <= i < |block| ensures block[i].req == DeleteRequest(plan[i - 1]) {
      assert block[i] == run[i - 1];
      RunRequests(plan, del, i - 1);
    }
  }

  /** The DELETEs of the sites block go to the floors, then the buildings,
      then the areas collection, and to no other collection. */
  lemma SitesBlockPhases(listing: Listing<SiteRecord>, del: Request -> Reply)
    ensures var block := SitesBlock(listing, del);
      && (forall i :: 1 <= i < |block| ==> block[i].req.Delete? && IsSiteKind(block[i].req.kind))
      && (forall i, j :: 1 <= i < j < |block| ==> Phase(block[i].req.kind) <= Phase(block[j].req.kind))
  {
    var block := SitesBlock(listing, del);
    SitesBlockFollowsPlan(listing, del);
    if ListedOk(listing) {
      var sites := SiteMapOf(listing.records);
      var plan := SitePlan(sites);
      SitePlanPhases(sites);
      forall i | 1 <= i < |block| ensures block[i].req.Delete? && block[i].req.kind == plan[i - 1].kind {
        assert block[i].req == DeleteRequest(plan[i - 1]);
      }
      forall i | 1 <= i < |block| ensures IsSiteKind(block[i].req.kind) {
        assert plan[i - 1] in plan;
      }
    }
  }

  /** When an area's DELETE is issued, the DELETE of every area nested under
      it was issued earlier in the same run. */
  lemma SitesDeleteChildrenFirst(listing: Listing<SiteRecord>, del: Request -> Reply)
    ensures ListedOk(listing) ==>
      var plan := SitePlan(SiteMapOf(listing.records));
      var block := SitesBlock(listing, del);
      forall i, j ::
        (0 <= i < |plan| && 0 <= j < |plan| && plan[i].kind == Area && plan[j].kind == Area &&
         NestedUnder(plan[j].name, plan[i].name) && i + 1 < |block|) ==>
          j < i && block[j + 1].req == DeleteRequest(plan[j])
  {
    if ListedOk(listing) {
      SitePlanDescendantFirst(SiteMapOf(listing.records));
      SitesBlockFollowsPlan(listing, del);
    }
  }

  /** Re-running against sites that are already gone: when every planned
      DELETE answers with a status other than 202, every entry is still
      attempted and every outcome is a failure. */
  lemma SitesRunCompletesOnFailures(listing: Listing<SiteRecord>, del: Request -> Reply)
    requires ListedOk(listing)
    requires forall t :: t in SitePlan(SiteMapOf(listing.records)) ==>
      del(DeleteRequest(t)).Status? && del(DeleteRequest(t)).code != ACCEPTED
    ensures |SitesBlock(listing, del)| == |SitePlan(SiteMapOf(listing.records))| + 1
    ensures forall i :: 1 <= i < |SitesBlock(listing, del)| ==> SitesBlock(listing, del)[i].outcome.Failed?
  {
    var plan := SitePlan(SiteMapOf(listing.records));
    StatusFailuresDoNotShortenRun(plan, del);
    DeleteRunFollowsPlan(plan, del);
    var run := DeleteRun(plan, del);
    forall i | 0 <= i < |run| ensures run[i].outcome.Failed? {
      assert plan[i] in plan;
    }
  }

  /** `lab1` with a token issues no pool request at all (the pools routine
      runs with its flag false) and exactly the sites block. */
  lemma Lab1IssuesNoPoolRequests(token: Option<string>, net: Network)
    requires Authenticated(token)
    ensures Lab1Trace(token, net) == SitesBlock(net.sites, net.delete)
    ensures forall c :: c in Lab1Trace(token, net) ==> c.req.kind != SubPool && c.req.kind != GlobalPool
  {
    var block := SitesBlock(net.sites, net.delete);
    assert Lab1Trace(token, net) == [] + block;
    SitesBlockPhases(net.sites, net.delete);
    forall c | c in block ensures c.req.kind != SubPool && c.req.kind != GlobalPool {
      var m :| 0 <= m < |block| && block[m] == c;
    }
  }
}
