# Catalyst Center lab cleanup: deletion planner and sequencer

`cleanup/dnac_cleanup.py` tears down a lab's configuration on a Cisco
Catalyst Center (DNA Center) controller. `cleanup_pools` deletes the
reserved IP sub-pools and then the global IP pools, one pool per distinct
name: of several pools listed under one name, only the last one listed is
deleted. `cleanup_sites` deletes, one per non-empty `nameHierarchy`, the
entries whose type (that of the last record listed under the hierarchy) is
floor, building or area: floors first, then buildings, then areas, deepest
area first. A site without a hierarchy, or whose entry has any other type,
is never deleted. The `lab1` command authenticates and then runs both
routines.

This project models the part of that script that decides what is deleted,
in which order, and which requests are issued:

- the name-keyed, insertion-ordered dictionaries built from each listing;
- the partition of the sites into floor, building and area buckets;
- the stable sort of the areas by descending `/` count;
- the DELETE loops and their 202 classification;
- the `dryrun` gate, the listing's 200 gate and the `try` blocks;
- the call order in `lab1`.

Modules:

- `Records` (`records.dfy`): the decoded listing elements.
- `OrderedDict` (`ordered_dict.dfy`): a Python `dict` as a sequence of pairs
  with distinct keys. Assignment keeps an existing key's position and
  appends a new key.
- `Remote` (`remote.dfy`): requests, replies, classified outcomes, and the
  DELETE loop as a method (`DeleteEach`) proved against the function
  `DeleteRun`.
- `PoolPlanner` (`pool_planner.dfy`): the pool dictionaries and their delete
  order.
- `DepthSort` (`depth_sort.dfy`): the area sort, as a stable insertion sort.
- `SitePlanner` (`site_planner.dfy`): the sites dictionary, the buckets, and
  the floor/building/area delete order.
- `Cleanup` (`cleanup.dfy`): the two routines and `lab1` as methods that
  return the trace of issued requests, each tied to a trace function with
  its properties proved as lemmas.

The controller is a parameter, `Cleanup.Network`:

- Each listing is either a status with the already-decoded records, or a
  transport failure (`requests.exceptions.RequestException`).
- Every DELETE is answered by a total function from request to reply: an
  HTTP status or a transport failure.

A request names its collection by `Remote.Kind`, and each kind stands for
one endpoint:

- `SubPool` and `GlobalPool`: the v1 `reserve-ip-subpool` and `global-pool`
  endpoints.
- `Site`: the sites listing.
- `Floor` and `Building`: the v2 `floors` and `buildings` endpoints.
- `Area`: the v1 `areas` endpoint.

The model follows the code where its names suggest otherwise:

- A true `dryrun` makes a routine issue its requests. A false one makes it
  issue none.
- `lab1` uses each routine's default flag. The pools routine therefore
  issues no request at all, and only the sites routine runs.
- A `nameHierarchy` or a token that is empty counts as missing, because the
  code tests them by Python truthiness.

## Model

| member | source | states |
|---|---|---|
| OrderedDict.Find | cleanup/dnac_cleanup.py:35 | the first position holding a key, or the length when the key is absent; no earlier position holds it |
| OrderedDict.Put | cleanup/dnac_cleanup.py:35 | after `d[k] = v` the keys stay distinct and key `k` holds `v` |
| OrderedDict.PutKeys | cleanup/dnac_cleanup.py:35 | after `d[k] = v` the keys are exactly the old keys plus `k` |
| OrderedDict.PutKeepsPosition | cleanup/dnac_cleanup.py:85 | `d[k] = v` moves no key that was already present |
| OrderedDict.PutKeepsEntry | cleanup/dnac_cleanup.py:85 | `d[k] = v` leaves every other key's entry untouched |
| OrderedDict.PutAppendsNewKey | cleanup/dnac_cleanup.py:85 | a new key goes after all existing keys |
| OrderedDict.PutNewKey | cleanup/dnac_cleanup.py:85 | assigning a key that is absent appends exactly that pair |
| OrderedDict.FromPairs | cleanup/dnac_cleanup.py:33-35 | the dictionary left by a loop of assignments from `{}` has distinct keys |
| OrderedDict.FromPairsLength | cleanup/dnac_cleanup.py:33-35 | a loop of `n` assignments leaves at most `n` entries |
| OrderedDict.FromPairsSnoc | cleanup/dnac_cleanup.py:34-35 | one more loop iteration is one more assignment |
| OrderedDict.FromPairsKeys | cleanup/dnac_cleanup.py:33-35 | a key is in the dictionary if and only if some assignment used it |
| OrderedDict.LastWriteWins | cleanup/dnac_cleanup.py:53-55 | the entry kept for a key is the pair of the last assignment to it |
| OrderedDict.FirstAssignmentOrder | cleanup/dnac_cleanup.py:82-85 | keys are ordered as their first assignments are, in both directions |
| OrderedDict.FromPairsEntries | cleanup/dnac_cleanup.py:53-55 | every dictionary entry is one of the assigned pairs |
| Remote.ListOutcome | cleanup/dnac_cleanup.py:30-47 | a listing is reported as success exactly when it arrived with status 200 (the gate at :31, :51 and :80), as a failure with its status otherwise, and as a raise exactly when it never arrived |
| Remote.DeleteOutcome | cleanup/dnac_cleanup.py:39-43 | a DELETE is reported as success exactly on status 202, as a failure carrying any other status, and as a raise exactly on a transport failure (same classification at :59-63 and :97-117) |
| Remote.DeleteRun | cleanup/dnac_cleanup.py:38-43 | a DELETE loop issues at most one call per planned entry |
| Remote.DeleteRunFollowsPlan | cleanup/dnac_cleanup.py:96-117 | call `i` is the DELETE of plan entry `i`. It succeeds if and only if the reply is 202, fails with the status for any other status, and is a transport failure if and only if the request raised. Only the last call can be a transport failure, and only a transport failure ends the loop early |
| Remote.StatusFailuresDoNotShortenRun | cleanup/dnac_cleanup.py:40-43 | when no DELETE raises, every planned entry is attempted, and each succeeds exactly on 202 |
| Remote.DeleteRunConcat | cleanup/dnac_cleanup.py:95-117 | two loops in one `try` block equal one loop over both plans; the second runs only if the first did not raise |
| Remote.DeleteRunStep | cleanup/dnac_cleanup.py:58-63 | the run from an entry is that entry's call, then, unless it raised, the run from the next entry |
| Remote.DeleteEach | cleanup/dnac_cleanup.py:58-63 | the loop issues exactly the calls of `DeleteRun` |
| PoolPlanner.PoolPairs | cleanup/dnac_cleanup.py:34-35 | one (name, id) assignment per listed pool, in listing order |
| PoolPlanner.BuildPoolMap | cleanup/dnac_cleanup.py:33-35 | the loop builds the dictionary of those assignments |
| PoolPlanner.PoolTargets | cleanup/dnac_cleanup.py:38-39 | one DELETE target per dictionary entry, in dictionary order, carrying the entry's id |
| PoolPlanner.PoolPlan | cleanup/dnac_cleanup.py:33-39 | the deletions of one pool listing are all in that listing's collection, and there are at most as many as listed pools (same plan at :53-59) |
| PoolPlanner.PoolPlanEntries | cleanup/dnac_cleanup.py:53-59 | every planned pool is a listed (name, id) in the listed collection, and no name is planned twice |
| PoolPlanner.PoolPlanLastIdWins | cleanup/dnac_cleanup.py:33-35 | for each name, the id of the last pool listed under it is planned, so every listed name is deleted |
| PoolPlanner.PoolPlanOrder | cleanup/dnac_cleanup.py:53-58 | pools are deleted in the order their names first occur in the listing |
| DepthSort.SlashCountIsMultiplicity | cleanup/dnac_cleanup.py:93 | the sort key `s.count('/')` is the number of occurrences of `/` in the hierarchy |
| DepthSort.SlashCountAppend | cleanup/dnac_cleanup.py:93 | the slash count of a concatenation is the sum of the counts |
| DepthSort.Insert | cleanup/dnac_cleanup.py:93 | inserting into a deepest-first sequence keeps it deepest-first and adds exactly that item |
| DepthSort.SortByDepth | cleanup/dnac_cleanup.py:93 | the sorted areas are ordered by non-increasing slash count and are a permutation of the input |
| DepthSort.AtDepth | cleanup/dnac_cleanup.py:93 | the items of one depth are exactly the input items with that slash count |
| DepthSort.InsertAtDepth | cleanup/dnac_cleanup.py:93 | insertion puts the new item ahead of the items of equal depth |
| DepthSort.SortIsStable | cleanup/dnac_cleanup.py:93 | items of equal slash count keep their relative order |
| DepthSort.NestedIsDeeper | cleanup/dnac_cleanup.py:93 | a path below another (the other path, a `/`, then more) has more slashes |
| DepthSort.DescendantFirst | cleanup/dnac_cleanup.py:93 | in a deepest-first order, a path below another comes before it |
| DepthSort.InsertKeepsKeysDistinct | cleanup/dnac_cleanup.py:93 | inserting an item with a new key keeps the keys distinct |
| DepthSort.SortKeepsKeysDistinct | cleanup/dnac_cleanup.py:93 | sorting dictionary items keeps their keys distinct |
| SitePlanner.SitePairs | cleanup/dnac_cleanup.py:83-85 | only records with a non-empty hierarchy make assignments, each keyed by that hierarchy |
| SitePlanner.SitePairsSnoc | cleanup/dnac_cleanup.py:84-85 | a kept record adds its assignment and a dropped one adds nothing |
| SitePlanner.BuildSiteMap | cleanup/dnac_cleanup.py:82-85 | the loop builds the dictionary of those assignments |
| SitePlanner.FirstListed | cleanup/dnac_cleanup.py:83-84 | the first record listed with a given hierarchy |
| SitePlanner.SitePairsFind | cleanup/dnac_cleanup.py:84-85 | a non-empty hierarchy is assigned if and only if some record lists it |
| SitePlanner.SitePairsOrder | cleanup/dnac_cleanup.py:83-85 | hierarchies are first assigned in the order they are first listed |
| SitePlanner.SiteMapKeys | cleanup/dnac_cleanup.py:82-85 | a hierarchy is a key if and only if it is non-empty and listed; records without one never reach the dictionary |
| SitePlanner.SiteMapLastWins | cleanup/dnac_cleanup.py:85 | the entry for a hierarchy holds the id and type of the last record listing it |
| SitePlanner.SiteMapFirstPosition | cleanup/dnac_cleanup.py:82-85 | entries are ordered by the first record listing each hierarchy |
| SitePlanner.SiteMapEntries | cleanup/dnac_cleanup.py:82-85 | every entry comes from a kept record |
| SitePlanner.Bucket | cleanup/dnac_cleanup.py:88-90 | a bucket holds exactly the entries of its type |
| SitePlanner.BucketKeepsOrder | cleanup/dnac_cleanup.py:88-90 | a bucket keeps the dictionary's order |
| SitePlanner.BucketKeepsKeysDistinct | cleanup/dnac_cleanup.py:88-90 | a bucket of a dictionary has distinct keys |
| SitePlanner.BucketsDisjoint | cleanup/dnac_cleanup.py:88-90 | buckets of different types share no key |
| SitePlanner.SiteTargets | cleanup/dnac_cleanup.py:96-97 | one DELETE target per bucket entry, in bucket order, carrying the entry's id |
| SitePlanner.SitePlan | cleanup/dnac_cleanup.py:88-117 | the three loops issue exactly one deletion per floor, building and area entry of the dictionary |
| SitePlanner.SitePlanPhases | cleanup/dnac_cleanup.py:95-117 | only floors, buildings and areas are deleted; every floor comes before every building, and every building before every area |
| SitePlanner.SitePlanFollowsItems | cleanup/dnac_cleanup.py:95-117 | the `i`-th visited entry is a floor, building or area, and plan entry `i` deletes it from that type's collection |
| SitePlanner.PlanItemsMembers | cleanup/dnac_cleanup.py:88-93 | the loops visit exactly the dictionary entries of type floor, building or area |
| SitePlanner.PlanItemsDistinct | cleanup/dnac_cleanup.py:88-93 | no hierarchy is visited twice |
| SitePlanner.SitePlanSound | cleanup/dnac_cleanup.py:88-117 | a planned deletion is a dictionary entry of the matching type, with its id |
| SitePlanner.SitePlanComplete | cleanup/dnac_cleanup.py:88-117 | every floor, building and area entry of the dictionary is planned |
| SitePlanner.SitePlanOnce | cleanup/dnac_cleanup.py:82-117 | each site is planned exactly once: no name repeats |
| SitePlanner.SitePlanAt | cleanup/dnac_cleanup.py:95-117 | plan position `i` is the floor, building or area entry at the matching position of its loop |
| SitePlanner.SitePlanAreaAt | cleanup/dnac_cleanup.py:111-113 | a planned area is deleted in the last loop, at its position among the sorted areas |
| SitePlanner.SitePlanAreasDeepestFirst | cleanup/dnac_cleanup.py:93-117 | the planned areas are deleted in order of non-increasing slash count |
| SitePlanner.AreaBeforeAncestor | cleanup/dnac_cleanup.py:93-117 | in any plan whose areas are deepest first, an area below another comes before it |
| SitePlanner.SitePlanDescendantFirst | cleanup/dnac_cleanup.py:112-117 | an area below another area (its path, a `/`, then more segments) is deleted before it |
| SitePlanner.NoHierarchyNoPairs | cleanup/dnac_cleanup.py:84 | records whose hierarchy is missing or of zero length (falsy in Python) make no assignment |
| SitePlanner.NoHierarchyNoPlan | cleanup/dnac_cleanup.py:84 | when no record has a non-empty hierarchy, nothing is deleted |
| SitePlanner.NestedAreasExample | cleanup/dnac_cleanup.py:82-117 | for areas `Global/Area1` and `Global/Area1/Area2` and building `Global/Area1/B1`, the order is: building, inner area, outer area |
| Cleanup.PoolBlock | cleanup/dnac_cleanup.py:29-47 | a pool block starts with the GET of its collection, issues nothing more unless the listing returned 200 (the gate at :31, and :51 for global pools), and at most one DELETE per listed pool |
| Cleanup.PoolsTrace | cleanup/dnac_cleanup.py:25-72 | the pools routine issues nothing when its flag is falsy; otherwise it starts with the sub-pool GET and issues the global-pool GET whatever the sub-pool block did |
| Cleanup.SitesBlock | cleanup/dnac_cleanup.py:78-122 | the sites block starts with the GET of the sites and issues nothing more unless the listing returned 200 (the gate at :80) |
| Cleanup.SitesTrace | cleanup/dnac_cleanup.py:74-127 | the sites routine issues nothing when its flag is falsy; otherwise its first request is the sites GET |
| Cleanup.Lab1Trace | cleanup/dnac_cleanup.py:143-148 | without a truthy token (missing or of zero length, the test at :146) nothing is issued; with one the first request is the sites GET, since the pools routine runs with its flag off |
| Cleanup.CleanPoolKind | cleanup/dnac_cleanup.py:29-47 | one pool `try` block issues the GET, then the DELETE loop only on status 200 |
| Cleanup.CleanupPools | cleanup/dnac_cleanup.py:25-72 | returns true on every path; a false flag issues nothing; a true flag runs the sub-pool block, then the global-pool block |
| Cleanup.RunThenRun | cleanup/dnac_cleanup.py:95-122 | the three site loops, each skipped once an earlier one raised, form one run over the concatenated plan |
| Cleanup.CleanupSites | cleanup/dnac_cleanup.py:74-127 | returns true on every path; a false flag issues nothing; a true flag issues the sites GET, then, on 200, the floor, building and area loops |
| Cleanup.Lab1 | cleanup/dnac_cleanup.py:145-151 | without a usable token nothing is issued; with one, the pools routine runs with flag false, then the sites routine with flag true |
| Cleanup.RunRequests | cleanup/dnac_cleanup.py:96-113 | every call of a loop is the DELETE of the planned entry at the same position |
| Cleanup.PoolBlockRequests | cleanup/dnac_cleanup.py:29-45 | a pool block starts with its GET. Every later call is a DELETE in the same collection, of the id of a listed pool, and happens only after a 200 listing |
| Cleanup.PoolsTraceKinds | cleanup/dnac_cleanup.py:29-67 | the sub-pool block's requests come first, then the global-pool block's |
| Cleanup.PoolsTraceOrder | cleanup/dnac_cleanup.py:29-67 | every sub-pool request precedes every global-pool request. The global-pool listing is attempted even when the sub-pool listing failed or raised |
| Cleanup.GetThenRun | cleanup/dnac_cleanup.py:79-117 | after the GET, call `i` is the DELETE of plan entry `i - 1` |
| Cleanup.SitesBlockFollowsPlan | cleanup/dnac_cleanup.py:78-120 | the sites block starts with the GET. A non-200 listing issues no DELETE; otherwise call `i` is the DELETE of site plan entry `i - 1` |
| Cleanup.SitesBlockPhases | cleanup/dnac_cleanup.py:95-117 | the issued DELETEs go to floors, then buildings, then areas, and to no other collection |
| Cleanup.SitesDeleteChildrenFirst | cleanup/dnac_cleanup.py:93-117 | when an area's DELETE is issued, the DELETE of each area nested under it was issued earlier |
| Cleanup.SitesRunCompletesOnFailures | cleanup/dnac_cleanup.py:98-117 | if every DELETE gets a non-202 status (sites already gone), all entries are attempted and each is a failure |
| Cleanup.Lab1IssuesNoPoolRequests | cleanup/dnac_cleanup.py:145-148 | `lab1` with a token issues no pool request; its requests are exactly the sites block |

## Left out

- `authenticate` (`cleanup/dnac_cleanup.py:8-23`) is not modelled. `Lab1`
  takes its result as an optional token.
- HTTP requests are not modelled: URLs, headers, TLS verification and JSON
  decoding. Listings come as decoded records, and a request is identified
  by its collection and id.
- A listing without a `response` field, a pool element without `id`,
  `groupName` or `ipPoolName`, or a site element with a truthy
  `nameHierarchy` but without `id` or `type`, raises `KeyError` in the
  script and ends the program. Records in the model always carry these
  fields. A site element without a truthy hierarchy is skipped before its
  `id` and `type` are read, so it raises nothing; the model's
  `SiteRecord(None, _, _)` drops it the same way, whatever its other
  fields hold.
- `nameHierarchy` values that are not strings are not modelled.
- The text of the `click.echo` messages and the response bodies is not
  modelled. Each call's outcome carries the classification those messages
  report (deleted, failed with a status, or raised).
- The click command group, its options and the `lab2` placeholder
  (`cleanup/dnac_cleanup.py:129-165`) are not modelled.
- Exceptions other than `RequestException` are not modelled.
