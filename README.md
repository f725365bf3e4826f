# Bucketed merge planning for context-aware indices

This project models `CriteriaBasedMergePolicy`, the OpenSearch merge policy used by context-aware indices. It wraps another Lucene merge policy. Before it asks that policy for merges, it splits the index's segments into buckets by each segment's bucket attribute, so that segments of different buckets are never merged together.

Planning works in three steps:

- **Grouping.** Walk the segment list, skip segments that are currently merging, and group the rest in a hash map keyed by bucket attribute. A segment without the attribute has a `null` key, and those segments form a bucket of their own.
- **Consulting the wrapped policy.** For every bucket with more than one segment, build a fresh segment list holding only that bucket's segments. Tag it with the index-created major version and pass it to the wrapped policy's merge finder.
- **Union.** Concatenate the merges of every non-null specification that comes back. If no bucket produced one, return `null`. If the finder throws for any bucket, the whole call throws.

The four public entry points (regular, forced, forced-deletes and full-flush merges) share this algorithm. Each binds the finder to the matching method of the wrapped policy and passes its own parameters through unchanged.

Modules:

- `Wrappers` (wrappers.dfy): `Option` stands for a nullable reference; `Result` stands for a call that may throw an `IOException`.
- `MergeTypes` (merge_types.dfy): segments, merges, segment lists, merge specifications, the merge context (its merging set) and the wrapped policy. The wrapped policy is a record of four uninterpreted finder functions.
- `Bucketing` (bucketing.dfy): what the grouping loop computes (`BucketOf`, `Buckets`) and its properties.
- `Planning` (planning.dfy): the bucket visit as a specification (`PlanOver` over a given visiting order). `IsPlanningOutcome` says that an outcome is the visit in some order the hash map may iterate in. The lemmas state the outcome without naming an order.
- `MergePolicies` (criteria_based_merge_policy.dfy): the class `CriteriaBasedMergePolicy`. It holds the imperative `FindMergesInternal` and the four entry points. The map iteration is a nondeterministic choice of the next key not yet visited.
- `Scenarios` (scenarios.dfy): concrete plannings over small segment lists.

A finder's non-null specification with no merges still makes the result non-null: the planner does not collapse it to `null` (CriteriaBasedMergePolicy.java:65-69), and `Scenarios.ScenarioEmptySpecificationKept` states this.

The definitions that carry the model map to the source as follows. `Bucketing.BucketOf` and `Bucketing.Buckets` are the hash map that lines 47-55 fill. `Planning.Candidates` is the fresh segment list of lines 61-62. `Planning.Visit` is one pass of the entry loop (lines 59-71), and `Planning.PlanOver` is that loop over a given order with the lazily created specification (lines 57-74). `MergePolicies.RegularFinder`, `ForcedFinder`, `ForcedDeletesFinder` and `FullFlushFinder` are the lambdas at lines 88, 111, 125 and 140.

## Model

| member | source | states |
|---|---|---|
| `Bucketing.BucketOfMembership` | server/src/main/java/org/opensearch/index/CriteriaBasedMergePolicy.java:49-55 | A segment is in the bucket for key k if and only if it is in the segment list, is not merging, and has attribute k. So merging segments are dropped before grouping, and a `null`-attribute segment never shares a bucket with a keyed one. |
| `Bucketing.BucketOfConcat` | server/src/main/java/org/opensearch/index/CriteriaBasedMergePolicy.java:49-55 | Grouping distributes over concatenating segment lists, so each bucket keeps the segments' original relative order. |
| `Bucketing.BucketsEntry` | server/src/main/java/org/opensearch/index/CriteriaBasedMergePolicy.java:47-55 | The bucket map has an entry exactly for the attributes of non-merging segments, and the entry for k is k's bucket. |
| `Bucketing.BucketsAppend` | server/src/main/java/org/opensearch/index/CriteriaBasedMergePolicy.java:49-55 | One grouping step: a merging segment leaves the map unchanged; any other segment is appended to its bucket, and the bucket is created when absent (`computeIfAbsent(...).add`). |
| `Planning.PlanOverSpec` | server/src/main/java/org/opensearch/index/CriteriaBasedMergePolicy.java:57-74 | For any visiting order, the visit throws if and only if the finder throws for some submitted bucket, and then with one of those exceptions. It is `null` if and only if no submitted bucket gets a non-null specification. Otherwise its merges, as a multiset, are the sum of the submitted buckets' merges. |
| `Planning.PlanOverFailurePersists` | server/src/main/java/org/opensearch/index/CriteriaBasedMergePolicy.java:64 | Once the finder has thrown, visiting more buckets does not change the outcome: no partial specification escapes. |
| `Planning.ContributionOverOrigin` | server/src/main/java/org/opensearch/index/CriteriaBasedMergePolicy.java:65-69 | Every merge in the union comes from the non-null specification of one visited, submitted bucket. |
| `Planning.PlanOverCongruent` | server/src/main/java/org/opensearch/index/CriteriaBasedMergePolicy.java:60-64 | The visit depends on the finder only through its answers on the candidate lists of submitted buckets (more than one segment). |
| `Planning.PlanOverOneSubmitted` | server/src/main/java/org/opensearch/index/CriteriaBasedMergePolicy.java:57-74 | If at most one bucket is submitted, the visit returns that bucket's answer unchanged, or `null` when it is not visited. |
| `Planning.ContributionOverEnumeration` | server/src/main/java/org/opensearch/index/CriteriaBasedMergePolicy.java:58 | The multiset of merges collected over any enumeration of the bucket keys equals one order-free sum, so the hash map's iteration order does not matter. |
| `Planning.PlanningOutcomeSpec` | server/src/main/java/org/opensearch/index/CriteriaBasedMergePolicy.java:40-75 | Without naming an order: planning throws if and only if the finder throws for a bucket of two or more non-merging segments, and then with one of those exceptions. It returns `null` if and only if no such bucket gets a non-null specification. Otherwise its merges are, as a multiset, all merges of those non-null specifications. |
| `Planning.PlanningOutcomesAgree` | server/src/main/java/org/opensearch/index/CriteriaBasedMergePolicy.java:58 | Two plannings over the same inputs both throw, or both return `null`, or both return the same merges as a multiset, whatever order each visits the buckets in. |
| `Planning.PlanningOutcomeIsolation` | server/src/main/java/org/opensearch/index/CriteriaBasedMergePolicy.java:58-69 | If the finder only groups segments from the list it is given, then every planned merge holds only segments of the index that are not merging, and all of them share one bucket attribute. |
| `Planning.PlanningConsultsOnlyBuckets` | server/src/main/java/org/opensearch/index/CriteriaBasedMergePolicy.java:46-64 | The finder matters only on the lists "non-merging segments with attribute k, in original order" that have more than one element. Two finders that agree on those lists admit the same outcomes. So no merging segment, no cross-bucket list and no singleton bucket ever reaches the finder. |
| `Planning.PlanningAllSingletons` | server/src/main/java/org/opensearch/index/CriteriaBasedMergePolicy.java:57-60 | If no bucket has two non-merging segments, the finder is never consulted and the result is `null`. |
| `Planning.PlanningOneCandidateBucket` | server/src/main/java/org/opensearch/index/CriteriaBasedMergePolicy.java:57-74 | If exactly one bucket has two or more non-merging segments, the result is exactly the finder's answer for that bucket's list, tagged with the index-created major version. |
| `MergePolicies.CriteriaBasedMergePolicy.constructor` | server/src/main/java/org/opensearch/index/CriteriaBasedMergePolicy.java:35-38 | The policy keeps the wrapped policy it is given. |
| `MergePolicies.CriteriaBasedMergePolicy.FindMergesInternal` | server/src/main/java/org/opensearch/index/CriteriaBasedMergePolicy.java:40-75 | The grouping loop builds exactly the bucket map, and the loop over its entries, in whichever order it takes them, returns the visit outcome for an enumeration of the map's keys. |
| `MergePolicies.CriteriaBasedMergePolicy.FindMerges` | server/src/main/java/org/opensearch/index/CriteriaBasedMergePolicy.java:86-89 | A planning outcome whose finder is the wrapped `findMerges` with the same trigger and context. |
| `MergePolicies.CriteriaBasedMergePolicy.FindForcedMerges` | server/src/main/java/org/opensearch/index/CriteriaBasedMergePolicy.java:101-113 | A planning outcome whose finder is the wrapped `findForcedMerges` with the same maximum segment count, segments-to-merge map and context. |
| `MergePolicies.CriteriaBasedMergePolicy.FindForcedDeletesMerges` | server/src/main/java/org/opensearch/index/CriteriaBasedMergePolicy.java:123-126 | A planning outcome whose finder is the wrapped `findForcedDeletesMerges` with the same context. |
| `MergePolicies.CriteriaBasedMergePolicy.FindFullFlushMerges` | server/src/main/java/org/opensearch/index/CriteriaBasedMergePolicy.java:137-141 | A planning outcome whose finder is the wrapped `findFullFlushMerges` with the same trigger and context. |
| `Scenarios.ScenarioOneBucketMerges` | server/src/main/java/org/opensearch/index/CriteriaBasedMergePolicy.java:58-69 | Two bucket-A segments and one bucket-B segment: only A's list reaches the finder, and its merge is the whole plan. |
| `Scenarios.ScenarioMergingLeavesSingleton` | server/src/main/java/org/opensearch/index/CriteriaBasedMergePolicy.java:49-52 | Of two bucket-A segments one is merging, so nothing is planned (`null`) whatever the finder would say. |
| `Scenarios.ScenarioUnkeyedSegmentsMerge` | server/src/main/java/org/opensearch/index/CriteriaBasedMergePolicy.java:53-54 | Two segments without a bucket attribute form their own bucket and merge together; the keyed one is left alone. |
| `Scenarios.ScenarioFailureAborts` | server/src/main/java/org/opensearch/index/CriteriaBasedMergePolicy.java:64 | The finder throws for bucket B and would merge bucket A: the call throws B's exception and returns no plan for A. |
| `Scenarios.ScenarioEmptyIndex` | server/src/main/java/org/opensearch/index/CriteriaBasedMergePolicy.java:57 | An empty segment list gives `null`. |
| `Scenarios.ScenarioEmptySpecificationKept` | server/src/main/java/org/opensearch/index/CriteriaBasedMergePolicy.java:65-69 | A finder that returns a specification with no merges makes the result a specification with no merges, not `null`. |

## Left out

- The wrapped merge policy's heuristics (tiered or log-structured selection): each of its four finders is an uninterpreted function parameter. Its code is not part of this model.
- A finder is modelled as a pure function: it gives the same answer for the same candidate list and has no side effects. The order-independence results (`Planning.ContributionOverEnumeration`, `Planning.PlanningOutcomesAgree`, the multiset clause of `Planning.PlanningOutcomeSpec`) rest on this. A wrapped policy that keeps state or uses randomness could make the merges depend on the hash map's iteration order, and any logging it does happens in that order.
- Lucene's `SegmentInfos`, `SegmentCommitInfo`, `MergeContext`, `MergeSpecification` and `OneMerge` are reduced to plain values. A segment is its name and bucket attribute; the codec's attribute storage (`CriteriaBasedCodec.BUCKET_NAME`) is the `bucket` field. Merging-set membership uses value equality, where Java uses object identity.
- The merge specification is a value that the planner reassigns, not a mutable object whose `merges` list is extended in place; aliasing of that list is not captured.
- `MergeTrigger` is an opaque carried value; its enumeration lives in Lucene and is not part of this model.
- Who produces the merging set and keeps it consistent across concurrent planning calls: that belongs to the caller.
- The other `FilterMergePolicy` methods, inherited unchanged, forward to a class that is not part of this model.
- `PlanningOutcomeIsolation`: holds only for a finder that groups segments from the list it was given (`DelegateConfined`). The planner itself does not check this.
