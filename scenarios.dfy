/**
 * Concrete plannings: which bucket reaches the merge finder, and what the
 * planner returns, for small segment lists.
 */
module Scenarios {
  import opened Wrappers
  import opened MergeTypes
  import opened Bucketing
  import opened Planning

  const a1 := Segment("_0", Some("A"))
  const a2 := Segment("_1", Some("A"))
  const b1 := Segment("_2", Some("B"))
  const b2 := Segment("_3", Some("B"))
  const n1 := Segment("_4", None)
  const n2 := Segment("_5", None)
  const x1 := Segment("_6", Some("X"))

  /** The bucket of a three-segment list, from the buckets of its segments. */
  lemma BucketOfThree(s: Segment, t: Segment, u: Segment, merging: set<Segment>, key: BucketKey)
    ensures BucketOf([s, t, u], merging, key)
         == BucketOf([s], merging, key) + BucketOf([t], merging, key) + BucketOf([u], merging, key)
  {
    BucketOfConcat([s], [t], merging, key);
    BucketOfConcat([s, t], [u], merging, key);
    assert [s] + [t] == [s, t] && [s, t] + [u] == [s, t, u];
    assert [s][..0] == [] && [t][..0] == [] && [u][..0] == [];
  }

  /** Two segments of bucket A and one of bucket B: only A reaches the finder, and its merge is the whole plan. */
  lemma ScenarioOneBucketMerges(version: int, finder: Delegate, r: Result<MergeSpec, IOError>)
    requires finder(SegmentInfos(version, [a1, a2])) == Success(Some([OneMerge([a1, a2])]))
    requires IsPlanningOutcome(SegmentInfos(version, [a1, a2, b1]), {}, finder, r)
    ensures r == Success(Some([OneMerge([a1, a2])]))
  {
    var segs := [a1, a2, b1];
    forall key
      ensures BucketOf(segs, {}, key) == if key == Some("A") then [a1, a2] else if key == Some("B") then [b1] else []
    {
      BucketOfThree(a1, a2, b1, {}, key);
    }
    PlanningOneCandidateBucket(SegmentInfos(version, segs), {}, finder, r, Some("A"));
  }

  /** Of two bucket-A segments one is merging: the other is alone, so nothing is planned and the finder is not consulted. */
  lemma ScenarioMergingLeavesSingleton(version: int, finder: Delegate, r: Result<MergeSpec, IOError>)
    requires IsPlanningOutcome(SegmentInfos(version, [a1, a2]), {a2}, finder, r)
    ensures r == Success(None)
  {
    var segs := [a1, a2];
    forall key
      ensures BucketOf(segs, {a2}, key) == if key == Some("A") then [a1] else []
    {
      BucketOfConcat([a1], [a2], {a2}, key);
      assert [a1] + [a2] == segs && [a1][..0] == [] && [a2][..0] == [];
    }
    PlanningAllSingletons(SegmentInfos(version, segs), {a2}, finder, r);
  }

  /** Two segments without a bucket attribute form their own bucket and are merged together; the keyed one is left alone. */
  lemma ScenarioUnkeyedSegmentsMerge(version: int, finder: Delegate, r: Result<MergeSpec, IOError>)
    requires finder(SegmentInfos(version, [n1, n2])) == Success(Some([OneMerge([n1, n2])]))
    requires IsPlanningOutcome(SegmentInfos(version, [n1, n2, x1]), {}, finder, r)
    ensures r == Success(Some([OneMerge([n1, n2])]))
  {
    var segs := [n1, n2, x1];
    forall key
      ensures BucketOf(segs, {}, key) == if key == None then [n1, n2] else if key == Some("X") then [x1] else []
    {
      BucketOfThree(n1, n2, x1, {}, key);
    }
    PlanningOneCandidateBucket(SegmentInfos(version, segs), {}, finder, r, None);
  }

  /** The buckets of two bucket-A and two bucket-B segments, interleaved. */
  lemma BucketsInterleaved(key: BucketKey)
    ensures BucketOf([a1, b1, a2, b2], {}, key)
         == if key == Some("A") then [a1, a2] else if key == Some("B") then [b1, b2] else []
  {
    BucketOfThree(a1, b1, a2, {}, key);
    BucketOfConcat([a1, b1, a2], [b2], {}, key);
    assert [a1, b1, a2] + [b2] == [a1, b1, a2, b2] && [b2][..0] == [];
  }

  /** The finder throws for bucket B and would have merged bucket A: the call throws and no plan for A is returned. */
  lemma ScenarioFailureAborts(version: int, finder: Delegate, r: Result<MergeSpec, IOError>, e: IOError)
    requires finder(SegmentInfos(version, [a1, a2])) == Success(Some([OneMerge([a1, a2])]))
    requires finder(SegmentInfos(version, [b1, b2])) == Failure(e)
    requires IsPlanningOutcome(SegmentInfos(version, [a1, b1, a2, b2]), {}, finder, r)
    ensures r == Failure(e)
  {
    var segs := [a1, b1, a2, b2];
    var buckets := Buckets(segs, {});
    BucketsInterleaved(Some("B"));
    BucketsEntry(segs, {}, Some("B"));
    forall key | FailsAt(buckets, key, version, finder)
      ensures key == Some("B")
    {
      BucketsInterleaved(key);
      BucketsEntry(segs, {}, key);
    }
    assert FailsAt(buckets, Some("B"), version, finder);
    PlanningOutcomeSpec(SegmentInfos(version, segs), {}, finder, r);
  }

  /** An empty segment list plans nothing. */
  lemma ScenarioEmptyIndex(version: int, finder: Delegate, r: Result<MergeSpec, IOError>)
    requires IsPlanningOutcome(SegmentInfos(version, []), {}, finder, r)
    ensures r == Success(None)
  {
    PlanningAllSingletons(SegmentInfos(version, []), {}, finder, r);
  }

  /** A finder that returns a specification without merges makes the result a specification without merges, not `null`. */
  lemma ScenarioEmptySpecificationKept(version: int, finder: Delegate, r: Result<MergeSpec, IOError>)
    requires finder(SegmentInfos(version, [a1, a2])) == Success(Some([]))
    requires IsPlanningOutcome(SegmentInfos(version, [a1, a2]), {}, finder, r)
    ensures r == Success(Some([]))
  {
    var segs := [a1, a2];
    forall key
      ensures BucketOf(segs, {}, key) == if key == Some("A") then [a1, a2] else []
    {
      BucketOfConcat([a1], [a2], {}, key);
      assert [a1] + [a2] == segs && [a1][..0] == [] && [a2][..0] == [];
    }
    PlanningOneCandidateBucket(SegmentInfos(version, segs), {}, finder, r, Some("A"));
  }
}
