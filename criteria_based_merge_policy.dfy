/**
 * The merge policy of context-aware indices: it wraps another merge policy
 * and lets it merge only segments of the same bucket.
 */
module MergePolicies {
  import opened Wrappers
  import opened MergeTypes
  import opened Bucketing
  import opened Planning

  /** The wrapped policy's regular merge finder, with the trigger and the context bound. */
  function RegularFinder(inner: MergePolicy, trigger: MergeTrigger, ctx: MergeContext): Delegate
  {
    newSIS => inner.findMerges(trigger, newSIS, ctx)
  }

  /** The wrapped policy's forced merge finder, with the target count, the segments to merge away and the context bound. */
  function ForcedFinder(inner: MergePolicy, maxSegmentCount: int, segmentsToMerge: map<Segment, bool>, ctx: MergeContext): Delegate
  {
    newSIS => inner.findForcedMerges(newSIS, maxSegmentCount, segmentsToMerge, ctx)
  }

  /** The wrapped policy's forced-deletes merge finder, with the context bound. */
  function ForcedDeletesFinder(inner: MergePolicy, ctx: MergeContext): Delegate
  {
    newSIS => inner.findForcedDeletesMerges(newSIS, ctx)
  }

  /** The wrapped policy's full-flush merge finder, with the trigger and the context bound. */
  function FullFlushFinder(inner: MergePolicy, trigger: MergeTrigger, ctx: MergeContext): Delegate
  {
    newSIS => inner.findFullFlushMerges(trigger, newSIS, ctx)
  }

  class CriteriaBasedMergePolicy {
    /** The wrapped merge policy. */
    const inner: MergePolicy

    constructor (inner: MergePolicy)
      ensures this.inner == inner
    {
      this.inner := inner;
    }

    /**
     * Groups the segments that are not merging by bucket attribute, asks
     * `finder` for merges within every bucket of more than one segment, and
     * concatenates the specifications it returns. The buckets are visited in
     * the unspecified order of a hash map's entries.
     */
    method FindMergesInternal(infos: SegmentInfos, ctx: MergeContext, finder: Delegate)
      returns (r: Result<MergeSpec, IOError>)
      ensures IsPlanningOutcome(infos, ctx.mergingSegments, finder, r)
    {
      var merging := ctx.mergingSegments;
      var commitInfos: map<BucketKey, seq<Segment>> := map[];
      for i := 0 to |infos.segments|
        invariant commitInfos == Buckets(infos.segments[..i], merging)
      {
        var si := infos.segments[i];
        BucketsAppend(infos.segments[..i], merging, si);
        assert infos.segments[..i + 1] == infos.segments[..i] + [si];
        if si !in merging {
          var key := si.bucket;
          var list := if key in commitInfos then commitInfos[key] else [];
          commitInfos := commitInfos[key := list + [si]];
        }
      }
      assert infos.segments[..|infos.segments|] == infos.segments;

      var version := infos.indexCreatedVersionMajor;
      var spec: MergeSpec := None;
      var remaining := commitInfos.Keys;
      ghost var visited: seq<BucketKey> := [];
      while remaining != {}
        invariant remaining <= commitInfos.Keys
        invariant forall key :: key in visited ==> key in commitInfos && key !in remaining
        invariant forall key :: key in commitInfos ==> key in visited || key in remaining
        invariant forall i, j :: 0 <= i < j < |visited| ==> visited[i] != visited[j]
        invariant PlanOver(commitInfos, visited, version, finder) == Success(spec)
        decreases remaining
      {
        var key :| key in remaining;
        assert (visited + [key])[..|visited|] == visited;
        var segments := commitInfos[key];
        if |segments| > 1 {
          var newSIS := SegmentInfos(version, segments);
          var delegateSpec := finder(newSIS);
          if delegateSpec.Failure? {
            r := Failure(delegateSpec.error);
            ghost var rest := SomeEnumeration(remaining - {key});
            PlanOverFailurePersists(commitInfos, visited + [key], rest, version, finder);
            EnumerationCompleted(visited, key, rest, remaining, commitInfos.Keys);
            return;
          }
          if delegateSpec.value.Some? {
            if spec.None? {
              spec := Some([]);
            }
            spec := Some(spec.value + delegateSpec.value.value);
          }
        }
        visited := visited + [key];
        remaining := remaining - {key};
      }
      r := Success(spec);
      assert Enumerates(visited, commitInfos.Keys);
    }

    /** Regular merges, found by the wrapped policy within each bucket, for the same trigger and context. */
    method FindMerges(trigger: MergeTrigger, infos: SegmentInfos, ctx: MergeContext)
      returns (r: Result<MergeSpec, IOError>)
      ensures IsPlanningOutcome(infos, ctx.mergingSegments, RegularFinder(inner, trigger, ctx), r)
    {
      r := FindMergesInternal(infos, ctx, RegularFinder(inner, trigger, ctx));
    }

    /** Forced merges, found by the wrapped policy within each bucket, for the same target count, segments to merge away and context. */
    method FindForcedMerges(infos: SegmentInfos, maxSegmentCount: int, segmentsToMerge: map<Segment, bool>, ctx: MergeContext)
      returns (r: Result<MergeSpec, IOError>)
      ensures IsPlanningOutcome(infos, ctx.mergingSegments, ForcedFinder(inner, maxSegmentCount, segmentsToMerge, ctx), r)
    {
      r := FindMergesInternal(infos, ctx, ForcedFinder(inner, maxSegmentCount, segmentsToMerge, ctx));
    }

    /** Merges that expunge deletes, found by the wrapped policy within each bucket, for the same context. */
    method FindForcedDeletesMerges(infos: SegmentInfos, ctx: MergeContext)
      returns (r: Result<MergeSpec, IOError>)
      ensures IsPlanningOutcome(infos, ctx.mergingSegments, ForcedDeletesFinder(inner, ctx), r)
    {
      r := FindMergesInternal(infos, ctx, ForcedDeletesFinder(inner, ctx));
    }

    /** Merges to run on commit or reader opening, found by the wrapped policy within each bucket, for the same trigger and context. */
    method FindFullFlushMerges(trigger: MergeTrigger, infos: SegmentInfos, ctx: MergeContext)
      returns (r: Result<MergeSpec, IOError>)
      ensures IsPlanningOutcome(infos, ctx.mergingSegments, FullFlushFinder(inner, trigger, ctx), r)
    {
      r := FindMergesInternal(infos, ctx, FullFlushFinder(inner, trigger, ctx));
    }
  }
}
