/**
 * The Lucene values the bucketed merge planner reads and returns, reduced to
 * what the planner looks at: a segment's identity and its bucket attribute,
 * the segment list with the index-created major version, the merging set of
 * the merge context, and the wrapped merge policy seen as four uninterpreted
 * merge finders.
 */
module MergeTypes {
  import opened Wrappers

  /** The bucket attribute stored on a segment; `None` is the `null` attribute of a segment written without one. */
  type BucketKey = Option<string>

  /** A committed segment: its name and its bucket attribute. */
  datatype Segment = Segment(name: string, bucket: BucketKey)

  /** One planned merge: the segments to be combined into one new segment. */
  datatype OneMerge = OneMerge(segments: seq<Segment>)

  /** A segment list tagged with the major version of the Lucene release that created the index. */
  datatype SegmentInfos = SegmentInfos(indexCreatedVersionMajor: int, segments: seq<Segment>)

  /** A merge specification (its list of merges), or `None` for the `null` specification: nothing to merge. */
  type MergeSpec = Option<seq<OneMerge>>

  /** The `IOException` a merge finder may throw. */
  datatype IOError = IOError(message: string)

  /** The event that triggered a merge request; the planner only passes it on. */
  datatype MergeTrigger = MergeTrigger(name: string)

  /** The merge context; the planner reads only the segments currently being merged. */
  datatype MergeContext = MergeContext(mergingSegments: set<Segment>)

  /** A merge finder: given a candidate segment list, a specification or an `IOException`. */
  type Delegate = SegmentInfos -> Result<MergeSpec, IOError>

  /** The wrapped merge policy: its four merge finders, whose heuristics are not modelled. */
  datatype MergePolicy = MergePolicy(
    findMerges: (MergeTrigger, SegmentInfos, MergeContext) -> Result<MergeSpec, IOError>,
    findForcedMerges: (SegmentInfos, int, map<Segment, bool>, MergeContext) -> Result<MergeSpec, IOError>,
    findForcedDeletesMerges: (SegmentInfos, MergeContext) -> Result<MergeSpec, IOError>,
    findFullFlushMerges: (MergeTrigger, SegmentInfos, MergeContext) -> Result<MergeSpec, IOError>
  )
}
