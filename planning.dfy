/**
 * The second loop of the planner as a specification: the buckets are visited
 * in some order, every bucket with more than one segment is handed to the
 * merge finder, and the specifications that come back are concatenated.
 * The lemmas state the outcome without reference to the visiting order,
 * which the Java `HashMap` leaves unspecified.
 */
module Planning {
  import opened Wrappers
  import opened MergeTypes
  import opened Bucketing

  type BucketMap = map<BucketKey, seq<Segment>>

  /** The merges held by a specification; the `null` specification holds none. */
  function MergesOf(spec: MergeSpec): seq<OneMerge>
  {
    if spec.Some? then spec.value else []
  }

  /** A bucket is handed to the merge finder only when it holds more than one segment. */
  predicate Submitted(buckets: BucketMap, key: BucketKey)
  {
    key in buckets && |buckets[key]| > 1
  }

  /** The candidate list built for a bucket: its segments, tagged with the original index-created major version. */
  function Candidates(buckets: BucketMap, key: BucketKey, version: int): SegmentInfos
    requires key in buckets
  {
    SegmentInfos(version, buckets[key])
  }

  /** What the merge finder answers for a bucket. */
  function Answer(buckets: BucketMap, key: BucketKey, version: int, finder: Delegate): Result<MergeSpec, IOError>
    requires key in buckets
  {
    finder(Candidates(buckets, key, version))
  }

  /** The merge finder throws for a submitted bucket. */
  predicate FailsAt(buckets: BucketMap, key: BucketKey, version: int, finder: Delegate)
  {
    Submitted(buckets, key) && Answer(buckets, key, version, finder).Failure?
  }

  /** The merge finder returns a non-null specification for a submitted bucket. */
  predicate ProducesAt(buckets: BucketMap, key: BucketKey, version: int, finder: Delegate)
  {
    Submitted(buckets, key) && Answer(buckets, key, version, finder).Success? && Answer(buckets, key, version, finder).value.Some?
  }

  /** The merges a bucket contributes to the result, as a multiset. */
  function Contribution(buckets: BucketMap, key: BucketKey, version: int, finder: Delegate): multiset<OneMerge>
  {
    if ProducesAt(buckets, key, version, finder) then multiset(Answer(buckets, key, version, finder).value.value) else multiset{}
  }

  /** Visiting one bucket with the specification accumulated so far. */
  function Visit(acc: MergeSpec, buckets: BucketMap, key: BucketKey, version: int, finder: Delegate): Result<MergeSpec, IOError>
  {
    if Submitted(buckets, key) then
      match Answer(buckets, key, version, finder)
      case Failure(e) => Failure(e)
      case Success(None) => Success(acc)
      case Success(Some(merges)) => Success(Some(MergesOf(acc) + merges))
    else Success(acc)
  }

  /** The outcome of visiting the buckets in `order`; the first exception ends the visit. */
  function PlanOver(buckets: BucketMap, order: seq<BucketKey>, version: int, finder: Delegate): Result<MergeSpec, IOError>
    decreases |order|
  {
    if order == [] then Success(None)
    else
      match PlanOver(buckets, order[..|order| - 1], version, finder)
      case Failure(e) => Failure(e)
      case Success(acc) => Visit(acc, buckets, order[|order| - 1], version, finder)
  }

  /** The merges contributed by the buckets in `order`. */
  function ContributionOver(buckets: BucketMap, order: seq<BucketKey>, version: int, finder: Delegate): multiset<OneMerge>
    decreases |order|
  {
    if order == [] then multiset{}
    else ContributionOver(buckets, order[..|order| - 1], version, finder) + Contribution(buckets, order[|order| - 1], version, finder)
  }

  /** Some key of a non-empty set. */
  ghost function Pick(keys: set<BucketKey>): (key: BucketKey)
    requires keys != {}
    ensures key in keys
  {
    var key :| key in keys; key
  }

  /** The merges contributed by a set of buckets, independent of any order. */
  ghost function TotalContribution(buckets: BucketMap, keys: set<BucketKey>, version: int, finder: Delegate): multiset<OneMerge>
    decreases keys
  {
    if keys == {} then multiset{}
    else TotalContribution(buckets, keys - {Pick(keys)}, version, finder) + Contribution(buckets, Pick(keys), version, finder)
  }

  /** `order` visits every key of `keys` exactly once, as the iteration over a map's entries does. */
  ghost predicate Enumerates(order: seq<BucketKey>, keys: set<BucketKey>)
  {
    && (forall key :: key in order <==> key in keys)
    && (forall i, j :: 0 <= i < j < |order| ==> order[i] != order[j])
  }

  /** A visit in progress, its current key and an enumeration of the keys left make an enumeration of all keys. */
  lemma EnumerationCompleted(visited: seq<BucketKey>, key: BucketKey, rest: seq<BucketKey>, remaining: set<BucketKey>, keys: set<BucketKey>)
    requires key in remaining && remaining <= keys
    requires forall k :: k in visited ==> k in keys && k !in remaining
    requires forall k :: k in keys ==> k in visited || k in remaining
    requires forall i, j :: 0 <= i < j < |visited| ==> visited[i] != visited[j]
    requires Enumerates(rest, remaining - {key})
    ensures Enumerates(visited + [key] + rest, keys)
  {
    var order := visited + [key] + rest;
    forall i, j | 0 <= i < j < |order|
      ensures order[i] != order[j]
    {
      if j < |visited| {
      } else if j == |visited| {
        assert order[i] in visited;
      } else if i < |visited| {
        assert order[i] in visited && order[j] in rest;
      } else if i == |visited| {
        assert order[j] in rest;
      } else {
        assert order[i] == rest[i - |visited| - 1] && order[j] == rest[j - |visited| - 1];
      }
    }
  }

  /** Some enumeration of a finite set of keys. */
  ghost function SomeEnumeration(keys: set<BucketKey>): (order: seq<BucketKey>)
    ensures Enumerates(order, keys)
    decreases keys
  {
    if keys == {} then []
    else
      var key :| key in keys;
      [key] + SomeEnumeration(keys - {key})
  }

  /**
   * A possible outcome of planning over `infos` with `merging` excluded:
   * the outcome of visiting its bucket map in one of the orders its entries
   * may be iterated in.
   */
  ghost predicate IsPlanningOutcome(infos: SegmentInfos, merging: set<Segment>, finder: Delegate, r: Result<MergeSpec, IOError>)
  {
    exists order ::
      && Enumerates(order, Buckets(infos.segments, merging).Keys)
      && r == PlanOver(Buckets(infos.segments, merging), order, infos.indexCreatedVersionMajor, finder)
  }

  /** The merge finder only groups segments from the candidate list it was given. */
  ghost predicate DelegateConfined(finder: Delegate)
  {
    forall infos: SegmentInfos, m: OneMerge, s: Segment {:trigger s in m.segments, finder(infos)} ::
      finder(infos).Success? && finder(infos).value.Some? && m in finder(infos).value.value && s in m.segments
      ==> s in infos.segments
  }

  // ---------------------------------------------------------------------------
  // Visiting the buckets in a given order
  // ---------------------------------------------------------------------------

  /**
   * Visiting in `order` fails exactly when some submitted bucket's finder
   * throws, and then with one of those exceptions; it is `null` exactly when
   * no submitted bucket gets a non-null specification; otherwise its merges
   * are those of the non-null specifications, together.
   */
  lemma {:induction false} PlanOverSpec(buckets: BucketMap, order: seq<BucketKey>, version: int, finder: Delegate)
    ensures var r := PlanOver(buckets, order, version, finder);
      && (r.Failure? <==> exists key :: key in order && FailsAt(buckets, key, version, finder))
      && (r.Failure? ==> exists key :: key in order && FailsAt(buckets, key, version, finder)
                                       && Answer(buckets, key, version, finder).error == r.error)
      && (r.Success? ==> (r.value.Some? <==> exists key :: key in order && ProducesAt(buckets, key, version, finder)))
      && (r.Success? ==> multiset(MergesOf(r.value)) == ContributionOver(buckets, order, version, finder))
    decreases |order|
  {
    if order != [] {
      var prefix, last := order[..|order| - 1], order[|order| - 1];
      PlanOverSpec(buckets, prefix, version, finder);
      assert order == prefix + [last];
      assert forall key :: key in order <==> key in prefix || key == last;
      var r := PlanOver(buckets, order, version, finder);
      if PlanOver(buckets, prefix, version, finder).Failure? {
        assert r == PlanOver(buckets, prefix, version, finder);
      } else if FailsAt(buckets, last, version, finder) {
        assert r.Failure? && r.error == Answer(buckets, last, version, finder).error;
      } else {
        assert r.Success?;
        assert !exists key :: key in order && FailsAt(buckets, key, version, finder);
        if ProducesAt(buckets, last, version, finder) {
          assert r.value.Some?;
        } else {
          assert r.value == PlanOver(buckets, prefix, version, finder).value;
        }
      }
    }
  }

  /** Once a visit has thrown, visiting more buckets does not change the outcome. */
  lemma {:induction false} PlanOverFailurePersists(buckets: BucketMap, order: seq<BucketKey>, rest: seq<BucketKey>, version: int, finder: Delegate)
    requires PlanOver(buckets, order, version, finder).Failure?
    ensures PlanOver(buckets, order + rest, version, finder) == PlanOver(buckets, order, version, finder)
    decreases |rest|
  {
    if rest != [] {
      var init := rest[..|rest| - 1];
      PlanOverFailurePersists(buckets, order, init, version, finder);
      assert (order + rest)[..|order + rest| - 1] == order + init;
    } else {
      assert order + rest == order;
    }
  }

  /** Each merge of a visit's result comes from the non-null specification of one visited bucket. */
  lemma {:induction false} ContributionOverOrigin(buckets: BucketMap, order: seq<BucketKey>, version: int, finder: Delegate, m: OneMerge)
    requires m in ContributionOver(buckets, order, version, finder)
    ensures exists key :: key in order && ProducesAt(buckets, key, version, finder)
                          && m in Answer(buckets, key, version, finder).value.value
    decreases |order|
  {
    var prefix, last := order[..|order| - 1], order[|order| - 1];
    if m in ContributionOver(buckets, prefix, version, finder) {
      ContributionOverOrigin(buckets, prefix, version, finder, m);
      assert forall key :: key in prefix ==> key in order;
    } else {
      assert ProducesAt(buckets, last, version, finder);
    }
  }

  /** The visit depends on the merge finder only through its answers for the submitted buckets. */
  lemma {:induction false} PlanOverCongruent(buckets: BucketMap, order: seq<BucketKey>, version: int, finder: Delegate, finder': Delegate)
    requires forall key :: Submitted(buckets, key) ==> Answer(buckets, key, version, finder) == Answer(buckets, key, version, finder')
    ensures PlanOver(buckets, order, version, finder) == PlanOver(buckets, order, version, finder')
    decreases |order|
  {
    if order != [] {
      PlanOverCongruent(buckets, order[..|order| - 1], version, finder, finder');
    }
  }

  /** When at most one bucket is submitted, visiting the buckets yields that bucket's answer, or `null` when it is not visited. */
  lemma {:induction false} PlanOverOneSubmitted(buckets: BucketMap, order: seq<BucketKey>, key: BucketKey, version: int, finder: Delegate)
    requires forall k :: Submitted(buckets, k) ==> k == key
    requires forall i, j :: 0 <= i < j < |order| ==> order[i] != order[j]
    ensures PlanOver(buckets, order, version, finder)
         == if key in order && Submitted(buckets, key) then Answer(buckets, key, version, finder) else Success(None)
    decreases |order|
  {
    if order != [] {
      var prefix, last := order[..|order| - 1], order[|order| - 1];
      assert order == prefix + [last];
      PlanOverOneSubmitted(buckets, prefix, key, version, finder);
      if last == key && Submitted(buckets, key) {
        assert key !in prefix;
        var answer := Answer(buckets, key, version, finder);
        if answer.Success? && answer.value.Some? {
          assert [] + answer.value.value == answer.value.value;
        }
      }
    }
  }

  // ---------------------------------------------------------------------------
  // Independence from the visiting order
  // ---------------------------------------------------------------------------

  /** Any key of a set can be taken out of the fold first. */
  lemma {:induction false} TotalContributionRemove(buckets: BucketMap, keys: set<BucketKey>, x: BucketKey, version: int, finder: Delegate)
    requires x in keys
    ensures TotalContribution(buckets, keys, version, finder)
         == TotalContribution(buckets, keys - {x}, version, finder) + Contribution(buckets, x, version, finder)
    decreases keys
  {
    var key := Pick(keys);
    if key != x {
      TotalContributionRemove(buckets, keys - {key}, x, version, finder);
      TotalContributionRemove(buckets, keys - {x}, key, version, finder);
      assert keys - {key} - {x} == keys - {x} - {key};
    }
  }

  /** Whatever order the keys are enumerated in, the contributions add up to the same multiset. */
  lemma {:induction false} ContributionOverEnumeration(buckets: BucketMap, order: seq<BucketKey>, keys: set<BucketKey>, version: int, finder: Delegate)
    requires Enumerates(order, keys)
    ensures ContributionOver(buckets, order, version, finder) == TotalContribution(buckets, keys, version, finder)
    decreases |order|
  {
    if order == [] {
      assert forall key :: key !in keys;
      assert keys == {};
    } else {
      var prefix, last := order[..|order| - 1], order[|order| - 1];
      assert order == prefix + [last];
      assert Enumerates(prefix, keys - {last});
      ContributionOverEnumeration(buckets, prefix, keys - {last}, version, finder);
      TotalContributionRemove(buckets, keys, last, version, finder);
    }
  }

  // ---------------------------------------------------------------------------
  // The planning outcome
  // ---------------------------------------------------------------------------

  /**
   * Planning fails exactly when the merge finder throws for some bucket of
   * more than one non-merging segment, and then with one of those exceptions;
   * it returns `null` exactly when no such bucket gets a non-null
   * specification; otherwise its merges, as a multiset, are the merges of all
   * the non-null specifications, whatever order the buckets were visited in.
   */
  lemma PlanningOutcomeSpec(infos: SegmentInfos, merging: set<Segment>, finder: Delegate, r: Result<MergeSpec, IOError>)
    requires IsPlanningOutcome(infos, merging, finder, r)
    ensures var buckets, version := Buckets(infos.segments, merging), infos.indexCreatedVersionMajor;
      && (r.Failure? <==> exists key :: FailsAt(buckets, key, version, finder))
      && (r.Failure? ==> exists key :: FailsAt(buckets, key, version, finder) && Answer(buckets, key, version, finder).error == r.error)
      && (r.Success? ==> (r.value.Some? <==> exists key :: ProducesAt(buckets, key, version, finder)))
      && (r.Success? ==> multiset(MergesOf(r.value)) == TotalContribution(buckets, buckets.Keys, version, finder))
  {
    var buckets, version := Buckets(infos.segments, merging), infos.indexCreatedVersionMajor;
    var order :| Enumerates(order, buckets.Keys) && r == PlanOver(buckets, order, version, finder);
    PlanOverSpec(buckets, order, version, finder);
    ContributionOverEnumeration(buckets, order, buckets.Keys, version, finder);
  }

  /** When no bucket holds two or more non-merging segments, the merge finder is never consulted and the result is `null`. */
  lemma PlanningAllSingletons(infos: SegmentInfos, merging: set<Segment>, finder: Delegate, r: Result<MergeSpec, IOError>)
    requires forall key :: |BucketOf(infos.segments, merging, key)| <= 1
    requires IsPlanningOutcome(infos, merging, finder, r)
    ensures r == Success(None)
  {
    var buckets, version := Buckets(infos.segments, merging), infos.indexCreatedVersionMajor;
    forall key
      ensures !Submitted(buckets, key)
    {
      BucketsEntry(infos.segments, merging, key);
    }
    PlanningOutcomeSpec(infos, merging, finder, r);
  }

  /**
   * When only one bucket attribute has two or more non-merging segments, the
   * result is exactly the merge finder's answer for that bucket, whether an
   * exception, `null`, or a specification (even one with no merges).
   */
  lemma PlanningOneCandidateBucket(infos: SegmentInfos, merging: set<Segment>, finder: Delegate, r: Result<MergeSpec, IOError>, key: BucketKey)
    requires |BucketOf(infos.segments, merging, key)| > 1
    requires forall k :: |BucketOf(infos.segments, merging, k)| > 1 ==> k == key
    requires IsPlanningOutcome(infos, merging, finder, r)
    ensures r == finder(SegmentInfos(infos.indexCreatedVersionMajor, BucketOf(infos.segments, merging, key)))
  {
    var buckets, version := Buckets(infos.segments, merging), infos.indexCreatedVersionMajor;
    var order :| Enumerates(order, buckets.Keys) && r == PlanOver(buckets, order, version, finder);
    forall k | Submitted(buckets, k)
      ensures k == key
    {
      BucketsEntry(infos.segments, merging, k);
    }
    BucketsEntry(infos.segments, merging, key);
    PlanOverOneSubmitted(buckets, order, key, version, finder);
  }

  /**
   * Two plannings over the same inputs agree: both throw, or both return
   * `null`, or both return specifications with the same merges as a multiset.
   */
  lemma PlanningOutcomesAgree(infos: SegmentInfos, merging: set<Segment>, finder: Delegate, r: Result<MergeSpec, IOError>, r': Result<MergeSpec, IOError>)
    requires IsPlanningOutcome(infos, merging, finder, r)
    requires IsPlanningOutcome(infos, merging, finder, r')
    ensures r.Failure? <==> r'.Failure?
    ensures r.Success? ==> (r.value.None? <==> r'.value.None?)
    ensures r.Success? ==> multiset(MergesOf(r.value)) == multiset(MergesOf(r'.value))
  {
    PlanningOutcomeSpec(infos, merging, finder, r);
    PlanningOutcomeSpec(infos, merging, finder, r');
  }

  /**
   * With a merge finder that only groups the segments it was given, every
   * merge of the result consists of segments of the index that are not
   * merging, all with the same bucket attribute.
   */
  lemma PlanningOutcomeIsolation(infos: SegmentInfos, merging: set<Segment>, finder: Delegate, r: Result<MergeSpec, IOError>, m: OneMerge)
    requires IsPlanningOutcome(infos, merging, finder, r)
    requires DelegateConfined(finder)
    requires r.Success? && m in MergesOf(r.value)
    ensures forall s :: s in m.segments ==> s in infos.segments && s !in merging
    ensures forall s, s' :: s in m.segments && s' in m.segments ==> s.bucket == s'.bucket
  {
    var buckets, version := Buckets(infos.segments, merging), infos.indexCreatedVersionMajor;
    var order :| Enumerates(order, buckets.Keys) && r == PlanOver(buckets, order, version, finder);
    PlanOverSpec(buckets, order, version, finder);
    ContributionOverOrigin(buckets, order, version, finder, m);
    var key :| key in order && ProducesAt(buckets, key, version, finder) && m in Answer(buckets, key, version, finder).value.value;
    forall s | s in m.segments
      ensures s in infos.segments && s !in merging && s.bucket == key
    {
      assert s in buckets[key];
      BucketsEntry(infos.segments, merging, key);
      BucketOfMembership(infos.segments, merging, key, s);
    }
  }

  /**
   * The merge finder is consulted only on the non-merging segments of one
   * bucket attribute, in their original order, and only when there are more
   * than one of them: two finders that agree on those lists yield the same
   * possible outcomes.
   */
  lemma PlanningConsultsOnlyBuckets(infos: SegmentInfos, merging: set<Segment>, finder: Delegate, finder': Delegate, r: Result<MergeSpec, IOError>)
    requires forall key :: |BucketOf(infos.segments, merging, key)| > 1 ==>
      finder(SegmentInfos(infos.indexCreatedVersionMajor, BucketOf(infos.segments, merging, key)))
      == finder'(SegmentInfos(infos.indexCreatedVersionMajor, BucketOf(infos.segments, merging, key)))
    requires IsPlanningOutcome(infos, merging, finder, r)
    ensures IsPlanningOutcome(infos, merging, finder', r)
  {
    var buckets, version := Buckets(infos.segments, merging), infos.indexCreatedVersionMajor;
    var order :| Enumerates(order, buckets.Keys) && r == PlanOver(buckets, order, version, finder);
    forall key | Submitted(buckets, key)
      ensures Answer(buckets, key, version, finder) == Answer(buckets, key, version, finder')
    {
      BucketsEntry(infos.segments, merging, key);
    }
    PlanOverCongruent(buckets, order, version, finder, finder');
  }
}
