/**
 * Grouping of the segments that are not merging by their bucket attribute:
 * the map that the first loop of the planner fills.
 */
module Bucketing {
  import opened Wrappers
  import opened MergeTypes

  /** The segments of `segs` that are not merging and carry `key`, in their original order. */
  function BucketOf(segs: seq<Segment>, merging: set<Segment>, key: BucketKey): seq<Segment>
    decreases |segs|
  {
    if segs == [] then []
    else
      var last := segs[|segs| - 1];
      BucketOf(segs[..|segs| - 1], merging, key) + (if last !in merging && last.bucket == key then [last] else [])
  }

  /** The bucket attributes of the segments that are not merging. */
  function BucketKeys(segs: seq<Segment>, merging: set<Segment>): set<BucketKey>
  {
    set s | s in segs && s !in merging :: s.bucket
  }

  /** The bucket map: each bucket attribute of a non-merging segment, mapped to its bucket. */
  function Buckets(segs: seq<Segment>, merging: set<Segment>): map<BucketKey, seq<Segment>>
  {
    map key | key in BucketKeys(segs, merging) :: BucketOf(segs, merging, key)
  }

  /** A bucket holds exactly the non-merging segments with its attribute: merging ones are dropped, keyed and unkeyed never mix. */
  lemma {:induction false} BucketOfMembership(segs: seq<Segment>, merging: set<Segment>, key: BucketKey, s: Segment)
    ensures s in BucketOf(segs, merging, key) <==> s in segs && s !in merging && s.bucket == key
    decreases |segs|
  {
    if segs != [] {
      var init := segs[..|segs| - 1];
      BucketOfMembership(init, merging, key, s);
      assert segs == init + [segs[|segs| - 1]];
    }
  }

  /** Bucketing distributes over concatenation: a bucket keeps the relative order of the segment list. */
  lemma {:induction false} BucketOfConcat(a: seq<Segment>, b: seq<Segment>, merging: set<Segment>, key: BucketKey)
    ensures BucketOf(a + b, merging, key) == BucketOf(a, merging, key) + BucketOf(b, merging, key)
    decreases |b|
  {
    if b == [] {
      assert a + b == a;
    } else {
      var init := b[..|b| - 1];
      BucketOfConcat(a, init, merging, key);
      assert (a + b)[..|a + b| - 1] == a + init;
    }
  }

  /** The bucket map has an entry exactly for the attributes of non-merging segments, and each entry is that attribute's bucket. */
  lemma BucketsEntry(segs: seq<Segment>, merging: set<Segment>, key: BucketKey)
    ensures key in Buckets(segs, merging) <==> BucketOf(segs, merging, key) != []
    ensures key in Buckets(segs, merging) ==> Buckets(segs, merging)[key] == BucketOf(segs, merging, key)
  {
  }

  /**
   * One step of the grouping loop: appending a segment leaves the map alone
   * when the segment is merging, and otherwise appends it to its bucket,
   * creating the bucket when absent.
   */
  lemma BucketsAppend(segs: seq<Segment>, merging: set<Segment>, s: Segment)
    ensures Buckets(segs + [s], merging) ==
      if s in merging then Buckets(segs, merging)
      else
        var prev := Buckets(segs, merging);
        prev[s.bucket := (if s.bucket in prev then prev[s.bucket] else []) + [s]]
  {
    var segs' := segs + [s];
    var before, after := Buckets(segs, merging), Buckets(segs', merging);
    var expected := if s in merging then before
      else before[s.bucket := (if s.bucket in before then before[s.bucket] else []) + [s]];
    assert segs'[..|segs'| - 1] == segs;
    forall key
      ensures key in after <==> key in expected
      ensures key in after ==> after[key] == expected[key]
    {
      BucketsEntry(segs, merging, key);
      BucketsEntry(segs', merging, key);
    }
    assert after == expected;
  }
}
