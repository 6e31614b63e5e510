/** Percentage rollout, after src/evaluation/dispatch.rs and `select_rollout` of evaluator.rs. */
module Dispatch {
  import opened Meaning
  import opened Model
  import opened Wrappers

  const TOLERANCE: real := 0.00001

  function Abs(x: real): real { if x < 0.0 then -x else x }

  function RolloutOfKey(text: Library, key: string): (value: real)
    ensures 0.0 <= value <= 1.0
  {
    var signed := text.hash(key);
    Abs(signed as real / -2147483648.0)
  }

  /** What one range decides about a rollout value, with no caching. */
  predicate RangeMatches(rollout: seq<real>, value: real) {
    if |rollout| != 2 || rollout[0] > rollout[1] then false
    else if CoversAll(rollout) then true
    else if rollout[0] == 0.0 && rollout[1] == 0.0 then false
    else rollout[0] <= value <= rollout[1]
  }

  /** The shortcut for a range that starts at zero and ends within the tolerance of one. */
  predicate CoversAll(rollout: seq<real>)
    requires |rollout| == 2
  {
    rollout[0] == 0.0 && 1.0 - rollout[1] < TOLERANCE
  }

  /** The ranges on which the decision depends on the hash of the key. */
  predicate NeedsHash(rollout: seq<real>) {
    && |rollout| == 2
    && rollout[0] <= rollout[1]
    && !CoversAll(rollout)
    && !(rollout[0] == 0.0 && rollout[1] == 0.0)
  }

  /** `RolloutMatcher`: caches the hash of one key; the counter is the one its tests read. */
  class RolloutMatcher {
    const text: Library
    const key: string
    var value: Option<real>
    var hashComputations: nat

    ghost predicate Valid()
      reads this
    {
      && (value.Some? ==> value.value == RolloutOfKey(text, key))
      && hashComputations == (if value.Some? then 1 else 0)
    }

    constructor (text: Library, key: string)
      ensures Valid() && value == None
      ensures this.text == text && this.key == key
    {
      this.text, this.key := text, key;
      value, hashComputations := None, 0;
    }

    method Matches(rollout: seq<real>) returns (matched: bool)
      requires Valid()
      modifies this
      ensures Valid()
      ensures matched == RangeMatches(rollout, RolloutOfKey(text, key))
      ensures value == if NeedsHash(rollout) then Some(RolloutOfKey(text, key)) else old(value)
    {
      if |rollout| != 2 {
        return false;
      }
      var min, max := rollout[0], rollout[1];
      if min > max {
        return false;
      }
      if min == 0.0 && 1.0 - max < TOLERANCE {
        return true;
      }
      if min == 0.0 && max == 0.0 {
        return false;
      }
      var v := Value();
      matched := v >= min && v <= max;
    }

    method Value() returns (v: real)
      requires Valid()
      modifies this
      ensures Valid()
      ensures v == RolloutOfKey(text, key) && value == Some(v)
    {
      if value.Some? {
        return value.value;
      }
      v := RolloutOfKey(text, key);
      value := Some(v);
      hashComputations := hashComputations + 1;
    }
  }

  /** The index of the first matching rollout, if there is one. */
  function Selected(rollouts: seq<RolloutVariation>, value: real): (index: Option<nat>)
    ensures index.Some? ==> index.value < |rollouts| && RangeMatches(rollouts[index.value].rollout, value)
    ensures forall j :: 0 <= j < (if index.Some? then index.value else |rollouts|) ==>
            !RangeMatches(rollouts[j].rollout, value)
  {
    if rollouts == [] then None
    else
      var before := Selected(rollouts[..|rollouts| - 1], value);
      if before.Some? then before
      else if RangeMatches(rollouts[|rollouts| - 1].rollout, value) then Some(|rollouts| - 1)
      else None
  }

  lemma SelectedIs(rollouts: seq<RolloutVariation>, value: real, index: Option<nat>)
    requires index.Some? ==> index.value < |rollouts| && RangeMatches(rollouts[index.value].rollout, value)
    requires forall j :: 0 <= j < (if index.Some? then index.value else |rollouts|) ==>
             !RangeMatches(rollouts[j].rollout, value)
    ensures Selected(rollouts, value) == index
  {
    var other := Selected(rollouts, value);
    if other.Some? && index.Some? {
      assert !(other.value < index.value) && !(index.value < other.value);
    }
  }

  /** `select_rollout`: the search shares one matcher, so it hashes the key at most once, and only if a range
      that it visits depends on the hash. */
  method SelectRollout(text: Library, rollouts: seq<RolloutVariation>, key: string)
    returns (index: Option<nat>, hashes: nat)
    ensures index == Selected(rollouts, RolloutOfKey(text, key))
    ensures hashes <= 1
    ensures var visited := if index.Some? then index.value + 1 else |rollouts|;
            hashes == 1 <==> exists i :: 0 <= i < visited && NeedsHash(rollouts[i].rollout)
  {
    var matcher := new RolloutMatcher(text, key);
    var i := 0;
    while i < |rollouts|
      invariant 0 <= i <= |rollouts|
      invariant matcher.Valid() && matcher.text == text && matcher.key == key && fresh(matcher)
      invariant forall j :: 0 <= j < i ==> !RangeMatches(rollouts[j].rollout, RolloutOfKey(text, key))
      invariant matcher.value.Some? <==> exists j :: 0 <= j < i && NeedsHash(rollouts[j].rollout)
    {
      var matched := matcher.Matches(rollouts[i].rollout);
      if matched {
        SelectedIs(rollouts, RolloutOfKey(text, key), Some(i));
        return Some(i), matcher.hashComputations;
      }
      i := i + 1;
    }
    SelectedIs(rollouts, RolloutOfKey(text, key), None);
    return None, matcher.hashComputations;
  }

  predicate IsPercentageSplit(rollouts: seq<RolloutVariation>) {
    |rollouts| > 1 || (|rollouts| == 1 && !(|rollouts[0].rollout| == 2 && CoversAll(rollouts[0].rollout)))
  }

  /** "No split" means that the user's key cannot matter, whatever its rollout value is. */
  lemma NoSplitIgnoresTheKey(rollouts: seq<RolloutVariation>, value: real)
    requires !IsPercentageSplit(rollouts)
    ensures Selected(rollouts, value) == if rollouts == [] then None else Some(0)
    ensures forall i :: 0 <= i < |rollouts| ==> !NeedsHash(rollouts[i].rollout)
  {
    if rollouts != [] {
      SelectedIs(rollouts, value, Some(0));
    }
  }

  // ---------------------------------------------------------------------------------------------------
  // What these compute

  lemma RolloutMeaning(text: Library, key: string, value: real)
    ensures IsRollout(text, key, value) <==> value == RolloutOfKey(text, key)
  {
  }

  lemma RangeMeaning(rollout: seq<real>, value: real)
    ensures RangeMatches(rollout, value) <==> Covers(rollout, value)
  {
  }

  lemma SplitMeaning(rollouts: seq<RolloutVariation>)
    ensures IsPercentageSplit(rollouts) <==> IsSplit(rollouts)
  {
    if |rollouts| == 1 && |rollouts[0].rollout| == 2 && CoversAll(rollouts[0].rollout) {
      assert rollouts[0].rollout == [0.0, rollouts[0].rollout[1]];
    }
  }

  lemma SelectedMeaning(rollouts: seq<RolloutVariation>, value: real)
    ensures var index := Selected(rollouts, value);
            IsFirstCovered(rollouts, value, if index.Some? then Some(rollouts[index.value].id) else None)
  {
    forall i | 0 <= i < |rollouts|
      ensures RangeMatches(rollouts[i].rollout, value) <==> Covers(rollouts[i].rollout, value)
    {
      RangeMeaning(rollouts[i].rollout, value);
    }
  }

  // ---------------------------------------------------------------------------------------------------
  // Contiguous partitions of [0, 1]

  ghost predicate IsPartition(bounds: seq<real>) {
    && |bounds| >= 2
    && bounds[0] == 0.0
    && bounds[|bounds| - 1] == 1.0
    && forall i, j :: 0 <= i <= j < |bounds| ==> bounds[i] <= bounds[j]
  }

  ghost predicate Cuts(rollouts: seq<RolloutVariation>, bounds: seq<real>) {
    && IsPartition(bounds)
    && |rollouts| + 1 == |bounds|
    && forall i :: 0 <= i < |rollouts| ==> rollouts[i].rollout == [bounds[i], bounds[i + 1]]
  }

  ghost predicate Reaches(bounds: seq<real>, value: real, i: nat)
    requires i + 1 < |bounds|
  {
    bounds[i + 1] > 0.0 && (value <= bounds[i + 1] || Shortcut(bounds, i))
  }

  ghost predicate Shortcut(bounds: seq<real>, i: nat)
    requires i + 1 < |bounds|
  {
    bounds[i] == 0.0 && bounds[i + 1] > 1.0 - TOLERANCE
  }

  ghost predicate IsLeastReaching(bounds: seq<real>, value: real, i: nat) {
    && i + 1 < |bounds|
    && Reaches(bounds, value, i)
    && forall j :: 0 <= j < i ==> !Reaches(bounds, value, j)
  }

  /** A partition always selects: the least range that the value has not passed, or the shortcut range. */
  lemma PartitionSelects(rollouts: seq<RolloutVariation>, bounds: seq<real>, value: real)
    requires Cuts(rollouts, bounds) && 0.0 <= value <= 1.0
    ensures Selected(rollouts, value).Some?
    ensures IsLeastReaching(bounds, value, Selected(rollouts, value).value)
    ensures forall i: nat :: IsLeastReaching(bounds, value, i) ==> Selected(rollouts, value) == Some(i)
  {
    var last := |rollouts| - 1;
    assert Reaches(bounds, value, last);
    var i := LeastReaching(bounds, value, last);
    assert i > 0 && bounds[i] > 0.0 ==> !Reaches(bounds, value, i - 1);
    forall j | 0 <= j < i ensures !RangeMatches(rollouts[j].rollout, value) {
      assert !Reaches(bounds, value, j);
    }
    SelectedIs(rollouts, value, Some(i));
  }

  lemma {:induction false} LeastReaching(bounds: seq<real>, value: real, last: nat) returns (i: nat)
    requires last + 1 < |bounds| && Reaches(bounds, value, last)
    ensures i <= last && IsLeastReaching(bounds, value, i)
  {
    i := last;
    if j :| 0 <= j < last && Reaches(bounds, value, j) {
      i := LeastReaching(bounds, value, j);
    }
  }

  /** What growing the leading buckets must respect: the one bucket that a shortcut hands to everybody, if it
      ends below one, must be taken over by a bucket that still holds everybody. */
  ghost predicate KeepsShortcut(before: seq<real>, after: seq<real>)
    requires |before| == |after|
  {
    forall i :: 0 <= i < |before| - 1 && Shortcut(before, i) && before[i + 1] < 1.0 ==>
                  after[i + 1] >= 1.0 || exists j :: 0 <= j <= i && Shortcut(after, j)
  }

  /** Sticky rollouts: moving bounds up never moves a user to a later bucket, exactly when the shortcut
      bucket survives. */
  lemma GrowingBucketsIsSticky(before: seq<RolloutVariation>, after: seq<RolloutVariation>,
                               bounds: seq<real>, bounds': seq<real>)
    requires Cuts(before, bounds) && Cuts(after, bounds') && |bounds| == |bounds'|
    requires forall i :: 0 <= i < |bounds| ==> bounds[i] <= bounds'[i]
    ensures KeepsShortcut(bounds, bounds') <==>
            forall value :: 0.0 <= value <= 1.0 ==> NoLater(before, after, value)
  {
    if KeepsShortcut(bounds, bounds') {
      forall value | 0.0 <= value <= 1.0 ensures NoLater(before, after, value) {
        StickyAt(before, after, bounds, bounds', value);
      }
    } else {
      var i :| 0 <= i < |bounds| - 1 && Shortcut(bounds, i) && bounds[i + 1] < 1.0
               && bounds'[i + 1] < 1.0 && forall j :: 0 <= j <= i ==> !Shortcut(bounds', j);
      PartitionSelects(before, bounds, 1.0);
      PartitionSelects(after, bounds', 1.0);
      assert IsLeastReaching(bounds, 1.0, i);
      assert forall j :: 0 <= j <= i ==> !Reaches(bounds', 1.0, j);
      assert !NoLater(before, after, 1.0);
    }
  }

  ghost predicate NoLater(before: seq<RolloutVariation>, after: seq<RolloutVariation>, value: real) {
    Selected(before, value).Some? && Selected(after, value).Some? &&
    Selected(after, value).value <= Selected(before, value).value
  }

  lemma StickyAt(before: seq<RolloutVariation>, after: seq<RolloutVariation>,
                 bounds: seq<real>, bounds': seq<real>, value: real)
    requires Cuts(before, bounds) && Cuts(after, bounds') && |bounds| == |bounds'|
    requires forall i :: 0 <= i < |bounds| ==> bounds[i] <= bounds'[i]
    requires KeepsShortcut(bounds, bounds') && 0.0 <= value <= 1.0
    ensures NoLater(before, after, value)
  {
    PartitionSelects(before, bounds, value);
    PartitionSelects(after, bounds', value);
    var i := Selected(before, value).value;
    assert bounds'[i + 1] >= bounds[i + 1] > 0.0;
    if value <= bounds[i + 1] {
      assert Reaches(bounds', value, i);
    } else {
      assert Shortcut(bounds, i);
    }
  }

  /** The usual case: no bound lies strictly between 1 - 1e-5 and 1. */
  lemma OrdinaryBoundsAreSticky(before: seq<RolloutVariation>, after: seq<RolloutVariation>,
                                bounds: seq<real>, bounds': seq<real>, text: Library, key: string)
    requires Cuts(before, bounds) && Cuts(after, bounds') && |bounds| == |bounds'|
    requires forall i :: 0 <= i < |bounds| ==> bounds[i] <= bounds'[i]
    requires forall i :: 0 <= i < |bounds| ==> !(1.0 - TOLERANCE < bounds[i] < 1.0)
    ensures NoLater(before, after, RolloutOfKey(text, key))
  {
    StickyAt(before, after, bounds, bounds', RolloutOfKey(text, key));
  }

  /** Without it the claim fails: a bucket ending at 0.999995 loses its tail when an empty bucket before it grows. */
  lemma StickinessCanFail(before: seq<RolloutVariation>, after: seq<RolloutVariation>)
    requires Cuts(before, [0.0, 0.0, 0.999995, 1.0]) && Cuts(after, [0.0, 0.5, 0.999995, 1.0])
    ensures Selected(before, 1.0) == Some(1) && Selected(after, 1.0) == Some(2)
  {
    PartitionSelects(before, [0.0, 0.0, 0.999995, 1.0], 1.0);
    assert IsLeastReaching([0.0, 0.0, 0.999995, 1.0], 1.0, 1);
    PartitionSelects(after, [0.0, 0.5, 0.999995, 1.0], 1.0);
    assert IsLeastReaching([0.0, 0.5, 0.999995, 1.0], 1.0, 2);
  }
}
