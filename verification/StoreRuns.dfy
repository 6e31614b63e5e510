/** Properties of every sequence of store writes. */
module StoreRuns {
  import opened Model
  import opened Versioned
  import opened Store

  datatype Write = Full(data: DataSet) | Patch(data: DataSet)

  ghost function Written(text: Library, start: DataSnapshot, writes: seq<Write>): DataSnapshot {
    if writes == [] then start
    else
      var before := Written(text, start, writes[..|writes| - 1]);
      match writes[|writes| - 1]
      case Full(data) => Populated(text, data)
      case Patch(data) => Patched(text, before, data)
  }

  ghost function Run(text: Library, writes: seq<Write>): DataSnapshot { Written(text, EMPTY_SNAPSHOT, writes) }

  lemma {:induction false} WrittenKeepsInvariant(text: Library, start: DataSnapshot, writes: seq<Write>)
    requires StoreInvariant(text, start)
    ensures StoreInvariant(text, Written(text, start, writes))
    ensures Written(text, start, writes).populated <==> start.populated || writes != []
  {
    if writes != [] {
      WrittenKeepsInvariant(text, start, writes[..|writes| - 1]);
      match writes[|writes| - 1] {
        case Full(data) => PopulatedIsValid(text, data);
        case Patch(data) => PatchedIsValid(text, Written(text, start, writes[..|writes| - 1]), data);
      }
    }
  }

  lemma ReachableKeepsInvariant(text: Library, writes: seq<Write>)
    ensures StoreInvariant(text, Run(text, writes))
    ensures Run(text, writes).populated <==> writes != []
  {
    WrittenKeepsInvariant(text, EMPTY_SNAPSHOT, writes);
  }

  /** A full message forgets everything before it. */
  lemma {:induction false} FullForgets(text: Library, start: DataSnapshot, before: seq<Write>, data: DataSet,
                                       after: seq<Write>)
    ensures Written(text, start, before + [Full(data)] + after) == Written(text, Populated(text, data), after)
  {
    var writes := before + [Full(data)] + after;
    if after == [] {
      assert writes == before + [Full(data)];
      assert writes[|writes| - 1] == Full(data);
    } else {
      FullForgets(text, start, before, data, after[..|after| - 1]);
      assert writes[..|writes| - 1] == before + [Full(data)] + after[..|after| - 1];
      assert writes[|writes| - 1] == after[|after| - 1];
    }
  }

  ghost predicate IsLastFlag(flags: seq<FeatureFlag>, key: string, i: int) {
    0 <= i < |flags| && flags[i].key == key && forall j :: i < j < |flags| ==> flags[j].key != key
  }

  ghost predicate IsLastSegment(segments: seq<Segment>, id: string, i: int) {
    0 <= i < |segments| && segments[i].id == id && forall j :: i < j < |segments| ==> segments[j].id != id
  }

  /** After a full message each key holds the last object of the message that carries it, and no other key remains. */
  lemma FullMeaning(text: Library, data: DataSet, key: string)
    ensures var after := Populated(text, data);
            && (key in after.flags <==> key != "" && exists i :: IsLastFlag(data.featureFlags, key, i))
            && (forall i :: IsLastFlag(data.featureFlags, key, i) && key != "" ==>
                  after.flags[key] == data.featureFlags[i])
            && (key in after.segments <==> key != "" && exists i :: IsLastSegment(data.segments, key, i))
            && (forall i :: IsLastSegment(data.segments, key, i) && key != "" ==>
                  after.segments[key] == data.segments[i])
            && after.populated
  {
    OverlayIsLast(FLAGS, data.featureFlags);
    OverlayIsLast(SEGMENTS, data.segments);
    forall i ensures 0 <= i && IsLast(FLAGS, data.featureFlags, key, i) <==> IsLastFlag(data.featureFlags, key, i) {
    }
    forall i ensures 0 <= i && IsLast(SEGMENTS, data.segments, key, i) <==> IsLastSegment(data.segments, key, i) {
    }
  }

  /** Its version is the least that is neither negative nor below any object of the message. */
  lemma FullVersionMeaning(text: Library, data: DataSet)
    ensures var version := Populated(text, data).version;
            && version >= 0
            && (forall flag <- data.featureFlags :: flag.key != "" ==> flag.updatedAt <= version)
            && (forall segment <- data.segments :: segment.id != "" ==> segment.updatedAt <= version)
            && (|| version == 0
                || (exists flag <- data.featureFlags :: flag.key != "" && flag.updatedAt == version)
                || (exists segment <- data.segments :: segment.id != "" && segment.updatedAt == version))
  {
    NewestBounds(FLAGS, 0, data.featureFlags);
    NewestBounds(SEGMENTS, Newest(FLAGS, 0, data.featureFlags), data.segments);
  }

  /** After a patch each key holds the first object of its greatest version, what was stored coming before what is
      incoming; and keys are those stored and those carried. */
  lemma PatchMeaning(text: Library, s: DataSnapshot, data: DataSet, key: string)
    ensures var after := Patched(text, s, data);
            && (key in after.flags <==> key in s.flags || IsFlagKey(data.featureFlags, key))
            && (key in after.flags ==> HoldsLatestFlag(s.flags, data.featureFlags, key, after.flags[key]))
            && (key in after.segments <==> key in s.segments || IsSegmentId(data.segments, key))
            && (key in after.segments ==> HoldsLatestSegment(s.segments, data.segments, key, after.segments[key]))
  {
    PatchedMaps(text, s, data);
    LatestFlagIsHeld(s.flags, data.featureFlags, key);
    LatestSegmentIsHeld(s.segments, data.segments, key);
  }

  lemma PatchedMaps(text: Library, s: DataSnapshot, data: DataSet)
    ensures var after := Patched(text, s, data);
            && after.flags == Merge(FLAGS, s.flags, data.featureFlags)
            && after.segments == Merge(SEGMENTS, s.segments, data.segments)
  {
    ReplacingIsChanging(FLAGS, s.flags, data.featureFlags);
    ReplacingIsChanging(SEGMENTS, s.segments, data.segments);
  }

  ghost predicate IsFlagKey(flags: seq<FeatureFlag>, key: string) {
    key != "" && exists i :: 0 <= i < |flags| && flags[i].key == key
  }

  ghost predicate IsSegmentId(segments: seq<Segment>, id: string) {
    id != "" && exists i :: 0 <= i < |segments| && segments[i].id == id
  }

  ghost predicate HoldsLatestFlag(stored: map<string, FeatureFlag>, incoming: seq<FeatureFlag>, key: string,
                                  held: FeatureFlag)
  {
    || (&& key in stored && held == stored[key]
        && forall flag <- incoming :: flag.key == key && key != "" ==> flag.updatedAt <= held.updatedAt)
    || exists w :: && 0 <= w < |incoming| && held == incoming[w] && held.key == key != ""
                   && (key in stored ==> stored[key].updatedAt < held.updatedAt)
                   && (forall i :: 0 <= i < |incoming| && incoming[i].key == key ==>
                         incoming[i].updatedAt <= held.updatedAt)
                   && (forall i :: 0 <= i < w && incoming[i].key == key ==> incoming[i].updatedAt < held.updatedAt)
  }

  ghost predicate HoldsLatestSegment(stored: map<string, Segment>, incoming: seq<Segment>, id: string, held: Segment) {
    || (&& id in stored && held == stored[id]
        && forall segment <- incoming :: segment.id == id && id != "" ==> segment.updatedAt <= held.updatedAt)
    || exists w :: && 0 <= w < |incoming| && held == incoming[w] && held.id == id != ""
                   && (id in stored ==> stored[id].updatedAt < held.updatedAt)
                   && (forall i :: 0 <= i < |incoming| && incoming[i].id == id ==>
                         incoming[i].updatedAt <= held.updatedAt)
                   && (forall i :: 0 <= i < w && incoming[i].id == id ==> incoming[i].updatedAt < held.updatedAt)
  }

  lemma LatestFlagIsHeld(stored: map<string, FeatureFlag>, incoming: seq<FeatureFlag>, key: string)
    ensures key in Merge(FLAGS, stored, incoming) <==> key in stored || IsFlagKey(incoming, key)
    ensures key in Merge(FLAGS, stored, incoming) ==>
            HoldsLatestFlag(stored, incoming, key, Merge(FLAGS, stored, incoming)[key])
  {
    MergeKeepsTheLatest(FLAGS, stored, incoming, key);
    forall i ensures Carries(FLAGS, incoming, key, i) <==> 0 <= i < |incoming| && key != "" && incoming[i].key == key {
    }
    if IsFlagKey(incoming, key) {
      var i :| 0 <= i < |incoming| && incoming[i].key == key;
      assert Carries(FLAGS, incoming, key, i);
    }
    if w :| IncomingWins(FLAGS, stored, incoming, key, w) && Merge(FLAGS, stored, incoming)[key] == incoming[w] {
      assert IncomingWins(FLAGS, stored, incoming, key, w);
      forall i | 0 <= i < |incoming| && incoming[i].key == key
        ensures incoming[i].updatedAt <= incoming[w].updatedAt
                && (i < w ==> incoming[i].updatedAt < incoming[w].updatedAt)
      {
        assert Carries(FLAGS, incoming, key, i);
      }
    }
  }

  lemma LatestSegmentIsHeld(stored: map<string, Segment>, incoming: seq<Segment>, id: string)
    ensures id in Merge(SEGMENTS, stored, incoming) <==> id in stored || IsSegmentId(incoming, id)
    ensures id in Merge(SEGMENTS, stored, incoming) ==>
            HoldsLatestSegment(stored, incoming, id, Merge(SEGMENTS, stored, incoming)[id])
  {
    MergeKeepsTheLatest(SEGMENTS, stored, incoming, id);
    forall i ensures Carries(SEGMENTS, incoming, id, i) <==> 0 <= i < |incoming| && id != "" && incoming[i].id == id {
    }
    if IsSegmentId(incoming, id) {
      var i :| 0 <= i < |incoming| && incoming[i].id == id;
      assert Carries(SEGMENTS, incoming, id, i);
    }
    if w :| IncomingWins(SEGMENTS, stored, incoming, id, w) && Merge(SEGMENTS, stored, incoming)[id] == incoming[w] {
      assert IncomingWins(SEGMENTS, stored, incoming, id, w);
      forall i | 0 <= i < |incoming| && incoming[i].id == id
        ensures incoming[i].updatedAt <= incoming[w].updatedAt
                && (i < w ==> incoming[i].updatedAt < incoming[w].updatedAt)
      {
        assert Carries(SEGMENTS, incoming, id, i);
      }
    }
  }

  /** The verdict of a patch: a conflict if some object is contested, and otherwise whether anything changed. */
  lemma VerdictMeaning(text: Library, s: DataSnapshot, data: DataSet)
    requires StoreInvariant(text, s)
    ensures var after := Patched(text, s, data);
            PatchVerdict(s, data) == if IsContested(s, data) then VersionConflict
                                     else if after.flags != s.flags || after.segments != s.segments then Changed
                                     else Unchanged
  {
    ConflictIsContested(text, s, data);
    ReplacingIsChanging(FLAGS, s.flags, data.featureFlags);
    ReplacingIsChanging(SEGMENTS, s.segments, data.segments);
  }

  ghost predicate IsContested(s: DataSnapshot, data: DataSet) {
    || (exists i :: Contested(FLAGS, s.flags, data.featureFlags, i))
    || (exists i :: Contested(SEGMENTS, s.segments, data.segments, i))
  }

  /** Across a patch no key disappears and no key goes back in version. A patch that changed something leaves
      the version at exactly the greatest stored one; one that did not changes nothing but a first publication. */
  lemma PatchOnlyMovesForward(text: Library, s: DataSnapshot, data: DataSet, key: string)
    requires StoreInvariant(text, s)
    ensures var after := Patched(text, s, data);
            && (key in s.flags ==> key in after.flags && s.flags[key].updatedAt <= after.flags[key].updatedAt)
            && (key in s.segments ==>
                key in after.segments && s.segments[key].updatedAt <= after.segments[key].updatedAt)
    ensures var after := Patched(text, s, data);
            if Moves(s, data) then after != s && IsGreatestVersion(after) else after == s.(populated := true)
  {
    if key in s.flags {
      MergeMovesForward(FLAGS, s.flags, data.featureFlags, key);
    }
    if key in s.segments {
      MergeMovesForward(SEGMENTS, s.segments, data.segments, key);
    }
    ReplacingIsChanging(FLAGS, s.flags, data.featureFlags);
    ReplacingIsChanging(SEGMENTS, s.segments, data.segments);
    var after := Patched(text, s, data);
    if Moves(s, data) {
      assert after.flags != s.flags || after.segments != s.segments;
      SomethingStored(s, data);
      assert after.version in Versions(after.flags, after.segments);
    } else if !s.populated {
      assert Versions(after.flags, after.segments) == {};
    }
  }

  ghost predicate IsGreatestVersion(s: DataSnapshot) {
    && s.version in Versions(s.flags, s.segments)
    && forall v <- Versions(s.flags, s.segments) :: v <= s.version
  }

  lemma SomethingStored(s: DataSnapshot, data: DataSet)
    requires Moves(s, data)
    ensures Versions(Merge(FLAGS, s.flags, data.featureFlags), Merge(SEGMENTS, s.segments, data.segments)) != {}
  {
    var flags, segments := Merge(FLAGS, s.flags, data.featureFlags), Merge(SEGMENTS, s.segments, data.segments);
    if AnyReplaces(FLAGS, s.flags, data.featureFlags) {
      var key := AnyReplacesIsKept(FLAGS, s.flags, data.featureFlags);
      assert flags[key].updatedAt in Versions(flags, segments);
    } else {
      var id := AnyReplacesIsKept(SEGMENTS, s.segments, data.segments);
      assert segments[id].updatedAt in Versions(flags, segments);
    }
  }

  lemma {:induction false} AnyReplacesIsKept<T>(kind: Kind<T>, stored: map<string, T>, incoming: seq<T>)
    returns (key: string)
    requires AnyReplaces(kind, stored, incoming)
    ensures key in Merge(kind, stored, incoming)
  {
    var n := |incoming| - 1;
    if AnyReplaces(kind, stored, incoming[..n]) {
      key := AnyReplacesIsKept(kind, stored, incoming[..n]);
    } else {
      key := kind.key(incoming[n]);
    }
  }

  /** What a reported conflict means, and when one is reported: exactly when an incoming object meets a
      different object of its own key and version that nothing newer had replaced. */
  lemma ConflictIsContested(text: Library, s: DataSnapshot, data: DataSet)
    requires StoreInvariant(text, s)
    ensures PatchVerdict(s, data) == VersionConflict <==>
            || (exists i :: Contested(FLAGS, s.flags, data.featureFlags, i))
            || (exists i :: Contested(SEGMENTS, s.segments, data.segments, i))
  {
    ConflictMeansContested(FLAGS, s.flags, data.featureFlags);
    ConflictMeansContested(SEGMENTS, s.segments, data.segments);
  }

  /** A patch can publish a change and report a conflict at once. */
  lemma ConflictMayPublish(text: Library, flag: FeatureFlag, other: FeatureFlag, data: DataSet)
    requires flag.key == other.key != "" && flag.updatedAt == other.updatedAt && flag != other
    requires data == DataSet("patch", [flag, other], [])
    ensures PatchVerdict(EMPTY_SNAPSHOT, data) == VersionConflict
    ensures Patched(text, EMPTY_SNAPSHOT, data).flags == map[flag.key := flag]
    ensures Patched(text, EMPTY_SNAPSHOT, data).populated
  {
    MergeStep(FLAGS, map[], data.featureFlags, 0);
    MergeStep(FLAGS, map[], data.featureFlags, 1);
    assert data.featureFlags[..2] == data.featureFlags;
  }

  // ---------------------------------------------------------------------------------------------------
  // Sequences of patches

  ghost function PatchAll(text: Library, s: DataSnapshot, patches: seq<DataSet>): DataSnapshot {
    if patches == [] then s
    else Patched(text, PatchAll(text, s, patches[..|patches| - 1]), patches[|patches| - 1])
  }

  ghost predicate AnyConflict(text: Library, s: DataSnapshot, patches: seq<DataSet>) {
    patches != [] &&
    var last := |patches| - 1;
    AnyConflict(text, s, patches[..last])
        || PatchVerdict(PatchAll(text, s, patches[..last]), patches[last]) == VersionConflict
  }

  function Joined(patches: seq<DataSet>): DataSet {
    if patches == [] then DataSet("patch", [], [])
    else
      var before, last := Joined(patches[..|patches| - 1]), patches[|patches| - 1];
      DataSet("patch", before.featureFlags + last.featureFlags, before.segments + last.segments)
  }

  /** Any sequence of patches has the effect, and the conflicts, of the one patch that lists them all. */
  lemma {:induction false} PatchesActAsOne(text: Library, s: DataSnapshot, patches: seq<DataSet>)
    requires patches != []
    ensures PatchAll(text, s, patches) == Patched(text, s, Joined(patches))
    ensures AnyConflict(text, s, patches) <==> PatchVerdict(s, Joined(patches)) == VersionConflict
  {
    var n := |patches| - 1;
    var prefix, last := patches[..n], patches[n];
    var before, joined := Joined(prefix), Joined(patches);
    if prefix == [] {
      assert joined.featureFlags == last.featureFlags && joined.segments == last.segments;
    } else {
      PatchesActAsOne(text, s, prefix);
      MergeAppends(FLAGS, s.flags, before.featureFlags, last.featureFlags);
      MergeAppends(SEGMENTS, s.segments, before.segments, last.segments);
      ReplacingIsChanging(FLAGS, s.flags, before.featureFlags);
      ReplacingIsChanging(SEGMENTS, s.segments, before.segments);
      ReplacingIsChanging(FLAGS, Merge(FLAGS, s.flags, before.featureFlags), last.featureFlags);
      ReplacingIsChanging(SEGMENTS, Merge(SEGMENTS, s.segments, before.segments), last.segments);
      assert PatchAll(text, s, patches) == Patched(text, Patched(text, s, before), last);
    }
  }

  /** No two different objects among the store and the patches share a key and a version. */
  ghost predicate Agree(s: DataSnapshot, patches: seq<DataSet>) {
    Consistent(FLAGS, s.flags, Joined(patches).featureFlags)
        && Consistent(SEGMENTS, s.segments, Joined(patches).segments)
  }

  ghost predicate SameObjects(first: seq<DataSet>, second: seq<DataSet>) {
    && Keyed(FLAGS, Joined(first).featureFlags) == Keyed(FLAGS, Joined(second).featureFlags)
    && Keyed(SEGMENTS, Joined(first).segments) == Keyed(SEGMENTS, Joined(second).segments)
  }

  /** Patches are a last-writer-wins join: any two sequences of agreeing patches that carry the same objects,
      in whatever order, grouping or repetition, end in the same snapshot and report no conflict. */
  lemma PatchesAreAJoin(text: Library, s: DataSnapshot, first: seq<DataSet>, second: seq<DataSet>)
    requires StoreInvariant(text, s)
    requires first != [] && second != []
    requires Agree(s, first) && SameObjects(first, second)
    ensures PatchAll(text, s, first) == PatchAll(text, s, second)
    ensures !AnyConflict(text, s, first) && !AnyConflict(text, s, second)
  {
    var a, b := Joined(first), Joined(second);
    ConsistencyIsOfTheItems(FLAGS, s.flags, a.featureFlags, b.featureFlags);
    ConsistencyIsOfTheItems(SEGMENTS, s.segments, a.segments, b.segments);
    PatchesActAsOne(text, s, first);
    PatchesActAsOne(text, s, second);
    MergeIsAJoin(FLAGS, s.flags, a.featureFlags, b.featureFlags);
    MergeIsAJoin(SEGMENTS, s.segments, a.segments, b.segments);
    ReplacingIsChanging(FLAGS, s.flags, a.featureFlags);
    ReplacingIsChanging(FLAGS, s.flags, b.featureFlags);
    ReplacingIsChanging(SEGMENTS, s.segments, a.segments);
    ReplacingIsChanging(SEGMENTS, s.segments, b.segments);
    ConsistentHasNoConflict(FLAGS, s.flags, a.featureFlags);
    ConsistentHasNoConflict(SEGMENTS, s.segments, a.segments);
    ConsistentHasNoConflict(FLAGS, s.flags, b.featureFlags);
    ConsistentHasNoConflict(SEGMENTS, s.segments, b.segments);
  }

  /** Permuting or repeating patches carries the same objects. */
  lemma {:induction false} SamePatchesSameObjects(first: seq<DataSet>, second: seq<DataSet>)
    requires forall p :: p in first <==> p in second
    ensures SameObjects(first, second)
  {
    JoinedHolds(first);
    JoinedHolds(second);
  }

  lemma {:induction false} JoinedHolds(patches: seq<DataSet>)
    ensures forall flag :: flag in Joined(patches).featureFlags <==> exists p :: p in patches && flag in p.featureFlags
    ensures forall segment :: segment in Joined(patches).segments <==> exists p :: p in patches && segment in p.segments
  {
    if patches != [] {
      var n := |patches| - 1;
      JoinedHolds(patches[..n]);
      assert patches == patches[..n] + [patches[n]];
    }
  }
}
