/** The published snapshot and its store, after src/store.rs. */
module Store {
  import opened Model
  import opened Prepared
  import opened Versioned

  datatype DataSnapshot = DataSnapshot(
    flags: map<string, FeatureFlag>,
    segments: map<string, Segment>,
    prepared: PreparedSnapshot,
    version: int,
    populated: bool)

  const EMPTY_SNAPSHOT := DataSnapshot(map[], map[], EMPTY_INDEX, 0, false)

  datatype PatchResult = Changed | Unchanged | VersionConflict

  const FLAGS: Kind<FeatureFlag> := Kind((flag: FeatureFlag) => flag.key, (flag: FeatureFlag) => flag.updatedAt)
  const SEGMENTS: Kind<Segment> := Kind((segment: Segment) => segment.id, (segment: Segment) => segment.updatedAt)

  ghost function FlagIndex(text: Library, flags: map<string, FeatureFlag>): map<string, PreparedFlag> {
    map key | key in flags :: PrepareFlag(text, flags[key])
  }

  ghost function SegmentIndex(text: Library, segments: map<string, Segment>): map<string, PreparedSegment> {
    map id | id in segments :: PrepareSegment(text, segments[id])
  }

  ghost function IndexOf(text: Library, flags: map<string, FeatureFlag>, segments: map<string, Segment>)
    : PreparedSnapshot
  {
    PreparedSnapshot(FlagIndex(text, flags), SegmentIndex(text, segments))
  }

  lemma FlagIndexInserts(text: Library, flags: map<string, FeatureFlag>, flag: FeatureFlag)
    ensures FlagIndex(text, flags[flag.key := flag]) == FlagIndex(text, flags)[flag.key := PrepareFlag(text, flag)]
  {
  }

  lemma SegmentIndexInserts(text: Library, segments: map<string, Segment>, segment: Segment)
    ensures SegmentIndex(text, segments[segment.id := segment])
         == SegmentIndex(text, segments)[segment.id := PrepareSegment(text, segment)]
  {
  }

  /** What every published snapshot keeps: the index is the preparation of the raw maps, every object is stored
      under its own nonempty key, and the version is at least every stored one. */
  ghost predicate StoreInvariant(text: Library, s: DataSnapshot) {
    && s.prepared == IndexOf(text, s.flags, s.segments)
    && OwnKeys(FLAGS, s.flags)
    && OwnKeys(SEGMENTS, s.segments)
    && Bounds(FLAGS, s.flags, s.version)
    && Bounds(SEGMENTS, s.segments, s.version)
    && (!s.populated ==> s == EMPTY_SNAPSHOT)
  }

  // ---------------------------------------------------------------------------------------------------
  // Specification of the two writers

  ghost function Publish(text: Library, flags: map<string, FeatureFlag>, segments: map<string, Segment>, version: int)
    : DataSnapshot
  {
    DataSnapshot(flags, segments, IndexOf(text, flags, segments), version, true)
  }

  /** A full message replaces everything; a later object of one key overwrites an earlier one, and the version
      is the largest seen, but never below zero. */
  ghost function Populated(text: Library, data: DataSet): DataSnapshot {
    Publish(text, Overlay(FLAGS, data.featureFlags), Overlay(SEGMENTS, data.segments),
            Newest(SEGMENTS, Newest(FLAGS, 0, data.featureFlags), data.segments))
  }

  /** A patch merges by version, and publishes if something changed or nothing was ever published. */
  ghost function Patched(text: Library, s: DataSnapshot, data: DataSet): DataSnapshot {
    var flags := Merge(FLAGS, s.flags, data.featureFlags);
    var segments := Merge(SEGMENTS, s.segments, data.segments);
    if Moves(s, data) || !s.populated
    then Publish(text, flags, segments, LatestVersion(flags, segments))
    else s
  }

  ghost predicate Moves(s: DataSnapshot, data: DataSet) {
    AnyReplaces(FLAGS, s.flags, data.featureFlags) || AnyReplaces(SEGMENTS, s.segments, data.segments)
  }

  ghost predicate Conflicts(s: DataSnapshot, data: DataSet) {
    AnyClashes(FLAGS, s.flags, data.featureFlags) || AnyClashes(SEGMENTS, s.segments, data.segments)
  }

  ghost function PatchVerdict(s: DataSnapshot, data: DataSet): PatchResult {
    if Conflicts(s, data) then VersionConflict else if Moves(s, data) then Changed else Unchanged
  }

  ghost function Versions(flags: map<string, FeatureFlag>, segments: map<string, Segment>): set<int> {
    (set key | key in flags :: flags[key].updatedAt) + (set id | id in segments :: segments[id].updatedAt)
  }

  ghost function LatestVersion(flags: map<string, FeatureFlag>, segments: map<string, Segment>): int {
    MaxOr(Versions(flags, segments), 0)
  }

  // ---------------------------------------------------------------------------------------------------
  // The store

  /** The write lock and the atomic pointer make each writer one step, so readers only ever see a published
      snapshot; the field holds that snapshot. */
  class SnapshotStore {
    const text: Library
    var snapshot: DataSnapshot

    ghost predicate Valid()
      reads this
    {
      StoreInvariant(text, snapshot)
    }

    constructor (text: Library)
      ensures Valid() && snapshot == EMPTY_SNAPSHOT && this.text == text
    {
      this.text := text;
      snapshot := EMPTY_SNAPSHOT;
    }

    method Populate(data: DataSet)
      modifies this
      ensures Valid()
      ensures snapshot == Populated(text, data)
    {
      var flags: map<string, FeatureFlag> := map[];
      var segments: map<string, Segment> := map[];
      var preparedFlags: map<string, PreparedFlag> := map[];
      var preparedSegments: map<string, PreparedSegment> := map[];
      var version := 0;

      for i := 0 to |data.featureFlags|
        invariant flags == Overlay(FLAGS, data.featureFlags[..i])
        invariant version == Newest(FLAGS, 0, data.featureFlags[..i])
        invariant preparedFlags == FlagIndex(text, flags)
      {
        assert data.featureFlags[..i + 1][..i] == data.featureFlags[..i];
        var flag := data.featureFlags[i];
        if flag.key != "" {
          version := Max(version, flag.updatedAt);
          var prepared := NewPreparedFlag(text, flag);
          FlagIndexInserts(text, flags, flag);
          preparedFlags := preparedFlags[flag.key := prepared];
          flags := flags[flag.key := flag];
        }
      }
      assert data.featureFlags[..|data.featureFlags|] == data.featureFlags;
      ghost var flagVersion := version;
      for i := 0 to |data.segments|
        invariant segments == Overlay(SEGMENTS, data.segments[..i])
        invariant version == Newest(SEGMENTS, flagVersion, data.segments[..i])
        invariant preparedSegments == SegmentIndex(text, segments)
      {
        assert data.segments[..i + 1][..i] == data.segments[..i];
        var segment := data.segments[i];
        if segment.id != "" {
          version := Max(version, segment.updatedAt);
          SegmentIndexInserts(text, segments, segment);
          preparedSegments := preparedSegments[segment.id := PrepareSegment(text, segment)];
          segments := segments[segment.id := segment];
        }
      }
      assert data.segments[..|data.segments|] == data.segments;
      snapshot := DataSnapshot(flags, segments, PreparedSnapshot(preparedFlags, preparedSegments), version, true);
      PopulatedIsValid(text, data);
    }

    method Patch(data: DataSet) returns (result: PatchResult)
      requires Valid()
      modifies this
      ensures Valid()
      ensures snapshot == Patched(text, old(snapshot), data)
      ensures result == PatchVerdict(old(snapshot), data)
    {
      var flags, flagIndex, flagsChanged, flagConflict := MergeFlags(data.featureFlags);
      var segments, segmentIndex, segmentsChanged, segmentConflict := MergeSegments(data.segments);
      var changed, versionConflict := flagsChanged || segmentsChanged, flagConflict || segmentConflict;
      PatchedIsValid(text, snapshot, data);
      if changed || !snapshot.populated {
        var version := MaxVersion(flags, segments);
        snapshot := DataSnapshot(flags, segments, PreparedSnapshot(flagIndex, segmentIndex), version, true);
      }
      result := if versionConflict then VersionConflict else if changed then Changed else Unchanged;
    }

    /** The flag loop of `patch`. */
    method MergeFlags(incoming: seq<FeatureFlag>)
      returns (flags: map<string, FeatureFlag>, index: map<string, PreparedFlag>, changed: bool, conflict: bool)
      requires Valid()
      ensures flags == Merge(FLAGS, snapshot.flags, incoming)
      ensures index == FlagIndex(text, flags)
      ensures changed == AnyReplaces(FLAGS, snapshot.flags, incoming)
      ensures conflict == AnyClashes(FLAGS, snapshot.flags, incoming)
    {
      flags, index, changed, conflict := snapshot.flags, snapshot.prepared.flags, false, false;
      for i := 0 to |incoming|
        invariant flags == Merge(FLAGS, snapshot.flags, incoming[..i])
        invariant index == FlagIndex(text, flags)
        invariant changed == AnyReplaces(FLAGS, snapshot.flags, incoming[..i])
        invariant conflict == AnyClashes(FLAGS, snapshot.flags, incoming[..i])
      {
        MergeStep(FLAGS, snapshot.flags, incoming, i);
        var flag := incoming[i];
        if flag.key == "" {
          continue;
        }
        var shouldReplace := false;
        if flag.key !in flags || flags[flag.key].updatedAt < flag.updatedAt {
          shouldReplace := true;
        } else if flags[flag.key].updatedAt == flag.updatedAt && flags[flag.key] != flag {
          conflict := true;
        }
        if shouldReplace {
          var prepared := NewPreparedFlag(text, flag);
          FlagIndexInserts(text, flags, flag);
          index := index[flag.key := prepared];
          flags := flags[flag.key := flag];
          changed := true;
        }
      }
      assert incoming[..|incoming|] == incoming;
    }

    /** The segment loop of `patch`. */
    method MergeSegments(incoming: seq<Segment>)
      returns (segments: map<string, Segment>, index: map<string, PreparedSegment>, changed: bool, conflict: bool)
      requires Valid()
      ensures segments == Merge(SEGMENTS, snapshot.segments, incoming)
      ensures index == SegmentIndex(text, segments)
      ensures changed == AnyReplaces(SEGMENTS, snapshot.segments, incoming)
      ensures conflict == AnyClashes(SEGMENTS, snapshot.segments, incoming)
    {
      segments, index, changed, conflict := snapshot.segments, snapshot.prepared.segments, false, false;
      for i := 0 to |incoming|
        invariant segments == Merge(SEGMENTS, snapshot.segments, incoming[..i])
        invariant index == SegmentIndex(text, segments)
        invariant changed == AnyReplaces(SEGMENTS, snapshot.segments, incoming[..i])
        invariant conflict == AnyClashes(SEGMENTS, snapshot.segments, incoming[..i])
      {
        MergeStep(SEGMENTS, snapshot.segments, incoming, i);
        var segment := incoming[i];
        if segment.id == "" {
          continue;
        }
        var shouldReplace := false;
        if segment.id !in segments || segments[segment.id].updatedAt < segment.updatedAt {
          shouldReplace := true;
        } else if segments[segment.id].updatedAt == segment.updatedAt && segments[segment.id] != segment {
          conflict := true;
        }
        if shouldReplace {
          SegmentIndexInserts(text, segments, segment);
          index := index[segment.id := PrepareSegment(text, segment)];
          segments := segments[segment.id := segment];
          changed := true;
        }
      }
      assert incoming[..|incoming|] == incoming;
    }
  }

  /** `values().chain().max().unwrap_or_default()`. */
  method MaxVersion(flags: map<string, FeatureFlag>, segments: map<string, Segment>) returns (version: int)
    ensures version == LatestVersion(flags, segments)
  {
    var pending := (set key | key in flags :: flags[key].updatedAt)
        + (set id | id in segments :: segments[id].updatedAt);
    assert pending == Versions(flags, segments);
    if pending == {} {
      return 0;
    }
    version :| version in pending;
    ghost var seen := {version};
    pending := pending - {version};
    while pending != {}
      invariant seen + pending == Versions(flags, segments)
      invariant version in seen && forall v <- seen :: v <= version
      decreases pending
    {
      var next :| next in pending;
      seen, pending := seen + {next}, pending - {next};
      version := Max(version, next);
    }
  }

  // ---------------------------------------------------------------------------------------------------
  // Invariants of the writers

  lemma PopulatedIsValid(text: Library, data: DataSet)
    ensures StoreInvariant(text, Populated(text, data))
  {
    OverlayIsLast(FLAGS, data.featureFlags);
    OverlayIsLast(SEGMENTS, data.segments);
    NewestBounds(FLAGS, 0, data.featureFlags);
    NewestBounds(SEGMENTS, Newest(FLAGS, 0, data.featureFlags), data.segments);
  }

  lemma PatchedIsValid(text: Library, s: DataSnapshot, data: DataSet)
    requires StoreInvariant(text, s)
    ensures StoreInvariant(text, Patched(text, s, data))
  {
    MergeKeepsOwnKeys(FLAGS, s.flags, data.featureFlags);
    MergeKeepsOwnKeys(SEGMENTS, s.segments, data.segments);
    var flags, segments := Merge(FLAGS, s.flags, data.featureFlags), Merge(SEGMENTS, s.segments, data.segments);
    forall key <- flags ensures flags[key].updatedAt <= LatestVersion(flags, segments) {
      assert flags[key].updatedAt in Versions(flags, segments);
    }
    forall id <- segments ensures segments[id].updatedAt <= LatestVersion(flags, segments) {
      assert segments[id].updatedAt in Versions(flags, segments);
    }
  }
}
