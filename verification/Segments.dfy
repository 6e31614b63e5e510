/** Rule and segment matching, after src/evaluation/segments.rs. */
module Segments {
  import opened Wrappers
  import opened Meaning
  import opened Model
  import opened Operators
  import opened Prepared
  import opened Store

  datatype SegmentMatch = Matched | NotMatched | Unresolved

  function ConditionOf(prepared: Option<PreparedRule>, index: nat): Option<PreparedCondition> {
    if prepared.Some? then At(prepared.value.conditions, index) else None
  }

  predicate RuleMatches(text: Library, snapshot: DataSnapshot, rule: TargetRule, prepared: Option<PreparedRule>,
                        user: FbUser)
  {
    forall index :: 0 <= index < |rule.conditions| ==>
                      TargetConditionMatches(text, snapshot, rule.conditions[index], ConditionOf(prepared, index), user)
  }

  predicate TargetConditionMatches(text: Library, snapshot: DataSnapshot, condition: Condition,
                                   prepared: Option<PreparedCondition>, user: FbUser)
  {
    if condition.property == IS_IN_SEGMENT then MatchesAnySegment(text, snapshot, condition, prepared, user) == Matched
    else if condition.property == IS_NOT_IN_SEGMENT
        then MatchesAnySegment(text, snapshot, condition, prepared, user) == NotMatched
    else ConditionMatches(text, condition, prepared, user)
  }

  function MatchesAnySegment(text: Library, snapshot: DataSnapshot, condition: Condition,
                             prepared: Option<PreparedCondition>, user: FbUser): SegmentMatch
  {
    match prepared
    case Some(SegmentIds(Valid(ids))) => MatchSegmentIds(text, snapshot, ids, user)
    case Some(SegmentIds(Invalid)) => Unresolved
    case _ =>
      match text.parseOptionalStrings(condition.value)
      case None => Unresolved
      case Some(None) => NotMatched
      case Some(Some(ids)) => MatchSegmentIds(text, snapshot, ids, user)
  }

  predicate Resolves(snapshot: DataSnapshot, id: string) {
    id in snapshot.segments && !snapshot.segments[id].isArchived
  }

  function MatchSegmentIds(text: Library, snapshot: DataSnapshot, ids: seq<string>, user: FbUser): SegmentMatch {
    if ids == [] then NotMatched
    else if !Resolves(snapshot, ids[0]) then Unresolved
    else if InSegment(text, snapshot, ids[0], user) then Matched
    else MatchSegmentIds(text, snapshot, ids[1..], user)
  }

  predicate InSegment(text: Library, snapshot: DataSnapshot, id: string, user: FbUser)
    requires id in snapshot.segments
  {
    var prepared := if id in snapshot.prepared.segments then Some(snapshot.prepared.segments[id]) else None;
    SegmentMatches(text, snapshot.segments[id], prepared, user)
  }

  predicate SegmentMatches(text: Library, segment: Segment, prepared: Option<PreparedSegment>, user: FbUser) {
    var excluded := if prepared.Some? then user.key in prepared.value.excluded else user.key in segment.excluded;
    var included := if prepared.Some? then user.key in prepared.value.included else user.key in segment.included;
    !excluded && (included || AnySegmentRuleMatches(text, segment, prepared, user))
  }

  predicate AnySegmentRuleMatches(text: Library, segment: Segment, prepared: Option<PreparedSegment>, user: FbUser) {
    exists i :: 0 <= i < |segment.rules| &&
                var preparedRule := if prepared.Some? then At(prepared.value.rules, i) else None;
                SegmentRuleMatches(text, segment.rules[i], preparedRule, user)
  }

  predicate SegmentRuleMatches(text: Library, rule: MatchRule, prepared: Option<PreparedRule>, user: FbUser) {
    forall index :: 0 <= index < |rule.conditions| ==>
                      ConditionMatches(text, rule.conditions[index], ConditionOf(prepared, index), user)
  }

  // ---------------------------------------------------------------------------------------------------
  // The three-valued answer

  /** A list of segments is matched when some listed segment holds the user and every earlier one is there and
      not archived; it is a definite non-match only when all are there and none holds the user. A missing or
      archived reference is neither, so that it satisfies no condition, positive or negative. */
  lemma {:induction false} MatchSegmentIdsMeaning(text: Library, snapshot: DataSnapshot, ids: seq<string>, user: FbUser)
    ensures MatchSegmentIds(text, snapshot, ids, user) == Matched <==>
            exists k :: IsUsableUpTo(snapshot.segments, ids, k) && InSegment(text, snapshot, ids[k], user)
    ensures MatchSegmentIds(text, snapshot, ids, user) == NotMatched <==>
            forall k :: 0 <= k < |ids| ==>
              && ids[k] in snapshot.segments
              && !snapshot.segments[ids[k]].isArchived
              && !InSegment(text, snapshot, ids[k], user)
  {
    if ids != [] {
      var rest := ids[1..];
      MatchSegmentIdsMeaning(text, snapshot, rest, user);
      assert forall k :: 0 < k < |ids| ==> ids[k] == rest[k - 1];
      if ids[0] in snapshot.segments && !snapshot.segments[ids[0]].isArchived {
        forall k
          ensures IsUsableUpTo(snapshot.segments, rest, k) <==> k >= 0 && IsUsableUpTo(snapshot.segments, ids, k + 1)
        {
          UsableShifts(snapshot.segments, ids, k);
        }
        if k :| IsUsableUpTo(snapshot.segments, rest, k) && InSegment(text, snapshot, rest[k], user) {
          assert IsUsableUpTo(snapshot.segments, ids, k + 1);
        }
        if k :| IsUsableUpTo(snapshot.segments, ids, k) && InSegment(text, snapshot, ids[k], user) {
          if k > 0 {
            assert IsUsableUpTo(snapshot.segments, rest, k - 1);
          }
        }
        assert IsUsableUpTo(snapshot.segments, ids, 0);
      } else {
        assert forall k :: !IsUsableUpTo(snapshot.segments, ids, k);
      }
    }
  }

  lemma UsableShifts(segments: map<string, Segment>, ids: seq<string>, k: int)
    requires ids != [] && ids[0] in segments && !segments[ids[0]].isArchived
    ensures IsUsableUpTo(segments, ids[1..], k) <==> k >= 0 && IsUsableUpTo(segments, ids, k + 1)
  {
    assert forall j :: 0 < j < |ids| ==> ids[j] == ids[1..][j - 1];
    if k >= 0 && IsUsableUpTo(segments, ids, k + 1) {
      forall j | 0 <= j <= k ensures ids[1..][j] in segments && !segments[ids[1..][j]].isArchived {
        assert ids[j + 1] == ids[1..][j];
      }
    }
  }

  // ---------------------------------------------------------------------------------------------------
  // Agreement of the index with the raw data

  /** Every entry that the index has is the preparation of its raw object; entries may be missing. */
  ghost predicate SoundIndex(text: Library, snapshot: DataSnapshot) {
    && (forall key <- snapshot.prepared.flags :: key in snapshot.flags &&
                        snapshot.prepared.flags[key] == PrepareFlag(text, snapshot.flags[key]))
    && (forall id <- snapshot.prepared.segments :: id in snapshot.segments &&
                       snapshot.prepared.segments[id] == PrepareSegment(text, snapshot.segments[id]))
  }

  function Raw(snapshot: DataSnapshot): DataSnapshot { snapshot.(prepared := EMPTY_INDEX) }

  lemma InSegmentAgrees(text: Library, snapshot: DataSnapshot, id: string, user: FbUser)
    requires SoundIndex(text, snapshot) && id in snapshot.segments
    ensures InSegment(text, snapshot, id, user) == InSegment(text, Raw(snapshot), id, user)
  {
    var segment := snapshot.segments[id];
    var prepared := Some(PrepareSegment(text, segment));
    forall i | 0 <= i < |segment.rules|
      ensures SegmentRuleMatches(text, segment.rules[i], At(prepared.value.rules, i), user)
           == SegmentRuleMatches(text, segment.rules[i], None, user)
    {
      SegmentRuleAgrees(text, segment.rules[i], user);
    }
    assert AnySegmentRuleMatches(text, segment, prepared, user) == AnySegmentRuleMatches(text, segment, None, user);
  }

  lemma SegmentRuleAgrees(text: Library, rule: MatchRule, user: FbUser)
    ensures SegmentRuleMatches(text, rule, Some(PrepareRule(text, rule.conditions)), user)
            == SegmentRuleMatches(text, rule, None, user)
  {
    var prepared := Some(PrepareRule(text, rule.conditions));
    forall i | 0 <= i < |rule.conditions|
      ensures ConditionMatches(text, rule.conditions[i], ConditionOf(prepared, i), user)
           == ConditionMatches(text, rule.conditions[i], None, user)
    {
      PreparedConditionAgrees(text, rule.conditions[i], user);
    }
  }

  lemma {:induction false} SegmentIdsAgree(text: Library, snapshot: DataSnapshot, ids: seq<string>, user: FbUser)
    requires SoundIndex(text, snapshot)
    ensures MatchSegmentIds(text, snapshot, ids, user) == MatchSegmentIds(text, Raw(snapshot), ids, user)
  {
    if ids != [] && Resolves(snapshot, ids[0]) {
      InSegmentAgrees(text, snapshot, ids[0], user);
      SegmentIdsAgree(text, snapshot, ids[1..], user);
    }
  }

  lemma TargetConditionAgrees(text: Library, snapshot: DataSnapshot, condition: Condition, user: FbUser)
    requires SoundIndex(text, snapshot)
    ensures TargetConditionMatches(text, snapshot, condition, Some(PrepareCondition(text, condition)), user)
         == TargetConditionMatches(text, Raw(snapshot), condition, None, user)
    ensures TargetConditionMatches(text, snapshot, condition, None, user)
         == TargetConditionMatches(text, Raw(snapshot), condition, None, user)
  {
    PreparedConditionAgrees(text, condition, user);
    match text.parseOptionalStrings(condition.value) {
      case Some(Some(ids)) => SegmentIdsAgree(text, snapshot, ids, user);
      case _ =>
    }
  }

  lemma RuleAgrees(text: Library, snapshot: DataSnapshot, rule: TargetRule, user: FbUser)
    requires SoundIndex(text, snapshot)
    ensures RuleMatches(text, snapshot, rule, Some(PrepareRule(text, rule.conditions)), user)
         == RuleMatches(text, Raw(snapshot), rule, None, user)
    ensures RuleMatches(text, snapshot, rule, None, user) == RuleMatches(text, Raw(snapshot), rule, None, user)
  {
    var prepared := Some(PrepareRule(text, rule.conditions));
    forall i | 0 <= i < |rule.conditions|
      ensures TargetConditionMatches(text, snapshot, rule.conditions[i], ConditionOf(prepared, i), user)
           == TargetConditionMatches(text, Raw(snapshot), rule.conditions[i], ConditionOf(None, i), user)
      ensures TargetConditionMatches(text, snapshot, rule.conditions[i], ConditionOf(None, i), user)
           == TargetConditionMatches(text, Raw(snapshot), rule.conditions[i], ConditionOf(None, i), user)
    {
      TargetConditionAgrees(text, snapshot, rule.conditions[i], user);
    }
  }

  // ---------------------------------------------------------------------------------------------------
  // What the conditions mean, with or without the index

  lemma MembershipMeaning(text: Library, snapshot: DataSnapshot, id: string, user: FbUser)
    requires SoundIndex(text, snapshot) && id in snapshot.segments
    ensures InSegment(text, snapshot, id, user) <==> IsMember(text, snapshot.segments[id], user)
  {
    InSegmentAgrees(text, snapshot, id, user);
    var segment := snapshot.segments[id];
    forall i | 0 <= i < |segment.rules|
      ensures SegmentRuleMatches(text, segment.rules[i], None, user) <==>
              SatisfiesAll(text, user, segment.rules[i].conditions)
    {
      SegmentRuleMeaning(text, segment.rules[i], user);
    }
  }

  lemma SegmentRuleMeaning(text: Library, rule: MatchRule, user: FbUser)
    ensures SegmentRuleMatches(text, rule, None, user) <==> SatisfiesAll(text, user, rule.conditions)
  {
    forall i | 0 <= i < |rule.conditions|
      ensures ConditionMatches(text, rule.conditions[i], ConditionOf(None, i), user) <==>
              Satisfies(text, user, rule.conditions[i])
    {
      ConditionMeaning(text, rule.conditions[i], user);
    }
  }

  lemma ConditionMeaning(text: Library, condition: Condition, user: FbUser)
    ensures ConditionMatches(text, condition, None, user) <==> Satisfies(text, user, condition)
  {
    SatisfiesMeaning(text, user, condition);
    OperatorMeaning(text, condition.op, user.ValueOf(condition.property), condition.value);
  }

  /** The three-valued answer in terms of the segments alone. */
  lemma SegmentListMeaning(text: Library, snapshot: DataSnapshot, ids: seq<string>, user: FbUser)
    requires SoundIndex(text, snapshot)
    ensures MatchSegmentIds(text, snapshot, ids, user) == Matched <==> InOneOf(text, snapshot.segments, ids, user)
    ensures MatchSegmentIds(text, snapshot, ids, user) == NotMatched <==> InNone(text, snapshot.segments, ids, user)
  {
    MatchSegmentIdsMeaning(text, snapshot, ids, user);
    forall k | 0 <= k < |ids| && ids[k] in snapshot.segments
      ensures InSegment(text, snapshot, ids[k], user) <==> IsMember(text, snapshot.segments[ids[k]], user)
    {
      MembershipMeaning(text, snapshot, ids[k], user);
    }
  }

  lemma TargetConditionMeaning(text: Library, snapshot: DataSnapshot, condition: Condition, user: FbUser)
    requires SoundIndex(text, snapshot)
    ensures TargetConditionMatches(text, snapshot, condition, None, user) <==>
            Holds(text, snapshot.segments, user, condition)
  {
    match text.parseOptionalStrings(condition.value) {
      case Some(Some(ids)) => SegmentListMeaning(text, snapshot, ids, user);
      case _ =>
    }
    ConditionMeaning(text, condition, user);
  }

  /** A rule, with its prepared form or without, holds for exactly the users for whom all its conditions hold. */
  lemma RuleMeaning(text: Library, snapshot: DataSnapshot, rule: TargetRule, prepared: Option<PreparedRule>,
                    user: FbUser)
    requires SoundIndex(text, snapshot)
    requires prepared.Some? ==> prepared.value == PrepareRule(text, rule.conditions)
    ensures RuleMatches(text, snapshot, rule, prepared, user) <==> RuleHolds(text, snapshot.segments, user, rule)
  {
    RuleAgrees(text, snapshot, rule, user);
    forall i | 0 <= i < |rule.conditions|
      ensures TargetConditionMatches(text, snapshot, rule.conditions[i], ConditionOf(None, i), user) <==>
              Holds(text, snapshot.segments, user, rule.conditions[i])
    {
      TargetConditionMeaning(text, snapshot, rule.conditions[i], user);
    }
  }

  /** With the index and without it, a list in which a missing or archived segment comes before every segment that
      holds the user satisfies neither the positive nor the negative condition. */
  lemma DanglingReferenceMatchesNothing(text: Library, snapshot: DataSnapshot, condition: Condition, user: FbUser,
                                        k: nat)
    requires SoundIndex(text, snapshot)
    requires condition.property in {"User is in segment", "User is not in segment"}
    requires var list := text.parseOptionalStrings(condition.value);
             && list.Some? && list.value.Some?
             && var ids := list.value.value;
             && k < |ids|
             && (ids[k] !in snapshot.segments || snapshot.segments[ids[k]].isArchived)
             && forall j :: 0 <= j < k && ids[j] in snapshot.segments ==>
                              !IsMember(text, snapshot.segments[ids[j]], user)
    ensures !TargetConditionMatches(text, snapshot, condition, Some(PrepareCondition(text, condition)), user)
    ensures !TargetConditionMatches(text, snapshot, condition, None, user)
    ensures !TargetConditionMatches(text, Raw(snapshot), condition, None, user)
  {
    DanglingSatisfiesNeither(text, snapshot.segments, text.parseOptionalStrings(condition.value).value.value, user, k);
    TargetConditionMeaning(text, snapshot, condition, user);
    TargetConditionAgrees(text, snapshot, condition, user);
  }
}
