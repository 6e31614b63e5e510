/** Flag evaluation, after src/evaluation/evaluator.rs. */
module Evaluator {
  import opened Meaning
  import opened Model
  import opened Prepared
  import opened Wrappers
  import opened Dispatch
  import opened Segments
  import opened Store
  import StoreRuns

  datatype EvalError = InvalidContext | FlagNotFound | MalformedFlag

  datatype EvalReason = Off | TargetMatch | RuleMatch(name: string, split: bool) | FallthroughMatch(split: bool)

  datatype EvalResult = EvalResult(
    flagId: string,
    flagType: string,
    variation: Variation,
    reason: EvalReason,
    insightsEnabled: bool)

  type Evaluation = Result<EvalResult, EvalError>

  function Evaluate(text: Library, snapshot: DataSnapshot, flagKey: string, user: FbUser): Evaluation {
    if user.key == "" then Err(InvalidContext)
    else if flagKey !in snapshot.flags || snapshot.flags[flagKey].isArchived then Err(FlagNotFound)
    else
      var prepared := if flagKey in snapshot.prepared.flags then Some(snapshot.prepared.flags[flagKey]) else None;
      EvaluateFlag(text, snapshot, snapshot.flags[flagKey], prepared, user)
  }

  function EvaluateFlag(text: Library, snapshot: DataSnapshot, flag: FeatureFlag, prepared: Option<PreparedFlag>,
                        user: FbUser): Evaluation
  {
    if !flag.isEnabled then Conclude(flag, prepared, Some(flag.disabledVariationId), Off)
    else
      var target := TargetOf(flag, prepared, user);
      if target.Some? then Conclude(flag, prepared, target, TargetMatch)
      else
        var ruleIndex := FirstRule(text, snapshot, flag, prepared, user, 0);
        if ruleIndex.Some? then
          var rule := flag.rules[ruleIndex.value];
          Conclude(flag, prepared, Dispatched(text, flag, rule.variations, rule.dispatchKey, user),
                   RuleMatch(rule.name, IsPercentageSplit(rule.variations)))
        else
          Conclude(flag, prepared,
                   Dispatched(text, flag, flag.fallthrough.variations, flag.fallthrough.dispatchKey, user),
                   FallthroughMatch(IsPercentageSplit(flag.fallthrough.variations)))
  }

  function TargetOf(flag: FeatureFlag, prepared: Option<PreparedFlag>, user: FbUser): Option<string> {
    var indexed := if prepared.Some? then prepared.value.TargetVariation(user.key) else None;
    if indexed.Some? then indexed else FindTarget(flag.targetUsers, user.key)
  }

  function RuleOf(prepared: Option<PreparedFlag>, index: nat): Option<PreparedRule> {
    if prepared.Some? then At(prepared.value.rules, index) else None
  }

  function FirstRule(text: Library, snapshot: DataSnapshot, flag: FeatureFlag, prepared: Option<PreparedFlag>,
                     user: FbUser, from: nat): (r: Option<nat>)
    requires from <= |flag.rules|
    ensures r.Some? ==> from <= r.value < |flag.rules|
                        && RuleMatches(text, snapshot, flag.rules[r.value], RuleOf(prepared, r.value), user)
    ensures forall j :: from <= j < (if r.Some? then r.value else |flag.rules|) ==>
                          !RuleMatches(text, snapshot, flag.rules[j], RuleOf(prepared, j), user)
    decreases |flag.rules| - from
  {
    if from == |flag.rules| then None
    else if RuleMatches(text, snapshot, flag.rules[from], RuleOf(prepared, from), user) then Some(from)
    else FirstRule(text, snapshot, flag, prepared, user, from + 1)
  }

  /** The id of the rollout that the dispatch key selects. */
  function Dispatched(text: Library, flag: FeatureFlag, rollouts: seq<RolloutVariation>, property: Option<string>,
                      user: FbUser): Option<string>
  {
    var index := Selected(rollouts, RolloutOfKey(text, DispatchKey(text, flag, property, user)));
    if index.Some? then Some(rollouts[index.value].id) else None
  }

  function DispatchKey(text: Library, flag: FeatureFlag, property: Option<string>, user: FbUser): string {
    flag.key + if property.Some? && !IsBlank(text, property.value) then user.ValueOf(property.value) else user.key
  }

  predicate IsBlank(text: Library, value: string) {
    forall i :: 0 <= i < |value| ==> text.isWhitespace(value[i])
  }

  function Conclude(flag: FeatureFlag, prepared: Option<PreparedFlag>, id: Option<string>, reason: EvalReason)
    : Evaluation
  {
    if id.None? then Err(MalformedFlag)
    else
      var variation := if prepared.Some? then prepared.value.Variation(flag, id.value)
                       else FindVariation(flag.variations, id.value);
      match variation
      case None => Err(MalformedFlag)
      case Some(v) => Ok(EvalResult(flag.id, flag.variationType, v, reason, flag.insightsEnabled))
  }

  // ---------------------------------------------------------------------------------------------------
  // The index never changes a result

  lemma PreparedEvaluationAgrees(text: Library, snapshot: DataSnapshot, flagKey: string, user: FbUser)
    requires SoundIndex(text, snapshot)
    ensures Evaluate(text, snapshot, flagKey, user) == Evaluate(text, Raw(snapshot), flagKey, user)
  {
    if flagKey in snapshot.prepared.flags {
      FlagAgrees(text, snapshot, snapshot.flags[flagKey], Some(snapshot.prepared.flags[flagKey]), user);
    } else if flagKey in snapshot.flags {
      FlagAgrees(text, snapshot, snapshot.flags[flagKey], None, user);
    }
  }

  lemma FlagAgrees(text: Library, snapshot: DataSnapshot, flag: FeatureFlag, prepared: Option<PreparedFlag>,
                   user: FbUser)
    requires SoundIndex(text, snapshot)
    requires prepared.Some? ==> prepared.value == PrepareFlag(text, flag)
    ensures EvaluateFlag(text, snapshot, flag, prepared, user) == EvaluateFlag(text, Raw(snapshot), flag, None, user)
  {
    forall id, reason ensures Conclude(flag, prepared, id, reason) == Conclude(flag, None, id, reason) {
      if id.Some? {
        LookupsAgree(text, flag, id.value, user.key);
      }
    }
    LookupsAgree(text, flag, "", user.key);
    assert TargetOf(flag, prepared, user) == TargetOf(flag, None, user);
    FirstRuleAgrees(text, snapshot, flag, prepared, user, 0);
  }

  lemma {:induction false} FirstRuleAgrees(text: Library, snapshot: DataSnapshot, flag: FeatureFlag,
                                           prepared: Option<PreparedFlag>, user: FbUser, from: nat)
    requires SoundIndex(text, snapshot) && from <= |flag.rules|
    requires prepared.Some? ==> prepared.value == PrepareFlag(text, flag)
    ensures FirstRule(text, snapshot, flag, prepared, user, from)
            == FirstRule(text, Raw(snapshot), flag, None, user, from)
    decreases |flag.rules| - from
  {
    if from < |flag.rules| {
      RuleAgrees(text, snapshot, flag.rules[from], user);
      FirstRuleAgrees(text, snapshot, flag, prepared, user, from + 1);
    }
  }

  /** For every store reached by any full and patch messages, every flag key and every user: evaluation through
      the prepared index gives what evaluation of the same flags and segments without one gives. */
  lemma ReachableStoresEvaluateAsRaw(text: Library, writes: seq<StoreRuns.Write>, flagKey: string, user: FbUser)
    ensures var s := StoreRuns.Run(text, writes);
            Evaluate(text, s, flagKey, user) == Evaluate(text, Raw(s), flagKey, user)
  {
    StoreRuns.ReachableKeepsInvariant(text, writes);
    PreparedEvaluationAgrees(text, StoreRuns.Run(text, writes), flagKey, user);
  }

  // ---------------------------------------------------------------------------------------------------
  // What a result means

  ghost predicate Explains(flag: FeatureFlag, clause: Clause, reason: EvalReason)
    requires clause.Rule? ==> clause.index < |flag.rules|
  {
    match clause
    case Disabled => reason == Off
    case Target(_) => reason == TargetMatch
    case Rule(i) => reason == RuleMatch(flag.rules[i].name, IsSplit(flag.rules[i].variations))
    case Default => reason == FallthroughMatch(IsSplit(flag.fallthrough.variations))
  }

  lemma NoTargetMeaning(flag: FeatureFlag, user: FbUser)
    ensures NoTarget(flag, user) <==> FindTarget(flag.targetUsers, user.key).None?
  {
    if FindTarget(flag.targetUsers, user.key).Some? {
      var i :| 0 <= i < |flag.targetUsers| && IsFirstTarget(flag.targetUsers, user.key, i);
      assert IsFirstTarget(flag.targetUsers, user.key, i);
    }
  }

  /** Exactly one clause governs, whatever the data. */
  lemma OneClauseGoverns(text: Library, snapshot: DataSnapshot, flag: FeatureFlag, user: FbUser)
    returns (clause: Clause)
    ensures Governs(text, snapshot, flag, user, clause)
    ensures forall other :: Governs(text, snapshot, flag, user, other) ==> other == clause
  {
    RulesMean(text, Raw(snapshot), flag, user);
    NoTargetMeaning(flag, user);
    var rule := FirstRule(text, Raw(snapshot), flag, None, user, 0);
    if !flag.isEnabled {
      clause := Disabled;
    } else if i :| IsFirstTarget(flag.targetUsers, user.key, i) {
      clause := Target(i);
      assert IsFirstTarget(flag.targetUsers, user.key, i);
    } else {
      var _ := FindTarget(flag.targetUsers, user.key);
      clause := if rule.Some? then Rule(rule.value) else Default;
    }
  }

  lemma RulesMean(text: Library, snapshot: DataSnapshot, flag: FeatureFlag, user: FbUser)
    requires SoundIndex(text, snapshot)
    ensures forall i :: 0 <= i < |flag.rules| ==>
              (RuleMatches(text, snapshot, flag.rules[i], None, user) <==>
               RuleHolds(text, snapshot.segments, user, flag.rules[i]))
  {
    forall i | 0 <= i < |flag.rules|
      ensures RuleMatches(text, snapshot, flag.rules[i], None, user) <==>
              RuleHolds(text, snapshot.segments, user, flag.rules[i])
    {
      RuleMeaning(text, snapshot, flag.rules[i], None, user);
    }
  }

  lemma DispatchKeyMeaning(text: Library, flag: FeatureFlag, property: Option<string>, user: FbUser)
    ensures IsDispatchKey(text, flag, property, user, DispatchKey(text, flag, property, user))
  {
    if property.Some? && !IsBlank(text, property.value) {
      ValueMeaning(user, property.value, user.ValueOf(property.value));
    }
  }

  lemma DispatchMeaning(text: Library, flag: FeatureFlag, rollouts: seq<RolloutVariation>, property: Option<string>,
                        user: FbUser)
    ensures SelectsFirst(text, flag, rollouts, property, user, Dispatched(text, flag, rollouts, property, user))
  {
    var key := DispatchKey(text, flag, property, user);
    var value := RolloutOfKey(text, key);
    DispatchKeyMeaning(text, flag, property, user);
    RolloutMeaning(text, key, value);
    SelectedMeaning(rollouts, value);
    assert IsFirstCovered(rollouts, value, Dispatched(text, flag, rollouts, property, user));
  }

  /** The first variation with the id that the governing clause names, with that clause's reason; malformed
      exactly when there is no such variation. */
  ghost predicate Follows(text: Library, flag: FeatureFlag, user: FbUser, clause: Clause, evaluation: Evaluation)
    requires clause.Target? ==> clause.index < |flag.targetUsers|
    requires clause.Rule? ==> clause.index < |flag.rules|
  {
    match evaluation
    case Ok(result) =>
      && result.flagId == flag.id && result.flagType == flag.variationType
         && result.insightsEnabled == flag.insightsEnabled
      && Explains(flag, clause, result.reason)
      && Names(text, flag, user, clause, Some(result.variation.id))
      && exists i :: 0 <= i < |flag.variations| && IsFirstVariation(flag.variations, result.variation.id, i)
                     && result.variation == flag.variations[i]
    case Err(error) =>
      && error == MalformedFlag
      && (Names(text, flag, user, clause, None) ||
          exists id :: Names(text, flag, user, clause, Some(id)) && HasNone(flag, id))
  }

  lemma EvaluationFollowsTheClause(text: Library, snapshot: DataSnapshot, flagKey: string, user: FbUser, clause: Clause)
    requires SoundIndex(text, snapshot)
    requires user.key != "" && flagKey in snapshot.flags && !snapshot.flags[flagKey].isArchived
    requires Governs(text, snapshot, snapshot.flags[flagKey], user, clause)
    ensures Follows(text, snapshot.flags[flagKey], user, clause, Evaluate(text, snapshot, flagKey, user))
  {
    PreparedEvaluationAgrees(text, snapshot, flagKey, user);
    var raw, flag := Raw(snapshot), snapshot.flags[flagKey];
    match clause {
      case Disabled => ConclusionFollows(text, flag, user, clause, Some(flag.disabledVariationId), Off);
      case Target(i) =>
        TargetFound(flag, user, i);
        ConclusionFollows(text, flag, user, clause, Some(flag.targetUsers[i].variationId), TargetMatch);
      case Rule(i) => RuleFollows(text, raw, flag, user, i);
      case Default => DefaultFollows(text, raw, flag, user);
    }
  }

  lemma RuleFollows(text: Library, raw: DataSnapshot, flag: FeatureFlag, user: FbUser, i: nat)
    requires raw == Raw(raw) && Governs(text, raw, flag, user, Rule(i))
    ensures Follows(text, flag, user, Rule(i), EvaluateFlag(text, raw, flag, None, user))
  {
    var rule := flag.rules[i];
    RuleFound(text, raw, flag, user, i);
    SplitMeaning(rule.variations);
    DispatchMeaning(text, flag, rule.variations, rule.dispatchKey, user);
    ConclusionFollows(text, flag, user, Rule(i), Dispatched(text, flag, rule.variations, rule.dispatchKey, user),
                      RuleMatch(rule.name, IsPercentageSplit(rule.variations)));
  }

  lemma RuleFound(text: Library, raw: DataSnapshot, flag: FeatureFlag, user: FbUser, i: nat)
    requires raw == Raw(raw) && Governs(text, raw, flag, user, Rule(i))
    ensures TargetOf(flag, None, user).None? && FirstRule(text, raw, flag, None, user, 0) == Some(i)
  {
    NoTargetMeaning(flag, user);
    RulesMean(text, raw, flag, user);
    FirstRuleIs(text, raw, flag, user, i);
  }

  lemma FirstRuleIs(text: Library, raw: DataSnapshot, flag: FeatureFlag, user: FbUser, i: nat)
    requires i < |flag.rules| && RuleMatches(text, raw, flag.rules[i], None, user)
    requires forall j :: 0 <= j < i ==> !RuleMatches(text, raw, flag.rules[j], None, user)
    ensures FirstRule(text, raw, flag, None, user, 0) == Some(i)
  {
    var r := FirstRule(text, raw, flag, None, user, 0);
    assert r.Some? && !(r.value < i) && !(i < r.value);
  }

  lemma DefaultFollows(text: Library, raw: DataSnapshot, flag: FeatureFlag, user: FbUser)
    requires raw == Raw(raw) && Governs(text, raw, flag, user, Default)
    ensures Follows(text, flag, user, Default, EvaluateFlag(text, raw, flag, None, user))
  {
    var fallthrough := flag.fallthrough;
    NoRuleFound(text, raw, flag, user);
    SplitMeaning(fallthrough.variations);
    DispatchMeaning(text, flag, fallthrough.variations, fallthrough.dispatchKey, user);
    ConclusionFollows(text, flag, user, Default,
                      Dispatched(text, flag, fallthrough.variations, fallthrough.dispatchKey, user),
                      FallthroughMatch(IsPercentageSplit(fallthrough.variations)));
  }

  lemma NoRuleFound(text: Library, raw: DataSnapshot, flag: FeatureFlag, user: FbUser)
    requires raw == Raw(raw) && Governs(text, raw, flag, user, Default)
    ensures TargetOf(flag, None, user).None? && FirstRule(text, raw, flag, None, user, 0).None?
  {
    RulesMean(text, raw, flag, user);
    NoTargetMeaning(flag, user);
  }

  lemma TargetFound(flag: FeatureFlag, user: FbUser, i: nat)
    requires IsFirstTarget(flag.targetUsers, user.key, i)
    ensures FindTarget(flag.targetUsers, user.key) == Some(flag.targetUsers[i].variationId)
  {
    var k :| 0 <= k < |flag.targetUsers| && IsFirstTarget(flag.targetUsers, user.key, k)
             && FindTarget(flag.targetUsers, user.key).value == flag.targetUsers[k].variationId;
    assert IsFirstTarget(flag.targetUsers, user.key, k);
  }

  lemma ConclusionFollows(text: Library, flag: FeatureFlag, user: FbUser, clause: Clause, id: Option<string>,
                          reason: EvalReason)
    requires clause.Target? ==> clause.index < |flag.targetUsers|
    requires clause.Rule? ==> clause.index < |flag.rules|
    requires Names(text, flag, user, clause, id) && Explains(flag, clause, reason)
    ensures Follows(text, flag, user, clause, Conclude(flag, None, id, reason))
  {
    if id.Some? && FindVariation(flag.variations, id.value).Some? {
      var i :| 0 <= i < |flag.variations| && IsFirstVariation(flag.variations, id.value, i)
               && FindVariation(flag.variations, id.value).value == flag.variations[i];
      assert IsFirstVariation(flag.variations, id.value, i);
    }
  }

  // ---------------------------------------------------------------------------------------------------
  // Every call

  /** A flag that governs a user serves exactly what its evaluation yields. */
  lemma ServedIsEvaluated(text: Library, snapshot: DataSnapshot, flagKey: string, user: FbUser, id: string,
                          value: string)
    requires SoundIndex(text, snapshot) && IsServed(text, snapshot, flagKey, user, id, value)
    ensures var evaluation := Evaluate(text, snapshot, flagKey, user);
            evaluation.Ok? && evaluation.value.variation == Variation(id, value)
  {
    var flag := snapshot.flags[flagKey];
    var clause :| Governs(text, snapshot, flag, user, clause) && Names(text, flag, user, clause, Some(id));
    EvaluationFollowsTheClause(text, snapshot, flagKey, user, clause);
    FollowingServes(text, flag, user, clause, Evaluate(text, snapshot, flagKey, user), id, value);
  }

  lemma FollowingServes(text: Library, flag: FeatureFlag, user: FbUser, clause: Clause, evaluation: Evaluation,
                        id: string, value: string)
    requires clause.Target? ==> clause.index < |flag.targetUsers|
    requires clause.Rule? ==> clause.index < |flag.rules|
    requires Follows(text, flag, user, clause, evaluation)
    requires Names(text, flag, user, clause, Some(id)) && IsFirstWith(flag, id, value)
    ensures evaluation.Ok? && evaluation.value.variation == Variation(id, value)
  {
    match evaluation {
      case Ok(result) =>
        OneName(text, flag, user, clause, Some(id), Some(result.variation.id));
        assert IsFirstWith(flag, id, result.variation.value);
        OneFirstWith(flag, id, value, result.variation.value);
      case Err(_) =>
        if Names(text, flag, user, clause, None) {
          OneName(text, flag, user, clause, Some(id), None);
        } else {
          var other :| Names(text, flag, user, clause, Some(other)) && HasNone(flag, other);
          OneName(text, flag, user, clause, Some(id), Some(other));
        }
    }
  }

  /** The outcome of every call, in terms of what is served: a user without a key, a flag that is missing or
      archived, a flag that serves nothing, or else the one variation that it serves. */
  lemma EvaluationMeaning(text: Library, snapshot: DataSnapshot, flagKey: string, user: FbUser)
    requires SoundIndex(text, snapshot)
    ensures match Evaluate(text, snapshot, flagKey, user)
            case Err(InvalidContext) => user.key == ""
            case Err(FlagNotFound) =>
              user.key != "" && (flagKey !in snapshot.flags || snapshot.flags[flagKey].isArchived)
            case Err(MalformedFlag) =>
              IsEvaluable(snapshot, flagKey, user) && ServesNothing(text, snapshot, flagKey, user)
            case Ok(result) =>
              && IsServed(text, snapshot, flagKey, user, result.variation.id, result.variation.value)
              && var flag := snapshot.flags[flagKey];
              && result.flagId == flag.id
              && result.flagType == flag.variationType
              && result.insightsEnabled == flag.insightsEnabled
  {
    if IsEvaluable(snapshot, flagKey, user) {
      var flag := snapshot.flags[flagKey];
      var clause := OneClauseGoverns(text, snapshot, flag, user);
      EvaluationFollowsTheClause(text, snapshot, flagKey, user, clause);
      forall id, value | IsServed(text, snapshot, flagKey, user, id, value)
        ensures Evaluate(text, snapshot, flagKey, user).Ok?
      {
        ServedIsEvaluated(text, snapshot, flagKey, user, id, value);
      }
      match Evaluate(text, snapshot, flagKey, user) {
        case Ok(result) => assert IsFirstWith(flag, result.variation.id, result.variation.value);
        case Err(_) =>
      }
    }
  }

  ghost predicate ServesNothing(text: Library, snapshot: DataSnapshot, flagKey: string, user: FbUser) {
    forall id, value :: !IsServed(text, snapshot, flagKey, user, id, value)
  }
}
