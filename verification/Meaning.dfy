/** What flags, rules, segments and rollouts mean, stated on the data alone: no function of the evaluator, of the
    index or of the matcher occurs here. The other modules prove that the code computes exactly this. */
module Meaning {
  import opened Wrappers
  import opened Model
  import opened Prepared
  import opened Store

  // ---------------------------------------------------------------------------------------------------
  // Users and operators

  /** The value of a user's property. The key and the name are not to be overridden by custom properties. */
  ghost predicate HasValue(user: FbUser, property: string, value: string) {
    || (property == "keyId" && value == user.key)
    || (property == "name" && value == user.name)
    || (property !in {"keyId", "name"} && property in user.custom && value == user.custom[property])
    || (property !in {"keyId", "name"} && property !in user.custom && value == "")
  }

  ghost predicate Compares(text: Library, userValue: string, ruleValue: string, relation: (real, real) -> bool) {
    exists left, right :: text.parseFloat(userValue) == Some(Finite(left))
        && text.parseFloat(ruleValue) == Some(Finite(right)) && relation(left, right)
  }

  ghost predicate Lists(text: Library, ruleValue: string, userValue: string, listed: bool) {
    exists values :: text.parseStrings(ruleValue) == Some(values)
        && ((exists i :: 0 <= i < |values| && values[i] == userValue) <==> listed)
  }

  ghost predicate Recognizes(text: Library, ruleValue: string, userValue: string, recognized: bool) {
    exists regex :: text.compileRegex(ruleValue) == Some(regex) && text.regexMatches(regex, userValue) == recognized
  }

  ghost predicate IsInside(part: string, value: string) { exists before, after :: value == before + part + after }

  ghost predicate Opens(part: string, value: string) { exists after :: value == part + after }

  ghost predicate Closes(part: string, value: string) { exists before :: value == before + part }

  /** Every operator, in terms of the values it compares. Operands that cannot be read satisfy none. */
  ghost predicate Means(text: Library, op: string, userValue: string, ruleValue: string) {
    match op
    case "LessThan" => Compares(text, userValue, ruleValue, (left, right) => left < right)
    case "LessEqualThan" => Compares(text, userValue, ruleValue, (left, right) => left <= right)
    case "BiggerThan" => Compares(text, userValue, ruleValue, (left, right) => left > right)
    case "BiggerEqualThan" => Compares(text, userValue, ruleValue, (left, right) => left >= right)
    case "Equal" => userValue == ruleValue
    case "NotEqual" => userValue != ruleValue
    case "Contains" => IsInside(ruleValue, userValue)
    case "NotContain" => !IsInside(ruleValue, userValue)
    case "StartsWith" => Opens(ruleValue, userValue)
    case "EndsWith" => Closes(ruleValue, userValue)
    case "MatchRegex" => Recognizes(text, ruleValue, userValue, true)
    case "NotMatchRegex" => Recognizes(text, ruleValue, userValue, false)
    case "IsOneOf" => Lists(text, ruleValue, userValue, true)
    case "NotOneOf" => Lists(text, ruleValue, userValue, false)
    case "IsTrue" => SpellsIgnoringCase(userValue, "true", "TRUE")
    case "IsFalse" => SpellsIgnoringCase(userValue, "false", "FALSE")
    case _ => false
  }

  ghost predicate SpellsIgnoringCase(value: string, lower: string, upper: string)
    requires |lower| == |upper|
  {
    |value| == |lower| && forall i :: 0 <= i < |value| ==> value[i] == lower[i] || value[i] == upper[i]
  }

  ghost predicate Satisfies(text: Library, user: FbUser, condition: Condition) {
    exists value :: HasValue(user, condition.property, value) && Means(text, condition.op, value, condition.value)
  }

  ghost predicate SatisfiesAll(text: Library, user: FbUser, conditions: seq<Condition>) {
    forall i :: 0 <= i < |conditions| ==> Satisfies(text, user, conditions[i])
  }

  // ---------------------------------------------------------------------------------------------------
  // Segments

  /** Exclusion beats inclusion, and inclusion needs no rule; a rule needs all its conditions. */
  ghost predicate IsMember(text: Library, segment: Segment, user: FbUser) {
    && user.key !in segment.excluded
    && (|| user.key in segment.included
        || exists i :: 0 <= i < |segment.rules| && SatisfiesAll(text, user, segment.rules[i].conditions))
  }

  /** Some listed segment holds the user, and it and all before it exist and are not archived. */
  ghost predicate InOneOf(text: Library, segments: map<string, Segment>, ids: seq<string>, user: FbUser) {
    exists k :: 0 <= k < |ids| && IsUsableUpTo(segments, ids, k) && IsMember(text, segments[ids[k]], user)
  }

  ghost predicate IsUsableUpTo(segments: map<string, Segment>, ids: seq<string>, k: int) {
    0 <= k < |ids| && forall j :: 0 <= j <= k ==> ids[j] in segments && !segments[ids[j]].isArchived
  }

  /** All listed segments exist and are not archived, and none holds the user. */
  ghost predicate InNone(text: Library, segments: map<string, Segment>, ids: seq<string>, user: FbUser) {
    forall k :: 0 <= k < |ids| ==>
      ids[k] in segments && !segments[ids[k]].isArchived && !IsMember(text, segments[ids[k]], user)
  }

  // ---------------------------------------------------------------------------------------------------
  // Rules

  /** A segment condition needs a list that can be read; null counts as the empty list. */
  ghost predicate Holds(text: Library, segments: map<string, Segment>, user: FbUser, condition: Condition) {
    var list := text.parseOptionalStrings(condition.value);
    if condition.property == "User is in segment" then
      list.Some? && list.value.Some? && InOneOf(text, segments, list.value.value, user)
    else if condition.property == "User is not in segment" then
      list.Some? && (list.value.Some? ==> InNone(text, segments, list.value.value, user))
    else Satisfies(text, user, condition)
  }

  ghost predicate RuleHolds(text: Library, segments: map<string, Segment>, user: FbUser, rule: TargetRule) {
    forall i :: 0 <= i < |rule.conditions| ==> Holds(text, segments, user, rule.conditions[i])
  }

  // ---------------------------------------------------------------------------------------------------
  // Rollouts

  /** The key that is hashed: the flag's key, then the property's value, or the user's key if no property is
      named or its name is blank. */
  ghost predicate IsDispatchKey(text: Library, flag: FeatureFlag, property: Option<string>, user: FbUser, key: string) {
    exists value :: key == flag.key + value
                    && if property.Some? && exists c :: c in property.value && !text.isWhitespace(c)
                       then HasValue(user, property.value, value) else value == user.key
  }

  /** The hash as a part of 2^31, without its sign. */
  ghost predicate IsRollout(text: Library, key: string, value: real) {
    && value >= 0.0
    && (value * 2147483648.0 == text.hash(key) as real || value * 2147483648.0 == -(text.hash(key) as real))
  }

  /** A range holds its ends; from zero to within 1e-5 of one it holds everybody, and from zero to zero nobody. */
  ghost predicate Covers(rollout: seq<real>, value: real) {
    && |rollout| == 2
    && rollout[0] <= rollout[1]
    && (|| (rollout[0] == 0.0 && rollout[1] > 0.99999)
        || (rollout[0] <= value <= rollout[1] && rollout != [0.0, 0.0]))
  }

  /** The id of the first rollout whose range covers the user; none if no range does. */
  ghost predicate SelectsFirst(text: Library, flag: FeatureFlag, rollouts: seq<RolloutVariation>,
                               property: Option<string>, user: FbUser, id: Option<string>)
  {
    exists key, value :: IsDispatchKey(text, flag, property, user, key) && IsRollout(text, key, value)
                         && IsFirstCovered(rollouts, value, id)
  }

  ghost predicate IsFirstCovered(rollouts: seq<RolloutVariation>, value: real, id: Option<string>) {
    match id
    case None => forall i :: 0 <= i < |rollouts| ==> !Covers(rollouts[i].rollout, value)
    case Some(chosen) =>
      exists i :: 0 <= i < |rollouts| && Covers(rollouts[i].rollout, value) && rollouts[i].id == chosen
                  && forall j :: 0 <= j < i ==> !Covers(rollouts[j].rollout, value)
  }

  /** Several rollouts are a split, and so is a single one unless it holds everybody. */
  ghost predicate IsSplit(rollouts: seq<RolloutVariation>) {
    |rollouts| > 1 || (|rollouts| == 1 && !exists max :: rollouts[0].rollout == [0.0, max] && max > 0.99999)
  }

  // ---------------------------------------------------------------------------------------------------
  // Flags

  datatype Clause = Disabled | Target(index: nat) | Rule(index: nat) | Default

  /** The part of a flag that decides for a user: off, then the first target, then the first rule. */
  ghost predicate Governs(text: Library, snapshot: DataSnapshot, flag: FeatureFlag, user: FbUser, clause: Clause) {
    match clause
    case Disabled => !flag.isEnabled
    case Target(i) => flag.isEnabled && IsFirstTarget(flag.targetUsers, user.key, i)
    case Rule(i) =>
      && flag.isEnabled
      && NoTarget(flag, user)
      && i < |flag.rules|
      && RuleHolds(text, snapshot.segments, user, flag.rules[i])
      && forall j :: 0 <= j < i ==> !RuleHolds(text, snapshot.segments, user, flag.rules[j])
    case Default =>
      && flag.isEnabled
      && NoTarget(flag, user)
      && forall j :: 0 <= j < |flag.rules| ==> !RuleHolds(text, snapshot.segments, user, flag.rules[j])
  }

  ghost predicate NoTarget(flag: FeatureFlag, user: FbUser) {
    forall i :: 0 <= i < |flag.targetUsers| ==> user.key !in flag.targetUsers[i].keyIds
  }

  /** `id` is the variation that a governing clause names; it names none when no rollout range matches. */
  ghost predicate Names(text: Library, flag: FeatureFlag, user: FbUser, clause: Clause, id: Option<string>)
    requires clause.Target? ==> clause.index < |flag.targetUsers|
    requires clause.Rule? ==> clause.index < |flag.rules|
  {
    match clause
    case Disabled => id == Some(flag.disabledVariationId)
    case Target(i) => id == Some(flag.targetUsers[i].variationId)
    case Rule(i) => SelectsFirst(text, flag, flag.rules[i].variations, flag.rules[i].dispatchKey, user, id)
    case Default => SelectsFirst(text, flag, flag.fallthrough.variations, flag.fallthrough.dispatchKey, user, id)
  }

  ghost predicate IsFirstWith(flag: FeatureFlag, id: string, value: string) {
    exists i :: 0 <= i < |flag.variations| && IsFirstVariation(flag.variations, id, i)
                && flag.variations[i].value == value
  }

  ghost predicate HasNone(flag: FeatureFlag, id: string) {
    forall i :: 0 <= i < |flag.variations| ==> flag.variations[i].id != id
  }

  ghost predicate IsEvaluable(snapshot: DataSnapshot, key: string, user: FbUser) {
    user.key != "" && key in snapshot.flags && !snapshot.flags[key].isArchived
  }

  /** `value` is that of the first variation with the id that the governing clause of the flag names. */
  ghost predicate IsServed(text: Library, snapshot: DataSnapshot, key: string, user: FbUser, id: string,
                           value: string)
  {
    && IsEvaluable(snapshot, key, user)
    && var flag := snapshot.flags[key];
    && IsFirstWith(flag, id, value)
    && exists clause :: Governs(text, snapshot, flag, user, clause) && Names(text, flag, user, clause, Some(id))
  }

  // ---------------------------------------------------------------------------------------------------
  // These meanings are functional

  lemma OneFirstWith(flag: FeatureFlag, id: string, a: string, b: string)
    requires IsFirstWith(flag, id, a) && IsFirstWith(flag, id, b)
    ensures a == b
  {
    var i :| 0 <= i < |flag.variations| && IsFirstVariation(flag.variations, id, i) && flag.variations[i].value == a;
    var j :| 0 <= j < |flag.variations| && IsFirstVariation(flag.variations, id, j) && flag.variations[j].value == b;
    assert !(i < j) && !(j < i);
  }

  lemma ValueMeaning(user: FbUser, property: string, value: string)
    ensures HasValue(user, property, value) <==> value == user.ValueOf(property)
  {
  }

  lemma SatisfiesMeaning(text: Library, user: FbUser, condition: Condition)
    ensures Satisfies(text, user, condition) <==>
            Means(text, condition.op, user.ValueOf(condition.property), condition.value)
  {
    ValueMeaning(user, condition.property, user.ValueOf(condition.property));
    if Satisfies(text, user, condition) {
      var value :| HasValue(user, condition.property, value) && Means(text, condition.op, value, condition.value);
      ValueMeaning(user, condition.property, value);
    }
  }

  lemma OneDispatchKey(text: Library, flag: FeatureFlag, property: Option<string>, user: FbUser, a: string, b: string)
    requires IsDispatchKey(text, flag, property, user, a) && IsDispatchKey(text, flag, property, user, b)
    ensures a == b
  {
  }

  lemma OneRollout(text: Library, key: string, a: real, b: real)
    requires IsRollout(text, key, a) && IsRollout(text, key, b)
    ensures a == b
  {
  }

  lemma OneSelected(text: Library, flag: FeatureFlag, rollouts: seq<RolloutVariation>, property: Option<string>,
                    user: FbUser, a: Option<string>, b: Option<string>)
    requires SelectsFirst(text, flag, rollouts, property, user, a)
    requires SelectsFirst(text, flag, rollouts, property, user, b)
    ensures a == b
  {
    var key, value :| IsDispatchKey(text, flag, property, user, key) && IsRollout(text, key, value)
                      && IsFirstCovered(rollouts, value, a);
    var key', value' :| IsDispatchKey(text, flag, property, user, key') && IsRollout(text, key', value')
                        && IsFirstCovered(rollouts, value', b);
    OneDispatchKey(text, flag, property, user, key, key');
    OneRollout(text, key, value, value');
    OneFirstCovered(rollouts, value, a, b);
  }

  lemma OneFirstCovered(rollouts: seq<RolloutVariation>, value: real, a: Option<string>, b: Option<string>)
    requires IsFirstCovered(rollouts, value, a) && IsFirstCovered(rollouts, value, b)
    ensures a == b
  {
    if a.Some? && b.Some? {
      var i :| 0 <= i < |rollouts| && Covers(rollouts[i].rollout, value) && rollouts[i].id == a.value
               && forall j :: 0 <= j < i ==> !Covers(rollouts[j].rollout, value);
      var k :| 0 <= k < |rollouts| && Covers(rollouts[k].rollout, value) && rollouts[k].id == b.value
               && forall j :: 0 <= j < k ==> !Covers(rollouts[j].rollout, value);
      assert !(i < k) && !(k < i);
    }
  }

  /** A clause names at most one thing. */
  lemma OneName(text: Library, flag: FeatureFlag, user: FbUser, clause: Clause, a: Option<string>, b: Option<string>)
    requires clause.Target? ==> clause.index < |flag.targetUsers|
    requires clause.Rule? ==> clause.index < |flag.rules|
    requires Names(text, flag, user, clause, a) && Names(text, flag, user, clause, b)
    ensures a == b
  {
    match clause {
      case Rule(i) =>
        OneSelected(text, flag, flag.rules[i].variations, flag.rules[i].dispatchKey, user, a, b);
      case Default =>
        OneSelected(text, flag, flag.fallthrough.variations, flag.fallthrough.dispatchKey, user, a, b);
      case _ =>
    }
  }

  /** No list of segments satisfies both conditions, and none satisfies either if an id that is missing or
      archived comes before every segment that holds the user. */
  lemma DanglingSatisfiesNeither(text: Library, segments: map<string, Segment>, ids: seq<string>, user: FbUser, k: nat)
    ensures !(InOneOf(text, segments, ids, user) && InNone(text, segments, ids, user))
    ensures && k < |ids|
            && (ids[k] !in segments || segments[ids[k]].isArchived)
            && (forall j :: 0 <= j < k && ids[j] in segments ==> !IsMember(text, segments[ids[j]], user))
            ==> !InOneOf(text, segments, ids, user) && !InNone(text, segments, ids, user)
  {
  }
}
