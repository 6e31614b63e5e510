/** The prepared index of src/prepared.rs: lookups and operands computed once when data is published. */
module Prepared {
  import opened Wrappers
  import opened Model

  const IS_IN_SEGMENT := "User is in segment"
  const IS_NOT_IN_SEGMENT := "User is not in segment"

  datatype PreparedSnapshot = PreparedSnapshot(flags: map<string, PreparedFlag>, segments: map<string, PreparedSegment>)

  datatype PreparedFlag = PreparedFlag(
    variationIndices: map<string, nat>,
    targetVariations: map<string, string>,
    rules: seq<PreparedRule>)
  {
    function Variation(flag: FeatureFlag, id: string): Option<Variation> {
      if id in variationIndices && variationIndices[id] < |flag.variations|
         && flag.variations[variationIndices[id]].id == id
      then Some(flag.variations[variationIndices[id]])
      else FindVariation(flag.variations, id)
    }

    function TargetVariation(userKey: string): Option<string> {
      if userKey in targetVariations then Some(targetVariations[userKey]) else None
    }
  }

  datatype PreparedSegment = PreparedSegment(included: set<string>, excluded: set<string>, rules: seq<PreparedRule>)

  datatype PreparedRule = PreparedRule(conditions: seq<PreparedCondition>)

  datatype PreparedCondition =
    | Plain
    | Numeric(number: Option<real>)
    | Pattern(regex: Option<Regex>)
    | StringSet(values: Option<set<string>>)
    | SegmentIds(ids: PreparedSegmentIds)

  datatype PreparedSegmentIds = Valid(ids: seq<string>) | Invalid

  const EMPTY_INDEX := PreparedSnapshot(map[], map[])

  /** The slice access `get(index)`. */
  function At<T>(items: seq<T>, index: nat): Option<T> {
    if index < |items| then Some(items[index]) else None
  }

  // ---------------------------------------------------------------------------------------------------
  // Conditions

  predicate IsNumeric(op: string) { op in {"LessThan", "LessEqualThan", "BiggerThan", "BiggerEqualThan"} }

  function FiniteNumber(text: Library, value: string): Option<real> {
    match text.parseFloat(value)
    case Some(Finite(number)) => Some(number)
    case _ => None
  }

  function PrepareCondition(text: Library, condition: Condition): PreparedCondition {
    if condition.property == IS_IN_SEGMENT || condition.property == IS_NOT_IN_SEGMENT then
      match text.parseOptionalStrings(condition.value)
      case Some(Some(ids)) => SegmentIds(Valid(ids))
      case Some(None) => SegmentIds(Valid([]))
      case None => SegmentIds(Invalid)
    else if IsNumeric(condition.op) then Numeric(FiniteNumber(text, condition.value))
    else if condition.op == "MatchRegex" || condition.op == "NotMatchRegex" then
      Pattern(text.compileRegex(condition.value))
    else if condition.op == "IsOneOf" || condition.op == "NotOneOf" then
      match text.parseStrings(condition.value)
      case Some(values) => StringSet(Some(set value | value in values))
      case None => StringSet(None)
    else Plain
  }

  function PrepareRule(text: Library, conditions: seq<Condition>): PreparedRule {
    PreparedRule(seq(|conditions|, i requires 0 <= i < |conditions| => PrepareCondition(text, conditions[i])))
  }

  function PrepareSegment(text: Library, segment: Segment): PreparedSegment {
    PreparedSegment(
      set key | key in segment.included,
      set key | key in segment.excluded,
      seq(|segment.rules|, i requires 0 <= i < |segment.rules| => PrepareRule(text, segment.rules[i].conditions)))
  }

  // ---------------------------------------------------------------------------------------------------
  // Flags

  /** The variation of the first target that lists the user. */
  function FindTarget(targets: seq<TargetUser>, userKey: string): (r: Option<string>)
    ensures r.Some? ==> exists i :: 0 <= i < |targets| && IsFirstTarget(targets, userKey, i)
                                    && r.value == targets[i].variationId
    ensures r.None? ==> forall i :: 0 <= i < |targets| ==> userKey !in targets[i].keyIds
  {
    if targets == [] then None
    else
      var last := |targets| - 1;
      var before := FindTarget(targets[..last], userKey);
      assert before.Some? ==> exists i :: 0 <= i < |targets| && IsFirstTarget(targets, userKey, i)
                                          && before.value == targets[i].variationId by {
        if before.Some? {
          var i :| 0 <= i < last && IsFirstTarget(targets[..last], userKey, i)
              && before.value == targets[..last][i].variationId;
          assert IsFirstTarget(targets, userKey, i);
        }
      }
      if before.Some? then before
      else if userKey in targets[last].keyIds then
        assert IsFirstTarget(targets, userKey, last);
        Some(targets[last].variationId)
      else None
  }

  ghost predicate IsFirstTarget(targets: seq<TargetUser>, userKey: string, i: nat) {
    && i < |targets|
    && userKey in targets[i].keyIds
    && forall j :: 0 <= j < i ==> userKey !in targets[j].keyIds
  }

  ghost function FirstIndex(variations: seq<Variation>, id: string): (i: nat)
    requires exists j :: 0 <= j < |variations| && variations[j].id == id
    ensures IsFirstVariation(variations, id, i)
  {
    if variations[0].id == id then 0 else 1 + FirstIndex(variations[1..], id)
  }

  /** What `PreparedFlag::new` computes: the first position of each variation id, the first target of each user. */
  ghost function PrepareFlag(text: Library, flag: FeatureFlag): PreparedFlag {
    PreparedFlag(
      map id | id in (set v | v in flag.variations :: v.id) :: FirstIndex(flag.variations, id),
      map key | key in (set target, key | target in flag.targetUsers && key in target.keyIds :: key)
        :: FindTarget(flag.targetUsers, key).value,
      seq(|flag.rules|, i requires 0 <= i < |flag.rules| => PrepareRule(text, flag.rules[i].conditions)))
  }

  method NewPreparedFlag(text: Library, flag: FeatureFlag) returns (prepared: PreparedFlag)
    ensures prepared == PrepareFlag(text, flag)
  {
    var variationIndices := IndexVariations(flag.variations);
    var targetVariations := IndexTargets(flag.targetUsers);
    prepared := PreparedFlag(variationIndices, targetVariations,
      seq(|flag.rules|, i requires 0 <= i < |flag.rules| => PrepareRule(text, flag.rules[i].conditions)));
    PreparedMapsAreUnique(text, flag, prepared);
  }

  method IndexVariations(variations: seq<Variation>) returns (indices: map<string, nat>)
    ensures forall v <- variations :: v.id in indices
    ensures forall id <- indices :: IsFirstVariation(variations, id, indices[id])
  {
    indices := map[];
    for index := 0 to |variations|
      invariant forall j :: 0 <= j < index ==> variations[j].id in indices
      invariant forall id <- indices :: IsFirstVariation(variations, id, indices[id])
    {
      var id := variations[index].id;
      if id !in indices {
        indices := indices[id := index];
      }
    }
  }

  method IndexTargets(targets: seq<TargetUser>) returns (owners: map<string, string>)
    ensures IsTargetIndex(targets, owners)
  {
    owners := map[];
    for i := 0 to |targets|
      invariant IsTargetIndex(targets[..i], owners)
    {
      ghost var before := owners;
      var target := targets[i];
      for j := 0 to |target.keyIds|
        invariant forall key :: key in owners <==> key in before || key in target.keyIds[..j]
        invariant forall key <- owners :: owners[key] == if key in before then before[key] else target.variationId
      {
        var key := target.keyIds[j];
        if key !in owners {
          owners := owners[key := target.variationId];
        }
      }
      assert target.keyIds[..|target.keyIds|] == target.keyIds;
      TargetIndexed(targets, i, before, owners);
    }
    assert targets[..|targets|] == targets;
  }

  /** The index answers for every user as the scan does. */
  ghost predicate IsTargetIndex(targets: seq<TargetUser>, owners: map<string, string>) {
    && (forall key :: key in owners <==> FindTarget(targets, key).Some?)
    && (forall key <- owners :: owners[key] == FindTarget(targets, key).value)
  }

  lemma TargetIndexed(targets: seq<TargetUser>, i: nat, before: map<string, string>, owners: map<string, string>)
    requires i < |targets| && IsTargetIndex(targets[..i], before)
    requires forall key :: key in owners <==> key in before || key in targets[i].keyIds
    requires forall key <- owners :: owners[key] == if key in before then before[key] else targets[i].variationId
    ensures IsTargetIndex(targets[..i + 1], owners)
  {
    assert targets[..i + 1][..i] == targets[..i];
  }

  lemma PreparedMapsAreUnique(text: Library, flag: FeatureFlag, prepared: PreparedFlag)
    requires forall v <- flag.variations :: v.id in prepared.variationIndices
    requires forall id <- prepared.variationIndices ::
               IsFirstVariation(flag.variations, id, prepared.variationIndices[id])
    requires IsTargetIndex(flag.targetUsers, prepared.targetVariations)
    requires prepared.rules == PrepareFlag(text, flag).rules
    ensures prepared == PrepareFlag(text, flag)
  {
    var spec := PrepareFlag(text, flag);
    assert prepared.variationIndices == spec.variationIndices;
    assert prepared.targetVariations == spec.targetVariations;
  }

  /** The index answers both flag lookups as the first-wins scans of the raw flag do, duplicates included. */
  lemma LookupsAgree(text: Library, flag: FeatureFlag, id: string, userKey: string)
    ensures PrepareFlag(text, flag).Variation(flag, id) == FindVariation(flag.variations, id)
    ensures PrepareFlag(text, flag).TargetVariation(userKey) == FindTarget(flag.targetUsers, userKey)
  {
    TargetLookupAgrees(text, flag, userKey);
    VariationLookupAgrees(text, flag, id);
  }

  lemma TargetLookupAgrees(text: Library, flag: FeatureFlag, userKey: string)
    ensures PrepareFlag(text, flag).TargetVariation(userKey) == FindTarget(flag.targetUsers, userKey)
  {
    var found := FindTarget(flag.targetUsers, userKey);
    if found.Some? {
      var i :| 0 <= i < |flag.targetUsers| && IsFirstTarget(flag.targetUsers, userKey, i);
      assert flag.targetUsers[i] in flag.targetUsers;
    }
  }

  lemma VariationLookupAgrees(text: Library, flag: FeatureFlag, id: string)
    ensures PrepareFlag(text, flag).Variation(flag, id) == FindVariation(flag.variations, id)
  {
    if id in PrepareFlag(text, flag).variationIndices {
      var i := FirstIndex(flag.variations, id);
      var j :| 0 <= j < |flag.variations| && IsFirstVariation(flag.variations, id, j)
               && FindVariation(flag.variations, id).value == flag.variations[j];
      assert IsFirstVariation(flag.variations, id, i) && IsFirstVariation(flag.variations, id, j);
    }
  }
}
