/** The wire data of src/model.rs, and the text facilities the SDK takes from other crates. */
module Model {
  import opened Wrappers

  datatype FbUser = FbUser(key: string, name: string, custom: map<string, string>) {
    function ValueOf(property: string): string {
      if property == "keyId" then key
      else if property == "name" then name
      else if property in custom then custom[property]
      else ""
    }
  }

  datatype DataSyncEnvelope = DataSyncEnvelope(messageType: string, data: DataSet)

  datatype DataSet = DataSet(eventType: string, featureFlags: seq<FeatureFlag>, segments: seq<Segment>)

  datatype FeatureFlag = FeatureFlag(
    id: string,
    key: string,
    updatedAt: int,
    variationType: string,
    variations: seq<Variation>,
    targetUsers: seq<TargetUser>,
    rules: seq<TargetRule>,
    isEnabled: bool,
    insightsEnabled: bool,
    disabledVariationId: string,
    fallthrough: Fallthrough,
    isArchived: bool)

  datatype Variation = Variation(id: string, value: string)

  datatype TargetUser = TargetUser(keyIds: seq<string>, variationId: string)

  datatype TargetRule = TargetRule(
    name: string,
    dispatchKey: Option<string>,
    conditions: seq<Condition>,
    variations: seq<RolloutVariation>)

  datatype Fallthrough = Fallthrough(dispatchKey: Option<string>, variations: seq<RolloutVariation>)

  datatype RolloutVariation = RolloutVariation(id: string, rollout: seq<real>)

  datatype Condition = Condition(property: string, op: string, value: string)

  datatype Segment = Segment(
    id: string,
    updatedAt: int,
    included: seq<string>,
    excluded: seq<string>,
    rules: seq<MatchRule>,
    isArchived: bool)

  datatype MatchRule = MatchRule(conditions: seq<Condition>)

  type Int32 = x: int | -0x8000_0000 <= x < 0x8000_0000

  /** A parsed f64; NaN and the infinities are not told apart, since every use discards them. */
  datatype Float = Finite(number: real) | NonFinite

  datatype Regex = Regex(program: int)

  /** Deterministic facilities of other crates, about which nothing else is known. Every result of this
      project holds for all of them. `hash` is the first four MD5 bytes as a little-endian i32. */
  datatype Library = Library(
    parseFloat: string -> Option<Float>,
    compileRegex: string -> Option<Regex>,
    regexMatches: (Regex, string) -> bool,
    parseStrings: string -> Option<seq<string>>,
    parseOptionalStrings: string -> Option<Option<seq<string>>>,
    hash: string -> Int32,
    isWhitespace: char -> bool)

  /** `FeatureFlag::variation`: the first variation with the id. */
  function FindVariation(variations: seq<Variation>, id: string): (r: Option<Variation>)
    ensures r.Some? <==> exists i :: 0 <= i < |variations| && variations[i].id == id
    ensures r.Some? ==> exists i :: 0 <= i < |variations| && IsFirstVariation(variations, id, i)
                                    && r.value == variations[i]
  {
    if variations == [] then None
    else if variations[0].id == id then
      assert IsFirstVariation(variations, id, 0);
      Some(variations[0])
    else
      var r := FindVariation(variations[1..], id);
      assert r.Some? ==> exists i :: 0 <= i < |variations| && IsFirstVariation(variations, id, i)
                                     && r.value == variations[i] by {
        if r.Some? {
          var i :| 0 <= i < |variations| - 1 && IsFirstVariation(variations[1..], id, i)
              && r.value == variations[1..][i];
          assert IsFirstVariation(variations, id, i + 1);
        }
      }
      r
  }

  ghost predicate IsFirstVariation(variations: seq<Variation>, id: string, i: nat) {
    && i < |variations|
    && variations[i].id == id
    && forall j :: 0 <= j < i ==> variations[j].id != id
  }
}
