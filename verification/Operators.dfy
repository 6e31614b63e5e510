/** Condition operators, after src/evaluation/operators.rs. */
module Operators {
  import opened Wrappers
  import opened Model
  import opened Meaning
  import opened Prepared

  datatype Comparison = Less | AtMost | Greater | AtLeast {
    predicate Holds(left: real, right: real) {
      match this
      case Less => left < right
      case AtMost => left <= right
      case Greater => left > right
      case AtLeast => left >= right
    }
  }

  function ConditionMatches(text: Library, condition: Condition, prepared: Option<PreparedCondition>, user: FbUser)
    : bool
  {
    OperatorMatches(text, user.ValueOf(condition.property), condition.op, condition.value, prepared)
  }

  function OperatorMatches(text: Library, userValue: string, op: string, ruleValue: string,
                           prepared: Option<PreparedCondition>): bool
  {
    match op
    case "LessThan" => NumericCompare(text, userValue, ruleValue, prepared, Less)
    case "LessEqualThan" => NumericCompare(text, userValue, ruleValue, prepared, AtMost)
    case "BiggerThan" => NumericCompare(text, userValue, ruleValue, prepared, Greater)
    case "BiggerEqualThan" => NumericCompare(text, userValue, ruleValue, prepared, AtLeast)
    case "Equal" => userValue == ruleValue
    case "NotEqual" => userValue != ruleValue
    case "Contains" => Contains(userValue, ruleValue)
    case "NotContain" => !Contains(userValue, ruleValue)
    case "StartsWith" => ruleValue <= userValue
    case "EndsWith" => |ruleValue| <= |userValue| && userValue[|userValue| - |ruleValue|..] == ruleValue
    case "MatchRegex" => RegexMatches(text, userValue, ruleValue, prepared, false)
    case "NotMatchRegex" => RegexMatches(text, userValue, ruleValue, prepared, true)
    case "IsOneOf" => StringSetMatches(text, userValue, ruleValue, prepared, false)
    case "NotOneOf" => StringSetMatches(text, userValue, ruleValue, prepared, true)
    case "IsTrue" => AsciiLower(userValue) == "true"
    case "IsFalse" => AsciiLower(userValue) == "false"
    case _ => false
  }

  predicate Contains(value: string, part: string) {
    exists i :: 0 <= i <= |value| && part <= value[i..]
  }

  function AsciiLower(value: string): string {
    seq(|value|, i requires 0 <= i < |value| => if 'A' <= value[i] <= 'Z' then value[i] - 'A' + 'a' else value[i])
  }

  function NumericCompare(text: Library, userValue: string, ruleValue: string,
                          prepared: Option<PreparedCondition>, compare: Comparison): bool
  {
    match prepared
    case Some(Numeric(Some(ruleNumber))) =>
      var userNumber := FiniteNumber(text, userValue);
      userNumber.Some? && compare.Holds(userNumber.value, ruleNumber)
    case Some(Numeric(None)) => false
    case _ =>
      match (text.parseFloat(userValue), text.parseFloat(ruleValue))
      case (Some(Finite(userNumber)), Some(Finite(ruleNumber))) => compare.Holds(userNumber, ruleNumber)
      case _ => false
  }

  function RegexMatches(text: Library, userValue: string, ruleValue: string,
                        prepared: Option<PreparedCondition>, negate: bool): bool
  {
    match prepared
    case Some(Pattern(Some(regex))) => text.regexMatches(regex, userValue) != negate
    case Some(Pattern(None)) => false
    case _ =>
      match text.compileRegex(ruleValue)
      case Some(regex) => text.regexMatches(regex, userValue) != negate
      case None => false
  }

  function StringSetMatches(text: Library, userValue: string, ruleValue: string,
                            prepared: Option<PreparedCondition>, negate: bool): bool
  {
    match prepared
    case Some(StringSet(Some(values))) => (userValue in values) != negate
    case Some(StringSet(None)) => false
    case _ =>
      match text.parseStrings(ruleValue)
      case Some(values) => (userValue in values) != negate
      case None => false
  }

  /** A condition's own prepared operand never changes its verdict. A condition named after a segment has a
      prepared operand of another kind, and falls through to its raw text. */
  lemma PreparedConditionAgrees(text: Library, condition: Condition, user: FbUser)
    ensures ConditionMatches(text, condition, Some(PrepareCondition(text, condition)), user)
         == ConditionMatches(text, condition, None, user)
  {
  }

  // ---------------------------------------------------------------------------------------------------
  // What the operators mean

  lemma InsideIsContained(value: string, part: string)
    ensures Contains(value, part) <==> IsInside(part, value)
  {
    if i :| 0 <= i <= |value| && part <= value[i..] {
      assert value == value[..i] + part + value[i + |part|..];
    }
    if IsInside(part, value) {
      var before, after :| value == before + part + after;
      assert value[|before|..] == part + after;
      assert part <= value[|before|..];
    }
  }

  lemma AffixesMean(value: string, part: string)
    ensures part <= value <==> Opens(part, value)
    ensures (|part| <= |value| && value[|value| - |part|..] == part) <==> Closes(part, value)
  {
    if part <= value {
      assert value == part + value[|part|..];
    }
    if |part| <= |value| && value[|value| - |part|..] == part {
      assert value == value[..|value| - |part|] + part;
    }
  }

  lemma SpellingMeans(value: string)
    ensures AsciiLower(value) == "true" <==> SpellsIgnoringCase(value, "true", "TRUE")
    ensures AsciiLower(value) == "false" <==> SpellsIgnoringCase(value, "false", "FALSE")
  {
    LoweredSpells(value, "true", "TRUE");
    LoweredSpells(value, "false", "FALSE");
  }

  lemma LoweredSpells(value: string, lower: string, upper: string)
    requires |lower| == |upper|
    requires forall i :: 0 <= i < |lower| ==> 'a' <= lower[i] <= 'z' && upper[i] == lower[i] - 'a' + 'A'
    ensures AsciiLower(value) == lower <==> SpellsIgnoringCase(value, lower, upper)
  {
    var lowered := AsciiLower(value);
    if |value| == |lower| {
      forall i | 0 <= i < |value| ensures lowered[i] == lower[i] <==> value[i] == lower[i] || value[i] == upper[i] {
      }
      if SpellsIgnoringCase(value, lower, upper) {
        assert lowered == lower;
      }
      if lowered == lower {
        assert forall i :: 0 <= i < |value| ==> lowered[i] == lower[i];
      }
    }
  }

  lemma ComparisonsMean(text: Library, userValue: string, ruleValue: string)
    ensures NumericCompare(text, userValue, ruleValue, None, Less) <==>
            Compares(text, userValue, ruleValue, (left, right) => left < right)
    ensures NumericCompare(text, userValue, ruleValue, None, AtMost) <==>
            Compares(text, userValue, ruleValue, (left, right) => left <= right)
    ensures NumericCompare(text, userValue, ruleValue, None, Greater) <==>
            Compares(text, userValue, ruleValue, (left, right) => left > right)
    ensures NumericCompare(text, userValue, ruleValue, None, AtLeast) <==>
            Compares(text, userValue, ruleValue, (left, right) => left >= right)
  {
  }

  lemma SearchesMean(text: Library, userValue: string, ruleValue: string, negate: bool)
    ensures RegexMatches(text, userValue, ruleValue, None, negate) <==> Recognizes(text, ruleValue, userValue, !negate)
    ensures StringSetMatches(text, userValue, ruleValue, None, negate) <==> Lists(text, ruleValue, userValue, !negate)
  {
  }

  lemma OperatorMeaning(text: Library, op: string, userValue: string, ruleValue: string)
    ensures OperatorMatches(text, userValue, op, ruleValue, None) <==> Means(text, op, userValue, ruleValue)
  {
    match op {
      case "LessThan" | "LessEqualThan" | "BiggerThan" | "BiggerEqualThan" =>
        ComparisonsMean(text, userValue, ruleValue);
      case "Contains" | "NotContain" => InsideIsContained(userValue, ruleValue);
      case "StartsWith" | "EndsWith" => AffixesMean(userValue, ruleValue);
      case "MatchRegex" | "IsOneOf" => SearchesMean(text, userValue, ruleValue, false);
      case "NotMatchRegex" | "NotOneOf" => SearchesMean(text, userValue, ruleValue, true);
      case "IsTrue" | "IsFalse" => SpellingMeans(userValue);
      case _ =>
    }
  }

  // ---------------------------------------------------------------------------------------------------
  // Negating operators

  predicate OperandUsable(text: Library, op: string, userValue: string, ruleValue: string) {
    match op
    case "LessThan" => FiniteNumber(text, userValue).Some? && FiniteNumber(text, ruleValue).Some?
    case "BiggerThan" => FiniteNumber(text, userValue).Some? && FiniteNumber(text, ruleValue).Some?
    case "MatchRegex" => text.compileRegex(ruleValue).Some?
    case "IsOneOf" => text.parseStrings(ruleValue).Some?
    case _ => true
  }

  const OPPOSITES := map[
    "LessThan" := "BiggerEqualThan", "BiggerThan" := "LessEqualThan", "Equal" := "NotEqual",
    "Contains" := "NotContain", "MatchRegex" := "NotMatchRegex", "IsOneOf" := "NotOneOf"]

  /** Opposite operators disagree exactly when the operands can be read; otherwise neither matches, so that a
      negating condition cannot turn bad data into a match. */
  lemma OppositesDisagreeOnGoodDataOnly(text: Library, op: string, userValue: string, ruleValue: string)
    requires op in OPPOSITES
    ensures var holds := OperatorMatches(text, userValue, op, ruleValue, None);
            var opposite := OperatorMatches(text, userValue, OPPOSITES[op], ruleValue, None);
            if OperandUsable(text, op, userValue, ruleValue) then holds != opposite else !holds && !opposite
  {
    assert op in {"LessThan", "BiggerThan", "Equal", "Contains", "MatchRegex", "IsOneOf"};
  }
}
