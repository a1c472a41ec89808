/**
 * One question on screen (src/components/questionnaire/QuestionRenderer.tsx): the guard that
 * renders nothing for a hidden question, and the value each kind of input hands to
 * `onAnswer`. Parsing of the numeric field (`Number(value)`) is a parameter: `Some(n)` for
 * a number, `None` for `NaN`.
 */
module QuestionRenderer {
  import opened Wrappers
  import opened Types

  /** The guard at the top of the component: true when it returns `null`. */
  predicate Hidden(q: Question, allAnswers: Answers)
  {
    if q.conditionalOn.None? then false
    else
      var dependentAnswer := Lookup(allAnswers, q.conditionalOn.value.questionId);
      match q.conditionalOn.value.value
      case OneOf(values) => ToStr(dependentAnswer) !in values
      case Exactly(v) => dependentAnswer != Some(Str(v))
  }

  /** What the user does with the input widget of a question. */
  datatype Input =
    | Pick(index: nat)                          // chooses the radio item at this position
    | Type(text: string)                        // types into a text field
    | EnterNumber(raw: string, parsed: Option<int>) // types into a numeric field

  /** The radio items a question offers: "yes" and "no", or its option values. */
  function RadioItems(q: Question): (items: seq<string>)
    ensures q.kind == YesNo ==> items == ["yes", "no"]
    ensures q.kind == SingleChoice ==> items == q.options
    ensures q.kind == Numeric || q.kind == Text ==> items == []
  {
    match q.kind
    case YesNo => ["yes", "no"]
    case SingleChoice => q.options
    case _ => []
  }

  /**
   * `handleNumericChange`: an empty field records "", an unparsable one records nothing,
   * a number above `max` records `max`, else one below `min` records `min`, else the number.
   */
  function HandleNumericChange(raw: string, parsed: Option<int>, validation: Option<Validation>): (r: Option<Value>)
    ensures r.Some? && r.value.Str? ==> raw == "" && r.value.s == ""
    ensures raw != "" && parsed.Some? ==> r.Some? && r.value.Num?
    ensures r.Some? && r.value.Num? ==>
              && parsed.Some?
              && (r.value.n == parsed.value
                  || (validation.Some? && validation.value.max == Some(r.value.n))
                  || (validation.Some? && validation.value.min == Some(r.value.n)))
    ensures raw != "" && parsed.Some? && InBounds(parsed.value, validation) ==> r == Some(Num(parsed.value))
  {
    if raw == "" then Some(Str(""))
    else if parsed.None? then None
    else
      var n := parsed.value;
      if validation.Some? && validation.value.max.Some? && n > validation.value.max.value then
        Some(Num(validation.value.max.value))
      else if validation.Some? && validation.value.min.Some? && n < validation.value.min.value then
        Some(Num(validation.value.min.value))
      else
        Some(Num(n))
  }

  /** `n` breaks neither bound that is present. */
  predicate InBounds(n: int, validation: Option<Validation>)
  {
    validation.None?
    || ((validation.value.min.None? || validation.value.min.value <= n)
        && (validation.value.max.None? || n <= validation.value.max.value))
  }

  /**
   * The value `onAnswer` receives when the user acts on question `q`, or `None` when nothing
   * is recorded: the question is hidden, the action does not fit its widget, or the
   * numeric field does not parse.
   */
  function RecordedValue(q: Question, allAnswers: Answers, input: Input): (r: Option<Value>)
    ensures Hidden(q, allAnswers) ==> r.None?
  {
    if Hidden(q, allAnswers) then None
    else match (q.kind, input)
      case (YesNo, Pick(i)) => if i < |RadioItems(q)| then Some(Str(RadioItems(q)[i])) else None
      case (SingleChoice, Pick(i)) => if i < |RadioItems(q)| then Some(Str(RadioItems(q)[i])) else None
      case (Numeric, EnterNumber(raw, parsed)) => HandleNumericChange(raw, parsed, q.validation)
      case (Text, Type(text)) => Some(Str(text))
      case _ => None
  }

  /** An empty numeric field records the empty string. */
  lemma NumericEmptyRecordsEmptyString(parsed: Option<int>, validation: Option<Validation>)
    ensures HandleNumericChange("", parsed, validation) == Some(Str(""))
  {
  }

  /** A numeric field that does not parse records nothing. */
  lemma NumericNaNRecordsNothing(raw: string, validation: Option<Validation>)
    requires raw != ""
    ensures HandleNumericChange(raw, None, validation) == None
  {
  }

  /** The maximum is tested first: a number above `max` records `max` even when `max` lies
      below `min`; a number in range is recorded as it is. */
  lemma NumericClampOrder(raw: string, n: int, lo: int, hi: int, required: bool)
    requires raw != ""
    ensures n > hi ==> HandleNumericChange(raw, Some(n), Some(Validation(Some(lo), Some(hi), required))) == Some(Num(hi))
    ensures n <= hi && n < lo ==> HandleNumericChange(raw, Some(n), Some(Validation(Some(lo), Some(hi), required))) == Some(Num(lo))
    ensures lo <= n <= hi ==> HandleNumericChange(raw, Some(n), Some(Validation(Some(lo), Some(hi), required))) == Some(Num(n))
  {
  }

  /** With only `min`, a number below it records `min` and any other number is recorded as
      typed. */
  lemma NumericMinOnly(raw: string, n: int, lo: int, required: bool)
    requires raw != ""
    ensures HandleNumericChange(raw, Some(n), Some(Validation(Some(lo), None, required)))
              == Some(Num(if n < lo then lo else n))
  {
  }

  /** With only `max`, a number above it records `max` and any other number is recorded as
      typed. */
  lemma NumericMaxOnly(raw: string, n: int, hi: int, required: bool)
    requires raw != ""
    ensures HandleNumericChange(raw, Some(n), Some(Validation(None, Some(hi), required)))
              == Some(Num(if n > hi then hi else n))
  {
  }

  /** With `min <= max`, every recorded number lies in `[min, max]`; with only `min`, it is at
      least `min`; with only `max`, at most `max`; without validation, the parsed number is recorded. */
  lemma NumericWithinBounds(raw: string, parsed: Option<int>, validation: Option<Validation>)
    ensures var r := HandleNumericChange(raw, parsed, validation);
      && (validation.Some? && validation.value.min.Some? && validation.value.max.Some?
          && validation.value.min.value <= validation.value.max.value && r.Some? && r.value.Num?
          ==> validation.value.min.value <= r.value.n <= validation.value.max.value)
      && (validation.Some? && validation.value.min.Some? && validation.value.max.None? && r.Some? && r.value.Num?
          ==> validation.value.min.value <= r.value.n)
      && (validation.Some? && validation.value.min.None? && validation.value.max.Some? && r.Some? && r.value.Num?
          ==> r.value.n <= validation.value.max.value)
      && (validation.None? && raw != "" && parsed.Some? ==> r == Some(Num(parsed.value)))
  {
  }

  /** A yes-no question records only "yes" or "no". */
  lemma YesNoRecordsYesOrNo(q: Question, allAnswers: Answers, input: Input)
    requires q.kind == YesNo
    ensures var r := RecordedValue(q, allAnswers, input);
      r.Some? ==> r.value == Str("yes") || r.value == Str("no")
  {
  }

  /** A single-choice question records one of its option values. */
  lemma SingleChoiceRecordsOption(q: Question, allAnswers: Answers, input: Input)
    requires q.kind == SingleChoice
    ensures var r := RecordedValue(q, allAnswers, input);
      r.Some? ==> r.value.Str? && r.value.s in q.options
  {
  }

  /** A visible text question records exactly what was typed. */
  lemma TextRecordsRawString(q: Question, allAnswers: Answers, text: string)
    requires q.kind == Text && !Hidden(q, allAnswers)
    ensures RecordedValue(q, allAnswers, Type(text)) == Some(Str(text))
  {
  }
}
