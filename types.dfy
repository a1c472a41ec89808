/**
 * The questionnaire's data model (src/types/questionnaire.ts), restricted to what the
 * evaluator, the visibility test and the input handlers look at: ids, types, option values,
 * validation bounds, dependencies, operators and operands. Prose (question text, labels,
 * descriptions) is not modelled; a result keeps its title and content.
 *
 * The module also gives `String(x)` for an answer (`ToStr`), which the `includes` operator
 * and the array form of a dependency use.
 */
module Types {
  import opened Wrappers

  /** The closed set of question kinds. */
  datatype QuestionType = SingleChoice | YesNo | Numeric | Text

  /** `validation`: optional bounds; an absent `required` flag reads as false. */
  datatype Validation = Validation(min: Option<int>, max: Option<int>, required: bool)

  /** `conditionalOn.value`: one string, or a list of acceptable strings. Never a number. */
  datatype Required = Exactly(value: string) | OneOf(values: seq<string>)

  /** `conditionalOn`: the question this one depends on, and the value(s) that show it. */
  datatype Dependency = Dependency(questionId: string, value: Required)

  /**
   * A question. `options` holds the option values in display order (an absent list is
   * the empty list, as `options?.map` then renders nothing).
   */
  datatype Question = Question(
    id: string,
    kind: QuestionType,
    options: seq<string>,
    validation: Option<Validation>,
    conditionalOn: Option<Dependency>)

  datatype Section = Section(id: string, questions: seq<Question>)

  /**
   * A condition's operator. The declared union has six tags; `Unrecognized` stands for any
   * other tag that untyped data could carry, which every `switch` sends to its default branch.
   */
  datatype Operator = Equals | GreaterThan | LessThan | Includes | And | Or | Unrecognized(tag: string)

  /** A condition's `value`: a string, a number or a list of strings. */
  datatype Operand = StrValue(text: string) | NumValue(number: int) | ListValue(items: seq<string>)

  /** A sub-condition: its value is mandatory. */
  datatype SubCondition = SubCondition(questionId: string, operator: Operator, value: Operand)

  /** A top-level condition: its value and its sub-conditions are both optional. */
  datatype Condition = Condition(
    questionId: string,
    operator: Operator,
    value: Option<Operand>,
    subConditions: Option<seq<SubCondition>>)

  datatype ResultStatement = ResultStatement(id: string, title: string, content: string, conditions: seq<Condition>)

  /** An answer is a string or a number. */
  datatype Value = Str(s: string) | Num(n: int)

  /** Answers keyed by question id; a key that is absent reads as `undefined`. */
  type Answers = map<string, Value>

  /** The declared operator tags of a sub-condition: `and` and `or` are excluded. */
  predicate IsSubOperator(op: Operator) {
    op.Equals? || op.GreaterThan? || op.LessThan? || op.Includes?
  }

  /** `answers[id]`: `None` is JavaScript's `undefined`. */
  function Lookup(answers: Answers, id: string): (r: Option<Value>)
    ensures r.Some? <==> id in answers
    ensures r.Some? ==> answers[id] == r.value
  {
    if id in answers then Some(answers[id]) else None
  }

  /** The decimal digit for `d`. */
  function DigitChar(d: nat): (c: char)
    requires d < 10
    ensures '0' <= c <= '9'
  {
    "0123456789"[d]
  }

  /** The decimal form of a natural number, without leading zeros. */
  function NatToDecimal(n: nat): (s: string)
    ensures |s| > 0
    ensures forall i :: 0 <= i < |s| ==> '0' <= s[i] <= '9'
    ensures s[0] == '0' ==> n == 0
  {
    if n < 10 then [DigitChar(n)] else NatToDecimal(n / 10) + [DigitChar(n % 10)]
  }

  /** Reads a string of decimal digits back as a number: the inverse of `NatToDecimal`. */
  function DecimalToNat(s: string): nat
    requires forall i :: 0 <= i < |s| ==> '0' <= s[i] <= '9'
  {
    if |s| == 0 then 0 else DecimalToNat(s[..|s| - 1]) * 10 + (s[|s| - 1] as int - '0' as int)
  }

  /** `String(n)` for an integer: a leading minus sign for negative numbers. */
  function IntToString(n: int): (s: string)
  {
    if n < 0 then "-" + NatToDecimal(-n) else NatToDecimal(n)
  }

  /** `String(answer)`: a string is itself, a number its decimal form, `undefined` the word. */
  function ToStr(answer: Option<Value>): string
  {
    match answer
    case None => "undefined"
    case Some(Str(s)) => s
    case Some(Num(n)) => IntToString(n)
  }

  lemma {:induction false} NatToDecimalRoundTrip(n: nat)
    ensures DecimalToNat(NatToDecimal(n)) == n
  {
    if n >= 10 {
      var s := NatToDecimal(n);
      var front := NatToDecimal(n / 10);
      assert s[..|s| - 1] == front;
      NatToDecimalRoundTrip(n / 10);
      assert "0123456789"[n % 10] as int - '0' as int == n % 10;
    } else {
      assert "0123456789"[n] as int - '0' as int == n;
    }
  }

  /** Distinct numbers have distinct string forms. */
  lemma IntToStringInjective(m: int, n: int)
    requires IntToString(m) == IntToString(n)
    ensures m == n
  {
    if m < 0 && n < 0 {
      NegativeInjective(-m, -n);
    } else if m >= 0 && n >= 0 {
      NatToDecimalInjective(m, n);
    }
  }

  lemma NatToDecimalInjective(a: nat, b: nat)
    requires NatToDecimal(a) == NatToDecimal(b)
    ensures a == b
  {
    NatToDecimalRoundTrip(a);
    NatToDecimalRoundTrip(b);
  }

  lemma NegativeInjective(a: nat, b: nat)
    requires "-" + NatToDecimal(a) == "-" + NatToDecimal(b)
    ensures a == b
  {
    var x, y := NatToDecimal(a), NatToDecimal(b);
    assert x == ("-" + x)[1..];
    assert y == ("-" + y)[1..];
    NatToDecimalInjective(a, b);
  }

  /** The string form of a number is a minus sign and digits only, so it is never a word. */
  lemma IntToStringIsNumeral(n: int)
    ensures var s := IntToString(n);
      |s| > 0 && forall i :: 0 <= i < |s| ==> s[i] == '-' || '0' <= s[i] <= '9'
  {
  }

  /** `String(answer)` tells numbers apart and never confuses one with `undefined`. */
  lemma ToStrOfNumber(n: int)
    ensures ToStr(Some(Num(n))) != "undefined"
  {
    assert "undefined"[0] == 'u';
    var s := IntToString(n);
    assert s[0] == '-' || '0' <= s[0] <= '9';
  }
}
