/**
 * The result evaluator (src/utils/resultEvaluator.ts). `EvaluateResults` keeps, in catalog
 * order, the result statements whose conditions all hold against the answers. The
 * predicates `Compare`, `MainConditionMet`, `SubConditionsHold`, `ConditionHolds` and
 * `ConditionsHold` give the meaning of a condition; the methods `EvaluateCondition` and
 * `EvaluateConditions` are the source's loops with their early returns, proved to compute it.
 */
module ResultEvaluator {
  import opened Wrappers
  import opened Types
  import Seqs

  /** `answer === value`: same type and same value; an array is never strictly equal to a
      string or a number, and an absent value is strictly equal only to a missing answer. */
  predicate StrictEquals(answer: Option<Value>, value: Option<Operand>)
  {
    match (answer, value)
    case (Some(Str(a)), Some(StrValue(b))) => a == b
    case (Some(Num(a)), Some(NumValue(b))) => a == b
    case (None, None) => true
    case _ => false
  }

  /**
   * The comparison both switches share: `equals`, `greaterThan`, `lessThan`, `includes`.
   * Every other operator is the default branch and gives false.
   */
  predicate Compare(op: Operator, answer: Option<Value>, value: Option<Operand>)
  {
    match op
    case Equals => StrictEquals(answer, value)
    case GreaterThan =>
      answer.Some? && answer.value.Num? && value.Some? && value.value.NumValue?
      && answer.value.n > value.value.number
    case LessThan =>
      answer.Some? && answer.value.Num? && value.Some? && value.value.NumValue?
      && answer.value.n < value.value.number
    case Includes => value.Some? && value.value.ListValue? && ToStr(answer) in value.value.items
    case _ => false
  }

  /** The top-level switch: `and` and `or` are true whatever the answer. */
  predicate MainConditionMet(c: Condition, answers: Answers)
  {
    if c.operator == And || c.operator == Or then true
    else Compare(c.operator, Lookup(answers, c.questionId), c.value)
  }

  /** The sub-condition switch: it has no `and`/`or` case, so those fall to the default. */
  predicate SubConditionMet(sub: SubCondition, answers: Answers)
  {
    Compare(sub.operator, Lookup(answers, sub.questionId), Some(sub.value))
  }

  /** The sub-conditions are AND-ed from the first, stopping at the first that fails. */
  predicate SubConditionsHold(subs: seq<SubCondition>, answers: Answers)
  {
    |subs| == 0 || (SubConditionMet(subs[0], answers) && SubConditionsHold(subs[1..], answers))
  }

  /** A condition holds when its main predicate does and then, if it has a non-empty list
      of sub-conditions, all of those hold too. */
  predicate ConditionHolds(c: Condition, answers: Answers)
  {
    if !MainConditionMet(c, answers) then false
    else match c.subConditions
      case None => true
      case Some(subs) => |subs| == 0 || SubConditionsHold(subs, answers)
  }

  /** The top-level conditions are AND-ed, stopping at the first that fails. */
  predicate ConditionsHold(conditions: seq<Condition>, answers: Answers)
  {
    |conditions| == 0 || (ConditionHolds(conditions[0], answers) && ConditionsHold(conditions[1..], answers))
  }

  /** The test `filter` applies to each result statement. */
  predicate Selected(answers: Answers, statement: ResultStatement)
  {
    ConditionsHold(statement.conditions, answers)
  }

  /** `evaluateResults`: the statements whose conditions hold, in catalog order. */
  function EvaluateResults(answers: Answers, statements: seq<ResultStatement>): (r: seq<ResultStatement>)
    ensures |r| <= |statements|
  {
    Seqs.Filter(s => Selected(answers, s), statements)
  }

  /** `evaluateCondition`: the main switch into a flag, then the loop over the sub-conditions. */
  method EvaluateCondition(c: Condition, answers: Answers) returns (met: bool)
    ensures met == ConditionHolds(c, answers)
    ensures met <==> MainConditionMet(c, answers)
                     && (c.subConditions.Some? ==>
                           forall j :: 0 <= j < |c.subConditions.value| ==> SubConditionMet(c.subConditions.value[j], answers))
  {
    var answer := Lookup(answers, c.questionId);
    var mainConditionMet := false;
    match c.operator {
      case Equals =>
        mainConditionMet := StrictEquals(answer, c.value);
      case GreaterThan =>
        if answer.Some? && answer.value.Num? && c.value.Some? && c.value.value.NumValue? {
          mainConditionMet := answer.value.n > c.value.value.number;
        }
      case LessThan =>
        if answer.Some? && answer.value.Num? && c.value.Some? && c.value.value.NumValue? {
          mainConditionMet := answer.value.n < c.value.value.number;
        }
      case Includes =>
        if c.value.Some? && c.value.value.ListValue? {
          mainConditionMet := ToStr(answer) in c.value.value.items;
        }
      case And =>
        mainConditionMet := true;
      case Or =>
        mainConditionMet := true;
      case Unrecognized(_) =>
        mainConditionMet := false;
    }
    if !mainConditionMet {
      return false;
    }
    if c.subConditions.Some? && |c.subConditions.value| > 0 {
      var subs := c.subConditions.value;
      for i := 0 to |subs|
        invariant forall j :: 0 <= j < i ==> SubConditionMet(subs[j], answers)
      {
        var sub := subs[i];
        var subAnswer := Lookup(answers, sub.questionId);
        var subConditionMet := false;
        match sub.operator {
          case Equals =>
            subConditionMet := StrictEquals(subAnswer, Some(sub.value));
          case GreaterThan =>
            if subAnswer.Some? && subAnswer.value.Num? && sub.value.NumValue? {
              subConditionMet := subAnswer.value.n > sub.value.number;
            }
          case LessThan =>
            if subAnswer.Some? && subAnswer.value.Num? && sub.value.NumValue? {
              subConditionMet := subAnswer.value.n < sub.value.number;
            }
          case Includes =>
            if sub.value.ListValue? {
              subConditionMet := ToStr(subAnswer) in sub.value.items;
            }
          case _ =>
            subConditionMet := false;
        }
        if !subConditionMet {
          SubConditionsHoldIffAll(subs, answers);
          return false;
        }
      }
      SubConditionsHoldIffAll(subs, answers);
    }
    return true;
  }

  /** `evaluateConditions`: the loop over the top-level conditions with its early return. */
  method EvaluateConditions(conditions: seq<Condition>, answers: Answers) returns (met: bool)
    ensures met == ConditionsHold(conditions, answers)
    ensures met <==> forall j :: 0 <= j < |conditions| ==> ConditionHolds(conditions[j], answers)
  {
    ConditionsHoldIffAll(conditions, answers);
    for i := 0 to |conditions|
      invariant forall j :: 0 <= j < i ==> ConditionHolds(conditions[j], answers)
    {
      var ok := EvaluateCondition(conditions[i], answers);
      if !ok {
        return false;
      }
    }
    return true;
  }

  lemma {:induction false} SubConditionsHoldIffAll(subs: seq<SubCondition>, answers: Answers)
    ensures SubConditionsHold(subs, answers) <==> forall j :: 0 <= j < |subs| ==> SubConditionMet(subs[j], answers)
  {
    if |subs| > 0 {
      SubConditionsHoldIffAll(subs[1..], answers);
      assert forall j :: 1 <= j < |subs| ==> subs[j] == subs[1..][j - 1];
    }
  }

  /** A statement is kept iff every top-level condition holds; an empty list holds vacuously. */
  lemma {:induction false} ConditionsHoldIffAll(conditions: seq<Condition>, answers: Answers)
    ensures ConditionsHold(conditions, answers) <==> forall j :: 0 <= j < |conditions| ==> ConditionHolds(conditions[j], answers)
  {
    if |conditions| > 0 {
      ConditionsHoldIffAll(conditions[1..], answers);
      assert forall j :: 1 <= j < |conditions| ==> conditions[j] == conditions[1..][j - 1];
    }
  }

  /**
   * `evaluateResults` keeps exactly the statements whose conditions hold, each as often as
   * the catalog lists it, as a subsequence of the catalog.
   */
  lemma EvaluateResultsExactly(answers: Answers, statements: seq<ResultStatement>)
    ensures forall s :: s in EvaluateResults(answers, statements) <==> s in statements && ConditionsHold(s.conditions, answers)
    ensures forall s :: multiset(EvaluateResults(answers, statements))[s]
                          == if ConditionsHold(s.conditions, answers) then multiset(statements)[s] else 0
    ensures Seqs.IsSubsequence(EvaluateResults(answers, statements), statements)
  {
    var keep := s => Selected(answers, s);
    forall s ensures s in EvaluateResults(answers, statements) <==> s in statements && ConditionsHold(s.conditions, answers) {
      Seqs.FilterMembership(keep, statements, s);
    }
    forall s ensures multiset(EvaluateResults(answers, statements))[s]
                       == if ConditionsHold(s.conditions, answers) then multiset(statements)[s] else 0 {
      Seqs.FilterMultiplicity(keep, statements, s);
    }
    Seqs.FilterIsSubsequence(keep, statements);
  }

  /** An empty catalog yields no results. */
  lemma EvaluateResultsOfEmpty(answers: Answers)
    ensures EvaluateResults(answers, []) == []
  {
  }

  /** Evaluating the results of an evaluation again keeps all of them. */
  lemma EvaluateResultsIdempotent(answers: Answers, statements: seq<ResultStatement>)
    ensures EvaluateResults(answers, EvaluateResults(answers, statements)) == EvaluateResults(answers, statements)
  {
    Seqs.FilterIdempotent(s => Selected(answers, s), statements);
  }

  /** Statements are judged one by one: evaluating two catalogs in a row is evaluating each. */
  lemma EvaluateResultsAppend(answers: Answers, s: seq<ResultStatement>, t: seq<ResultStatement>)
    ensures EvaluateResults(answers, s + t) == EvaluateResults(answers, s) + EvaluateResults(answers, t)
  {
    Seqs.FilterAppend(st => Selected(answers, st), s, t);
  }

  /** A catalog none of whose statements is selected yields no results. */
  lemma EvaluateResultsNoneSelected(answers: Answers, statements: seq<ResultStatement>)
    requires forall i :: 0 <= i < |statements| ==> !Selected(answers, statements[i])
    ensures EvaluateResults(answers, statements) == []
  {
    EvaluateResultsExactly(answers, statements);
  }

  /** When statement `k` is the only one selected, the results are that statement alone. */
  lemma EvaluateResultsOnly(answers: Answers, statements: seq<ResultStatement>, k: nat)
    requires k < |statements| && Selected(answers, statements[k])
    requires forall i :: 0 <= i < |statements| && i != k ==> !Selected(answers, statements[i])
    ensures EvaluateResults(answers, statements) == [statements[k]]
  {
    var before, at, after := statements[..k], [statements[k]], statements[k + 1..];
    assert statements == before + at + after;
    EvaluateResultsAppend(answers, before + at, after);
    EvaluateResultsAppend(answers, before, at);
    forall i | 0 <= i < |before| ensures !Selected(answers, before[i]) {
      assert before[i] == statements[i];
    }
    forall i | 0 <= i < |after| ensures !Selected(answers, after[i]) {
      assert after[i] == statements[k + 1 + i];
    }
    EvaluateResultsNoneSelected(answers, before);
    EvaluateResultsNoneSelected(answers, after);
    assert EvaluateResults(answers, at) == at;
  }

  /** A statement whose first condition's main predicate fails is not selected. */
  lemma FirstConditionDecides(answers: Answers, st: ResultStatement)
    requires |st.conditions| > 0 && !MainConditionMet(st.conditions[0], answers)
    ensures !Selected(answers, st)
  {
  }

  /** `equals` is strict and type-sensitive: a number never equals a string, a string never
      equals a number, nothing equals a list, and a missing answer equals no given value. */
  lemma EqualsIsStrict(answer: Option<Value>, value: Operand)
    ensures Compare(Equals, answer, Some(value)) <==>
              ((value.StrValue? && answer == Some(Str(value.text))) || (value.NumValue? && answer == Some(Num(value.number))))
    ensures answer.None? ==> !Compare(Equals, answer, Some(value))
  {
  }

  /** `greaterThan` and `lessThan` need a number on both sides, and then compare them. */
  lemma OrderingNeedsNumbers(answer: Option<Value>, value: Option<Operand>)
    ensures Compare(GreaterThan, answer, value) <==>
              answer.Some? && answer.value.Num? && value.Some? && value.value.NumValue? && answer.value.n > value.value.number
    ensures Compare(LessThan, answer, value) <==>
              answer.Some? && answer.value.Num? && value.Some? && value.value.NumValue? && answer.value.n < value.value.number
  {
  }

  /** On two numbers exactly one of `greaterThan`, `lessThan` and `equals` holds; a number
      against a string or a list meets none of them. */
  lemma OrderingTrichotomy(n: int, value: Operand)
    ensures value.NumValue? ==>
      (Compare(GreaterThan, Some(Num(n)), Some(value)) <==> !Compare(LessThan, Some(Num(n)), Some(value)) && !Compare(Equals, Some(Num(n)), Some(value)))
    ensures value.NumValue? ==>
      !(Compare(LessThan, Some(Num(n)), Some(value)) && Compare(Equals, Some(Num(n)), Some(value)))
    ensures !value.NumValue? ==>
      !Compare(GreaterThan, Some(Num(n)), Some(value)) && !Compare(LessThan, Some(Num(n)), Some(value))
      && !Compare(Equals, Some(Num(n)), Some(value))
  {
  }

  /** `includes` needs a list, and asks whether the string form of the answer is in it;
      a missing answer is looked up as the string "undefined". */
  lemma IncludesUsesStringForm(answer: Option<Value>, value: Option<Operand>)
    ensures Compare(Includes, answer, value) <==> value.Some? && value.value.ListValue? && ToStr(answer) in value.value.items
    ensures Compare(Includes, None, value) <==> value.Some? && value.value.ListValue? && "undefined" in value.value.items
  {
  }

  /** A numeric answer passes `includes` only when the list holds its decimal form. */
  lemma {:induction false} IncludesNumberNeedsNumeral(n: int, items: seq<string>)
    requires Compare(Includes, Some(Num(n)), Some(ListValue(items)))
    ensures exists i :: 0 <= i < |items| && items[i] == IntToString(n)
  {
    var i :| 0 <= i < |items| && items[i] == ToStr(Some(Num(n)));
  }

  /** `and`/`or` as main operators are true; every other tag is false; inside sub-conditions
      `and`, `or` and unknown tags are false. */
  lemma DegenerateOperators(c: Condition, sub: SubCondition, answers: Answers)
    ensures (c.operator == And || c.operator == Or) ==> MainConditionMet(c, answers)
    ensures c.operator.Unrecognized? ==> !MainConditionMet(c, answers)
    ensures !IsSubOperator(sub.operator) ==> !SubConditionMet(sub, answers)
  {
  }

  /** A failed main predicate fails the condition whatever its sub-conditions are. */
  lemma MainFailureShortCircuits(c: Condition, answers: Answers, subs: Option<seq<SubCondition>>)
    requires !MainConditionMet(c, answers)
    ensures !ConditionHolds(c.(subConditions := subs), answers)
  {
  }

  /** With sub-conditions, a condition holds iff its main predicate and every sub-condition do. */
  lemma ConditionWithSubConditions(c: Condition, answers: Answers)
    requires c.subConditions.Some?
    ensures ConditionHolds(c, answers) <==>
              MainConditionMet(c, answers)
              && forall j :: 0 <= j < |c.subConditions.value| ==> SubConditionMet(c.subConditions.value[j], answers)
  {
    SubConditionsHoldIffAll(c.subConditions.value, answers);
  }

  /** Absent and empty sub-condition lists both reduce a condition to its main predicate. */
  lemma NoSubConditionsIsMain(c: Condition, answers: Answers)
    requires c.subConditions == None || c.subConditions == Some([])
    ensures ConditionHolds(c, answers) == MainConditionMet(c, answers)
  {
  }

  /** Once a sub-condition fails, what follows it does not matter. */
  lemma {:induction false} FirstFailingSubConditionDecides(subs: seq<SubCondition>, k: nat, rest: seq<SubCondition>, answers: Answers)
    requires k < |subs|
    requires !SubConditionMet(subs[k], answers)
    ensures !SubConditionsHold(subs[..k + 1] + rest, answers)
  {
    var s := subs[..k + 1] + rest;
    SubConditionsHoldIffAll(s, answers);
    assert s[k] == subs[k];
  }

  /** A comparison that can hold on a missing answer: only the absent-value `equals`, or an
      `includes` list holding "undefined". Operators `and`/`or` are excluded. */
  predicate MatchesUndefined(c: Condition)
  {
    c.operator == And || c.operator == Or
    || (c.operator == Equals && c.value.None?)
    || (c.operator == Includes && c.value.Some? && c.value.value.ListValue? && "undefined" in c.value.value.items)
  }

  /** With no answers, a condition that compares against a concrete value fails. */
  lemma EmptyAnswersFailConcreteCondition(c: Condition)
    requires !MatchesUndefined(c)
    ensures !ConditionHolds(c, map[])
  {
  }

  /** Some condition of the statement compares against a concrete value. */
  predicate HasConcreteCondition(st: ResultStatement)
  {
    exists j :: 0 <= j < |st.conditions| && !MatchesUndefined(st.conditions[j])
  }

  /** With no answers, a catalog whose statements each have a concrete condition selects
      nothing. */
  lemma {:induction false} EmptyAnswersSelectNothing(statements: seq<ResultStatement>)
    requires forall i :: 0 <= i < |statements| ==> HasConcreteCondition(statements[i])
    ensures EvaluateResults(map[], statements) == []
  {
    if |statements| > 0 {
      var st := statements[0];
      var j :| 0 <= j < |st.conditions| && !MatchesUndefined(st.conditions[j]);
      EmptyAnswersFailConcreteCondition(st.conditions[j]);
      ConditionsHoldIffAll(st.conditions, map[]);
      assert forall i :: 1 <= i < |statements| ==> statements[i] == statements[1..][i - 1];
      EmptyAnswersSelectNothing(statements[1..]);
    }
  }
}
