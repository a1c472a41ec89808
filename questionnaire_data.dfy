/**
 * The static catalog (src/data/questionnaireData.ts): twelve sections of questions and nine
 * result statements. Only what the logic reads is kept: ids, question kinds, option values,
 * validation bounds, dependencies and conditions; titles and prose content are left empty,
 * and the catalog's well-formedness and the selection scenarios are proved about it.
 */
module QuestionnaireData {
  import opened Wrappers
  import opened Types
  import opened ResultEvaluator
  import Seqs

  /** A yes-no question that is always shown. */
  function YesNoQuestion(id: string): Question
  {
    Question(id, YesNo, [], None, None)
  }

  /** A question shown when question `on` was answered "yes". */
  function IfYes(id: string, kind: QuestionType, validation: Option<Validation>, on: string): Question
  {
    Question(id, kind, [], validation, Some(Dependency(on, Exactly("yes"))))
  }

  /** Validation with a lower bound and, optionally, an upper bound. */
  function Bounds(min: int, max: Option<int>, required: bool): Option<Validation>
  {
    Some(Validation(Some(min), max, required))
  }

  function Section1(): Section
  {
    Section("section-1", [
      Question("q1-structure", SingleChoice, ["sole-proprietor", "llc", "s-corp", "c-corp", "partnership"], None, None),
      Question("q1-years", Numeric, [], Bounds(0, None, true), None),
      Question("q1-revenue", Numeric, [], Bounds(0, None, true), None),
      YesNoQuestion("q1-accountant")
    ])
  }

  function Section2(): Section
  {
    Section("section-2", [
      YesNoQuestion("q2-own-home"),
      IfYes("q2-business-meetings", YesNo, None, "q2-own-home"),
      IfYes("q2-days-per-year", Numeric, None, "q2-business-meetings"),
      IfYes("q2-documentation", YesNo, None, "q2-business-meetings")
    ])
  }

  function Section3(): Section
  {
    Section("section-3", [
      YesNoQuestion("q3-has-children"),
      IfYes("q3-capable-tasks", YesNo, None, "q3-has-children"),
      IfYes("q3-paid-through-payroll", YesNo, None, "q3-capable-tasks"),
      IfYes("q3-explore-payroll-strategy", YesNo, None, "q3-capable-tasks")
    ])
  }

  function Section4(): Section
  {
    Section("section-4", [
      YesNoQuestion("q4-own-lease-vehicle"),
      IfYes("q4-business-percentage", Numeric, Bounds(0, Some(100), false), "q4-own-lease-vehicle"),
      IfYes("q4-purchased-considering", YesNo, None, "q4-own-lease-vehicle"),
      IfYes("q4-vehicle-details", QuestionType.Text, None, "q4-purchased-considering"),
      IfYes("q4-over-6000lbs", YesNo, None, "q4-own-lease-vehicle"),
      IfYes("q4-review-deductions", YesNo, None, "q4-own-lease-vehicle")
    ])
  }

  function Section5(): Section
  {
    Section("section-5", [
      YesNoQuestion("q5-carry-inventory"),
      IfYes("q5-front-loading", YesNo, None, "q5-carry-inventory"),
      IfYes("q5-demand-shifts", YesNo, None, "q5-carry-inventory")
    ])
  }

  function Section6(): Section
  {
    Section("section-6", [
      YesNoQuestion("q6-new-business"),
      IfYes("q6-incurred-costs", YesNo, None, "q6-new-business"),
      IfYes("q6-guidance", YesNo, None, "q6-incurred-costs")
    ])
  }

  function Section7(): Section
  {
    Section("section-7", [
      YesNoQuestion("q7-marketing-spend"),
      IfYes("q7-front-load", YesNo, None, "q7-marketing-spend"),
      IfYes("q7-track-expenses", YesNo, None, "q7-marketing-spend")
    ])
  }

  function Section8(): Section
  {
    Section("section-8", [
      YesNoQuestion("q8-home-office"),
      IfYes("q8-square-footage", Numeric, Bounds(0, None, false), "q8-home-office"),
      IfYes("q8-rent-or-mortgage", YesNo, None, "q8-home-office"),
      IfYes("q8-review-deductions", YesNo, None, "q8-home-office")
    ])
  }

  function Section9(): Section
  {
    Section("section-9", [
      YesNoQuestion("q9-professional-services"),
      IfYes("q9-evaluate-deductions", YesNo, None, "q9-professional-services")
    ])
  }

  function Section10(): Section
  {
    Section("section-10", [
      YesNoQuestion("q10-business-travel"),
      IfYes("q10-track-expenses", YesNo, None, "q10-business-travel"),
      YesNoQuestion("q10-business-meals"),
      IfYes("q10-document-meals", YesNo, None, "q10-business-meals")
    ])
  }

  function Section11(): Section
  {
    Section("section-11", [
      YesNoQuestion("q11-purchased-equipment"),
      IfYes("q11-over-2500", YesNo, None, "q11-purchased-equipment"),
      IfYes("q11-section-179", YesNo, None, "q11-over-2500")
    ])
  }

  function Section12(): Section
  {
    Section("section-12", [
      YesNoQuestion("q12-retirement-plans"),
      IfYes("q12-maximize-savings", YesNo, None, "q12-retirement-plans"),
      YesNoQuestion("q12-solo-401k")
    ])
  }

  /** `questionnaireData.sections`, in order. */
  function Sections(): seq<Section>
  {
    [Section1(), Section2(), Section3(), Section4(), Section5(), Section6(),
     Section7(), Section8(), Section9(), Section10(), Section11(), Section12()]
  }

  /** `questionId equals "yes"`, as a sub-condition. */
  function SubIsYes(id: string): SubCondition
  {
    SubCondition(id, Equals, StrValue("yes"))
  }

  /** `questionId equals "yes"`, with the given sub-conditions. */
  function IsYes(id: string, subs: Option<seq<SubCondition>>): Condition
  {
    Condition(id, Equals, Some(StrValue("yes")), subs)
  }

  function ScorpRule(): ResultStatement
  {
    ResultStatement("result-scorp-55k", "", "", [
      Condition("q1-structure", Includes, Some(ListValue(["llc", "partnership"])), Some([
        SubIsYes("q1-accountant"),
        SubCondition("q1-revenue", GreaterThan, NumValue(55000))
      ]))
    ])
  }

  function AugustaRule(): ResultStatement
  {
    ResultStatement("result-augusta-rule", "", "", [
      IsYes("q2-own-home", Some([SubIsYes("q2-business-meetings"), SubIsYes("q2-documentation")]))
    ])
  }

  function PayingKidsRule(): ResultStatement
  {
    ResultStatement("result-paying-kids", "", "", [
      IsYes("q3-has-children", Some([SubIsYes("q3-capable-tasks"), SubIsYes("q3-explore-payroll-strategy")]))
    ])
  }

  function VehicleRule(): ResultStatement
  {
    ResultStatement("result-vehicle-deductions", "", "", [
      IsYes("q4-own-lease-vehicle", None)
    ])
  }

  function StartupRule(): ResultStatement
  {
    ResultStatement("result-startup-costs", "", "", [
      IsYes("q6-new-business", Some([SubIsYes("q6-incurred-costs"), SubIsYes("q6-guidance")]))
    ])
  }

  function HomeOfficeRule(): ResultStatement
  {
    ResultStatement("result-home-office", "", "", [
      IsYes("q8-home-office", Some([SubIsYes("q8-rent-or-mortgage")]))
    ])
  }

  function ProfessionalServicesRule(): ResultStatement
  {
    ResultStatement("result-professional-services", "", "", [
      IsYes("q9-professional-services", None)
    ])
  }

  function TravelMealsRule(): ResultStatement
  {
    ResultStatement("result-travel-meals", "", "", [
      IsYes("q10-business-travel", None)
    ])
  }

  function Solo401kRule(): ResultStatement
  {
    ResultStatement("result-solo-401k", "", "", [
      IsYes("q12-retirement-plans", Some([SubIsYes("q12-solo-401k")]))
    ])
  }

  /** `questionnaireData.results`, in order. */
  function Results(): seq<ResultStatement>
  {
    [ScorpRule(), AugustaRule(), PayingKidsRule(), VehicleRule(), StartupRule(),
     HomeOfficeRule(), ProfessionalServicesRule(), TravelMealsRule(), Solo401kRule()]
  }

  lemma SectionCount()
    ensures |Sections()| == 12
  {
  }

  // ----- Well-formedness -----

  /** The ids of a list of questions, in order. */
  function IdsOf(qs: seq<Question>): (ids: seq<string>)
    ensures |ids| == |qs| && forall i :: 0 <= i < |qs| ==> ids[i] == qs[i].id
  {
    if |qs| == 0 then [] else [qs[0].id] + IdsOf(qs[1..])
  }

  /** Each dependency names a question that comes earlier in the same list. */
  predicate DependsOnEarlier(qs: seq<Question>)
  {
    forall i :: 0 <= i < |qs| && qs[i].conditionalOn.Some? ==>
      qs[i].conditionalOn.value.questionId in IdsOf(qs[..i])
  }

  predicate NoDuplicates(ids: seq<string>)
  {
    forall i, j :: 0 <= i < j < |ids| ==> ids[i] != ids[j]
  }

  /** Every dependency of the catalog points to an earlier question of the same section, so
      visibility has no cycles. */
  lemma DependenciesPointBackward()
    ensures forall k :: 0 <= k < |Sections()| ==> DependsOnEarlier(Sections()[k].questions)
  {
    NoDependencies(Section1());
    Backward2(); Backward3(); Backward4(); Backward5(); Backward6(); Backward7();
    Backward8(); Backward9(); Backward10(); Backward11(); Backward12();
  }

  lemma NoDependencies(sec: Section)
    requires forall i :: 0 <= i < |sec.questions| ==> sec.questions[i].conditionalOn.None?
    ensures DependsOnEarlier(sec.questions)
  {
  }

  lemma Backward2() ensures DependsOnEarlier(Section2().questions)
  {
    var qs := Section2().questions;
    forall i | 0 <= i < |qs| && qs[i].conditionalOn.Some? ensures qs[i].conditionalOn.value.questionId in IdsOf(qs[..i]) {
      var ids := IdsOf(qs[..i]);
      assert ids[0] == qs[0].id;
      if i >= 2 { assert ids[1] == qs[1].id; }
    }
  }

  lemma Backward3() ensures DependsOnEarlier(Section3().questions)
  {
    var qs := Section3().questions;
    forall i | 0 <= i < |qs| && qs[i].conditionalOn.Some? ensures qs[i].conditionalOn.value.questionId in IdsOf(qs[..i]) {
      var ids := IdsOf(qs[..i]);
      assert ids[0] == qs[0].id;
      if i >= 2 { assert ids[1] == qs[1].id; }
    }
  }

  lemma Backward4() ensures DependsOnEarlier(Section4().questions)
  {
    var qs := Section4().questions;
    forall i | 0 <= i < |qs| && qs[i].conditionalOn.Some? ensures qs[i].conditionalOn.value.questionId in IdsOf(qs[..i]) {
      var ids := IdsOf(qs[..i]);
      assert ids[0] == qs[0].id;
      if i >= 3 { assert ids[2] == qs[2].id; }
    }
  }

  lemma Backward5() ensures DependsOnEarlier(Section5().questions)
  {
    var qs := Section5().questions;
    forall i | 0 <= i < |qs| && qs[i].conditionalOn.Some? ensures qs[i].conditionalOn.value.questionId in IdsOf(qs[..i]) {
      assert IdsOf(qs[..i])[0] == qs[0].id;
    }
  }

  lemma Backward6() ensures DependsOnEarlier(Section6().questions)
  {
    var qs := Section6().questions;
    forall i | 0 <= i < |qs| && qs[i].conditionalOn.Some? ensures qs[i].conditionalOn.value.questionId in IdsOf(qs[..i]) {
      var ids := IdsOf(qs[..i]);
      assert ids[0] == qs[0].id;
      if i >= 2 { assert ids[1] == qs[1].id; }
    }
  }

  lemma Backward7() ensures DependsOnEarlier(Section7().questions)
  {
    var qs := Section7().questions;
    forall i | 0 <= i < |qs| && qs[i].conditionalOn.Some? ensures qs[i].conditionalOn.value.questionId in IdsOf(qs[..i]) {
      assert IdsOf(qs[..i])[0] == qs[0].id;
    }
  }

  lemma Backward8() ensures DependsOnEarlier(Section8().questions)
  {
    var qs := Section8().questions;
    forall i | 0 <= i < |qs| && qs[i].conditionalOn.Some? ensures qs[i].conditionalOn.value.questionId in IdsOf(qs[..i]) {
      assert IdsOf(qs[..i])[0] == qs[0].id;
    }
  }

  lemma Backward9() ensures DependsOnEarlier(Section9().questions)
  {
    var qs := Section9().questions;
    forall i | 0 <= i < |qs| && qs[i].conditionalOn.Some? ensures qs[i].conditionalOn.value.questionId in IdsOf(qs[..i]) {
      assert IdsOf(qs[..i])[0] == qs[0].id;
    }
  }

  lemma Backward10() ensures DependsOnEarlier(Section10().questions)
  {
    var qs := Section10().questions;
    forall i | 0 <= i < |qs| && qs[i].conditionalOn.Some? ensures qs[i].conditionalOn.value.questionId in IdsOf(qs[..i]) {
      var ids := IdsOf(qs[..i]);
      assert ids[0] == qs[0].id;
      if i >= 3 { assert ids[2] == qs[2].id; }
    }
  }

  lemma Backward11() ensures DependsOnEarlier(Section11().questions)
  {
    var qs := Section11().questions;
    forall i | 0 <= i < |qs| && qs[i].conditionalOn.Some? ensures qs[i].conditionalOn.value.questionId in IdsOf(qs[..i]) {
      var ids := IdsOf(qs[..i]);
      assert ids[0] == qs[0].id;
      if i >= 2 { assert ids[1] == qs[1].id; }
    }
  }

  lemma Backward12() ensures DependsOnEarlier(Section12().questions)
  {
    var qs := Section12().questions;
    forall i | 0 <= i < |qs| && qs[i].conditionalOn.Some? ensures qs[i].conditionalOn.value.questionId in IdsOf(qs[..i]) {
      assert IdsOf(qs[..i])[0] == qs[0].id;
    }
  }

  /** The id prefix of each section. */
  const Prefixes: seq<string> := ["q1-", "q2-", "q3-", "q4-", "q5-", "q6-", "q7-", "q8-", "q9-", "q10-", "q11-", "q12-"]

  /** The ids of a section are distinct and carry the section's prefix. */
  predicate WellNamed(sec: Section, prefix: string)
  {
    && NoDuplicates(IdsOf(sec.questions))
    && forall i :: 0 <= i < |sec.questions| ==> Seqs.StartsWith(sec.questions[i].id, prefix)
  }

  lemma SectionsWellNamed()
    ensures forall k :: 0 <= k < |Sections()| ==> WellNamed(Sections()[k], Prefixes[k])
  {
    forall k | 0 <= k < |Sections()| ensures WellNamed(Sections()[k], Prefixes[k]) {
      if k == 0 { InCatalog1(); }
      else if k == 1 { InCatalog2(); }
      else if k == 2 { InCatalog3(); }
      else if k == 3 { InCatalog4(); }
      else if k == 4 { InCatalog5(); }
      else if k == 5 { InCatalog6(); }
      else if k == 6 { InCatalog7(); }
      else if k == 7 { InCatalog8(); }
      else if k == 8 { InCatalog9(); }
      else if k == 9 { InCatalog10(); }
      else if k == 10 { InCatalog11(); }
      else { InCatalog12(); }
    }
  }

  lemma InCatalog1() ensures WellNamed(Sections()[0], Prefixes[0])
  {
    Named1();
    assert Sections()[0] == Section1();
  }
  lemma InCatalog2() ensures WellNamed(Sections()[1], Prefixes[1])
  {
    Named2();
    assert Sections()[1] == Section2();
  }
  lemma InCatalog3() ensures WellNamed(Sections()[2], Prefixes[2])
  {
    Named3();
    assert Sections()[2] == Section3();
  }
  lemma InCatalog4() ensures WellNamed(Sections()[3], Prefixes[3])
  {
    Named4();
    assert Sections()[3] == Section4();
  }
  lemma InCatalog5() ensures WellNamed(Sections()[4], Prefixes[4])
  {
    Named5();
    assert Sections()[4] == Section5();
  }
  lemma InCatalog6() ensures WellNamed(Sections()[5], Prefixes[5])
  {
    Named6();
    assert Sections()[5] == Section6();
  }
  lemma InCatalog7() ensures WellNamed(Sections()[6], Prefixes[6])
  {
    Named7();
    assert Sections()[6] == Section7();
  }
  lemma InCatalog8() ensures WellNamed(Sections()[7], Prefixes[7])
  {
    Named8();
    assert Sections()[7] == Section8();
  }
  lemma InCatalog9() ensures WellNamed(Sections()[8], Prefixes[8])
  {
    Named9();
    assert Sections()[8] == Section9();
  }
  lemma InCatalog10() ensures WellNamed(Sections()[9], Prefixes[9])
  {
    Named10();
    assert Sections()[9] == Section10();
  }
  lemma InCatalog11() ensures WellNamed(Sections()[10], Prefixes[10])
  {
    Named11();
    assert Sections()[10] == Section11();
  }
  lemma InCatalog12() ensures WellNamed(Sections()[11], Prefixes[11])
  {
    Named12();
    assert Sections()[11] == Section12();
  }
  lemma Named1() ensures WellNamed(Section1(), Prefixes[0])
  {
    Distinct1();
    Prefixed1();
  }
  lemma Prefixed1() ensures forall i :: 0 <= i < |Section1().questions| ==> Seqs.StartsWith(Section1().questions[i].id, "q1-") {}
  lemma Distinct1() ensures NoDuplicates(IdsOf(Section1().questions)) {}
  lemma Named2() ensures WellNamed(Section2(), Prefixes[1])
  {
    Distinct2();
    Prefixed2();
  }
  lemma Prefixed2() ensures forall i :: 0 <= i < |Section2().questions| ==> Seqs.StartsWith(Section2().questions[i].id, "q2-") {}
  lemma Distinct2() ensures NoDuplicates(IdsOf(Section2().questions)) {}
  lemma Named3() ensures WellNamed(Section3(), Prefixes[2])
  {
    Distinct3();
    Prefixed3();
  }
  lemma Prefixed3() ensures forall i :: 0 <= i < |Section3().questions| ==> Seqs.StartsWith(Section3().questions[i].id, "q3-") {}
  lemma Distinct3() ensures NoDuplicates(IdsOf(Section3().questions)) {}
  lemma Named4() ensures WellNamed(Section4(), Prefixes[3])
  {
    Distinct4();
    Prefixed4();
  }
  lemma Prefixed4() ensures forall i :: 0 <= i < |Section4().questions| ==> Seqs.StartsWith(Section4().questions[i].id, "q4-") {}
  lemma Distinct4() ensures NoDuplicates(IdsOf(Section4().questions)) {}
  lemma Named5() ensures WellNamed(Section5(), Prefixes[4])
  {
    Distinct5();
    Prefixed5();
  }
  lemma Prefixed5() ensures forall i :: 0 <= i < |Section5().questions| ==> Seqs.StartsWith(Section5().questions[i].id, "q5-") {}
  lemma Distinct5() ensures NoDuplicates(IdsOf(Section5().questions)) {}
  lemma Named6() ensures WellNamed(Section6(), Prefixes[5])
  {
    Distinct6();
    Prefixed6();
  }
  lemma Prefixed6() ensures forall i :: 0 <= i < |Section6().questions| ==> Seqs.StartsWith(Section6().questions[i].id, "q6-") {}
  lemma Distinct6() ensures NoDuplicates(IdsOf(Section6().questions)) {}
  lemma Named7() ensures WellNamed(Section7(), Prefixes[6])
  {
    Distinct7();
    Prefixed7();
  }
  lemma Prefixed7() ensures forall i :: 0 <= i < |Section7().questions| ==> Seqs.StartsWith(Section7().questions[i].id, "q7-") {}
  lemma Distinct7() ensures NoDuplicates(IdsOf(Section7().questions)) {}
  lemma Named8() ensures WellNamed(Section8(), Prefixes[7])
  {
    Distinct8();
    Prefixed8();
  }
  lemma Prefixed8() ensures forall i :: 0 <= i < |Section8().questions| ==> Seqs.StartsWith(Section8().questions[i].id, "q8-") {}
  lemma Distinct8() ensures NoDuplicates(IdsOf(Section8().questions)) {}
  lemma Named9() ensures WellNamed(Section9(), Prefixes[8])
  {
    Distinct9();
    Prefixed9();
  }
  lemma Prefixed9() ensures forall i :: 0 <= i < |Section9().questions| ==> Seqs.StartsWith(Section9().questions[i].id, "q9-") {}
  lemma Distinct9() ensures NoDuplicates(IdsOf(Section9().questions)) {}
  lemma Named10() ensures WellNamed(Section10(), Prefixes[9])
  {
    Distinct10();
    Prefixed10();
  }
  lemma Prefixed10() ensures forall i :: 0 <= i < |Section10().questions| ==> Seqs.StartsWith(Section10().questions[i].id, "q10-") {}
  lemma Distinct10() ensures NoDuplicates(IdsOf(Section10().questions)) {}
  lemma Named11() ensures WellNamed(Section11(), Prefixes[10])
  {
    Distinct11();
    Prefixed11();
  }
  lemma Prefixed11() ensures forall i :: 0 <= i < |Section11().questions| ==> Seqs.StartsWith(Section11().questions[i].id, "q11-") {}
  lemma Distinct11() ensures NoDuplicates(IdsOf(Section11().questions)) {}
  lemma Named12() ensures WellNamed(Section12(), Prefixes[11])
  {
    Distinct12();
    Prefixed12();
  }
  lemma Prefixed12() ensures forall i :: 0 <= i < |Section12().questions| ==> Seqs.StartsWith(Section12().questions[i].id, "q12-") {}
  lemma Distinct12() ensures NoDuplicates(IdsOf(Section12().questions)) {}

  /** No section prefix begins another: two of equal length differ in their digits, and a
      one-digit prefix has '-' where a two-digit one has its second digit. */
  lemma PrefixesExclusive()
    ensures forall k, l :: 0 <= k < |Prefixes| && 0 <= l < |Prefixes| && k != l ==> !Seqs.StartsWith(Prefixes[l], Prefixes[k])
  {
    forall k, l | 0 <= k < |Prefixes| && 0 <= l < |Prefixes| && k != l
      ensures !Seqs.StartsWith(Prefixes[l], Prefixes[k])
    {
      var p, r := Prefixes[k], Prefixes[l];
      assert 3 <= |p| && 3 <= |r|;
      assert p[1] != r[1] || p[2] != r[2] || |p| > |r|;
    }
  }

  /** Two strings that start with prefixes neither of which begins the other differ. */
  lemma DifferentPrefixes(s: string, t: string, p: string, r: string)
    requires Seqs.StartsWith(s, p) && Seqs.StartsWith(t, r)
    requires !Seqs.StartsWith(p, r) && !Seqs.StartsWith(r, p)
    ensures s != t
  {
  }

  /** Question ids are unique across the whole catalog. */
  lemma QuestionIdsUnique()
    ensures forall k, i, l, j ::
      0 <= k < |Sections()| && 0 <= l < |Sections()| &&
      0 <= i < |Sections()[k].questions| && 0 <= j < |Sections()[l].questions| && (k, i) != (l, j)
      ==> Sections()[k].questions[i].id != Sections()[l].questions[j].id
  {
    SectionsWellNamed();
    PrefixesExclusive();
    forall k, i, l, j |
      0 <= k < |Sections()| && 0 <= l < |Sections()| &&
      0 <= i < |Sections()[k].questions| && 0 <= j < |Sections()[l].questions| && (k, i) != (l, j)
      ensures Sections()[k].questions[i].id != Sections()[l].questions[j].id
    {
      var a, b := Sections()[k], Sections()[l];
      if k == l {
        assert IdsOf(a.questions)[i] == a.questions[i].id;
        assert IdsOf(a.questions)[j] == a.questions[j].id;
      } else {
        DifferentPrefixes(a.questions[i].id, b.questions[j].id, Prefixes[k], Prefixes[l]);
      }
    }
  }

  // ----- The result rules -----

  /** The condition names questions of `ids` only, in its main test and in every sub-condition. */
  predicate ConditionRefersTo(c: Condition, ids: seq<string>)
  {
    c.questionId in ids &&
    (c.subConditions.Some? ==>
      forall j :: 0 <= j < |c.subConditions.value| ==> c.subConditions.value[j].questionId in ids)
  }

  predicate RefersTo(st: ResultStatement, ids: seq<string>)
  {
    forall i :: 0 <= i < |st.conditions| ==> ConditionRefersTo(st.conditions[i], ids)
  }

  /** For each result, in order, the index of the section whose questions it reads. */
  const RuleSections: seq<nat> := [0, 1, 2, 3, 5, 7, 8, 9, 11]

  /** Result `r` reads only questions of the section `RuleSections[r]` names. */
  predicate ResolvesAt(r: nat)
  {
    r < |Results()| && r < |RuleSections| && RuleSections[r] < |Sections()| &&
    RefersTo(Results()[r], IdsOf(Sections()[RuleSections[r]].questions))
  }

  /** Every condition and sub-condition of every result names a question of the catalog; each
      result reads the questions of one section only. */
  lemma ReferencesResolve()
    ensures forall r: nat :: r < |Results()| ==> ResolvesAt(r)
  {
    forall r: nat | r < |Results()| ensures ResolvesAt(r) {
      if r == 0 { Refs1(); }
      else if r == 1 { Refs2(); }
      else if r == 2 { Refs3(); }
      else if r == 3 { Refs4(); }
      else if r == 4 { Refs5(); }
      else if r == 5 { Refs6(); }
      else if r == 6 { Refs7(); }
      else if r == 7 { Refs8(); }
      else if r == 8 { Refs9(); }
    }
  }

  lemma Refs1()
    ensures ResolvesAt(0)
  {
    assert Results()[0] == ScorpRule();
    assert Sections()[0] == Section1();
    var ids := IdsOf(Section1().questions);
    assert ids[0] == Section1().questions[0].id;
    assert ids[3] == Section1().questions[3].id;
    assert ids[2] == Section1().questions[2].id;
  }

  lemma Refs2()
    ensures ResolvesAt(1)
  {
    assert Results()[1] == AugustaRule();
    assert Sections()[1] == Section2();
    var ids := IdsOf(Section2().questions);
    assert ids[0] == Section2().questions[0].id;
    assert ids[1] == Section2().questions[1].id;
    assert ids[3] == Section2().questions[3].id;
  }

  lemma Refs3()
    ensures ResolvesAt(2)
  {
    assert Results()[2] == PayingKidsRule();
    assert Sections()[2] == Section3();
    var ids := IdsOf(Section3().questions);
    assert ids[0] == Section3().questions[0].id;
    assert ids[1] == Section3().questions[1].id;
    assert ids[3] == Section3().questions[3].id;
  }

  lemma Refs4()
    ensures ResolvesAt(3)
  {
    assert Results()[3] == VehicleRule();
    assert Sections()[3] == Section4();
    var ids := IdsOf(Section4().questions);
    assert ids[0] == Section4().questions[0].id;
  }

  lemma Refs5()
    ensures ResolvesAt(4)
  {
    assert Results()[4] == StartupRule();
    assert Sections()[5] == Section6();
    var ids := IdsOf(Section6().questions);
    assert ids[0] == Section6().questions[0].id;
    assert ids[1] == Section6().questions[1].id;
    assert ids[2] == Section6().questions[2].id;
  }

  lemma Refs6()
    ensures ResolvesAt(5)
  {
    assert Results()[5] == HomeOfficeRule();
    assert Sections()[7] == Section8();
    var ids := IdsOf(Section8().questions);
    assert ids[0] == Section8().questions[0].id;
    assert ids[2] == Section8().questions[2].id;
  }

  lemma Refs7()
    ensures ResolvesAt(6)
  {
    assert Results()[6] == ProfessionalServicesRule();
    assert Sections()[8] == Section9();
    var ids := IdsOf(Section9().questions);
    assert ids[0] == Section9().questions[0].id;
  }

  lemma Refs8()
    ensures ResolvesAt(7)
  {
    assert Results()[7] == TravelMealsRule();
    assert Sections()[9] == Section10();
    var ids := IdsOf(Section10().questions);
    assert ids[0] == Section10().questions[0].id;
  }

  lemma Refs9()
    ensures ResolvesAt(8)
  {
    assert Results()[8] == Solo401kRule();
    assert Sections()[11] == Section12();
    var ids := IdsOf(Section12().questions);
    assert ids[0] == Section12().questions[0].id;
    assert ids[2] == Section12().questions[2].id;
  }

  /** Every result's first condition compares against a concrete value. */
  lemma ResultsAreConcrete()
    ensures forall r :: 0 <= r < |Results()| ==>
              |Results()[r].conditions| > 0 && !MatchesUndefined(Results()[r].conditions[0])
    ensures forall r :: 0 <= r < |Results()| ==> HasConcreteCondition(Results()[r])
  {
    forall r | 0 <= r < |Results()| ensures HasConcreteCondition(Results()[r]) {
      assert !MatchesUndefined(Results()[r].conditions[0]);
    }
  }

  /** A questionnaire with no answers recommends nothing: the results screen shows its fallback. */
  lemma NoAnswersNoResults()
    ensures EvaluateResults(map[], Results()) == []
  {
    ResultsAreConcrete();
    EmptyAnswersSelectNothing(Results());
  }

  // ----- Scenarios -----

  /** An LLC with an accountant and revenue above the threshold. */
  function ScorpAnswers(revenue: int): Answers
  {
    map["q1-structure" := Str("llc"), "q1-accountant" := Str("yes"), "q1-revenue" := Num(revenue)]
  }

  /** Exactly when the revenue is above 55000, the S corporation strategy, and only it, is
      recommended; otherwise nothing is. */
  lemma ScorpScenario(revenue: int)
    ensures revenue > 55000 ==> EvaluateResults(ScorpAnswers(revenue), Results()) == [ScorpRule()]
    ensures revenue <= 55000 ==> EvaluateResults(ScorpAnswers(revenue), Results()) == []
  {
    var a := ScorpAnswers(revenue);
    ScorpThreshold(revenue);
    forall i | 1 <= i < |Results()| ensures !Selected(a, Results()[i]) {
      assert Lookup(a, Results()[i].conditions[0].questionId) == None;
      FirstConditionDecides(a, Results()[i]);
    }
    if revenue > 55000 {
      EvaluateResultsOnly(a, Results(), 0);
    } else {
      EvaluateResultsNoneSelected(a, Results());
    }
  }

  /** The threshold is strict: 55000 itself does not qualify. */
  lemma ScorpThreshold(revenue: int)
    ensures Selected(ScorpAnswers(revenue), ScorpRule()) <==> revenue > 55000
  {
    var a := ScorpAnswers(revenue);
    var c := ScorpRule().conditions[0];
    var subs := c.subConditions.value;
    assert Lookup(a, "q1-structure") == Some(Str("llc"));
    assert MainConditionMet(c, a);
    assert SubConditionMet(subs[0], a);
    assert SubConditionMet(subs[1], a) <==> revenue > 55000;
    ConditionWithSubConditions(c, a);
    assert ConditionHolds(c, a) <==> revenue > 55000;
    assert ConditionsHold(ScorpRule().conditions[1..], a);
    assert Selected(a, ScorpRule()) <==> ConditionHolds(c, a);
  }

  // ----- Yes gates -----

  /** A statement with one condition, `equals "yes"`, whose sub-conditions (if any) are all
      `equals "yes"` too. */
  predicate IsYesGate(st: ResultStatement)
  {
    |st.conditions| == 1 &&
    var c := st.conditions[0];
    c.operator == Equals && c.value == Some(StrValue("yes")) &&
    (c.subConditions.Some? ==>
      forall j :: 0 <= j < |c.subConditions.value| ==> c.subConditions.value[j] == SubIsYes(c.subConditions.value[j].questionId))
  }

  /** The questions a yes gate asks about, main question first. */
  function GateIds(st: ResultStatement): (ids: seq<string>)
    requires |st.conditions| == 1
    ensures |ids| > 0 && ids[0] == st.conditions[0].questionId
  {
    var c := st.conditions[0];
    var subs := if c.subConditions.Some? then c.subConditions.value else [];
    [c.questionId] + seq(|subs|, j requires 0 <= j < |subs| => subs[j].questionId)
  }

  /** Every id of `ids` is answered with the string "yes". */
  predicate AllYes(answers: Answers, ids: seq<string>)
  {
    forall i :: 0 <= i < |ids| ==> Lookup(answers, ids[i]) == Some(Str("yes"))
  }

  /** A yes gate is selected exactly when each of its questions is answered "yes". */
  lemma YesGateSelection(answers: Answers, st: ResultStatement)
    requires IsYesGate(st)
    ensures Selected(answers, st) <==> AllYes(answers, GateIds(st))
  {
    var c := st.conditions[0];
    var ids := GateIds(st);
    assert ConditionsHold(st.conditions[1..], answers);
    if c.subConditions.Some? {
      var subs := c.subConditions.value;
      ConditionWithSubConditions(c, answers);
      forall j | 0 <= j < |subs|
        ensures SubConditionMet(subs[j], answers) <==> Lookup(answers, ids[j + 1]) == Some(Str("yes"))
      {
        assert subs[j] == SubIsYes(subs[j].questionId);
      }
      if AllYes(answers, ids) {
        forall j | 0 <= j < |subs| ensures SubConditionMet(subs[j], answers) {
          assert Lookup(answers, ids[j + 1]) == Some(Str("yes"));
        }
      }
    } else {
      NoSubConditionsIsMain(c, answers);
    }
  }

  /** Every result but the first is a yes gate. */
  lemma GatesOfCatalog()
    ensures forall r :: 1 <= r < |Results()| ==> IsYesGate(Results()[r])
  {
    forall r | 1 <= r < |Results()| ensures IsYesGate(Results()[r]) {
      if r == 1 { assert Results()[1] == AugustaRule(); AugustaGate(); }
      else if r == 2 { assert Results()[2] == PayingKidsRule(); PayingKidsGate(); }
      else if r == 3 { assert Results()[3] == VehicleRule(); VehicleGate(); }
      else if r == 4 { assert Results()[4] == StartupRule(); StartupGate(); }
      else if r == 5 { assert Results()[5] == HomeOfficeRule(); HomeOfficeGate(); }
      else if r == 6 { assert Results()[6] == ProfessionalServicesRule(); ProfessionalServicesGate(); }
      else if r == 7 { assert Results()[7] == TravelMealsRule(); TravelMealsGate(); }
      else if r == 8 { assert Results()[8] == Solo401kRule(); Solo401kGate(); }
    }
  }

  lemma AugustaGate()
    ensures IsYesGate(AugustaRule()) && GateIds(AugustaRule()) == ["q2-own-home", "q2-business-meetings", "q2-documentation"]
  {
  }

  lemma PayingKidsGate()
    ensures IsYesGate(PayingKidsRule()) && GateIds(PayingKidsRule()) == ["q3-has-children", "q3-capable-tasks", "q3-explore-payroll-strategy"]
  {
  }

  lemma VehicleGate()
    ensures IsYesGate(VehicleRule()) && GateIds(VehicleRule()) == ["q4-own-lease-vehicle"]
  {
  }

  lemma StartupGate()
    ensures IsYesGate(StartupRule()) && GateIds(StartupRule()) == ["q6-new-business", "q6-incurred-costs", "q6-guidance"]
  {
  }

  lemma HomeOfficeGate()
    ensures IsYesGate(HomeOfficeRule()) && GateIds(HomeOfficeRule()) == ["q8-home-office", "q8-rent-or-mortgage"]
  {
  }

  lemma ProfessionalServicesGate()
    ensures IsYesGate(ProfessionalServicesRule()) && GateIds(ProfessionalServicesRule()) == ["q9-professional-services"]
  {
  }

  lemma TravelMealsGate()
    ensures IsYesGate(TravelMealsRule()) && GateIds(TravelMealsRule()) == ["q10-business-travel"]
  {
  }

  lemma Solo401kGate()
    ensures IsYesGate(Solo401kRule()) && GateIds(Solo401kRule()) == ["q12-retirement-plans", "q12-solo-401k"]
  {
  }

  /** The Augusta rule needs a home, business meetings there and documentation of them:
      answering "no" to owning a home, or to documentation, excludes it. */
  lemma AugustaScenario(answers: Answers)
    ensures Selected(answers, AugustaRule()) <==>
              Lookup(answers, "q2-own-home") == Some(Str("yes")) &&
              Lookup(answers, "q2-business-meetings") == Some(Str("yes")) &&
              Lookup(answers, "q2-documentation") == Some(Str("yes"))
    ensures Lookup(answers, "q2-own-home") == Some(Str("no")) ==> !Selected(answers, AugustaRule())
    ensures Lookup(answers, "q2-documentation") == Some(Str("no")) ==> !Selected(answers, AugustaRule())
  {
    AugustaGate();
    YesGateSelection(answers, AugustaRule());
    var ids := GateIds(AugustaRule());
    assert ids[0] == "q2-own-home" && ids[1] == "q2-business-meetings" && ids[2] == "q2-documentation";
  }

  /** The vehicle, professional-services and travel results each hang on a single yes/no question
      with no sub-conditions. */
  lemma SingleQuestionRules(answers: Answers)
    ensures VehicleRule().conditions == [IsYes("q4-own-lease-vehicle", None)]
    ensures ProfessionalServicesRule().conditions == [IsYes("q9-professional-services", None)]
    ensures TravelMealsRule().conditions == [IsYes("q10-business-travel", None)]
    ensures Selected(answers, VehicleRule()) <==> Lookup(answers, "q4-own-lease-vehicle") == Some(Str("yes"))
    ensures Selected(answers, ProfessionalServicesRule()) <==> Lookup(answers, "q9-professional-services") == Some(Str("yes"))
    ensures Selected(answers, TravelMealsRule()) <==> Lookup(answers, "q10-business-travel") == Some(Str("yes"))
  {
    VehicleGate(); ProfessionalServicesGate(); TravelMealsGate();
    YesGateSelection(answers, VehicleRule());
    YesGateSelection(answers, ProfessionalServicesRule());
    YesGateSelection(answers, TravelMealsRule());
  }

  /** The structures the S corporation rule accepts are options of the structure question. */
  lemma StructureValuesAreOptions()
    ensures ScorpRule().conditions[0].questionId == Section1().questions[0].id
    ensures ScorpRule().conditions[0].value.Some? && ScorpRule().conditions[0].value.value.ListValue?
    ensures forall v :: v in ScorpRule().conditions[0].value.value.items ==> v in Section1().questions[0].options
  {
  }

  /** No catalog condition uses `and`/`or`: every main and sub-condition operator is one a
      sub-condition may use, and every main condition has a value. */
  lemma CatalogOperatorsConcrete()
    ensures forall r, i :: 0 <= r < |Results()| && 0 <= i < |Results()[r].conditions| ==>
      && IsSubOperator(Results()[r].conditions[i].operator) && Results()[r].conditions[i].value.Some?
      && (Results()[r].conditions[i].subConditions.Some? ==>
            forall s :: s in Results()[r].conditions[i].subConditions.value ==> IsSubOperator(s.operator))
  {
  }
}
