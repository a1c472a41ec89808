/**
 * The questionnaire page (src/pages/Index.tsx): which questions of a section are visible,
 * whether a section has answers, and the wizard whose handlers move between the screens
 * and sections and record answers. The wizard is a class whose fields are the page's state
 * hooks; `Valid()` is the bound on the section index every handler keeps.
 */
module IndexPage {
  import opened Wrappers
  import opened Types
  import Seqs
  import QuestionRenderer
  import ResultEvaluator
  import QuestionnaireData
  import ResultsScreen

  /** The four screens of the page. */
  datatype Screen = UserInfoStep | WelcomeStep | QuestionnaireStep | ResultsStep

  /** What the contact form hands over; its validation is not part of this model. */
  datatype UserInfo = UserInfo(name: string, email: string, phone: string)

  // ----- Visibility -----

  /** The test `getVisibleQuestions` applies to each question of the current section. */
  predicate IsVisible(q: Question, answers: Answers)
  {
    match q.conditionalOn
    case None => true
    case Some(dep) =>
      var dependentAnswer := Lookup(answers, dep.questionId);
      match dep.value
      case OneOf(values) => ToStr(dependentAnswer) in values
      case Exactly(v) => dependentAnswer == Some(Str(v))
  }

  /** `getVisibleQuestions` for a section: its visible questions, in order. */
  function VisibleQuestions(sec: Section, answers: Answers): (r: seq<Question>)
    ensures |r| <= |sec.questions|
  {
    Seqs.Filter(q => IsVisible(q, answers), sec.questions)
  }

  /** `hasAnswersInSection` for a section: some visible question has a recorded answer. */
  predicate HasAnswersInSection(sec: Section, answers: Answers)
  {
    var visible := VisibleQuestions(sec, answers);
    exists i :: 0 <= i < |visible| && visible[i].id in answers
  }

  /** The three cases of the visibility test: no dependency shows the question, a list
      dependency asks for the string form of the answer in the list, a single value asks for
      a strictly equal answer. */
  lemma VisibilityCases(q: Question, answers: Answers)
    ensures q.conditionalOn.None? ==> IsVisible(q, answers)
    ensures q.conditionalOn.Some? && q.conditionalOn.value.value.OneOf? ==>
              (IsVisible(q, answers) <==>
                 ToStr(Lookup(answers, q.conditionalOn.value.questionId)) in q.conditionalOn.value.value.values)
    ensures q.conditionalOn.Some? && q.conditionalOn.value.value.Exactly? ==>
              (IsVisible(q, answers) <==>
                 q.conditionalOn.value.questionId in answers
                 && answers[q.conditionalOn.value.questionId] == Str(q.conditionalOn.value.value.value))
  {
  }

  /** A dependency value is a string, so a numeric or missing answer never satisfies a
      single-value dependency. */
  lemma SingleValueNeedsString(q: Question, answers: Answers)
    requires q.conditionalOn.Some? && q.conditionalOn.value.value.Exactly?
    requires Lookup(answers, q.conditionalOn.value.questionId).None?
             || Lookup(answers, q.conditionalOn.value.questionId).value.Num?
    ensures !IsVisible(q, answers)
  {
  }

  /** The visible questions are exactly the section's questions passing the test, each as
      often as the section lists it, in the section's order. */
  lemma VisibleQuestionsExactly(sec: Section, answers: Answers)
    ensures forall q :: q in VisibleQuestions(sec, answers) <==> q in sec.questions && IsVisible(q, answers)
    ensures Seqs.IsSubsequence(VisibleQuestions(sec, answers), sec.questions)
    ensures forall q :: multiset(VisibleQuestions(sec, answers))[q]
                          == if IsVisible(q, answers) then multiset(sec.questions)[q] else 0
  {
    var keep := q => IsVisible(q, answers);
    forall q ensures q in VisibleQuestions(sec, answers) <==> q in sec.questions && IsVisible(q, answers) {
      Seqs.FilterMembership(keep, sec.questions, q);
    }
    forall q ensures multiset(VisibleQuestions(sec, answers))[q]
                       == if IsVisible(q, answers) then multiset(sec.questions)[q] else 0 {
      Seqs.FilterMultiplicity(keep, sec.questions, q);
    }
    Seqs.FilterIsSubsequence(keep, sec.questions);
  }

  /** A section has answers exactly when one of its questions is both visible and answered. */
  lemma HasAnswersInSectionIff(sec: Section, answers: Answers)
    ensures HasAnswersInSection(sec, answers) <==>
              exists i :: 0 <= i < |sec.questions| && IsVisible(sec.questions[i], answers) && sec.questions[i].id in answers
  {
    var keep := q => IsVisible(q, answers);
    var answered := (q: Question) => q.id in answers;
    var visible := VisibleQuestions(sec, answers);
    Seqs.FilterExists(keep, answered, sec.questions);
    if HasAnswersInSection(sec, answers) {
      var i :| 0 <= i < |visible| && visible[i].id in answers;
      assert answered(visible[i]);
    }
    if exists i :: 0 <= i < |sec.questions| && IsVisible(sec.questions[i], answers) && sec.questions[i].id in answers {
      var i :| 0 <= i < |sec.questions| && IsVisible(sec.questions[i], answers) && sec.questions[i].id in answers;
      assert keep(sec.questions[i]) && answered(sec.questions[i]);
    }
  }

  /** The two copies of the visibility test agree: the renderer returns nothing exactly for
      the questions the page does not count as visible. */
  lemma RendererAgrees(q: Question, answers: Answers)
    ensures QuestionRenderer.Hidden(q, answers) <==> !IsVisible(q, answers)
  {
  }

  /** So the questions the page actually renders, all of them mapped through the renderer,
      are the visible questions. */
  lemma {:induction false} RenderedAreVisible(sec: Section, answers: Answers)
    ensures Seqs.Filter(q => !QuestionRenderer.Hidden(q, answers), sec.questions) == VisibleQuestions(sec, answers)
  {
    forall i | 0 <= i < |sec.questions|
      ensures !QuestionRenderer.Hidden(sec.questions[i], answers) == IsVisible(sec.questions[i], answers)
    {
      RendererAgrees(sec.questions[i], answers);
    }
    Seqs.FilterCongruent(q => !QuestionRenderer.Hidden(q, answers), q => IsVisible(q, answers), sec.questions);
  }

  /** The business-use percentage, shown only to owners of a vehicle, is hidden when the
      vehicle question is answered "no" and when it is not answered at all. */
  lemma VehiclePercentageScenario()
    ensures QuestionnaireData.Section4().questions[1].id == "q4-business-percentage"
    ensures !IsVisible(QuestionnaireData.Section4().questions[1], map["q4-own-lease-vehicle" := Str("no")])
    ensures !IsVisible(QuestionnaireData.Section4().questions[1], map[])
    ensures IsVisible(QuestionnaireData.Section4().questions[1], map["q4-own-lease-vehicle" := Str("yes")])
  {
  }

  // ----- The page -----

  /** What the page shows: the contact form, the welcome screen, the results of the
      evaluation, or a section with the questions the renderer shows and its two buttons. */
  datatype Page =
    | ContactForm
    | Welcome
    | ResultsPage(view: ResultsScreen.ResultsView)
    | SectionPage(sectionIndex: nat, questions: seq<Question>, showPrevious: bool, nextLabel: string)

  class Wizard {
    /** `questionnaireData.sections`. */
    const sections: seq<Section>
    var screen: Screen
    var userInfo: Option<UserInfo>
    var currentSectionIndex: nat
    var answers: Answers

    /** The current section always exists. */
    predicate Valid()
      reads this
    {
      currentSectionIndex < |sections|
    }

    /** The initial state: the contact form, no contact data, the first section, no answers. */
    constructor ()
      ensures Valid()
      ensures sections == QuestionnaireData.Sections()
      ensures screen == UserInfoStep && userInfo == None
      ensures currentSectionIndex == 0 && answers == map[]
    {
      QuestionnaireData.SectionCount();
      sections := QuestionnaireData.Sections();
      screen := UserInfoStep;
      userInfo := None;
      currentSectionIndex := 0;
      answers := map[];
    }

    /** `handleAnswer`: records `value` under `questionId`; every other answer stays, and no
        answer is ever removed, even of a question that has become hidden. */
    method HandleAnswer(questionId: string, value: Value)
      requires Valid()
      modifies this
      ensures Valid()
      ensures answers == old(answers)[questionId := value]
      ensures questionId in answers && answers[questionId] == value
      ensures forall k :: k in old(answers) && k != questionId ==> k in answers && answers[k] == old(answers)[k]
      ensures old(answers).Keys <= answers.Keys
      ensures screen == old(screen) && userInfo == old(userInfo) && currentSectionIndex == old(currentSectionIndex)
    {
      answers := answers[questionId := value];
    }

    /** `handleNext`: the next section, or from the last one the results screen. The label of
        the button is "View Results" exactly when it leads to the results. */
    method HandleNext()
      requires Valid()
      modifies this
      ensures Valid()
      ensures old(currentSectionIndex) < |sections| - 1 ==>
                currentSectionIndex == old(currentSectionIndex) + 1 && screen == old(screen)
      ensures old(currentSectionIndex) == |sections| - 1 ==>
                currentSectionIndex == old(currentSectionIndex) && screen == ResultsStep
      ensures old(NextLabel()) == "View Results" <==> currentSectionIndex == old(currentSectionIndex)
      ensures answers == old(answers) && userInfo == old(userInfo)
    {
      if currentSectionIndex < |sections| - 1 {
        currentSectionIndex := currentSectionIndex + 1;
      } else {
        screen := ResultsStep;
      }
    }

    /** `handlePrevious`: the previous section, or nothing on the first one. The button is
        shown exactly when it moves. */
    method HandlePrevious()
      requires Valid()
      modifies this
      ensures Valid()
      ensures old(currentSectionIndex) > 0 ==> currentSectionIndex == old(currentSectionIndex) - 1
      ensures old(currentSectionIndex) == 0 ==> currentSectionIndex == 0
      ensures old(ShowPrevious()) <==> currentSectionIndex != old(currentSectionIndex)
      ensures screen == old(screen) && answers == old(answers) && userInfo == old(userInfo)
    {
      if currentSectionIndex > 0 {
        currentSectionIndex := currentSectionIndex - 1;
      }
    }

    /** `handleUserInfoSubmit`: keeps the contact data and moves on to the welcome screen. */
    method HandleUserInfoSubmit(data: UserInfo)
      requires Valid()
      modifies this
      ensures Valid()
      ensures userInfo == Some(data) && screen == WelcomeStep
      ensures currentSectionIndex == old(currentSectionIndex) && answers == old(answers)
    {
      userInfo := Some(data);
      screen := WelcomeStep;
    }

    /** `handleStart`: moves to the questionnaire. */
    method HandleStart()
      requires Valid()
      modifies this
      ensures Valid()
      ensures screen == QuestionnaireStep
      ensures currentSectionIndex == old(currentSectionIndex) && answers == old(answers) && userInfo == old(userInfo)
    {
      screen := QuestionnaireStep;
    }

    /** `handleReview`: back to the first section of the questionnaire, with every answer kept. */
    method HandleReview()
      requires Valid()
      modifies this
      ensures Valid()
      ensures screen == QuestionnaireStep && currentSectionIndex == 0
      ensures answers == old(answers) && userInfo == old(userInfo)
    {
      screen := QuestionnaireStep;
      currentSectionIndex := 0;
    }

    /** `currentSection`. */
    function CurrentSection(): (sec: Section)
      requires Valid()
      reads this
      ensures sec in sections
    {
      sections[currentSectionIndex]
    }

    /** `getVisibleQuestions`: the current section's questions that pass the visibility test,
        in order. */
    function GetVisibleQuestions(): (r: seq<Question>)
      requires Valid()
      reads this
      ensures forall q :: q in r <==> q in CurrentSection().questions && IsVisible(q, answers)
      ensures Seqs.IsSubsequence(r, CurrentSection().questions)
    {
      VisibleQuestionsExactly(sections[currentSectionIndex], answers);
      VisibleQuestions(sections[currentSectionIndex], answers)
    }

    /** `hasAnswersInSection`: some question of the current section is visible and answered. */
    predicate HasAnswers()
      requires Valid()
      reads this
      ensures HasAnswers() <==>
                exists i :: 0 <= i < |CurrentSection().questions|
                  && IsVisible(CurrentSection().questions[i], answers) && CurrentSection().questions[i].id in answers
    {
      var sec := CurrentSection();
      HasAnswersInSectionIff(sec, answers);
      HasAnswersInSection(sec, answers)
    }

    /** The previous button is shown past the first section. */
    predicate ShowPrevious()
      reads this
    {
      currentSectionIndex > 0
    }

    /** The label of the next button. */
    function NextLabel(): string
      reads this
    {
      if currentSectionIndex < |sections| - 1 then "Next Section" else "View Results"
    }

    /** What the page renders for its state: on the results screen the evaluation of the
        answers against the catalog's results, on the questionnaire the questions the renderer
        does not hide. */
    function View(): (p: Page)
      requires Valid()
      reads this
      ensures screen == ResultsStep ==>
                p == ResultsPage(ResultsScreen.RenderResults(
                       ResultEvaluator.EvaluateResults(answers, QuestionnaireData.Results())))
      ensures screen == QuestionnaireStep ==>
                p.SectionPage? && p.sectionIndex == currentSectionIndex
                && p.questions == GetVisibleQuestions()
                && (p.showPrevious <==> currentSectionIndex > 0)
                && (p.nextLabel == "View Results" <==> currentSectionIndex == |sections| - 1)
      ensures screen == UserInfoStep ==> p == ContactForm
      ensures screen == WelcomeStep ==> p == Welcome
    {
      match screen
      case UserInfoStep => ContactForm
      case WelcomeStep => Welcome
      case ResultsStep =>
        ResultsPage(ResultsScreen.RenderResults(ResultEvaluator.EvaluateResults(answers, QuestionnaireData.Results())))
      case QuestionnaireStep =>
        var sec, current := sections[currentSectionIndex], answers;
        RenderedAreVisible(sec, current);
        SectionPage(currentSectionIndex, Seqs.Filter(q => !QuestionRenderer.Hidden(q, current), sec.questions),
                    ShowPrevious(), NextLabel())
    }
  }

  /** Before anything is answered, no section has answers and the results screen would show
      its fallback. */
  lemma FreshWizardHasNothing(w: Wizard)
    requires w.Valid() && w.sections == QuestionnaireData.Sections() && w.answers == map[]
    ensures !w.HasAnswers()
    ensures ResultEvaluator.EvaluateResults(w.answers, QuestionnaireData.Results()) == []
  {
    QuestionnaireData.NoAnswersNoResults();
  }
}
