# react-result-revealer, modelled in Dafny

The application is a tax-planning questionnaire. A visitor walks through it in four steps:
- enters contact data;
- reads a welcome screen;
- answers twelve sections of yes/no, single-choice, numeric and text questions;
- gets a list of strategy write-ups.

Some questions are shown only when an earlier answer has a given value. A rule base selects the strategies: each rule is a list of conditions over the answers, and a condition may carry sub-conditions. The results screen cuts each write-up into paragraphs and shows each paragraph as a heading, a bullet list or plain text.

The model covers these parts:

- `types.dfy` (module `Types`): the data types of `src/types/questionnaire.ts`.
  - It also gives `String(answer)` as `ToStr`, with the decimal form of integers.
- `evaluator.dfy` (module `ResultEvaluator`): `evaluateResults`, `evaluateConditions` and `evaluateCondition`.
  - The logic is pure predicates and a filter.
  - The two loops of the source are methods, proved equal to the predicates.
- `question_renderer.dfy` (module `QuestionRenderer`): the renderer's visibility guard, the numeric clamp and the value each widget records.
- `index_page.dfy` (module `IndexPage`): the page.
  - The visibility filter and the "section has answers" test are functions.
  - The wizard is a class whose fields are the page's state and whose methods are its handlers.
  - `View` is what the page shows for a given state.
- `questionnaire_data.dfy` (module `QuestionnaireData`): the catalog of `src/data/questionnaireData.ts`.
  - It keeps ids, types, options, validation, dependencies and result conditions.
  - It proves the catalog well-formed and proves the documented scenarios.
- `results_screen.dfy` (module `ResultsScreen`): the paragraph classifier, bullet cleaning, icon choice, and the choice between results and the fallback card.
  - The JavaScript regular expressions are restated as character predicates.
  - The multi-line heading regex is proved equivalent to its restatement.
- `seqs.dfy` (module `Seqs`) and `wrappers.dfy` (module `Wrappers`): generic sequence helpers (`filter`, `split`, `join`) and `Option`.

JavaScript semantics the model makes explicit:
- A missing answer is `None` (`undefined`), and `String(undefined)` is `"undefined"`.
- `===` is strict, so a number never equals a string.
- `split` with a non-empty separator cuts left to right without overlap.
- Under the `m` flag, `^` and `$` match at `\n`, `\r`, U+2028 and U+2029.
- `[^.!?]` also matches line terminators.
- `\s` and `trim` use the ECMAScript whitespace set.

## Model

| member | source | states |
|---|---|---|
| `Seqs.Filter` | src/utils/resultEvaluator.ts:10-12 | `Array.prototype.filter`, also at src/pages/Index.tsx:68; its lemmas state membership, multiplicity and order |
| `Seqs.Split` | src/components/questionnaire/ResultsScreen.tsx:84 | `String.prototype.split` with a non-empty separator, also at line 96: the pieces between non-overlapping occurrences found left to right; always at least one piece |
| `ResultEvaluator.StrictEquals` | src/utils/resultEvaluator.ts:45 | `===` on an answer and a condition value: both missing, equal strings, or equal numbers; a list never equals an answer |
| `ResultEvaluator.Compare` | src/utils/resultEvaluator.ts:43-76 | the switch on the operator: strict equality, numeric `>`/`<` only when both sides are numbers, list membership of `String(answer)`, and false for every other tag |
| `ResultEvaluator.MainConditionMet` | src/utils/resultEvaluator.ts:38-76 | the main predicate of a condition: the answer under its question id compared by its operator, `and`/`or` being true |
| `ResultEvaluator.SubConditionMet` | src/utils/resultEvaluator.ts:86-114 | a sub-condition compared the same way, except that `and`/`or` fall to the default and are false |
| `ResultEvaluator.SubConditionsHold` | src/utils/resultEvaluator.ts:85-120 | the sub-conditions AND-ed from the first, false at the first failing one |
| `ResultEvaluator.ConditionHolds` | src/utils/resultEvaluator.ts:78-123 | the main predicate holds and, when the list is present and non-empty, every sub-condition holds |
| `ResultEvaluator.ConditionsHold` | src/utils/resultEvaluator.ts:23-28 | the top-level conditions AND-ed from the first, false at the first failing one |
| `ResultEvaluator.Selected` | src/utils/resultEvaluator.ts:10-12 | the filter's test: a statement is shown iff its conditions hold |
| `ResultEvaluator.EvaluateResults` | src/utils/resultEvaluator.ts:6-13 | never returns more statements than it is given |
| `ResultEvaluator.EvaluateResultsExactly` | src/utils/resultEvaluator.ts:10-12 | a statement is in the result iff it is in the catalog and its conditions hold; each is kept as often as the catalog lists it; the result is an order-preserving subsequence of the catalog |
| `ResultEvaluator.EvaluateResultsOfEmpty` | src/utils/resultEvaluator.ts:10-12 | an empty catalog gives an empty result |
| `ResultEvaluator.EvaluateResultsIdempotent` | src/utils/resultEvaluator.ts:10-12 | filtering the result again changes nothing |
| `ResultEvaluator.EvaluateResultsAppend` | src/utils/resultEvaluator.ts:10-12 | statements are judged independently: evaluating a concatenation is concatenating the evaluations |
| `ResultEvaluator.EvaluateResultsNoneSelected` | src/utils/resultEvaluator.ts:10-12 | when no statement is selected the result is empty |
| `ResultEvaluator.EvaluateResultsOnly` | src/utils/resultEvaluator.ts:10-12 | when exactly one statement is selected the result is that statement alone |
| `ResultEvaluator.EvaluateConditions` | src/utils/resultEvaluator.ts:18-29 | the loop with early return yields true iff every top-level condition holds, which is vacuously true for none |
| `ResultEvaluator.ConditionsHoldIffAll` | src/utils/resultEvaluator.ts:23-28 | AND-ing from the first condition and stopping at the first failure means all conditions hold |
| `ResultEvaluator.FirstConditionDecides` | src/utils/resultEvaluator.ts:23-26 | a failing first condition rejects the statement whatever follows |
| `ResultEvaluator.EvaluateCondition` | src/utils/resultEvaluator.ts:34-124 | the switch plus the sub-condition loop yields true iff the main predicate holds and every sub-condition holds |
| `ResultEvaluator.EqualsIsStrict` | src/utils/resultEvaluator.ts:44-46 | `equals` holds only for a string answer equal to a string value or a number answer equal to a number value; a missing answer equals no given value |
| `ResultEvaluator.OrderingNeedsNumbers` | src/utils/resultEvaluator.ts:48-58 | `greaterThan`/`lessThan` hold iff answer and value are both numbers and compare accordingly; this unfolds the definition, and OrderingTrichotomy is its partner |
| `ResultEvaluator.OrderingTrichotomy` | src/utils/resultEvaluator.ts:48-58 | on two numbers exactly one of `greaterThan`, `lessThan` and `equals` holds; a number against a string or a list meets none of them |
| `ResultEvaluator.IncludesUsesStringForm` | src/utils/resultEvaluator.ts:60-64 | `includes` holds iff the value is a list holding the string form of the answer; a missing answer is looked up as "undefined"; this unfolds the definition, and IncludesNumberNeedsNumeral and IntToStringInjective are its partners |
| `ResultEvaluator.IncludesNumberNeedsNumeral` | src/utils/resultEvaluator.ts:62 | a numeric answer passes `includes` only if the list holds its decimal form |
| `ResultEvaluator.DegenerateOperators` | src/utils/resultEvaluator.ts:66-75 | `and`/`or` main predicates are true, unknown tags false; in sub-conditions `and`/`or` fall to the default and are false |
| `ResultEvaluator.MainFailureShortCircuits` | src/utils/resultEvaluator.ts:79-81 | a false main predicate makes the condition false whatever its sub-conditions are |
| `ResultEvaluator.ConditionWithSubConditions` | src/utils/resultEvaluator.ts:84-123 | with a sub-condition list, the condition holds iff the main predicate and every sub-condition hold |
| `ResultEvaluator.NoSubConditionsIsMain` | src/utils/resultEvaluator.ts:84 | an absent or empty sub-condition list reduces the condition to its main predicate |
| `ResultEvaluator.SubConditionsHoldIffAll` | src/utils/resultEvaluator.ts:85-120 | AND-ing sub-conditions with a stop at the first failure means all of them hold |
| `ResultEvaluator.FirstFailingSubConditionDecides` | src/utils/resultEvaluator.ts:116-119 | once a sub-condition fails, whatever follows it is irrelevant |
| `ResultEvaluator.EmptyAnswersSelectNothing` | src/utils/resultEvaluator.ts:38-76 | with no answers, a catalog whose statements each have a condition against a concrete value selects nothing |
| `ResultEvaluator.MatchesUndefined` | src/utils/resultEvaluator.ts:38-76 | the conditions a missing answer can meet: `and`/`or`, an `equals` with no value, or an `includes` list holding "undefined" |
| `ResultEvaluator.EmptyAnswersFailConcreteCondition` | src/utils/resultEvaluator.ts:38-81 | with no answers, every other condition fails |
| `ResultEvaluator.HasConcreteCondition` | src/utils/resultEvaluator.ts:23-28 | some condition of the statement is one a missing answer cannot meet |
| `Types.Lookup` | src/types/questionnaire.ts:67 | answers are keyed by question id; a missing key is `undefined` |
| `Types.NatToDecimal` | src/utils/resultEvaluator.ts:62 | the decimal form of a natural number is non-empty digits with no leading zero |
| `Types.IntToString` | src/utils/resultEvaluator.ts:62 | `String(n)` for an integer: "-" before the decimal form of a negative number |
| `Types.ToStr` | src/pages/Index.tsx:75 | `String(answer)`: "undefined" for a missing answer, the string itself, or the number's decimal form; the same conversion as src/utils/resultEvaluator.ts:62 |
| `Types.NatToDecimalRoundTrip` | src/utils/resultEvaluator.ts:62 | reading the decimal form back gives the number |
| `Types.IntToStringInjective` | src/utils/resultEvaluator.ts:62 | distinct numbers have distinct string forms, so `includes` tells them apart |
| `Types.IntToStringIsNumeral` | src/pages/Index.tsx:75 | the string form of a number is a sign and digits only |
| `Types.ToStrOfNumber` | src/pages/Index.tsx:75 | a number never stringifies to "undefined" |
| `QuestionRenderer.Hidden` | src/components/questionnaire/QuestionRenderer.tsx:16-29 | the guard returning `null`: a dependency on a list not holding the string form of the answer, or on a value the answer is not strictly equal to |
| `QuestionRenderer.RecordedValue` | src/components/questionnaire/QuestionRenderer.tsx:16-29 | a hidden question records nothing |
| `QuestionRenderer.RadioItems` | src/components/questionnaire/QuestionRenderer.tsx:31-74 | a yes-no question offers "yes" and "no", a single-choice question its option values |
| `QuestionRenderer.HandleNumericChange` | src/components/questionnaire/QuestionRenderer.tsx:77-106 | only an empty field records a string, namely ""; a non-empty parsed input always records a number; that number is the parsed value, the max or the min; a parsed number that breaks no present bound is recorded as typed, whichever bounds are present |
| `QuestionRenderer.InBounds` | src/components/questionnaire/QuestionRenderer.tsx:93-105 | the number is at least the min when there is one and at most the max when there is one |
| `QuestionRenderer.NumericEmptyRecordsEmptyString` | src/components/questionnaire/QuestionRenderer.tsx:81-84 | an empty field records "" |
| `QuestionRenderer.NumericNaNRecordsNothing` | src/components/questionnaire/QuestionRenderer.tsx:86-91 | an unparsable field records nothing |
| `QuestionRenderer.NumericClampOrder` | src/components/questionnaire/QuestionRenderer.tsx:93-105 | max is tested first: above max records max (even when max < min), else below min records min, else the number |
| `QuestionRenderer.NumericMinOnly` | src/components/questionnaire/QuestionRenderer.tsx:93-105 | with only a min, a number below it records the min and any other number is recorded as typed |
| `QuestionRenderer.NumericMaxOnly` | src/components/questionnaire/QuestionRenderer.tsx:93-105 | with only a max, a number above it records the max and any other number is recorded as typed |
| `QuestionRenderer.NumericWithinBounds` | src/components/questionnaire/QuestionRenderer.tsx:94-105 | with min <= max the recorded number lies in [min, max]; with only min it is at least min; with only max it is at most max; without validation it is the parsed number |
| `QuestionRenderer.YesNoRecordsYesOrNo` | src/components/questionnaire/QuestionRenderer.tsx:33-53 | a yes-no question records only "yes" or "no" |
| `QuestionRenderer.SingleChoiceRecordsOption` | src/components/questionnaire/QuestionRenderer.tsx:55-74 | a single-choice question records one of its option values |
| `QuestionRenderer.TextRecordsRawString` | src/components/questionnaire/QuestionRenderer.tsx:132-141 | a visible text question records exactly what was typed |
| `IndexPage.IsVisible` | src/pages/Index.tsx:68-78 | the filter's test: no dependency shows the question; a list dependency needs `String(answer)` in the list; a single value needs a strictly equal answer |
| `IndexPage.HasAnswersInSection` | src/pages/Index.tsx:82-85 | some visible question of the section has a recorded answer |
| `IndexPage.VisibleQuestions` | src/pages/Index.tsx:67-79 | the visible questions are no more than the section's |
| `IndexPage.VisibleQuestionsExactly` | src/pages/Index.tsx:67-79 | a question is visible-listed iff it is in the section and passes the test; multiplicities and order are the section's |
| `IndexPage.VisibilityCases` | src/pages/Index.tsx:69-77 | no dependency: shown; a list dependency: shown iff the string form of the answer is listed; a single value: shown iff the answer is that string |
| `IndexPage.SingleValueNeedsString` | src/types/questionnaire.ts:19-22 | a dependency value is a string, so a numeric or missing answer never meets a single-value dependency |
| `IndexPage.HasAnswersInSectionIff` | src/pages/Index.tsx:82-85 | a section has answers iff one of its questions is visible and answered |
| `IndexPage.RendererAgrees` | src/components/questionnaire/QuestionRenderer.tsx:16-29 | the renderer's guard hides a question iff the page's filter drops it |
| `IndexPage.RenderedAreVisible` | src/pages/Index.tsx:154-162 | the questions the renderer shows, section by section, are exactly the visible questions |
| `IndexPage.VehiclePercentageScenario` | src/data/questionnaireData.ts:150-161 | the business-use percentage is hidden when the vehicle question is "no" or unanswered, and shown on "yes" |
| `IndexPage.Wizard.constructor` | src/pages/Index.tsx:19-22 | the initial state is the contact form, no contact data, section 0, no answers, with the catalog's twelve sections |
| `IndexPage.Wizard.Valid` | src/pages/Index.tsx:24-25 | `currentSection` exists: the index is below the number of sections |
| `IndexPage.Wizard.HandleAnswer` | src/pages/Index.tsx:27-32 | sets the answer for the id, keeps every other answer and removes none; nothing else changes |
| `IndexPage.Wizard.HandleNext` | src/pages/Index.tsx:34-43 | before the last section it advances the index and keeps the screen; on the last it shows the results and keeps the index; the button reads "View Results" exactly in that case |
| `IndexPage.Wizard.HandlePrevious` | src/pages/Index.tsx:45-50 | past the first section it steps back, otherwise nothing changes; the previous button is shown exactly when it moves |
| `IndexPage.Wizard.HandleUserInfoSubmit` | src/pages/Index.tsx:52-55 | stores the contact data and shows the welcome screen |
| `IndexPage.Wizard.HandleStart` | src/pages/Index.tsx:57-59 | shows the questionnaire, keeping the index and answers |
| `IndexPage.Wizard.HandleReview` | src/pages/Index.tsx:61-64 | back to the questionnaire at section 0 with every answer kept |
| `IndexPage.Wizard.CurrentSection` | src/pages/Index.tsx:24 | the current section is one of the catalog's sections |
| `IndexPage.Wizard.GetVisibleQuestions` | src/pages/Index.tsx:67-79 | the current section's questions that pass the visibility test, as a subsequence |
| `IndexPage.Wizard.HasAnswers` | src/pages/Index.tsx:82-85 | true iff a question of the current section is visible and answered |
| `IndexPage.Wizard.ShowPrevious` | src/pages/Index.tsx:166 | the previous button is shown past the first section |
| `IndexPage.Wizard.NextLabel` | src/pages/Index.tsx:181 | "Next Section" before the last section, "View Results" on it |
| `IndexPage.Wizard.View` | src/pages/Index.tsx:87-191 | the results screen shows the evaluation of the answers against the catalog; the questionnaire shows the visible questions, a previous button past section 0 and "View Results" on the last section |
| `IndexPage.FreshWizardHasNothing` | src/pages/Index.tsx:82-85 | with no answers no section has answers and no result is selected |
| `QuestionnaireData.Sections` | src/data/questionnaireData.ts:22-436 | the twelve sections in the catalog's order |
| `QuestionnaireData.Section1` | src/data/questionnaireData.ts:23-63 | section 1: its question ids, types, single-choice options, numeric bounds and dependencies |
| `QuestionnaireData.Section2` | src/data/questionnaireData.ts:64-101 | section 2: its question ids, types, single-choice options, numeric bounds and dependencies |
| `QuestionnaireData.Section3` | src/data/questionnaireData.ts:102-139 | section 3: its question ids, types, single-choice options, numeric bounds and dependencies |
| `QuestionnaireData.Section4` | src/data/questionnaireData.ts:140-199 | section 4: its question ids, types, single-choice options, numeric bounds and dependencies |
| `QuestionnaireData.Section5` | src/data/questionnaireData.ts:200-228 | section 5: its question ids, types, single-choice options, numeric bounds and dependencies |
| `QuestionnaireData.Section6` | src/data/questionnaireData.ts:229-257 | section 6: its question ids, types, single-choice options, numeric bounds and dependencies |
| `QuestionnaireData.Section7` | src/data/questionnaireData.ts:258-286 | section 7: its question ids, types, single-choice options, numeric bounds and dependencies |
| `QuestionnaireData.Section8` | src/data/questionnaireData.ts:287-327 | section 8: its question ids, types, single-choice options, numeric bounds and dependencies |
| `QuestionnaireData.Section9` | src/data/questionnaireData.ts:328-347 | section 9: its question ids, types, single-choice options, numeric bounds and dependencies |
| `QuestionnaireData.Section10` | src/data/questionnaireData.ts:348-381 | section 10: its question ids, types, single-choice options, numeric bounds and dependencies |
| `QuestionnaireData.Section11` | src/data/questionnaireData.ts:382-410 | section 11: its question ids, types, single-choice options, numeric bounds and dependencies |
| `QuestionnaireData.Section12` | src/data/questionnaireData.ts:411-435 | section 12: its question ids, types, single-choice options, numeric bounds and dependencies |
| `QuestionnaireData.Results` | src/data/questionnaireData.ts:437-608 | the nine results in the catalog's order |
| `QuestionnaireData.ScorpRule` | src/data/questionnaireData.ts:438-461 | its id and conditions: `q1-structure` includes "llc" or "partnership", with `q1-accountant` "yes" and `q1-revenue` above 55000 |
| `QuestionnaireData.AugustaRule` | src/data/questionnaireData.ts:462-485 | its id and conditions: `q2-own-home` "yes", with `q2-business-meetings` and `q2-documentation` "yes" |
| `QuestionnaireData.PayingKidsRule` | src/data/questionnaireData.ts:486-509 | its id and conditions: `q3-has-children` "yes", with `q3-capable-tasks` and `q3-explore-payroll-strategy` "yes" |
| `QuestionnaireData.VehicleRule` | src/data/questionnaireData.ts:510-521 | its id and conditions: `q4-own-lease-vehicle` "yes" |
| `QuestionnaireData.StartupRule` | src/data/questionnaireData.ts:522-545 | its id and conditions: `q6-new-business` "yes", with `q6-incurred-costs` and `q6-guidance` "yes" |
| `QuestionnaireData.HomeOfficeRule` | src/data/questionnaireData.ts:546-564 | its id and conditions: `q8-home-office` "yes", with `q8-rent-or-mortgage` "yes" |
| `QuestionnaireData.ProfessionalServicesRule` | src/data/questionnaireData.ts:565-576 | its id and conditions: `q9-professional-services` "yes" |
| `QuestionnaireData.TravelMealsRule` | src/data/questionnaireData.ts:577-588 | its id and conditions: `q10-business-travel` "yes" |
| `QuestionnaireData.Solo401kRule` | src/data/questionnaireData.ts:589-607 | its id and conditions: `q12-retirement-plans` "yes", with `q12-solo-401k` "yes" |
| `QuestionnaireData.SectionCount` | src/data/questionnaireData.ts:22-436 | the catalog has twelve sections |
| `QuestionnaireData.IdsOf` | src/data/questionnaireData.ts:22-436 | the ids of a question list, position by position |
| `QuestionnaireData.DependenciesPointBackward` | src/data/questionnaireData.ts:22-436 | every dependency names an earlier question of the same section, so visibility has no cycles |
| `QuestionnaireData.SectionsWellNamed` | src/data/questionnaireData.ts:22-436 | the ids within each section are distinct and carry that section's prefix |
| `QuestionnaireData.PrefixesExclusive` | src/data/questionnaireData.ts:22-436 | no id carries two sections' prefixes |
| `QuestionnaireData.QuestionIdsUnique` | src/data/questionnaireData.ts:22-436 | question ids are unique across the whole catalog |
| `QuestionnaireData.ReferencesResolve` | src/data/questionnaireData.ts:437-607 | every condition and sub-condition names a question of the catalog, and each result reads one section only |
| `QuestionnaireData.ResultsAreConcrete` | src/data/questionnaireData.ts:437-607 | every result has a first condition, and it compares against a concrete value, so the result has a concrete condition |
| `QuestionnaireData.CatalogOperatorsConcrete` | src/data/questionnaireData.ts:437-607 | no catalog condition or sub-condition uses `and`/`or`, and each main condition has a value |
| `QuestionnaireData.NoAnswersNoResults` | src/data/questionnaireData.ts:437-607 | empty answers select no result |
| `QuestionnaireData.ScorpThreshold` | src/data/questionnaireData.ts:438-461 | an LLC with an accountant qualifies for the S corporation rule iff revenue is strictly above 55000 |
| `QuestionnaireData.ScorpScenario` | src/data/questionnaireData.ts:438-461 | at revenue above 55000 exactly the S corporation result is selected (60000 qualifies); at or below it (50000) nothing is |
| `QuestionnaireData.GateIds` | src/data/questionnaireData.ts:462-607 | a yes gate's questions, main question first |
| `QuestionnaireData.YesGateSelection` | src/utils/resultEvaluator.ts:43-123 | a rule of `equals "yes"` tests is selected iff each of its questions is answered "yes" |
| `QuestionnaireData.GatesOfCatalog` | src/data/questionnaireData.ts:462-607 | every result but the S corporation one is a yes gate |
| `QuestionnaireData.AugustaScenario` | src/data/questionnaireData.ts:462-485 | the Augusta rule needs "yes" to home, meetings and documentation; "no" to home or to documentation excludes it |
| `QuestionnaireData.SingleQuestionRules` | src/data/questionnaireData.ts:510-588 | the vehicle, professional-services and travel results each hang on one `equals "yes"` with no sub-conditions, and are selected iff that answer is "yes" |
| `QuestionnaireData.StructureValuesAreOptions` | src/data/questionnaireData.ts:28-37 | the structures the S corporation rule accepts are option values of the structure question |
| `ResultsScreen.IsLineTerminator` | src/components/questionnaire/ResultsScreen.tsx:86 | the characters at which `^` and `$` match under the `m` flag |
| `ResultsScreen.IsWhitespace` | src/components/questionnaire/ResultsScreen.tsx:100-101 | the characters `trim()` removes and `\s` matches |
| `ResultsScreen.IsGlyph` | src/components/questionnaire/ResultsScreen.tsx:95 | the four bullet glyphs `•`, `✓`, `✗`, `□` |
| `ResultsScreen.MatchAt` | src/components/questionnaire/ResultsScreen.tsx:86 | the regex matches between two positions: a line start, a capital, no stop (line terminators allowed), a line end |
| `ResultsScreen.HeadingRegexMatches` | src/components/questionnaire/ResultsScreen.tsx:86 | `/^[A-Z][^.!?]*$/m` matches somewhere in the paragraph |
| `ResultsScreen.LineEnd` | src/components/questionnaire/ResultsScreen.tsx:86 | the first line terminator at or after a position, or the end; the line up to it holds none |
| `ResultsScreen.HasHeadingLine` | src/components/questionnaire/ResultsScreen.tsx:86 | some line from a line start on begins with a capital and holds no stop |
| `ResultsScreen.IsHeading` | src/components/questionnaire/ResultsScreen.tsx:86 | some line starts with a capital and holds no stop, and the paragraph is under 100 characters |
| `ResultsScreen.HasGlyph` | src/components/questionnaire/ResultsScreen.tsx:95 | some character of the paragraph is a glyph |
| `ResultsScreen.Icon` | src/components/questionnaire/ResultsScreen.tsx:102-110 | the leading glyph, or `•` |
| `ResultsScreen.ToneOf` | src/components/questionnaire/ResultsScreen.tsx:105-109 | `✓` is primary, `✗` destructive, anything else, also no glyph, muted |
| `ResultsScreen.IsBlank` | src/components/questionnaire/ResultsScreen.tsx:100 | `line.trim()` is empty: every character is whitespace |
| `ResultsScreen.NonBlankLines` | src/components/questionnaire/ResultsScreen.tsx:99-117 | the lines that yield an item, in order; blank lines render `null` |
| `ResultsScreen.MakeBullet` | src/components/questionnaire/ResultsScreen.tsx:100-113 | an item: the icon, the tone of the matched glyph, and the cleaned line |
| `ResultsScreen.BulletItems` | src/components/questionnaire/ResultsScreen.tsx:96-117 | one item per line whose trim is not empty |
| `ResultsScreen.Classify` | src/components/questionnaire/ResultsScreen.tsx:86-127 | the heading test first, then the glyph test, else a plain paragraph |
| `ResultsScreen.Paragraphs` | src/components/questionnaire/ResultsScreen.tsx:84 | `content.split('\n\n')` |
| `ResultsScreen.RenderResults` | src/components/questionnaire/ResultsScreen.tsx:72-141 | the fallback card iff there are no results; otherwise one card per result, in order, with its id, title and rendered content |
| `ResultsScreen.RenderContent` | src/components/questionnaire/ResultsScreen.tsx:84-128 | one block per paragraph, in order: block i is the classification of paragraph i |
| `ResultsScreen.ParagraphsCoverContent` | src/components/questionnaire/ResultsScreen.tsx:84 | the paragraphs joined with blank lines give the content back, and none contains a blank line |
| `ResultsScreen.HeadingLineIffRegex` | src/components/questionnaire/ResultsScreen.tsx:86 | the line-by-line heading test agrees with the multi-line regex `^[A-Z][^.!?]*$` |
| `ResultsScreen.ClassifyCases` | src/components/questionnaire/ResultsScreen.tsx:86-127 | a heading iff the regex matches and the length is under 100; else a bullet list iff a glyph occurs; else a paragraph; headings and paragraphs keep the text |
| `ResultsScreen.BulletItemsFollowLines` | src/components/questionnaire/ResultsScreen.tsx:96-117 | one item per non-blank line, lines kept in order, each the cleaned line with its icon and the icon's tone |
| `ResultsScreen.LeadingGlyph` | src/components/questionnaire/ResultsScreen.tsx:102 | a glyph is matched iff the line starts with one, and then it is that character |
| `ResultsScreen.DropWhitespace` | src/components/questionnaire/ResultsScreen.tsx:101 | removes the longest whitespace prefix and nothing else |
| `ResultsScreen.CleanLine` | src/components/questionnaire/ResultsScreen.tsx:101 | removes at most one leading glyph and the whitespace after it; a line without a glyph is unchanged |
| `ResultsScreen.IconAndTone` | src/components/questionnaire/ResultsScreen.tsx:102-110 | the icon is the leading glyph or `•`; `✓` is primary, `✗` destructive, the rest muted |
| `ResultsScreen.SingleLineHeading` | src/components/questionnaire/ResultsScreen.tsx:86 | a one-line paragraph has a heading line iff it starts with a capital and has no stop |
| `ResultsScreen.HeadingExample` | src/components/questionnaire/ResultsScreen.tsx:86-92 | "IRS Reference:" is a heading |
| `ResultsScreen.QuestionExample` | src/components/questionnaire/ResultsScreen.tsx:86-127 | "Why not?", a one-line question, is a plain paragraph |
| `ResultsScreen.TwoLineParagraph` | src/components/questionnaire/ResultsScreen.tsx:84 | two lines joined by one line break stay one paragraph |
| `ResultsScreen.TwoLineSplit` | src/components/questionnaire/ResultsScreen.tsx:96 | two lines joined by one line break split back into the two lines |
| `ResultsScreen.TwoLinesNoHeading` | src/components/questionnaire/ResultsScreen.tsx:86 | two lines neither of which starts with a capital hold no heading line |
| `ResultsScreen.TwoGlyphLines` | src/components/questionnaire/ResultsScreen.tsx:86-120 | two glyph-led lines make a bullet list of two items, one per line, in order |
| `ResultsScreen.GlyphSpaceWord` | src/components/questionnaire/ResultsScreen.tsx:101-110 | a glyph, a space and a word make an item with that glyph as icon, its tone, and the word as text |
| `ResultsScreen.BulletExample` | src/components/questionnaire/ResultsScreen.tsx:84-120 | "✓ Log" and "✗ Tip" on two lines are one paragraph and a bullet list of two items, the first primary, the second destructive, with texts "Log" and "Tip" |

## Left out

- Markup, styling, `Header.tsx`, `Footer.tsx` and `WelcomeScreen.tsx`: presentation only. The welcome and thank-you texts and the catalog's prose are not modelled: each result's `title` and `content` are the empty string in the catalog, and question texts and option labels are dropped. The classifier is shown on small literal strings instead.
- `ProgressBar.tsx`: its only computation is a floating-point percentage.
- `UserInfoForm.tsx`: validation by a schema library that is not visible here; `UserInfo` is three strings.
- `window.scrollTo` and React's state batching and re-rendering: host plumbing. The handlers are modelled as immediate updates of the wizard's fields.
- Numbers are integers: `Number(value)` and `isNaN` are a parameter (`Some(n)` or `None` for NaN), and fractional numbers and floating-point comparison are not modelled.
- Types.Lookup: answers are read as own keys only, a missing key being `undefined`. The source's answers are a plain `{}` object, so `answers[id]` also returns members inherited from `Object.prototype` for ids such as "constructor", "toString", "valueOf" or "__proto__", which are then never `undefined`; for those ids the general lemmas about missing answers (EqualsIsStrict, MatchesUndefined, HasAnswersInSectionIff and the `includes` "undefined" case) do not describe the source. Every catalog id starts with a section prefix such as "q1-", which no `Object.prototype` member has, so the two agree on the catalog's questions.
- Types.NatToDecimal, Types.IntToString and Types.ToStr: JavaScript numbers are doubles, so integers are exact only up to 2^53 and `String(n)` switches to exponent form (`"1e+21"`) at magnitudes of 10^21 and above; these functions, and the `includes` and list-dependency tests built on them, agree with the source only below those limits.
- String lengths and characters are Unicode code points, where JavaScript counts UTF-16 units; the heading test's `length < 100` agrees for the Basic Multilingual Plane.
- `Option.conditionalQuestions` and `Section.description` are unused by the core and left out; `validation.required` is modelled as a flag but has no behaviour.
- The `equals` operator with no `value` is strictly equal to a missing answer (`undefined === undefined`), so such a condition holds on an unanswered question; the model follows the code.
- An `includes` list on a missing answer compares the string "undefined"; the model follows the code.
- Operator tags outside the declared union are represented by `Unrecognized` and take the default branches.
