# Survey form: validator and submit state machine

This project models the logic of a single-page survey form (a React
component). A respondent fills in ten inputs whose values are strings (text fields,
selects, a text area and a number field). The validator checks
them: four are always required, and the selected survey topic (Technology,
Health or Education) switches on two more. A submit either shows the errors
or asks a remote question service for follow-up questions and then shows a
summary.

- `text_rules.dfy` (module `TextRules`): JavaScript's whitespace class `\s`.
  It also holds the unanchored search for `\S+@\S+\.\S+`, given two ways: as
  the literal regular-expression meaning (some substring matches) and as a
  scanning function, with lemmas that the two agree. The numeric test behind
  `isNaN(v) || v <= 0` is given for unsigned decimal text.
- `survey_form.dfy` (module `SurveyForm`): the ten inputs (`Field`, `FormData`)
  and single-input replacement. The validator is written as the source writes
  it: seven successive checks that each may record one message in a map.
  Beside it stands a per-input reference statement of the rules
  (`FieldViolation`, `ExpectedError`); the validator's contract says the two
  agree, and one lemma per rule spells each rule out.
- `form_session.dfy` (module `FormSession`): the component state as a class
  `SurveySession` with the four cells `formData`, `errors`, `submitted` and
  `additionalQuestions`. It has the edit and submit events as methods. The
  question service's answer is a parameter (`Fetched(questions)` or
  `FetchFailed`), and the submit method returns the request it would make
  (the survey topic) or `None`. A ghost history of submit attempts, and
  functions of that history, define what the three result cells hold after
  any sequence of events. The lemmas about those functions state the
  session's invariants. Scenario methods replay concrete sessions.

The model follows the code, including where a reader might expect otherwise:

- A valid submit whose request is answered does not clear `errors`.
  Messages from an earlier rejected submit stay stored in `errors` while the
  summary is shown (`FormSession.ErrorsStoredIffEverRejected`,
  `FormSession.ScenarioStaleErrors`).
- A failed request changes none of the state cells.
- The source does not check the HTTP status, so only a thrown error (network
  failure, body that is not JSON) is a failure. See "Left out" for bodies that
  parse but lack `questions`.

## Model

| member | source | states |
|---|---|---|
| `SurveyForm.EmptyForm` | src/SurveyForm.js:4-15 | the record a form starts from has every one of the ten inputs empty |
| `SurveyForm.FormData.With` | src/SurveyForm.js:23 | the edited input takes the new value and every other input keeps its value |
| `SurveyForm.WithLaws` | src/SurveyForm.js:21-24 | writing back an input's current value changes nothing; a second edit of the same input overrides the first |
| `SurveyForm.TopicOf` | src/SurveyForm.js:35-47 | a topic is selected exactly when the topic value equals one of the three names, and it is the topic of that name |
| `SurveyForm.CheckFullName` | src/SurveyForm.js:28 | the full-name check records the full-name message when it is due and leaves every other entry unchanged |
| `SurveyForm.CheckEmail` | src/SurveyForm.js:29-33 | the email check records the single due email message, "required" before "invalid", and leaves every other entry unchanged |
| `SurveyForm.CheckSurveyTopic` | src/SurveyForm.js:34 | the topic check records the "required" message when it is due and leaves every other entry unchanged |
| `SurveyForm.CheckTechnology` | src/SurveyForm.js:35-42 | the Technology block records the due language and years messages only under Technology and leaves every other entry unchanged |
| `SurveyForm.CheckHealth` | src/SurveyForm.js:43-46 | the Health block records the due frequency and diet messages only under Health and leaves every other entry unchanged |
| `SurveyForm.CheckEducation` | src/SurveyForm.js:47-50 | the Education block records the due qualification and field-of-study messages only under Education and leaves every other entry unchanged |
| `SurveyForm.CheckFeedback` | src/SurveyForm.js:51-55 | the feedback check records the single due feedback message, "required" before "too short", and leaves every other entry unchanged |
| `SurveyForm.ChecksCoverAllFields` | src/SurveyForm.js:27-56 | seven checks that own every input between them, run from an empty map, leave exactly the expected message on each input |
| `SurveyForm.Validate` | src/SurveyForm.js:26-57 | the validator's map holds, for every input, exactly the message of the first rule the input breaks, and no key for inputs that break none |
| `SurveyForm.FullNameRule` | src/SurveyForm.js:28 | full name is reported iff it is empty, with "Full Name is required" |
| `SurveyForm.EmailRule` | src/SurveyForm.js:29-33 | an empty email gets "Email is required"; a filled one with no substring matching the pattern gets "Email is invalid"; any other email gets no key |
| `SurveyForm.SurveyTopicRule` | src/SurveyForm.js:34 | the topic is reported iff it is empty, whatever the other inputs hold |
| `SurveyForm.TopicFieldsGated` | src/SurveyForm.js:35-50 | a topic-specific input is reported only when the topic value is exactly that input's topic name |
| `SurveyForm.UnrecognisedTopicRule` | src/SurveyForm.js:34-50 | a non-empty topic that is none of the three yields no topic error and no topic-specific error |
| `SurveyForm.TechnologyRules` | src/SurveyForm.js:35-42 | under Technology the language is reported iff empty; years get "required" when empty, the number message when filled but not a positive number, and no key otherwise |
| `SurveyForm.YearsWithoutNonZeroDigitRejected` | src/SurveyForm.js:39-40 | under Technology, filled years with no digit 1 to 9 and no letter (such as "0", "0.0", "-0" or ".") read as zero or as not a number and get the number message |
| `SurveyForm.HealthRules` | src/SurveyForm.js:43-46 | under Health, exercise frequency and diet preference are each reported iff empty |
| `SurveyForm.EducationRules` | src/SurveyForm.js:47-50 | under Education, highest qualification and field of study are each reported iff empty |
| `SurveyForm.FeedbackRule` | src/SurveyForm.js:51-55 | empty feedback gets "required"; 1 to 49 characters get "at least 50 characters" and never "required"; 50 or more get no key |
| `SurveyForm.ValidIffNoViolation` | src/SurveyForm.js:26-62 | the form passes (empty map) exactly when no input breaks any rule |
| `SurveyForm.ValidateIgnoresInactiveFields` | src/SurveyForm.js:35-50 | two records that agree on every input the topic activates give the same errors |
| `SurveyForm.EditingInactiveFieldKeepsErrors` | src/SurveyForm.js:35-50 | editing an input that the current topic leaves inactive does not change the validator's result |
| `TextRules.DomainFromCorrect` | src/SurveyForm.js:31 | the domain scan succeeds exactly when a non-whitespace run starting there ends in a dot followed by a non-whitespace character |
| `TextRules.MatchFromCorrect` | src/SurveyForm.js:31 | the `@` scan succeeds exactly when some `@` at or after the start position has a non-whitespace character before it and a domain after it |
| `TextRules.AnchorsIffPattern` | src/SurveyForm.js:31 | an `@` and a dot in those positions exist exactly when some substring matches `\S+@\S+\.\S+` |
| `TextRules.IsEmailLike` | src/SurveyForm.js:31 | the email test answers exactly what the unanchored search for `\S+@\S+\.\S+` answers, with `\s` as JavaScript defines it |
| `TextRules.DigitsValuePositive` | src/SurveyForm.js:39 | the digits of a text make a positive number exactly when one of them is 1 to 9 |
| `TextRules.OnlyDigitsAndDotsIff` | src/SurveyForm.js:39 | the recursive character scan accepts exactly the texts made only of digits and dots |
| `TextRules.IsPositiveNumber` | src/SurveyForm.js:39 | the number test accepts exactly the texts made of digits with at most one dot and a digit from 1 to 9 |
| `FormSession.SurveySession.constructor` | src/SurveyForm.js:4-19 | a new session has every input empty, no errors, not submitted and no questions |
| `FormSession.SurveySession.HandleChange` | src/SurveyForm.js:21-24 | an edit replaces one input and leaves the other inputs and the other three cells unchanged |
| `FormSession.SurveySession.HandleSubmit` | src/SurveyForm.js:59-75 | invalid: the errors are stored, the flag is cleared, the questions are kept and no request is made; valid: one request for the topic is made; answered: questions replaced and flag set with errors kept; failed: nothing changes |
| `FormSession.ConsistentAppend` | src/SurveyForm.js:61-74 | recording an attempt that took the branch its validation selects keeps the history consistent |
| `FormSession.SubmittedIffLastOutcomeAnswered` | src/SurveyForm.js:62-73 | the flag is set exactly when some attempt was answered and every later attempt went unanswered |
| `FormSession.ErrorsStoredIffEverRejected` | src/SurveyForm.js:62-73 | the `errors` cell is non-empty exactly when some submit was ever rejected, because a valid submit never clears them |
| `FormSession.QuestionsFromOneAnswer` | src/SurveyForm.js:66 | the stored questions are empty or the whole list of one answer, never an accumulation |
| `FormSession.SessionInvariants` | src/SurveyForm.js:59-75 | in any reachable session the flag is set iff some submit was answered with only unanswered ones after it, the `errors` cell is non-empty iff some submit was rejected, and the questions are none or one answer's list |
| `FormSession.FillHealthSurvey` | src/SurveyForm.js:21-24 | six edits set the Health survey's inputs and leave everything else unchanged |
| `FormSession.JoTechnologyAttempt` | src/SurveyForm.js:26-57 | a Technology record with an email lacking a domain, no language, years "-1" and short feedback gets exactly the email, language, years and feedback messages |
| `FormSession.ScenarioInvalidTechnology` | src/SurveyForm.js:26-75 | an invalid Technology submit shows exactly the email, language, years and feedback errors, clears the flag and makes no request |
| `FormSession.JoLeeHealthSurvey` | src/SurveyForm.js:26-57 | a Health record with name, a valid email, both Health inputs and 51 characters of feedback passes with no errors |
| `FormSession.ScenarioAnswered` | src/SurveyForm.js:59-67 | a complete Health submit makes one request for "Health" and ends with no errors, the flag set and the answered questions |
| `FormSession.ScenarioUnanswered` | src/SurveyForm.js:59-70 | the same submit with a failed request leaves no errors, the flag clear and no questions |
| `FormSession.ScenarioStaleErrors` | src/SurveyForm.js:59-75 | after an empty submit and then a complete answered one, the summary flag is set while "Full Name is required" is still stored |

## Left out

- Rendering: the form markup, conditional display of topic blocks and the summary (src/SurveyForm.js:77-228) are presentation only. The model speaks of the stored `errors` cell, not of what the page shows: a topic input's stored message is rendered only inside its topic's block (src/SurveyForm.js:106, :130, :159), so after the topic is changed it stays in `errors` but is hidden.
- The request itself: the URL built from the topic, `fetch`, `response.json()` and `console.error` are network I/O and logging. The submit method returns the topic the request is addressed by, and the answer is a parameter.
- `e.preventDefault()` is a browser-event detail with no state.
- Asynchrony: a submit is one atomic step. Overlapping submits whose answers arrive out of order, and edits made while a request is outstanding, are not modelled.
- src/App.js only mounts the component.
- Edit events for a name outside the ten inputs are not modelled; the inputs' `name` attributes are always one of the ten.
- SurveyForm.TechnologyRules: the number test covers unsigned decimal text only (digits with at most one dot). JavaScript's `Number` also accepts signs, surrounding whitespace, exponents, hex/octal/binary prefixes and `Infinity`, and the model rejects all of these. The model therefore gives the number message for "+5", " 5", "1e3" and "0x10", which the source accepts. It also does not round: `Number` reads the text as a double, so a decimal too small to represent (such as "0." followed by 400 zeros and a "1") becomes 0 and gets the number message in the source, while the model accepts it because it has a non-zero digit.
- TextRules.IsPositiveNumber: models `!(isNaN(v) || v <= 0)` only on unsigned decimal text and without rounding to a double; the differences are those listed for SurveyForm.TechnologyRules.
- SurveyForm.YearsWithoutNonZeroDigitRejected: stated for texts without letters. Texts with letters and no digit 1 to 9, such as "Infinity" or "0xA", are numbers greater than 0 to JavaScript and are accepted by the source; the model rejects them, as TechnologyRules' line says.
- SurveyForm.FeedbackRule: strings are sequences of Unicode code points throughout the model, so the feedback length checked by SurveyForm.CheckFeedback, SurveyForm.FieldViolation and therefore SurveyForm.Validate counts code points. JavaScript's `length` counts UTF-16 code units, so text with characters outside the Basic Multilingual Plane is shorter here than in the source.
- FormSession.SurveySession.HandleSubmit: an answer whose body parses but has no `questions` list is not modelled. The source would store `undefined` and set the flag. The model's answers always carry a list of strings.
