/** The form's session state (field values, stored errors, the submitted flag
    and the questions fetched after a valid submit) and the two events that
    change it: editing one input and submitting the form. The question
    service is not called; the answer it would give is a parameter. */
module FormSession {
  import opened SurveyForm

  /** What the question service gives for one request: the `questions` list
      of its answer, or a failure (transport error, unreadable body). */
  datatype FetchOutcome = Fetched(questions: seq<string>) | FetchFailed

  /** One submit attempt, with the branch it took. */
  datatype Attempt =
    | Rejected(form: FormData)
    | Answered(form: FormData, questions: seq<string>)
    | Unanswered(form: FormData)

  /** Each recorded attempt took the branch its form's validation selects. */
  ghost predicate Consistent(h: seq<Attempt>) {
    forall i :: 0 <= i < |h| ==> (h[i].Rejected? <==> Validate(h[i].form) != map[])
  }

  /** Recording an attempt that took its proper branch keeps the history
      consistent. */
  lemma ConsistentAppend(h: seq<Attempt>, a: Attempt)
    requires Consistent(h)
    requires a.Rejected? <==> Validate(a.form) != map[]
    ensures Consistent(h + [a])
  {
    forall i | 0 <= i < |h + [a]|
      ensures (h + [a])[i].Rejected? <==> Validate((h + [a])[i].form) != map[]
    {
      if i < |h| {
        assert (h + [a])[i] == h[i];
      }
    }
  }

  /** The errors stored after a history of attempts: those of the latest
      rejected attempt; none before the first rejection. */
  function ErrorsAfter(h: seq<Attempt>): Errors {
    if h == [] then map[]
    else
      match h[|h| - 1]
      case Rejected(form) => Validate(form)
      case _ => ErrorsAfter(h[..|h| - 1])
  }

  /** The submitted flag after a history of attempts: set by an answered
      attempt, cleared by a rejected one, untouched by an unanswered one. */
  function SubmittedAfter(h: seq<Attempt>): bool {
    if h == [] then false
    else
      match h[|h| - 1]
      case Rejected(_) => false
      case Answered(_, _) => true
      case Unanswered(_) => SubmittedAfter(h[..|h| - 1])
  }

  /** The fetched questions after a history of attempts: those of the latest
      answered attempt; none before the first answer. */
  function QuestionsAfter(h: seq<Attempt>): seq<string> {
    if h == [] then []
    else
      match h[|h| - 1]
      case Answered(_, questions) => questions
      case _ => QuestionsAfter(h[..|h| - 1])
  }

  class SurveySession {
    var formData: FormData
    var errors: Errors
    var submitted: bool
    var additionalQuestions: seq<string>
    /** Every submit attempt so far, oldest first. */
    ghost var attempts: seq<Attempt>

    /** The three result cells are what the attempt history makes of them. */
    ghost predicate Valid()
      reads this
    {
      && Consistent(attempts)
      && errors == ErrorsAfter(attempts)
      && submitted == SubmittedAfter(attempts)
      && additionalQuestions == QuestionsAfter(attempts)
    }

    /** A new session: every input empty, no errors, not submitted, no questions. */
    constructor ()
      ensures Valid() && attempts == []
      ensures formData == EmptyForm() && errors == map[]
      ensures !submitted && additionalQuestions == []
    {
      formData := EmptyForm();
      errors := map[];
      submitted := false;
      additionalQuestions := [];
      attempts := [];
    }

    /** An edit event: one input takes the new value, nothing else changes. */
    method HandleChange(name: Field, value: string)
      requires Valid()
      modifies this
      ensures Valid()
      ensures formData == old(formData).With(name, value)
      ensures errors == old(errors) && submitted == old(submitted)
      ensures additionalQuestions == old(additionalQuestions) && attempts == old(attempts)
    {
      formData := formData.With(name, value);
    }

    /** A submit event. Invalid: the errors are stored, the flag cleared, and no
        request is made. Valid: one request for the survey topic is made; an
        answer stores its questions and sets the flag, a failure changes
        nothing. The stored errors are never cleared by a valid submit. */
    method HandleSubmit(outcome: FetchOutcome) returns (request: Option<string>)
      requires Valid()
      modifies this
      ensures Valid()
      ensures formData == old(formData)
      ensures Validate(formData) != map[] ==>
        && request == None
        && errors == Validate(formData) && !submitted
        && additionalQuestions == old(additionalQuestions)
        && attempts == old(attempts) + [Rejected(formData)]
      ensures Validate(formData) == map[] ==> request == Some(formData.surveyTopic)
      ensures Validate(formData) == map[] && outcome.Fetched? ==>
        && errors == old(errors) && submitted
        && additionalQuestions == outcome.questions
        && attempts == old(attempts) + [Answered(formData, outcome.questions)]
      ensures Validate(formData) == map[] && outcome.FetchFailed? ==>
        && errors == old(errors) && submitted == old(submitted)
        && additionalQuestions == old(additionalQuestions)
        && attempts == old(attempts) + [Unanswered(formData)]
    {
      var validationErrors := Validate(formData);
      ghost var attempt: Attempt;
      if |validationErrors| == 0 {
        request := Some(formData.surveyTopic);
        match outcome
        case Fetched(questions) =>
          additionalQuestions := questions;
          submitted := true;
          attempt := Answered(formData, questions);
        case FetchFailed =>
          attempt := Unanswered(formData);
      } else {
        request := None;
        errors := validationErrors;
        submitted := false;
        attempt := Rejected(formData);
      }
      ConsistentAppend(attempts, attempt);
      attempts := attempts + [attempt];
      assert attempts[..|attempts| - 1] == old(attempts);
    }
  }

  /** Every attempt after the i-th went unanswered. */
  ghost predicate OnlyUnansweredAfter(h: seq<Attempt>, i: nat) {
    forall j :: i < j < |h| ==> h[j].Unanswered?
  }

  /** The flag is set exactly when some attempt was answered and every later
      attempt went unanswered: a rejection clears it, a failed request leaves
      it as it was. */
  lemma {:induction false} SubmittedIffLastOutcomeAnswered(h: seq<Attempt>)
    ensures SubmittedAfter(h) <==>
      exists i :: 0 <= i < |h| && h[i].Answered? && OnlyUnansweredAfter(h, i)
  {
    if h != [] {
      var p := h[..|h| - 1];
      var n := |h| - 1;
      SubmittedIffLastOutcomeAnswered(p);
      if SubmittedAfter(h) {
        if h[n].Answered? {
          assert OnlyUnansweredAfter(h, n);
        } else {
          var i :| 0 <= i < |p| && p[i].Answered? && OnlyUnansweredAfter(p, i);
          assert h[i] == p[i];
          assert OnlyUnansweredAfter(h, i) by {
            forall j | i < j < |h| ensures h[j].Unanswered? {
              if j < n { assert h[j] == p[j]; }
            }
          }
        }
      }
      if i :| 0 <= i < |h| && h[i].Answered? && OnlyUnansweredAfter(h, i) {
        if i < n {
          assert h[n].Unanswered?;
          assert p[i] == h[i];
          assert OnlyUnansweredAfter(p, i) by {
            forall j | i < j < |p| ensures p[j].Unanswered? {
              assert p[j] == h[j];
            }
          }
        }
      }
    }
  }

  /** In a consistent history, errors are stored exactly when some
      attempt was ever rejected: a valid submit never clears them. */
  lemma {:induction false} ErrorsStoredIffEverRejected(h: seq<Attempt>)
    requires Consistent(h)
    ensures ErrorsAfter(h) != map[] <==> exists i :: 0 <= i < |h| && h[i].Rejected?
  {
    if h != [] {
      var p := h[..|h| - 1];
      var n := |h| - 1;
      assert Consistent(p) by {
        forall i | 0 <= i < |p| ensures p[i].Rejected? <==> Validate(p[i].form) != map[] {
          assert p[i] == h[i];
        }
      }
      ErrorsStoredIffEverRejected(p);
      if h[n].Rejected? {
        assert Validate(h[n].form) != map[];
      } else {
        if i :| 0 <= i < |p| && p[i].Rejected? {
          assert h[i] == p[i];
        }
        if i :| 0 <= i < |h| && h[i].Rejected? {
          assert i < n;
          assert p[i] == h[i];
        }
      }
    }
  }

  /** The stored questions are the whole list of one answer, never a
      concatenation of several. */
  lemma {:induction false} QuestionsFromOneAnswer(h: seq<Attempt>)
    ensures QuestionsAfter(h) == [] ||
      exists i :: 0 <= i < |h| && h[i].Answered? && h[i].questions == QuestionsAfter(h)
  {
    if h != [] && !h[|h| - 1].Answered? {
      var p := h[..|h| - 1];
      QuestionsFromOneAnswer(p);
      if QuestionsAfter(p) != [] {
        var i :| 0 <= i < |p| && p[i].Answered? && p[i].questions == QuestionsAfter(p);
        assert h[i] == p[i];
      }
    }
  }

  /** The invariants of a live session, read off its attempt history: the
      flag is set exactly when some submit was answered and every later one
      went unanswered; errors are stored exactly when some submit was
      rejected; the stored questions are none or one answer's whole list. */
  lemma SessionInvariants(s: SurveySession)
    requires s.Valid()
    ensures s.submitted <==>
      exists i :: 0 <= i < |s.attempts| && s.attempts[i].Answered? && OnlyUnansweredAfter(s.attempts, i)
    ensures s.errors != map[] <==> exists i :: 0 <= i < |s.attempts| && s.attempts[i].Rejected?
    ensures s.additionalQuestions == [] ||
      exists i :: 0 <= i < |s.attempts| && s.attempts[i].Answered? && s.attempts[i].questions == s.additionalQuestions
  {
    SubmittedIffLastOutcomeAnswered(s.attempts);
    ErrorsStoredIffEverRejected(s.attempts);
    QuestionsFromOneAnswer(s.attempts);
  }

  /** A feedback text long enough to be accepted. */
  const LongFeedback := "The survey was clear and the questions were useful."

  /** Jo's Technology attempt: an email without a domain, no language,
      negative years and a short feedback. */
  function JoTechnologyAttempt(): (d: FormData)
    ensures Validate(d) == map[
      Email := "Email is invalid",
      FavoriteProgrammingLanguage := "Favorite Programming Language is required",
      YearsOfExperience := "Years of Experience must be a number greater than 0",
      Feedback := "Feedback must be at least 50 characters"]
  {
    var d := FormData("Jo", "bad", "Technology", "", "-1", "", "", "", "", "short");
    var e1 := CheckFullName(d, map[]);
    assert e1 == map[];
    var e2 := CheckEmail(d, e1);
    assert e2 == map[Email := "Email is invalid"];
    var e3 := CheckSurveyTopic(d, e2);
    assert e3 == e2;
    var e4 := CheckTechnology(d, e3);
    assert e4 == e3[FavoriteProgrammingLanguage := "Favorite Programming Language is required"]
                   [YearsOfExperience := "Years of Experience must be a number greater than 0"];
    var e7 := CheckFeedback(d, CheckEducation(d, CheckHealth(d, e4)));
    assert e7 == e4[Feedback := "Feedback must be at least 50 characters"];
    assert Validate(d) == e7;
    d
  }

  /** Jo enters the Technology attempt field by field and submits it: four
      errors, no request. */
  method ScenarioInvalidTechnology() returns (errors: Errors, submitted: bool, request: Option<string>)
    ensures request == None && !submitted
    ensures errors == map[
      Email := "Email is invalid",
      FavoriteProgrammingLanguage := "Favorite Programming Language is required",
      YearsOfExperience := "Years of Experience must be a number greater than 0",
      Feedback := "Feedback must be at least 50 characters"]
  {
    var session := new SurveySession();
    session.HandleChange(FullName, "Jo");
    session.HandleChange(Email, "bad");
    session.HandleChange(SurveyTopic, "Technology");
    session.HandleChange(YearsOfExperience, "-1");
    session.HandleChange(Feedback, "short");
    assert session.formData == JoTechnologyAttempt();
    assert Email in Validate(session.formData);
    request := session.HandleSubmit(FetchFailed);
    errors, submitted := session.errors, session.submitted;
  }

  /** Enters a complete Health survey for Jo Lee. */
  method FillHealthSurvey(session: SurveySession)
    requires session.Valid()
    modifies session
    ensures session.Valid()
    ensures session.formData == old(session.formData).(
      fullName := "Jo Lee", email := "jo@x.com", surveyTopic := "Health",
      exerciseFrequency := "Daily", dietPreference := "Vegan", feedback := LongFeedback)
    ensures session.errors == old(session.errors) && session.submitted == old(session.submitted)
    ensures session.additionalQuestions == old(session.additionalQuestions)
    ensures session.attempts == old(session.attempts)
  {
    session.HandleChange(FullName, "Jo Lee");
    session.HandleChange(Email, "jo@x.com");
    session.HandleChange(SurveyTopic, "Health");
    session.HandleChange(ExerciseFrequency, "Daily");
    session.HandleChange(DietPreference, "Vegan");
    session.HandleChange(Feedback, LongFeedback);
  }

  /** The record FillHealthSurvey leaves in a new session. */
  function JoLeeHealthSurvey(): (d: FormData)
    ensures Validate(d) == map[]
  {
    FormData("Jo Lee", "jo@x.com", "Health", "", "", "Daily", "Vegan", "", "", LongFeedback)
  }

  /** A complete Health survey whose request is answered with two questions. */
  method ScenarioAnswered() returns (errors: Errors, submitted: bool, questions: seq<string>, request: Option<string>)
    ensures errors == map[] && submitted && questions == ["Q1", "Q2"]
    ensures request == Some("Health")
  {
    var session := new SurveySession();
    session.HandleChange(FavoriteProgrammingLanguage, "Python");
    FillHealthSurvey(session);
    assert Validate(session.formData) == map[];
    request := session.HandleSubmit(Fetched(["Q1", "Q2"]));
    errors, submitted, questions := session.errors, session.submitted, session.additionalQuestions;
  }

  /** The same survey whose request fails: nothing visible changes. */
  method ScenarioUnanswered() returns (errors: Errors, submitted: bool, questions: seq<string>, request: Option<string>)
    ensures errors == map[] && !submitted && questions == []
    ensures request == Some("Health")
  {
    var session := new SurveySession();
    FillHealthSurvey(session);
    assert session.formData == JoLeeHealthSurvey();
    request := session.HandleSubmit(FetchFailed);
    errors, submitted, questions := session.errors, session.submitted, session.additionalQuestions;
  }

  /** An empty submit followed by a complete, answered one: the summary is
      shown while the errors of the first attempt stay stored. */
  method ScenarioStaleErrors() returns (errors: Errors, submitted: bool)
    ensures submitted
    ensures FullName in errors && errors[FullName] == "Full Name is required"
  {
    var session := new SurveySession();
    assert Lookup(Validate(EmptyForm()), FullName) == Some("Full Name is required") by {
      assert Lookup(Validate(EmptyForm()), FullName) == ExpectedError(EmptyForm(), FullName);
    }
    var _ := session.HandleSubmit(FetchFailed);
    FillHealthSurvey(session);
    assert session.formData == JoLeeHealthSurvey();
    var _ := session.HandleSubmit(Fetched([]));
    errors, submitted := session.errors, session.submitted;
  }
}
