/** The survey form's field record and its validator: which fields are
    required, which formats are checked, and how the selected survey topic
    switches the topic-specific fields on and off. */
module SurveyForm {
  import opened TextRules

  datatype Option<+T> = None | Some(value: T)

  /** The ten named inputs of the form. */
  datatype Field =
    | FullName | Email | SurveyTopic
    | FavoriteProgrammingLanguage | YearsOfExperience
    | ExerciseFrequency | DietPreference
    | HighestQualification | FieldOfStudy
    | Feedback

  /** The values of the ten inputs, each a string. */
  datatype FormData = FormData(
    fullName: string,
    email: string,
    surveyTopic: string,
    favoriteProgrammingLanguage: string,
    yearsOfExperience: string,
    exerciseFrequency: string,
    dietPreference: string,
    highestQualification: string,
    fieldOfStudy: string,
    feedback: string)
  {
    /** The current value of one input. */
    function Get(f: Field): string {
      match f
      case FullName => fullName
      case Email => email
      case SurveyTopic => surveyTopic
      case FavoriteProgrammingLanguage => favoriteProgrammingLanguage
      case YearsOfExperience => yearsOfExperience
      case ExerciseFrequency => exerciseFrequency
      case DietPreference => dietPreference
      case HighestQualification => highestQualification
      case FieldOfStudy => fieldOfStudy
      case Feedback => feedback
    }

    /** The record with one input replaced, as `{ ...formData, [name]: value }`. */
    function With(f: Field, v: string): (d: FormData)
      ensures d.Get(f) == v
      ensures forall g :: g != f ==> d.Get(g) == Get(g)
    {
      match f
      case FullName => this.(fullName := v)
      case Email => this.(email := v)
      case SurveyTopic => this.(surveyTopic := v)
      case FavoriteProgrammingLanguage => this.(favoriteProgrammingLanguage := v)
      case YearsOfExperience => this.(yearsOfExperience := v)
      case ExerciseFrequency => this.(exerciseFrequency := v)
      case DietPreference => this.(dietPreference := v)
      case HighestQualification => this.(highestQualification := v)
      case FieldOfStudy => this.(fieldOfStudy := v)
      case Feedback => this.(feedback := v)
    }
  }

  /** Two records with the same value in every input are the same record. */
  lemma FormDataExtensional(d: FormData, d': FormData)
    requires forall f :: d.Get(f) == d'.Get(f)
    ensures d == d'
  {
    assert d.fullName == d'.Get(FullName);
    assert d.email == d'.Get(Email);
    assert d.surveyTopic == d'.Get(SurveyTopic);
    assert d.favoriteProgrammingLanguage == d'.Get(FavoriteProgrammingLanguage);
    assert d.yearsOfExperience == d'.Get(YearsOfExperience);
    assert d.exerciseFrequency == d'.Get(ExerciseFrequency);
    assert d.dietPreference == d'.Get(DietPreference);
    assert d.highestQualification == d'.Get(HighestQualification);
    assert d.fieldOfStudy == d'.Get(FieldOfStudy);
    assert d.feedback == d'.Get(Feedback);
  }

  /** Writing back the value an input already holds changes nothing, and a
      second write to the same input overrides the first. */
  lemma WithLaws(d: FormData, f: Field, v: string, w: string)
    ensures d.With(f, d.Get(f)) == d
    ensures d.With(f, v).With(f, w) == d.With(f, w)
  {
    FormDataExtensional(d.With(f, d.Get(f)), d);
    FormDataExtensional(d.With(f, v).With(f, w), d.With(f, w));
  }

  /** The record a new form starts from. */
  function EmptyForm(): (d: FormData)
    ensures forall f :: d.Get(f) == ""
  {
    FormData("", "", "", "", "", "", "", "", "", "")
  }

  /** The survey topics that switch on topic-specific inputs. */
  datatype Topic = Technology | Health | Education

  /** The option value that selects each topic. */
  function TopicName(t: Topic): string {
    match t
    case Technology => "Technology"
    case Health => "Health"
    case Education => "Education"
  }

  /** The topic a `surveyTopic` value selects: only an exact match counts. */
  function TopicOf(s: string): (t: Option<Topic>)
    ensures t.Some? <==> s == "Technology" || s == "Health" || s == "Education"
    ensures t.Some? ==> TopicName(t.value) == s
  {
    if s == "Technology" then Some(Technology)
    else if s == "Health" then Some(Health)
    else if s == "Education" then Some(Education)
    else None
  }

  /** The topic whose selection switches an input on; None for the four
      inputs that are always checked. */
  function FieldTopic(f: Field): Option<Topic> {
    match f
    case FavoriteProgrammingLanguage | YearsOfExperience => Some(Technology)
    case ExerciseFrequency | DietPreference => Some(Health)
    case HighestQualification | FieldOfStudy => Some(Education)
    case _ => None
  }

  /** Whether the validator looks at input f under the given topic value. */
  predicate IsActive(f: Field, surveyTopic: string) {
    FieldTopic(f).None? || FieldTopic(f) == TopicOf(surveyTopic)
  }

  /** The shortest feedback accepted. */
  const MinFeedbackLength := 50

  /** The first rule an input breaks, in the order the validator checks them:
      an empty input is Missing; otherwise its format rule, if it has one. */
  datatype Violation = Missing | BadEmail | NotPositive | TooShort

  /** The message shown for an empty required input. */
  function RequiredMessage(f: Field): string {
    match f
    case FullName => "Full Name is required"
    case Email => "Email is required"
    case SurveyTopic => "Survey Topic is required"
    case FavoriteProgrammingLanguage => "Favorite Programming Language is required"
    case YearsOfExperience => "Years of Experience is required"
    case ExerciseFrequency => "Exercise Frequency is required"
    case DietPreference => "Diet Preference is required"
    case HighestQualification => "Highest Qualification is required"
    case FieldOfStudy => "Field of Study is required"
    case Feedback => "Feedback is required"
  }

  /** The fixed message shown for a violation of an input. */
  function Message(f: Field, v: Violation): string {
    match v
    case Missing => RequiredMessage(f)
    case BadEmail => "Email is invalid"
    case NotPositive => "Years of Experience must be a number greater than 0"
    case TooShort => "Feedback must be at least 50 characters"
  }

  /** Reference statement of the rule set, one input at a time: inactive
      inputs are never reported; an empty active input is Missing; a filled
      email must contain the pattern, a filled years-of-experience must be a
      positive number, and filled feedback must be long enough. */
  function FieldViolation(d: FormData, f: Field): Option<Violation> {
    if !IsActive(f, d.surveyTopic) then None
    else if d.Get(f) == "" then Some(Missing)
    else
      match f
      case Email => if IsEmailLike(d.email) then None else Some(BadEmail)
      case YearsOfExperience => if IsPositiveNumber(d.yearsOfExperience) then None else Some(NotPositive)
      case Feedback => if |d.feedback| < MinFeedbackLength then Some(TooShort) else None
      case _ => None
  }

  /** The message an input should carry, if any. */
  function ExpectedError(d: FormData, f: Field): Option<string> {
    match FieldViolation(d, f)
    case None => None
    case Some(v) => Some(Message(f, v))
  }

  type Errors = map<Field, string>

  function Lookup(errors: Errors, f: Field): Option<string> {
    if f in errors then Some(errors[f]) else None
  }

  /** The successive checks of the validator, one per `if` statement of the
      source or per topic block. */
  datatype Check =
    | FullNameCheck | EmailCheck | SurveyTopicCheck
    | TechnologyCheck | HealthCheck | EducationCheck
    | FeedbackCheck

  /** The check responsible for each input. */
  function CheckOf(f: Field): Check {
    match f
    case FullName => FullNameCheck
    case Email => EmailCheck
    case SurveyTopic => SurveyTopicCheck
    case FavoriteProgrammingLanguage | YearsOfExperience => TechnologyCheck
    case ExerciseFrequency | DietPreference => HealthCheck
    case HighestQualification | FieldOfStudy => EducationCheck
    case Feedback => FeedbackCheck
  }

  /** r is e after check c: each input c owns that breaks a rule now carries
      that rule's message, and every other entry of e is left as it was. */
  ghost predicate Records(d: FormData, e: Errors, r: Errors, c: Check) {
    forall g :: Lookup(r, g) ==
      if CheckOf(g) == c && ExpectedError(d, g).Some? then ExpectedError(d, g) else Lookup(e, g)
  }

  function CheckFullName(d: FormData, e: Errors): (r: Errors)
    ensures Records(d, e, r, FullNameCheck)
  {
    if d.fullName == "" then e[FullName := "Full Name is required"] else e
  }

  function CheckEmail(d: FormData, e: Errors): (r: Errors)
    ensures Records(d, e, r, EmailCheck)
  {
    if d.email == "" then e[Email := "Email is required"]
    else if !IsEmailLike(d.email) then e[Email := "Email is invalid"]
    else e
  }

  function CheckSurveyTopic(d: FormData, e: Errors): (r: Errors)
    ensures Records(d, e, r, SurveyTopicCheck)
  {
    if d.surveyTopic == "" then e[SurveyTopic := "Survey Topic is required"] else e
  }

  function CheckTechnology(d: FormData, e: Errors): (r: Errors)
    ensures Records(d, e, r, TechnologyCheck)
  {
    if d.surveyTopic == "Technology" then
      var t :=
        if d.favoriteProgrammingLanguage == "" then
          e[FavoriteProgrammingLanguage := "Favorite Programming Language is required"]
        else e;
      if d.yearsOfExperience == "" then t[YearsOfExperience := "Years of Experience is required"]
      else if !IsPositiveNumber(d.yearsOfExperience) then
        t[YearsOfExperience := "Years of Experience must be a number greater than 0"]
      else t
    else e
  }

  function CheckHealth(d: FormData, e: Errors): (r: Errors)
    ensures Records(d, e, r, HealthCheck)
  {
    if d.surveyTopic == "Health" then
      var h := if d.exerciseFrequency == "" then e[ExerciseFrequency := "Exercise Frequency is required"] else e;
      if d.dietPreference == "" then h[DietPreference := "Diet Preference is required"] else h
    else e
  }

  function CheckEducation(d: FormData, e: Errors): (r: Errors)
    ensures Records(d, e, r, EducationCheck)
  {
    if d.surveyTopic == "Education" then
      var q := if d.highestQualification == "" then e[HighestQualification := "Highest Qualification is required"] else e;
      if d.fieldOfStudy == "" then q[FieldOfStudy := "Field of Study is required"] else q
    else e
  }

  function CheckFeedback(d: FormData, e: Errors): (r: Errors)
    ensures Records(d, e, r, FeedbackCheck)
  {
    if d.feedback == "" then e[Feedback := "Feedback is required"]
    else if |d.feedback| < MinFeedbackLength then e[Feedback := "Feedback must be at least 50 characters"]
    else e
  }

  /** Seven steps that own every input between them, applied to no errors,
      leave exactly the expected message on each input. */
  lemma ChecksCoverAllFields(d: FormData, e1: Errors, e2: Errors, e3: Errors, e4: Errors,
                              e5: Errors, e6: Errors, e7: Errors)
    requires Records(d, map[], e1, FullNameCheck)
    requires Records(d, e1, e2, EmailCheck)
    requires Records(d, e2, e3, SurveyTopicCheck)
    requires Records(d, e3, e4, TechnologyCheck)
    requires Records(d, e4, e5, HealthCheck)
    requires Records(d, e5, e6, EducationCheck)
    requires Records(d, e6, e7, FeedbackCheck)
    ensures forall f :: Lookup(e7, f) == ExpectedError(d, f)
  {
    forall f ensures Lookup(e7, f) == ExpectedError(d, f) {
      assert Lookup(map[], f) == None;
    }
  }

  /** The validator: starting from no errors, each check in turn records at
      most one message for the inputs it owns. Every input ends up carrying
      exactly the message the rule set gives it, and the others no key. */
  function Validate(d: FormData): (r: Errors)
    ensures forall f :: Lookup(r, f) == ExpectedError(d, f)
  {
    var e1 := CheckFullName(d, map[]);
    var e2 := CheckEmail(d, e1);
    var e3 := CheckSurveyTopic(d, e2);
    var e4 := CheckTechnology(d, e3);
    var e5 := CheckHealth(d, e4);
    var e6 := CheckEducation(d, e5);
    var e7 := CheckFeedback(d, e6);
    ChecksCoverAllFields(d, e1, e2, e3, e4, e5, e6, e7);
    e7
  }

  /** A full name is reported exactly when it is empty. */
  lemma FullNameRule(d: FormData)
    ensures FullName in Validate(d) <==> d.fullName == ""
    ensures FullName in Validate(d) ==> Validate(d)[FullName] == "Full Name is required"
  {
    assert Lookup(Validate(d), FullName) == ExpectedError(d, FullName);
  }

  /** An empty email is reported as missing; a filled one in which no
      substring matches `\S+@\S+\.\S+` as invalid; any other email is not
      reported. */
  lemma EmailRule(d: FormData)
    ensures d.email == "" ==> Lookup(Validate(d), Email) == Some("Email is required")
    ensures d.email != "" && !EmailPatternFound(d.email) ==>
      Lookup(Validate(d), Email) == Some("Email is invalid")
    ensures d.email != "" && EmailPatternFound(d.email) ==> Email !in Validate(d)
  {
    assert Lookup(Validate(d), Email) == ExpectedError(d, Email);
  }

  /** The survey topic is reported exactly when it is empty, whatever the
      other inputs hold. */
  lemma SurveyTopicRule(d: FormData)
    ensures SurveyTopic in Validate(d) <==> d.surveyTopic == ""
    ensures SurveyTopic in Validate(d) ==> Validate(d)[SurveyTopic] == "Survey Topic is required"
  {
    assert Lookup(Validate(d), SurveyTopic) == ExpectedError(d, SurveyTopic);
  }

  /** A topic-specific input is reported only when the survey topic is
      exactly that input's topic; inputs of the other topics never are. */
  lemma TopicFieldsGated(d: FormData, f: Field)
    requires FieldTopic(f).Some?
    ensures f in Validate(d) ==> d.surveyTopic == TopicName(FieldTopic(f).value)
  {
    assert Lookup(Validate(d), f) == ExpectedError(d, f);
  }

  /** A non-empty topic that is none of the three selects no topic block and
      is itself accepted: only full name, email and feedback can be reported. */
  lemma UnrecognisedTopicRule(d: FormData)
    requires d.surveyTopic != "" && TopicOf(d.surveyTopic).None?
    ensures forall f :: f in Validate(d) ==> f == FullName || f == Email || f == Feedback
  {
    forall f | f in Validate(d) ensures f == FullName || f == Email || f == Feedback {
      assert Lookup(Validate(d), f) == ExpectedError(d, f);
    }
  }

  /** Under Technology the favourite language is required, and the years of
      experience are required and must be a positive number, the "required"
      message taking priority. */
  lemma TechnologyRules(d: FormData)
    requires d.surveyTopic == "Technology"
    ensures FavoriteProgrammingLanguage in Validate(d) <==> d.favoriteProgrammingLanguage == ""
    ensures FavoriteProgrammingLanguage in Validate(d) ==>
      Validate(d)[FavoriteProgrammingLanguage] == "Favorite Programming Language is required"
    ensures d.yearsOfExperience == "" ==>
      Lookup(Validate(d), YearsOfExperience) == Some("Years of Experience is required")
    ensures d.yearsOfExperience != "" && !IsPositiveNumber(d.yearsOfExperience) ==>
      Lookup(Validate(d), YearsOfExperience) == Some("Years of Experience must be a number greater than 0")
    ensures IsPositiveNumber(d.yearsOfExperience) ==> YearsOfExperience !in Validate(d)
  {
    var y := d.yearsOfExperience;
    assert Lookup(Validate(d), FavoriteProgrammingLanguage) == ExpectedError(d, FavoriteProgrammingLanguage);
    assert ExpectedError(d, YearsOfExperience) ==
      if y == "" then Some("Years of Experience is required")
      else if IsPositiveNumber(y) then None
      else Some("Years of Experience must be a number greater than 0");
    assert Lookup(Validate(d), YearsOfExperience) == ExpectedError(d, YearsOfExperience);
  }

  /** Under Technology, years of experience with no digit from 1 to 9 and
      no letter (`"0"`, `"0.0"`, `"-0"`, `"."`) get the number message: such a
      text is zero or not a number at all. */
  lemma YearsWithoutNonZeroDigitRejected(d: FormData)
    requires d.surveyTopic == "Technology" && d.yearsOfExperience != ""
    requires forall k :: 0 <= k < |d.yearsOfExperience| ==>
      var c := d.yearsOfExperience[k];
      !('1' <= c <= '9') && !('a' <= c <= 'z') && !('A' <= c <= 'Z')
    ensures Lookup(Validate(d), YearsOfExperience) ==
      Some("Years of Experience must be a number greater than 0")
  {
    TechnologyRules(d);
  }

  /** Under Health, exercise frequency and diet preference are each reported
      exactly when empty. */
  lemma HealthRules(d: FormData)
    requires d.surveyTopic == "Health"
    ensures ExerciseFrequency in Validate(d) <==> d.exerciseFrequency == ""
    ensures ExerciseFrequency in Validate(d) ==> Validate(d)[ExerciseFrequency] == "Exercise Frequency is required"
    ensures DietPreference in Validate(d) <==> d.dietPreference == ""
    ensures DietPreference in Validate(d) ==> Validate(d)[DietPreference] == "Diet Preference is required"
  {
    assert Lookup(Validate(d), ExerciseFrequency) == ExpectedError(d, ExerciseFrequency);
    assert Lookup(Validate(d), DietPreference) == ExpectedError(d, DietPreference);
  }

  /** Under Education, highest qualification and field of study are each
      reported exactly when empty. */
  lemma EducationRules(d: FormData)
    requires d.surveyTopic == "Education"
    ensures HighestQualification in Validate(d) <==> d.highestQualification == ""
    ensures HighestQualification in Validate(d) ==>
      Validate(d)[HighestQualification] == "Highest Qualification is required"
    ensures FieldOfStudy in Validate(d) <==> d.fieldOfStudy == ""
    ensures FieldOfStudy in Validate(d) ==> Validate(d)[FieldOfStudy] == "Field of Study is required"
  {
    assert Lookup(Validate(d), HighestQualification) == ExpectedError(d, HighestQualification);
    assert Lookup(Validate(d), FieldOfStudy) == ExpectedError(d, FieldOfStudy);
  }

  /** Empty feedback is reported as missing; feedback of 1 to 49 characters
      as too short, never as missing; longer feedback is not reported. */
  lemma FeedbackRule(d: FormData)
    ensures d.feedback == "" ==> Lookup(Validate(d), Feedback) == Some("Feedback is required")
    ensures 0 < |d.feedback| < MinFeedbackLength ==>
      Lookup(Validate(d), Feedback) == Some("Feedback must be at least 50 characters")
    ensures |d.feedback| >= MinFeedbackLength ==> Feedback !in Validate(d)
  {
    assert Lookup(Validate(d), Feedback) == ExpectedError(d, Feedback);
  }

  /** The form passes exactly when no input breaks a rule. */
  lemma ValidIffNoViolation(d: FormData)
    ensures Validate(d) == map[] <==> forall f :: FieldViolation(d, f).None?
  {
    if Validate(d) != map[] {
      var f :| f in Validate(d);
      assert Lookup(Validate(d), f) == ExpectedError(d, f);
    }
    if Validate(d) == map[] {
      forall f ensures FieldViolation(d, f).None? {
        assert Lookup(Validate(d), f) == ExpectedError(d, f);
      }
    }
  }

  /** The validator reads only the active inputs: two records that agree on
      every input the topic of the first activates give the same errors. */
  lemma ValidateIgnoresInactiveFields(d: FormData, d': FormData)
    requires forall f :: IsActive(f, d.surveyTopic) ==> d.Get(f) == d'.Get(f)
    ensures Validate(d) == Validate(d')
  {
    assert d.surveyTopic == d'.surveyTopic by {
      assert IsActive(SurveyTopic, d.surveyTopic);
    }
    forall f ensures Lookup(Validate(d), f) == Lookup(Validate(d'), f) {
      assert FieldViolation(d, f) == FieldViolation(d', f);
    }
    MapsEqualByLookup(Validate(d), Validate(d'));
  }

  /** Maps that answer every lookup alike are equal. */
  lemma MapsEqualByLookup(m: Errors, m': Errors)
    requires forall f :: Lookup(m, f) == Lookup(m', f)
    ensures m == m'
  {
    forall f ensures f in m <==> f in m' {
      assert Lookup(m, f) == Lookup(m', f);
    }
    forall f | f in m ensures m[f] == m'[f] {
      assert Lookup(m, f) == Lookup(m', f);
    }
  }

  /** Editing an input that the current topic leaves inactive never changes
      what the validator reports. */
  lemma EditingInactiveFieldKeepsErrors(d: FormData, f: Field, v: string)
    requires !IsActive(f, d.surveyTopic)
    ensures Validate(d.With(f, v)) == Validate(d)
  {
    var d' := d.With(f, v);
    assert f != SurveyTopic;
    assert d'.surveyTopic == d'.Get(SurveyTopic) == d.Get(SurveyTopic);
    ValidateIgnoresInactiveFields(d', d);
  }
}
