/** The AI advisor questionnaire (`AdvisorModal`): the form the student
    fills in, the guard that keeps an incomplete form from being sent, and
    closing, which is refused while a request is running. The request itself
    (`onRecommend`) is not made here: submitting returns it, and
    `FinishSubmit` stands for its end, whether it succeeded or failed. */
module AdvisorModal {

  import opened Wrappers

  /** `IAdvisorRequest`. */
  datatype AdvisorRequest = AdvisorRequest(
    entScore: int,
    profileSubjects: string,
    interests: string,
    preferredCity: string,
    careerGoal: string)

  /** The form's inputs, by their `name` attribute. */
  datatype Field = EntScore | ProfileSubjects | Interests | PreferredCity | CareerGoal

  /** What an input holds: the score as a number, the others as text. */
  datatype Value = Number(n: int) | Text(s: string)

  const InitialForm: AdvisorRequest := AdvisorRequest(0, "", "", "", "")

  function Get(form: AdvisorRequest, field: Field): Value {
    match field
    case EntScore => Number(form.entScore)
    case ProfileSubjects => Text(form.profileSubjects)
    case Interests => Text(form.interests)
    case PreferredCity => Text(form.preferredCity)
    case CareerGoal => Text(form.careerGoal)
  }

  /** JavaScript falsiness of a value: the number 0 and the empty string. */
  predicate Falsy(v: Value) {
    match v
    case Number(n) => n == 0
    case Text(s) => s == []
  }

  /** The guard of `handleSubmit`, written out field by field. */
  predicate Incomplete(form: AdvisorRequest) {
    form.entScore == 0 || form.profileSubjects == [] || form.interests == []
    || form.preferredCity == [] || form.careerGoal == []
  }

  /** The guard holds exactly when some input is falsy. */
  lemma IncompleteIffSomeFalsy(form: AdvisorRequest)
    ensures Incomplete(form) <==> exists field :: Falsy(Get(form, field))
  {
    if Incomplete(form) {
      if form.entScore == 0 { assert Falsy(Get(form, EntScore)); }
      else if form.profileSubjects == [] { assert Falsy(Get(form, ProfileSubjects)); }
      else if form.interests == [] { assert Falsy(Get(form, Interests)); }
      else if form.preferredCity == [] { assert Falsy(Get(form, PreferredCity)); }
      else { assert Falsy(Get(form, CareerGoal)); }
    }
  }

  /** `handleChange`: the score input is stored as `Number(value)` (given as
      `toNumber`, with `NaN` as 0: both are falsy), the others as typed. */
  function Changed(form: AdvisorRequest, field: Field, value: string, toNumber: string -> int): AdvisorRequest {
    match field
    case EntScore => form.(entScore := toNumber(value))
    case ProfileSubjects => form.(profileSubjects := value)
    case Interests => form.(interests := value)
    case PreferredCity => form.(preferredCity := value)
    case CareerGoal => form.(careerGoal := value)
  }

  /** A change sets the named input and leaves every other one alone. */
  lemma ChangedOnlyField(form: AdvisorRequest, field: Field, value: string, toNumber: string -> int)
    ensures Get(Changed(form, field, value, toNumber), field)
      == (if field == EntScore then Number(toNumber(value)) else Text(value))
    ensures forall other :: other != field ==>
      Get(Changed(form, field, value, toNumber), other) == Get(form, other)
  {
  }

  class Advisor {
    var formData: AdvisorRequest
    var isLoading: bool

    /** The form starts with a score of 0 and empty text, nothing running. */
    constructor ()
      ensures formData == InitialForm && !isLoading
    {
      formData := InitialForm;
      isLoading := false;
    }

    /** The submit button is disabled while a request runs and while the
        form is incomplete. */
    function SubmitDisabled(): (r: bool)
      reads this
      ensures r <==> isLoading || exists field :: Falsy(Get(formData, field))
    {
      IncompleteIffSomeFalsy(formData);
      isLoading || Incomplete(formData)
    }

    method HandleChange(field: Field, value: string, toNumber: string -> int)
      modifies this
      ensures formData == Changed(old(formData), field, value, toNumber)
      ensures isLoading == old(isLoading)
    {
      formData := Changed(formData, field, value, toNumber);
    }

    /** `handleSubmit` up to the request: an incomplete form sends nothing
        and changes nothing; otherwise the form is sent as it is and the
        dialog waits. */
    method BeginSubmit() returns (request: Option<AdvisorRequest>)
      modifies this
      ensures request.None? <==> old(Incomplete(formData))
      ensures request.None? ==> isLoading == old(isLoading)
      ensures request.Some? ==> request.value == formData && isLoading
      ensures formData == old(formData)
    {
      if Incomplete(formData) {
        return None;
      }
      isLoading := true;
      request := Some(formData);
    }

    /** The end of a request, successful or not: the wait is over and the
        form keeps what was typed. */
    method FinishSubmit()
      modifies this
      ensures !isLoading && formData == old(formData)
    {
      isLoading := false;
    }

    /** `handleClose`: refused while a request runs; otherwise the form is
        reset and the dialog closed (`closed` reports the `onClose` call). */
    method HandleClose() returns (closed: bool)
      modifies this
      ensures closed <==> !old(isLoading)
      ensures closed ==> formData == InitialForm
      ensures !closed ==> formData == old(formData)
      ensures isLoading == old(isLoading)
    {
      closed := false;
      if !isLoading {
        formData := InitialForm;
        closed := true;
      }
    }
  }

  /** The initial form cannot be sent. */
  lemma InitialIncomplete()
    ensures Incomplete(InitialForm)
    ensures Falsy(Get(InitialForm, EntScore))
  {
  }

  /** Filling in every input enables submission; a request then keeps the
      dialog from closing until it ends, and the form survives it. */
  method FillAndSubmit(score: string, toNumber: string -> int)
    requires toNumber(score) != 0
  {
    var advisor := new Advisor();
    advisor.HandleChange(EntScore, score, toNumber);
    advisor.HandleChange(ProfileSubjects, "math", toNumber);
    advisor.HandleChange(Interests, "code", toNumber);
    advisor.HandleChange(PreferredCity, "Almaty", toNumber);
    assert advisor.SubmitDisabled();
    advisor.HandleChange(CareerGoal, "engineer", toNumber);
    assert !Incomplete(advisor.formData);
    var request := advisor.BeginSubmit();
    assert request.Some? && advisor.isLoading;
    var closed := advisor.HandleClose();
    assert !closed;
    advisor.FinishSubmit();
    assert advisor.formData == AdvisorRequest(toNumber(score), "math", "code", "Almaty", "engineer");
    closed := advisor.HandleClose();
    assert closed && advisor.formData == InitialForm;
  }
}
