/** The comparison dialog's own state (`CompareArbitrationModal`): the goal
    the user types, whether a comparison is running, its reply and the
    error shown. The request to the AI service is not made here: starting a
    comparison returns the request, and the reply (or its failure) is handed
    back to `FinishCompare`. */
module CompareArbitration {

  import opened Wrappers
  import opened Text
  import opened Types

  /** What `compareWithAi` answers. */
  datatype CompareReply = CompareReply(winner: string, analysis: string, reasoning: string)

  /** What `compareWithAi` is asked. */
  datatype CompareRequest = CompareRequest(universities: seq<University>, userGoal: string)

  const GoalMissing: string := "Пожалуйста, укажите ваши приоритеты"
  const CompareFailed: string := "Произошла ошибка при сравнении. Попробуйте еще раз."

  class CompareDialog {
    var userGoal: string
    var loading: bool
    var result: Option<CompareReply>
    var error: Option<string>

    /** The dialog opens with no goal, nothing running, no reply, no error. */
    constructor ()
      ensures userGoal == [] && !loading && result.None? && error.None?
    {
      userGoal := [];
      loading := false;
      result := None;
      error := None;
    }

    /** The compare button is disabled while a comparison runs and while the
        goal is only white space. */
    function CompareDisabled(): (r: bool)
      reads this
      ensures r <==> loading || AllSpace(userGoal)
    {
      loading || Trim(userGoal) == []
    }

    /** Typing in the goal field stores the text and clears the error. */
    method EditGoal(value: string)
      modifies this
      ensures userGoal == value && error.None?
      ensures loading == old(loading) && result == old(result)
    {
      userGoal := value;
      error := None;
    }

    /** `handleCompare` up to the request: a goal that is only white space
        sets the error and changes nothing else, and no request is made;
        otherwise a comparison starts with the trimmed goal, clearing the
        error and the previous reply. */
    method BeginCompare(universities: seq<University>) returns (request: Option<CompareRequest>)
      modifies this
      ensures request.None? <==> AllSpace(old(userGoal))
      ensures request.None? ==>
        error == Some(GoalMissing) && loading == old(loading) && result == old(result)
      ensures request.Some? ==>
        request.value == CompareRequest(universities, Trim(old(userGoal)))
        && request.value.userGoal != [] && IsTrimmed(request.value.userGoal)
        && loading && result.None? && error.None?
      ensures userGoal == old(userGoal)
    {
      var goal := Trim(userGoal);
      if goal == [] {
        error := Some(GoalMissing);
        return None;
      }
      loading := true;
      error := None;
      result := None;
      request := Some(CompareRequest(universities, goal));
    }

    /** The rest of `handleCompare`: the reply is shown, or on failure the
        error text; either way the comparison is over. */
    method FinishCompare(reply: Option<CompareReply>)
      modifies this
      ensures !loading
      ensures reply.Some? ==> result == reply && error == old(error)
      ensures reply.None? ==> error == Some(CompareFailed) && result == old(result)
      ensures userGoal == old(userGoal)
    {
      if reply.Some? {
        result := reply;
      } else {
        error := Some(CompareFailed);
      }
      loading := false;
    }
  }

  /** An enabled button always leads to a request, and a successful round
      trip shows the reply with no error. */
  method CompareRoundTrip(universities: seq<University>, goal: string, reply: CompareReply)
    requires !AllSpace(goal)
  {
    var dialog := new CompareDialog();
    var request := dialog.BeginCompare(universities);
    assert request.None? && dialog.error == Some(GoalMissing);
    dialog.EditGoal(goal);
    assert !dialog.CompareDisabled();
    request := dialog.BeginCompare(universities);
    assert request.Some? && dialog.loading && dialog.CompareDisabled();
    dialog.FinishCompare(Some(reply));
    assert dialog.result == Some(reply) && dialog.error.None? && !dialog.loading;
  }
}
