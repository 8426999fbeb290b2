/** The election creation form of the admin pages. */
module CreateElection {
  import opened Common
  import Schedule

  /** The form's fields; a date the picker has not set is None. */
  datatype CreateForm = CreateForm(title: string, description: string, startDate: Option<int>, endDate: Option<int>)

  /** The state of the creation page. `posted` lists the forms sent to the
      backend, oldest first; `loading` holds exactly while the last one has
      not been answered, and the submit button is disabled meanwhile. */
  class CreateElectionPage {
    var formData: CreateForm
    var error: string
    var loading: bool
    var posted: seq<CreateForm>
    var navigatedTo: Option<string>

    /** Waiting for an answer presupposes a form that was sent. */
    predicate Valid()
      reads this`loading, this`posted
    {
      loading ==> |posted| > 0
    }

    constructor ()
      ensures Valid()
      ensures formData == CreateForm("", "", None, None) && error == "" && !loading
      ensures posted == [] && navigatedTo == None
    {
      formData := CreateForm("", "", None, None);
      error := "";
      loading := false;
      posted := [];
      navigatedTo := None;
    }

    /** `handleChange` for the title and the description fields. */
    method HandleChange(field: TextField, value: string)
      requires Valid()
      modifies this`formData
      ensures Valid()
      ensures field == Title ==> formData == old(formData).(title := value)
      ensures field == Description ==> formData == old(formData).(description := value)
    {
      match field
      case Title => formData := formData.(title := value);
      case Description => formData := formData.(description := value);
    }

    /** `handleDateChange(name)(date)` for the two pickers. */
    method HandleDateChange(field: DateField, date: Option<int>)
      requires Valid()
      modifies this`formData
      ensures Valid()
      ensures field == StartDate ==> formData == old(formData).(startDate := date)
      ensures field == EndDate ==> formData == old(formData).(endDate := date)
    {
      match field
      case StartDate => formData := formData.(startDate := date);
      case EndDate => formData := formData.(endDate := date);
    }

    /** `handleSubmit` up to its request. While a request is pending the
        disabled button cannot submit, so nothing happens. Otherwise a form
        with a missing or inverted date is rejected with the message of
        `Schedule.CheckDates` and nothing is sent; a valid form is sent and
        the page waits with its error cleared. */
    method Submit()
      requires Valid()
      modifies this`error, this`loading, this`posted
      ensures Valid()
      ensures old(loading) ==> error == old(error) && loading && posted == old(posted)
      ensures !old(loading) && Schedule.CheckDates(formData.startDate, formData.endDate).Some? ==>
                error == Schedule.CheckDates(formData.startDate, formData.endDate).value
                && !loading && posted == old(posted)
      ensures !old(loading) && Schedule.CheckDates(formData.startDate, formData.endDate).None? ==>
                error == "" && loading && posted == old(posted) + [formData]
    {
      if loading {
        return;
      }
      error := "";
      loading := true;
      var problem := Schedule.CheckDates(formData.startDate, formData.endDate);
      if problem.Some? {
        error := problem.value;
        loading := false;
        return;
      }
      posted := posted + [formData];
    }

    /** The rest of `handleSubmit` once the backend answers: on success the
        admin dashboard opens, on failure the server's message (or the
        error's own) is shown; the button is enabled again either way. */
    method ReceiveResponse(outcome: Response<()>)
      requires Valid() && loading
      modifies this`error, this`loading, this`navigatedTo
      ensures Valid() && !loading
      ensures outcome.Ok? ==> navigatedTo == Some("/admin") && error == old(error)
      ensures outcome.Failed? ==>
                navigatedTo == old(navigatedTo) && error == OrElse(outcome.serverMessage, outcome.message)
    {
      loading := false;
      match outcome
      case Ok(_) =>
        navigatedTo := Some("/admin");
      case Failed(serverMessage, message) =>
        error := OrElse(serverMessage, message);
    }
  }
}
