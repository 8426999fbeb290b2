/** The election page: who may vote and which notice is shown, the guards in
    front of its backend calls, and the view state its handlers update. */
module ElectionDetails {
  import opened Common
  import Schedule
  import Tally

  /** `Array.prototype.includes` on a list of ids; an absent id matches none. */
  function Includes(list: seq<string>, id: Option<string>): (b: bool)
    ensures b <==> id.Some? && id.value in list
  {
    if |list| == 0 then false
    else (id.Some? && list[0] == id.value) || Includes(list[1..], id)
  }

  /** `user?.hasVoted?.includes(electionId) || false`: true exactly when the
      user and the list are both present and the list holds the election id. */
  function HasVoted(user: Option<User>, electionId: Option<string>): (b: bool)
    ensures b <==> user.Some? && user.value.hasVoted.Some? && electionId.Some?
                    && electionId.value in user.value.hasVoted.value
  {
    match user
    case None => false
    case Some(u) =>
      match u.hasVoted
      case None => false
      case Some(list) => Includes(list, electionId)
  }

  /** The notice above the candidates, in the order the page tests them. */
  datatype Banner = NotActiveNotice | AlreadyVotedNotice | SelectPrompt

  /** An inactive election is reported before a vote already cast, and the
      prompt to choose appears only when neither applies. */
  function BannerFor(isActive: bool, hasVoted: bool): (b: Banner)
    ensures b == NotActiveNotice <==> !isActive
    ensures b == AlreadyVotedNotice <==> isActive && hasVoted
    ensures b == SelectPrompt <==> isActive && !hasVoted
  {
    if !isActive then NotActiveNotice
    else if hasVoted then AlreadyVotedNotice
    else SelectPrompt
  }

  /** Whether each candidate card carries a vote button: only while the
      election is active, only for someone who has not voted, and never for an
      admin. A shown button always comes with the prompt to choose. */
  function ShowVoteButton(isActive: bool, hasVoted: bool, user: Option<User>): (b: bool)
    ensures b <==> isActive && !hasVoted && !IsAdmin(user)
    ensures b ==> BannerFor(isActive, hasVoted) == SelectPrompt
  {
    isActive && !hasVoted && !IsAdmin(user)
  }

  /** The vote button appears exactly when the dashboard would label the
      election Active, the election is not in the user's `hasVoted` list, and
      the user is not an admin; an admin in an open election sees the prompt
      to choose but no button. */
  lemma VoteButtonGate(now: int, start: int, end: int, user: Option<User>, electionId: Option<string>)
    ensures var shown := ShowVoteButton(Schedule.IsActive(now, start, end), HasVoted(user, electionId), user);
            shown <==> Schedule.GetElectionStatus(now, start, end).status == Schedule.Active
                       && !HasVoted(user, electionId) && !IsAdmin(user)
    ensures IsAdmin(user) && Schedule.IsActive(now, start, end) && !HasVoted(user, electionId) ==>
              BannerFor(true, false) == SelectPrompt && !ShowVoteButton(true, false, user)
  {
  }

  /** A vote record of the admin-only history table. */
  datatype VoteRecord = VoteRecord(voterName: string, voterRegNo: string, candidateName: string, timestamp: int)

  /** The history table is shown to admins only, and only when it has rows;
      whoever sees it never sees a vote button, so the page that lists the
      votes cannot be used to cast one. */
  function ShowVoteHistory(user: Option<User>, history: seq<VoteRecord>): (b: bool)
    ensures b ==> IsAdmin(user)
    ensures b <==> IsAdmin(user) && |history| > 0
    ensures b ==> forall isActive: bool, hasVoted: bool :: !ShowVoteButton(isActive, hasVoted, user)
  {
    IsAdmin(user) && |history| > 0
  }

  /** The fields the edit dialog holds; a date the picker has cleared is None. */
  datatype EditForm = EditForm(title: string, description: string, startDate: Option<int>, endDate: Option<int>)

  /** The calls the page makes to the backend, in order. */
  datatype Request =
    | GetElection(id: string)
    | GetVoteHistory(id: string)
    | PostVote(electionId: string, candidateId: string)
    | PutElection(target: Option<string>, form: EditForm)
    | DeleteElection(target: Option<string>)

  /** The guard of `fetchVoteHistory`: an election id and an admin. */
  predicate ShouldFetchVoteHistory(electionId: Option<string>, user: Option<User>)
  {
    Truthy(electionId) && IsAdmin(user)
  }

  /** What the page's effect requests when it mounts: nothing without an
      election id, otherwise the election and, for an admin only, its vote
      history. The effect tests the role before calling `fetchVoteHistory`,
      which tests it again in its own guard; both tests are kept. */
  function MountRequests(electionId: Option<string>, user: Option<User>): (r: seq<Request>)
    ensures !Truthy(electionId) ==> r == []
    ensures Truthy(electionId) ==> |r| > 0 && r[0] == GetElection(electionId.value)
    ensures Truthy(electionId) ==> |r| == if ShouldFetchVoteHistory(electionId, user) then 2 else 1
    ensures forall id :: GetVoteHistory(id) in r <==> ShouldFetchVoteHistory(electionId, user) && id == electionId.value
  {
    if !Truthy(electionId) then []
    else [GetElection(electionId.value)]
         + (if IsAdmin(user) && ShouldFetchVoteHistory(electionId, user)
            then [GetVoteHistory(electionId.value)] else [])
  }

  const ErrInvalidVote := "Invalid election or candidate ID"

  /** The guard of `handleVote`: without an election id or a candidate id it
      reports an error and posts nothing; otherwise it posts exactly that pair. */
  function VoteRequest(electionId: Option<string>, candidateId: Option<string>): (r: Result<Request>)
    ensures r.Failure? <==> !Truthy(electionId) || !Truthy(candidateId)
    ensures r.Failure? ==> r.error == ErrInvalidVote
    ensures r.Success? ==> r.value == PostVote(electionId.value, candidateId.value)
  {
    if !Truthy(electionId) || !Truthy(candidateId) then Failure(ErrInvalidVote)
    else Success(PostVote(electionId.value, candidateId.value))
  }

  /** The election record as the page keeps it. */
  datatype Election = Election(
    title: string, description: string, startDate: int, endDate: int,
    totalVotes: Option<nat>, candidates: seq<Tally.Candidate>)

  /** The body of the vote-history response. */
  datatype HistoryData = HistoryData(voteHistory: Option<seq<VoteRecord>>)

  /** What the page renders. */
  datatype View =
    | Spinner
    | NotFound
    | Page(banner: Banner, voteButtons: bool, adminControls: bool, historyTable: bool,
           errorAlert: Option<string>)

  /** The page's rendering decisions, in the order the component makes them. */
  function ViewOf(loading: bool, election: Option<Election>, error: string, history: seq<VoteRecord>,
                  user: Option<User>, electionId: Option<string>, now: int): (v: View)
    ensures loading <==> v == Spinner
    ensures v == NotFound <==> !loading && election.None?
    ensures v.Page? ==>
              var active := Schedule.IsActive(now, election.value.startDate, election.value.endDate);
              var voted := HasVoted(user, electionId);
              && v.banner == BannerFor(active, voted)
              && v.voteButtons == ShowVoteButton(active, voted, user)
              && v.adminControls == IsAdmin(user)
              && v.historyTable == ShowVoteHistory(user, history)
              && (v.errorAlert.Some? <==> error != "")
              && (v.errorAlert.Some? ==> v.errorAlert.value == error)
  {
    if loading then Spinner
    else if election.None? then NotFound
    else
      var voted := HasVoted(user, electionId);
      var active := Schedule.IsActive(now, election.value.startDate, election.value.endDate);
      Page(BannerFor(active, voted), ShowVoteButton(active, voted, user), IsAdmin(user),
           ShowVoteHistory(user, history), if error != "" then Some(error) else None)
  }

  const ErrInvalidElectionId := "Invalid election ID"
  const ErrNoElectionData := "No election data received"
  const ErrFetchFallback := "Error fetching election details"
  const ErrVoteFallback := "Error casting vote"
  const ErrDeleteFallback := "Error deleting election"

  /** The view state of the election page. `requests` lists the backend calls
      the handlers have made, oldest first; the answers to the two fetches
      arrive through ReceiveElection and ReceiveVoteHistory. */
  class ElectionDetailsPage {
    var election: Option<Election>
    var voteHistory: seq<VoteRecord>
    var loading: bool
    var error: string
    var selectedCandidate: Option<Tally.Candidate>
    var openDialog: bool
    var openEditDialog: bool
    var editForm: EditForm
    var requests: seq<Request>
    var navigatedTo: Option<string>

    constructor ()
      ensures election == None && voteHistory == [] && loading && error == ""
      ensures selectedCandidate == None && !openDialog && !openEditDialog
      ensures editForm == EditForm("", "", None, None) && requests == [] && navigatedTo == None
    {
      election := None;
      voteHistory := [];
      loading := true;
      error := "";
      selectedCandidate := None;
      openDialog := false;
      openEditDialog := false;
      editForm := EditForm("", "", None, None);
      requests := [];
      navigatedTo := None;
    }

    /** `fetchElectionDetails` up to its request: without an id it reports the
        error and stops loading; otherwise it clears the error, shows the
        spinner and asks for the election. */
    method FetchElectionDetails(electionId: Option<string>)
      modifies this`error, this`loading, this`requests
      ensures !Truthy(electionId) ==>
                error == ErrInvalidElectionId && !loading && requests == old(requests)
      ensures Truthy(electionId) ==>
                error == "" && loading && requests == old(requests) + [GetElection(electionId.value)]
    {
      if !Truthy(electionId) {
        error := ErrInvalidElectionId;
        loading := false;
        return;
      }
      loading := true;
      error := "";
      requests := requests + [GetElection(electionId.value)];
    }

    /** `fetchVoteHistory` up to its request: only for an admin and an id. */
    method FetchVoteHistory(electionId: Option<string>, user: Option<User>)
      modifies this`requests
      ensures requests == old(requests)
                + (if ShouldFetchVoteHistory(electionId, user) then [GetVoteHistory(electionId.value)] else [])
    {
      if !Truthy(electionId) || !IsAdmin(user) {
        return;
      }
      requests := requests + [GetVoteHistory(electionId.value)];
    }

    /** The effect that runs on mount: the requests it makes are those of
        MountRequests. */
    method Mount(electionId: Option<string>, user: Option<User>)
      modifies this`error, this`loading, this`requests
      ensures requests == old(requests) + MountRequests(electionId, user)
      ensures !Truthy(electionId) ==> error == ErrInvalidElectionId && !loading
      ensures Truthy(electionId) ==> error == "" && loading
    {
      if !Truthy(electionId) {
        error := ErrInvalidElectionId;
        loading := false;
        return;
      }
      FetchElectionDetails(electionId);
      if IsAdmin(user) {
        FetchVoteHistory(electionId, user);
      }
    }

    /** The rest of `fetchElectionDetails`: keep the election with each
        candidate's percentage attached, or report why there is none; the
        spinner stops whatever the outcome. */
    method ReceiveElection(response: Response<Option<Election>>)
      modifies this`election, this`error, this`loading
      ensures !loading
      ensures response.Ok? && response.data.Some? ==>
                var d := response.data.value;
                election == Some(d.(candidates := Tally.WithPercentages(d.candidates, d.totalVotes)))
                && error == old(error)
      ensures response.Ok? && response.data.None? ==>
                election == old(election) && error == ErrNoElectionData
      ensures response.Failed? ==>
                election == old(election) && error == OrElse(response.serverMessage, ErrFetchFallback)
    {
      loading := false;
      match response
      case Ok(data) =>
        if data.Some? {
          var d := data.value;
          election := Some(d.(candidates := Tally.WithPercentages(d.candidates, d.totalVotes)));
        } else {
          error := ErrNoElectionData;
        }
      case Failed(serverMessage, _) =>
        error := OrElse(serverMessage, ErrFetchFallback);
    }

    /** The rest of `fetchVoteHistory`: keep the rows (none when the body has
        no list); a failure changes nothing. */
    method ReceiveVoteHistory(response: Response<Option<HistoryData>>)
      modifies this`voteHistory
      ensures response.Ok? && response.data.Some? ==>
                voteHistory == (if response.data.value.voteHistory.Some?
                                then response.data.value.voteHistory.value else [])
      ensures !(response.Ok? && response.data.Some?) ==> voteHistory == old(voteHistory)
    {
      if response.Ok? && response.data.Some? {
        var h := response.data.value;
        voteHistory := if h.voteHistory.Some? then h.voteHistory.value else [];
      }
    }

    /** The click on a candidate's vote button opens the confirmation dialog. */
    method SelectCandidate(c: Tally.Candidate)
      modifies this`selectedCandidate, this`openDialog
      ensures selectedCandidate == Some(c) && openDialog
    {
      selectedCandidate := Some(c);
      openDialog := true;
    }

    /** `handleVote`: the guard of VoteRequest, then the post; on success the
        dialog closes and the election is fetched again. */
    method HandleVote(electionId: Option<string>, candidateId: Option<string>, outcome: Response<()>)
      modifies this`error, this`loading, this`requests, this`openDialog
      ensures VoteRequest(electionId, candidateId).Failure? ==>
                error == ErrInvalidVote && requests == old(requests)
                && loading == old(loading) && openDialog == old(openDialog)
      ensures VoteRequest(electionId, candidateId).Success? && outcome.Ok? ==>
                !openDialog && error == "" && loading
                && requests == old(requests) + [VoteRequest(electionId, candidateId).value, GetElection(electionId.value)]
      ensures VoteRequest(electionId, candidateId).Success? && outcome.Failed? ==>
                error == OrElse(outcome.serverMessage, ErrVoteFallback)
                && requests == old(requests) + [VoteRequest(electionId, candidateId).value]
                && loading == old(loading) && openDialog == old(openDialog)
    {
      if !Truthy(electionId) || !Truthy(candidateId) {
        error := ErrInvalidVote;
        return;
      }
      requests := requests + [PostVote(electionId.value, candidateId.value)];
      match outcome
      case Ok(_) =>
        openDialog := false;
        FetchElectionDetails(electionId);
      case Failed(serverMessage, _) =>
        error := OrElse(serverMessage, ErrVoteFallback);
    }

    /** `handleEditClick`: the dialog opens holding the election's fields. */
    method HandleEditClick()
      requires election.Some?
      modifies this`editForm, this`openEditDialog
      ensures editForm == EditForm(election.value.title, election.value.description,
                                   Some(election.value.startDate), Some(election.value.endDate))
      ensures openEditDialog
    {
      editForm := EditForm(election.value.title, election.value.description,
                           Some(election.value.startDate), Some(election.value.endDate));
      openEditDialog := true;
    }

    /** `handleEditChange`: the title or the description of the edit form changes. */
    method HandleEditChange(field: TextField, value: string)
      modifies this`editForm
      ensures field == Title ==> editForm == old(editForm).(title := value)
      ensures field == Description ==> editForm == old(editForm).(description := value)
    {
      match field
      case Title => editForm := editForm.(title := value);
      case Description => editForm := editForm.(description := value);
    }

    /** `handleEditDateChange(name)(date)`: one date of the edit form changes. */
    method HandleEditDateChange(field: DateField, date: Option<int>)
      modifies this`editForm
      ensures field == StartDate ==> editForm == old(editForm).(startDate := date)
      ensures field == EndDate ==> editForm == old(editForm).(endDate := date)
    {
      match field
      case StartDate => editForm := editForm.(startDate := date);
      case EndDate => editForm := editForm.(endDate := date);
    }

    /** `handleEditSubmit`: the date check of the creation form, then the
        update; on success the dialog closes and the election is fetched
        again. */
    method HandleEditSubmit(electionId: Option<string>, outcome: Response<()>)
      modifies this`error, this`loading, this`requests, this`openEditDialog
      ensures Schedule.CheckDates(editForm.startDate, editForm.endDate).Some? ==>
                error == Schedule.CheckDates(editForm.startDate, editForm.endDate).value
                && requests == old(requests) && loading == old(loading)
                && openEditDialog == old(openEditDialog)
      ensures Schedule.CheckDates(editForm.startDate, editForm.endDate).None? && outcome.Ok? ==>
                !openEditDialog
                && requests == old(requests) + [PutElection(electionId, editForm)]
                                + (if Truthy(electionId) then [GetElection(electionId.value)] else [])
                && (Truthy(electionId) ==> error == "" && loading)
                && (!Truthy(electionId) ==> error == ErrInvalidElectionId && !loading)
      ensures Schedule.CheckDates(editForm.startDate, editForm.endDate).None? && outcome.Failed? ==>
                error == OrElse(outcome.serverMessage, outcome.message)
                && requests == old(requests) + [PutElection(electionId, editForm)]
                && openEditDialog == old(openEditDialog) && loading == old(loading)
    {
      var problem := Schedule.CheckDates(editForm.startDate, editForm.endDate);
      if problem.Some? {
        error := problem.value;
        return;
      }
      requests := requests + [PutElection(electionId, editForm)];
      match outcome
      case Ok(_) =>
        openEditDialog := false;
        FetchElectionDetails(electionId);
      case Failed(serverMessage, message) =>
        error := OrElse(serverMessage, message);
    }

    /** `handleDelete`: the election is deleted and the admin dashboard
        opens, or the failure is reported and the page stays. */
    method HandleDelete(electionId: Option<string>, outcome: Response<()>)
      modifies this`error, this`requests, this`navigatedTo
      ensures requests == old(requests) + [DeleteElection(electionId)]
      ensures outcome.Ok? ==> navigatedTo == Some("/admin") && error == old(error)
      ensures outcome.Failed? ==>
                navigatedTo == old(navigatedTo) && error == OrElse(outcome.serverMessage, ErrDeleteFallback)
    {
      requests := requests + [DeleteElection(electionId)];
      match outcome
      case Ok(_) =>
        navigatedTo := Some("/admin");
      case Failed(serverMessage, _) =>
        error := OrElse(serverMessage, ErrDeleteFallback);
    }
  }
}
