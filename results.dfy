/** The results page: which of its four screens it shows, and the one fetch
    that decides it. */
module Results {
  import opened Common
  import Tally

  /** The `election` field of the results response. */
  datatype ElectionResults = ElectionResults(
    title: string, description: string, totalVotes: nat, candidates: seq<Tally.ResultCandidate>)

  /** The four screens of the page. */
  datatype View =
    | Spinner
    | ErrorAlert(message: string)
    | NoResults
    | Standings(title: string, description: string, totalVotes: nat, rows: seq<Tally.Row>)

  /** The page's rendering decisions: the spinner while loading, then an
      error, then the notice that there are no results, and otherwise one card
      per candidate built by `Tally.ResultRows`. */
  function SelectView(loading: bool, error: string, results: Option<ElectionResults>): (v: View)
    ensures v == Spinner <==> loading
    ensures v.ErrorAlert? <==> !loading && error != ""
    ensures v.ErrorAlert? ==> v.message == error
    ensures v == NoResults <==> !loading && error == "" && results.None?
    ensures v.Standings? <==> !loading && error == "" && results.Some?
    ensures v.Standings? ==>
              v.title == results.value.title && v.description == results.value.description
              && v.totalVotes == results.value.totalVotes
              && v.rows == Tally.ResultRows(results.value.candidates, results.value.totalVotes)
  {
    if loading then Spinner
    else if error != "" then ErrorAlert(error)
    else if results.None? then NoResults
    else
      var r := results.value;
      Standings(r.title, r.description, r.totalVotes, Tally.ResultRows(r.candidates, r.totalVotes))
  }

  const ErrResultsFallback := "Error fetching results"

  /** The state of the results page; `requested` lists the elections whose
      results it has asked for. */
  class ResultsPage {
    var results: Option<ElectionResults>
    var loading: bool
    var error: string
    var requested: seq<Option<string>>

    constructor ()
      ensures results == None && loading && error == "" && requested == []
    {
      results := None;
      loading := true;
      error := "";
      requested := [];
    }

    /** The effect: one request per election id the route gives it, even an
        absent one. */
    method Mount(electionId: Option<string>)
      modifies this`requested
      ensures requested == old(requested) + [electionId]
    {
      requested := requested + [electionId];
    }

    /** The answer to `fetchResults`: the results are kept or the failure is
        reported, and the spinner stops either way. A failure always leads to
        the error screen, because the fallback message is not empty. */
    method ReceiveResults(response: Response<Option<ElectionResults>>)
      modifies this`results, this`loading, this`error
      ensures !loading
      ensures response.Ok? ==> results == response.data && error == old(error)
      ensures response.Failed? ==>
                results == old(results) && error == OrElse(response.serverMessage, ErrResultsFallback)
      ensures response.Failed? ==> SelectView(loading, error, results).ErrorAlert?
      ensures response.Ok? && old(error) == "" ==>
                (SelectView(loading, error, results).Standings? <==> response.data.Some?)
    {
      loading := false;
      match response
      case Ok(data) =>
        results := data;
      case Failed(serverMessage, _) =>
        error := OrElse(serverMessage, ErrResultsFallback);
    }
  }
}
