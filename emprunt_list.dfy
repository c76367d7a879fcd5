/**
 * The loan view's component state and the handlers that change it: loading
 * the list for the selected tab, and submitting the new-loan form. Server
 * answers are parameters: the list each endpoint returns (or `None` when the
 * request fails), and whether the create request was accepted.
 */
module EmpruntList {
  import opened Wrappers
  import opened Seqs
  import opened Entities
  import opened LoanFilter

  /** The users the new-loan form offers: the active ones, in list order. */
  function ActiveUsers(users: seq<User>): (r: seq<User>)
    ensures forall u :: u in r ==> u in users && u.actif
    ensures forall u :: u in users && u.actif ==> u in r
    ensures |r| <= |users|
  {
    Filter((u: User) => u.actif, users)
  }

  /** The offered users are the user list read at the positions of its active users. */
  lemma ActiveUsersKeepOrder(users: seq<User>)
    ensures exists idx ::
      && Embeds(idx, ActiveUsers(users), users)
      && (forall k :: 0 <= k < |users| ==> (k in idx <==> users[k].actif))
  {
    var active := (u: User) => u.actif;
    FilterEmbeds(active, users);
    assert Embeds(Positions(active, users), ActiveUsers(users), users);
  }

  /** The form's initial and post-success contents: no user, no book, fourteen days. */
  const EmptyRequest := CreateEmpruntRequest("", "", 14)

  const LoadDataError := "Erreur lors du chargement des données"
  const LoadLoansError := "Erreur lors du chargement des emprunts"
  const ReturnError := "Erreur lors du retour du livre"
  const ActiveLoanError := "Cet utilisateur a déjà un emprunt en cours. Il doit le rendre avant d'en faire un autre."

  /** The answer to a create request: accepted, or refused for whatever reason. */
  datatype CreateOutcome = Created | Rejected

  class EmpruntListView {
    var emprunts: seq<EmpruntAvecDetails>
    var users: seq<User>
    var availableBooks: seq<Book>
    var filter: ListFilter
    var newEmprunt: CreateEmpruntRequest
    var showCreateForm: bool
    var error: Option<string>

    constructor ()
      ensures emprunts == [] && users == [] && availableBooks == [] && filter == All
      ensures newEmprunt == EmptyRequest && !showCreateForm && error == None
    {
      emprunts, users, availableBooks, filter := [], [], [], All;
      newEmprunt, showCreateForm, error := EmptyRequest, false, None;
    }

    /**
     * `loadData`: the loans in progress, the users and the available books are
     * fetched together; only when all three arrive are they shown, otherwise
     * nothing is replaced and the load error is set. The loans always come from
     * the in-progress endpoint, whichever tab is selected.
     */
    method LoadData(server: Endpoint -> Option<seq<EmpruntAvecDetails>>, allUsers: Option<seq<User>>, books: Option<seq<Book>>)
      modifies this`emprunts, this`users, this`availableBooks, this`error
      ensures filter == old(filter)
      ensures server(EnCoursList).Some? && allUsers.Some? && books.Some? ==>
        emprunts == server(EnCoursList).value && users == allUsers.value && availableBooks == books.value
        && error == old(error)
      ensures !(server(EnCoursList).Some? && allUsers.Some? && books.Some?) ==>
        emprunts == old(emprunts) && users == old(users) && availableBooks == old(availableBooks)
        && error == Some(LoadDataError)
    {
      var loans := server(EnCoursList);
      if loans.Some? && allUsers.Some? && books.Some? {
        emprunts, users, availableBooks := loans.value, allUsers.value, books.value;
      } else {
        error := Some(LoadDataError);
      }
    }

    /**
     * `loadEmpruntsByFilter`: asks the endpoint chosen by the current tab; a
     * list that arrives replaces the shown loans, a failed request keeps them and
     * sets the load error.
     */
    method LoadEmpruntsByFilter(server: Endpoint -> Option<seq<EmpruntAvecDetails>>) returns (requested: Endpoint)
      modifies this`emprunts, this`error
      ensures requested == EndpointFor(filter)
      ensures server(requested).Some? ==> emprunts == server(requested).value && error == old(error)
      ensures server(requested).None? ==> emprunts == old(emprunts) && error == Some(LoadLoansError)
    {
      requested := EndpointFor(filter);
      var data := server(requested);
      if data.Some? {
        emprunts := data.value;
      } else {
        error := Some(LoadLoansError);
      }
    }

    /**
     * Choosing a tab. A different tab is stored and its list is reloaded as
     * `loadEmpruntsByFilter` does; choosing the tab already selected leaves the
     * state as it is, so the effect keyed on the filter does not run and
     * nothing is requested (`requested` is `None`).
     */
    method SetFilter(f: ListFilter, server: Endpoint -> Option<seq<EmpruntAvecDetails>>) returns (requested: Option<Endpoint>)
      modifies this`filter, this`emprunts, this`error
      ensures filter == f
      ensures f == old(filter) ==> requested == None && emprunts == old(emprunts) && error == old(error)
      ensures f != old(filter) ==> requested == Some(EndpointFor(f))
      ensures f != old(filter) && server(EndpointFor(f)).Some? ==>
        emprunts == server(EndpointFor(f)).value && error == old(error)
      ensures f != old(filter) && server(EndpointFor(f)).None? ==>
        emprunts == old(emprunts) && error == Some(LoadLoansError)
    {
      if f != filter {
        filter := f;
        var e := LoadEmpruntsByFilter(server);
        requested := Some(e);
      } else {
        requested := None;
      }
    }

    /**
     * `handleCreateEmprunt`: on success the form is emptied and hidden and the
     * data is reloaded (`reload`); on any refusal, whatever its reason, the
     * "already has a loan in progress" message is shown and the form is kept.
     */
    method HandleCreateEmprunt(outcome: CreateOutcome) returns (reload: bool)
      modifies this`newEmprunt, this`showCreateForm, this`error
      ensures reload <==> outcome == Created
      ensures outcome == Created ==> newEmprunt == EmptyRequest && !showCreateForm && error == old(error)
      ensures outcome == Rejected ==> error == Some(ActiveLoanError)
      ensures outcome == Rejected ==> newEmprunt == old(newEmprunt) && showCreateForm == old(showCreateForm)
    {
      if outcome == Created {
        newEmprunt := EmptyRequest;
        showCreateForm := false;
        reload := true;
      } else {
        error := Some(ActiveLoanError);
        reload := false;
      }
    }

    /**
     * `handleReturnBook`: nothing happens unless the user confirms; an accepted
     * return reloads the data, a refused one sets the return error.
     */
    method HandleReturnBook(confirmed: bool, accepted: bool) returns (reload: bool)
      modifies this`error
      ensures reload <==> confirmed && accepted
      ensures confirmed && !accepted ==> error == Some(ReturnError)
      ensures !(confirmed && !accepted) ==> error == old(error)
    {
      reload := false;
      if confirmed {
        if accepted {
          reload := true;
        } else {
          error := Some(ReturnError);
        }
      }
    }
  }
}
