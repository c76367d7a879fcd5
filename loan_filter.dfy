/**
 * The four tabs of the loan view and the server list each one loads.
 * "All" is the switch's default branch and loads the same list as "current".
 */
module LoanFilter {

  datatype ListFilter = All | Current | Overdue | History

  /** The three list endpoints of the loan service. */
  datatype Endpoint = EnCoursList | EnRetardList | HistoriqueList

  /** The filter switch in `loadEmpruntsByFilter`. */
  function EndpointFor(f: ListFilter): (e: Endpoint)
    ensures e == EnCoursList <==> f == All || f == Current
    ensures e == EnRetardList <==> f == Overdue
    ensures e == HistoriqueList <==> f == History
  {
    match f
    case Current => EnCoursList
    case Overdue => EnRetardList
    case History => HistoriqueList
    case All => EnCoursList
  }

  /** The path each service call requests. */
  function EndpointPath(e: Endpoint): (r: string)
    ensures "/emprunts/" <= r && |r| > |"/emprunts/"|
  {
    match e
    case EnCoursList => "/emprunts/en-cours"
    case EnRetardList => "/emprunts/en-retard"
    case HistoriqueList => "/emprunts/historique"
  }

  /** Every list endpoint is reached by some filter, and distinct endpoints have distinct paths. */
  lemma EndpointsCovered(e: Endpoint, e': Endpoint)
    ensures exists f :: EndpointFor(f) == e
    ensures EndpointPath(e) == EndpointPath(e') ==> e == e'
  {
    match e
    case EnCoursList => assert EndpointFor(Current) == e;
    case EnRetardList => assert EndpointFor(Overdue) == e;
    case HistoriqueList => assert EndpointFor(History) == e;
  }

  /** Two filters request the same list iff they are equal or are "all" and "current". */
  lemma SameListIff(f: ListFilter, g: ListFilter)
    ensures EndpointPath(EndpointFor(f)) == EndpointPath(EndpointFor(g))
        <==> f == g || ({f, g} == {All, Current})
  {
    EndpointsCovered(EndpointFor(f), EndpointFor(g));
  }
}
