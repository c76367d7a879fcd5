/**
 * The records the front end receives from the library server. Dates are
 * instants in integer milliseconds since the epoch (what `Date.getTime()`
 * returns); optional fields are `Option`s.
 */
module Entities {
  import opened Wrappers

  datatype Book = Book(
    id: string,
    titre: string,
    auteur: string,
    isbn: string,
    anneePublication: int,
    genre: string,
    description: Option<string>,
    disponible: bool,
    dateAjout: int,
    nombreExemplaires: int)

  datatype User = User(
    id: string,
    nom: string,
    prenom: string,
    email: string,
    dateInscription: int,
    actif: bool)

  /** The three loan states the server reports. */
  datatype Statut = EnCours | Retourne | EnRetard

  /**
   * A loan as the server delivers it. The status is kept as the delivered
   * string: the declared type allows only the three spellings of `Statut`,
   * but nothing checks that at run time, and the loan table tests the string
   * itself. `ParseStatut` reads it as a `Statut` when it is one of them.
   */
  datatype Emprunt = Emprunt(
    id: string,
    utilisateurId: string,
    livreId: string,
    dateEmprunt: int,
    dateRetourPrevu: int,
    dateRetourEffectif: Option<int>,
    statut: string)

  datatype UserSummary = UserSummary(nom: string, prenom: string, email: string)

  datatype BookSummary = BookSummary(titre: string, auteur: string, isbn: string, nombreExemplaires: int)

  /** A loan joined with the user and book it refers to, as the list endpoints return it. */
  datatype EmpruntAvecDetails = EmpruntAvecDetails(
    emprunt: Emprunt,
    utilisateur: UserSummary,
    livre: BookSummary)

  /** The body of a create-loan request; the form always fills in the duration. */
  datatype CreateEmpruntRequest = CreateEmpruntRequest(
    utilisateurId: string,
    livreId: string,
    dureeEmprunt: int)

  /** The wire spelling of a loan state: each spelling belongs to exactly one state. */
  function StatutCode(s: Statut): (code: string)
    ensures code == "EN_COURS" <==> s == EnCours
    ensures code == "RETOURNE" <==> s == Retourne
    ensures code == "EN_RETARD" <==> s == EnRetard
  {
    match s
    case EnCours => "EN_COURS"
    case Retourne => "RETOURNE"
    case EnRetard => "EN_RETARD"
  }

  /** Reads a wire spelling back; any other string is not a loan state. */
  function ParseStatut(code: string): (r: Option<Statut>)
    ensures r.Some? ==> StatutCode(r.value) == code
  {
    if code == "EN_COURS" then Some(EnCours)
    else if code == "RETOURNE" then Some(Retourne)
    else if code == "EN_RETARD" then Some(EnRetard)
    else None
  }

  lemma StatutRoundTrip(s: Statut)
    ensures ParseStatut(StatutCode(s)) == Some(s)
  {
  }
}
