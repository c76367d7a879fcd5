/**
 * The catalogue view's filter: a book is listed when it passes the
 * "available only" check (if that box is ticked) and, when a search text is
 * typed, when the lower-cased text occurs in its lower-cased title, author or
 * genre. The component keeps the filtered list in its state and recomputes it
 * whenever the books, the search text or the checkbox change.
 */
module BookList {
  import opened Seqs
  import opened Text
  import opened Entities

  predicate IsAvailable(b: Book) {
    b.disponible
  }

  /**
   * The search test of one book against a non-empty query: a case-insensitive
   * substring test on title, author and genre.
   */
  predicate MatchesSearch(b: Book, query: string)
    ensures MatchesSearch(b, query)
        <==> ContainsIgnoringCase(b.titre, query) || ContainsIgnoringCase(b.auteur, query)
             || ContainsIgnoringCase(b.genre, query)
  {
    var q := Lower(query);
    IncludesIff(Lower(b.titre), q);
    IncludesIff(Lower(b.auteur), q);
    IncludesIff(Lower(b.genre), q);
    Includes(Lower(b.titre), q) || Includes(Lower(b.auteur), q) || Includes(Lower(b.genre), q)
  }

  /** The first `.filter`: only books flagged available. */
  function KeepAvailable(books: seq<Book>): (r: seq<Book>)
    ensures forall b :: b in r ==> b in books && b.disponible
    ensures forall b :: b in books && b.disponible ==> b in r
  {
    Filter(IsAvailable, books)
  }

  /** The second `.filter`: only books the query matches. */
  function KeepMatching(books: seq<Book>, query: string): (r: seq<Book>)
    ensures forall b :: b in r ==> b in books && MatchesSearch(b, query)
    ensures forall b :: b in books && MatchesSearch(b, query) ==> b in r
  {
    Filter((b: Book) => MatchesSearch(b, query), books)
  }

  /** What `filterBooks` stores: the availability step if the box is ticked, then the search step if the query is non-empty. */
  function Filtered(books: seq<Book>, searchQuery: string, filterAvailable: bool): (r: seq<Book>)
    ensures !filterAvailable && searchQuery == "" ==> r == books
    ensures forall b :: b in r ==> b in books
    ensures filterAvailable ==> forall b :: b in r ==> b.disponible
    ensures searchQuery != "" ==> forall b :: b in r ==> MatchesSearch(b, searchQuery)
  {
    var afterAvailability := if filterAvailable then KeepAvailable(books) else books;
    if searchQuery != "" then KeepMatching(afterAvailability, searchQuery) else afterAvailability
  }

  /** The combined test a listed book passes. */
  predicate Selected(b: Book, searchQuery: string, filterAvailable: bool) {
    (!filterAvailable || b.disponible) && (searchQuery == "" || MatchesSearch(b, searchQuery))
  }

  function Selector(searchQuery: string, filterAvailable: bool): Book -> bool {
    b => Selected(b, searchQuery, filterAvailable)
  }

  lemma BothStepsAreOnePass(books: seq<Book>, searchQuery: string)
    requires searchQuery != ""
    ensures KeepMatching(KeepAvailable(books), searchQuery) == Filter(Selector(searchQuery, true), books)
  {
    var matching := (b: Book) => MatchesSearch(b, searchQuery);
    var sel := Selector(searchQuery, true);
    assert forall x :: sel(x) == (IsAvailable(x) && matching(x));
    FilterComposeAs(IsAvailable, matching, sel, books);
  }

  lemma AvailabilityStepIsOnePass(books: seq<Book>)
    ensures KeepAvailable(books) == Filter(Selector("", true), books)
  {
    assert forall x :: IsAvailable(x) == Selector("", true)(x);
    FilterExtensional(IsAvailable, Selector("", true), books);
  }

  lemma SearchStepIsOnePass(books: seq<Book>, searchQuery: string)
    requires searchQuery != ""
    ensures KeepMatching(books, searchQuery) == Filter(Selector(searchQuery, false), books)
  {
    var matching := (b: Book) => MatchesSearch(b, searchQuery);
    assert forall x :: matching(x) == Selector(searchQuery, false)(x);
    FilterExtensional(matching, Selector(searchQuery, false), books);
  }

  /** The two steps together are one filter on the conjunction of their tests. */
  lemma FilteredIsOnePass(books: seq<Book>, searchQuery: string, filterAvailable: bool)
    ensures Filtered(books, searchQuery, filterAvailable) == Filter(Selector(searchQuery, filterAvailable), books)
  {
    if filterAvailable && searchQuery != "" {
      BothStepsAreOnePass(books, searchQuery);
    } else if filterAvailable {
      AvailabilityStepIsOnePass(books);
    } else if searchQuery != "" {
      SearchStepIsOnePass(books, searchQuery);
    } else {
      FilterKeepsAll(Selector(searchQuery, filterAvailable), books);
    }
  }

  /** A book is listed iff it is in the catalogue and passes both tests. */
  lemma FilteredMembership(books: seq<Book>, searchQuery: string, filterAvailable: bool, b: Book)
    ensures b in Filtered(books, searchQuery, filterAvailable)
        <==> b in books && Selected(b, searchQuery, filterAvailable)
  {
    FilteredIsOnePass(books, searchQuery, filterAvailable);
  }

  /**
   * The listed books are the catalogue read at increasing positions (a
   * subsequence: same order, nothing added or repeated), and a position is read
   * exactly when its book passes both tests.
   */
  lemma FilteredIsSubsequence(books: seq<Book>, searchQuery: string, filterAvailable: bool)
    ensures exists idx ::
      && Embeds(idx, Filtered(books, searchQuery, filterAvailable), books)
      && (forall k :: 0 <= k < |books| ==> (k in idx <==> Selected(books[k], searchQuery, filterAvailable)))
  {
    var sel := Selector(searchQuery, filterAvailable);
    FilteredIsOnePass(books, searchQuery, filterAvailable);
    FilterEmbeds(sel, books);
    var idx := Positions(sel, books);
    assert Embeds(idx, Filtered(books, searchQuery, filterAvailable), books);
  }

  /** The lower-cased query occurs somewhere in the lower-cased field. */
  ghost predicate ContainsIgnoringCase(field: string, query: string) {
    exists i :: OccursAt(Lower(field), Lower(query), i)
  }

  /** With a non-empty query, a book is listed iff the query occurs, ignoring case, in its title, author or genre (and it is available when that is asked for). */
  lemma SearchIsSubstringMatch(books: seq<Book>, searchQuery: string, filterAvailable: bool, b: Book)
    requires searchQuery != ""
    ensures b in Filtered(books, searchQuery, filterAvailable)
        <==> b in books && (!filterAvailable || b.disponible)
             && (ContainsIgnoringCase(b.titre, searchQuery) || ContainsIgnoringCase(b.auteur, searchQuery)
                 || ContainsIgnoringCase(b.genre, searchQuery))
  {
    FilteredMembership(books, searchQuery, filterAvailable, b);
  }

  /** Filtering the filtered list again with the same settings changes nothing. */
  lemma FilteredIdempotent(books: seq<Book>, searchQuery: string, filterAvailable: bool)
    ensures Filtered(Filtered(books, searchQuery, filterAvailable), searchQuery, filterAvailable)
         == Filtered(books, searchQuery, filterAvailable)
  {
    var sel := Selector(searchQuery, filterAvailable);
    FilteredIsOnePass(books, searchQuery, filterAvailable);
    FilteredIsOnePass(Filtered(books, searchQuery, filterAvailable), searchQuery, filterAvailable);
    FilterIdempotent(sel, books);
  }

  /** Two queries with the same lower-case form list the same books. */
  lemma FilteredIgnoresQueryCase(books: seq<Book>, query1: string, query2: string, filterAvailable: bool)
    requires Lower(query1) == Lower(query2)
    ensures Filtered(books, query1, filterAvailable) == Filtered(books, query2, filterAvailable)
  {
    FilteredIsOnePass(books, query1, filterAvailable);
    FilteredIsOnePass(books, query2, filterAvailable);
    assert |query1| == |query2|;
    FilterExtensional(Selector(query1, filterAvailable), Selector(query2, filterAvailable), books);
  }

  /** Searching first and then keeping the available books gives the same list. */
  lemma FilterStepsCommute(books: seq<Book>, searchQuery: string)
    ensures KeepMatching(KeepAvailable(books), searchQuery) == KeepAvailable(KeepMatching(books, searchQuery))
  {
    FilterCommutes(IsAvailable, (b: Book) => MatchesSearch(b, searchQuery), books);
  }

  /** The component's state for the catalogue view. */
  class BookListView {
    var books: seq<Book>
    var searchQuery: string
    var filterAvailable: bool
    var filteredBooks: seq<Book>

    /** The displayed list is the filter of the current books with the current settings. */
    ghost predicate Valid()
      reads this
    {
      filteredBooks == Filtered(books, searchQuery, filterAvailable)
    }

    constructor ()
      ensures Valid()
      ensures books == [] && searchQuery == "" && !filterAvailable && filteredBooks == []
    {
      books, searchQuery, filterAvailable, filteredBooks := [], "", false, [];
    }

    /** `filterBooks`: recomputes the displayed list from the current settings. */
    method FilterBooks()
      modifies this`filteredBooks
      ensures filteredBooks == Filtered(books, searchQuery, filterAvailable)
      ensures Valid()
    {
      var filtered := books;
      if filterAvailable {
        filtered := KeepAvailable(filtered);
      }
      if searchQuery != "" {
        filtered := KeepMatching(filtered, searchQuery);
      }
      filteredBooks := filtered;
    }

    /** A fresh catalogue from the server, followed by the effect that refilters. */
    method SetBooks(data: seq<Book>)
      modifies this
      ensures books == data
      ensures searchQuery == old(searchQuery) && filterAvailable == old(filterAvailable)
      ensures Valid()
    {
      books := data;
      FilterBooks();
    }

    /** A new search text, followed by the effect that refilters. */
    method SetSearchQuery(query: string)
      modifies this
      ensures searchQuery == query
      ensures books == old(books) && filterAvailable == old(filterAvailable)
      ensures Valid()
    {
      searchQuery := query;
      FilterBooks();
    }

    /** The checkbox toggled, followed by the effect that refilters. */
    method SetFilterAvailable(checked: bool)
      modifies this
      ensures filterAvailable == checked
      ensures books == old(books) && searchQuery == old(searchQuery)
      ensures Valid()
    {
      filterAvailable := checked;
      FilterBooks();
    }
  }
}
