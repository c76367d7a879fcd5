# Library front end: catalogue filter and loan display rules

This project models the decision logic of a library-management web front end
(books, members and loans, "emprunts"). The loan rules themselves (copy
counting, one active loan per member, due dates, returns) are enforced by a
REST server that is not part of this model; the front end only trusts the
`disponible` flag of a book and the `statut` of a loan as delivered. What the
front end decides on its own, and what is modelled here, is:

- **Catalogue filter** (`BookList.tsx`): a book is listed when it is available
  (if "available only" is ticked) and, when a search text is typed, when the
  lower-cased text occurs in its lower-cased title, author or genre. The view
  keeps the filtered list in its state and refilters whenever the books, the
  text or the checkbox change (`BookList.BookListView`, invariant `Valid()`).
- **Loan table** (`EmpruntList.tsx`): the status badge for a loan state, the
  whole-day countdown to the due date, its urgency class and label, the loan
  duration on the history tab, which rows offer a "return" button, which list
  endpoint each tab loads, which members the new-loan form offers, and how the
  view's state changes when lists load and when a loan is created or returned
  (`EmpruntList.EmpruntListView`).

Modules: `Wrappers` (Option), `Text` (ASCII lower-casing, substring search,
decimal rendering of integers and its parser), `Seqs` (`Array.prototype.filter`
and the algebra of filters), `Entities` (the records of `src/types`),
`BookList`, `LoanFilter`, `LoanRow`, `EmpruntList`.

Conventions: instants are integer milliseconds since the epoch and the current
instant `now` is a parameter; `Math.ceil(ms / 86400000)` is integer ceiling
division; server answers are parameters of the state-changing methods.

Behaviours of the code worth knowing:
- the return button is offered only for rows whose raw `statut` string is
  `EN_COURS`, never for `EN_RETARD` ones; a string that is no loan state shows
  the "En cours" badge but no button (`LoanRow.ShowsReturnAction`,
  `LoanRow.UnknownStatusBadgeWithoutButton`);
- every create refusal shows the same "already has a loan in progress"
  message, whatever the server's reason
  (`EmpruntList.EmpruntListView.HandleCreateEmprunt`);
- the form state can hold any integer duration (and an empty user or book);
  only the browser's validation of the `required` selects and of the number
  input's `min`/`max` at submission keeps an empty choice or a duration
  outside 1–30 from reaching `handleCreateEmprunt`, and that validation is not
  part of this model;
- `loadData` always loads the in-progress list, whichever tab is selected, and
  leaves the tab as it is; so after a create on "overdue" or "history", or a
  return on "overdue" (the history tab has no return button), the in-progress
  loans are shown under that tab, and on "history" every duration cell then
  shows "-"; choosing the tab already selected fetches nothing, so they stay
  (`LoadData`, `DurationText`, `SetFilter`);
- a loan's `statut` is kept as the string the server delivers: its declared
  type allows three spellings, but the table tests the string itself.

## Model

| member | source | states |
|---|---|---|
| `Seqs.Filter` | src/components/BookList.tsx:45-54 | `Array.filter`: the result is no longer than the input, holds exactly the input elements that pass, and repeats no element more often than the input does (multiset inclusion) |
| `Seqs.FilterEmbeds` | src/components/BookList.tsx:41-57 | a filter's result is the input read at strictly increasing positions, and a position is read iff its element passes: order kept, nothing added or duplicated |
| `Seqs.FilterCompose` | src/components/BookList.tsx:42-57 | two filters in a row equal one filter on the conjunction of their predicates |
| `Seqs.FilterCommutes` | src/components/BookList.tsx:44-55 | the order of two filters does not matter |
| `Seqs.FilterIdempotent` | src/components/BookList.tsx:41-57 | filtering a filtered list again with the same predicate changes nothing |
| `Seqs.FilterExtensional` | src/components/BookList.tsx:50-53 | predicates that agree on every element give the same filter result |
| `Text.Lower` | src/components/BookList.tsx:51-53 | lower-casing keeps the length, maps each character on its own and leaves no upper-case ASCII letter |
| `Text.LowerIdempotent` | src/components/BookList.tsx:51-53 | lower-casing twice is lower-casing once |
| `Text.Includes` | src/components/BookList.tsx:51-53 | `includes`: an empty needle is found in any hay, and a needle is never found in a shorter hay |
| `Text.IncludesIff` | src/components/BookList.tsx:51-53 | `includes` holds iff the needle occurs at some index of the hay |
| `Text.DecimalRoundTrip` | src/components/EmpruntList.tsx:346-348 | the decimal rendering of a natural number reads back as that number |
| `Text.IntText` | src/components/EmpruntList.tsx:295 | the template-literal rendering of an integer is non-empty, starts with `-` iff the integer is negative, and is otherwise all digits |
| `Text.IntTextRoundTrip` | src/components/EmpruntList.tsx:295 | the template-literal rendering of any integer, followed by any non-digit text, reads back as that integer and that text |
| `Entities.StatutCode` | src/types/Emprunt.ts:8 | each of the three wire spellings belongs to exactly one loan state |
| `Entities.ParseStatut` | src/types/Emprunt.ts:8 | a string read as a loan state is that state's wire spelling |
| `Entities.StatutRoundTrip` | src/types/Emprunt.ts:8 | each loan state's wire spelling reads back as that state |
| `BookList.KeepAvailable` | src/components/BookList.tsx:44-46 | the availability step keeps exactly the books flagged `disponible` |
| `BookList.KeepMatching` | src/components/BookList.tsx:48-55 | the search step keeps exactly the books the query matches |
| `BookList.Filtered` | src/components/BookList.tsx:41-57 | with the box unticked and an empty query the list is the catalogue itself; every listed book is in the catalogue, is available when the box is ticked, and matches a non-empty query |
| `BookList.FilteredIsOnePass` | src/components/BookList.tsx:42-57 | the availability step then the search step equal one filter on the conjunction of both tests |
| `BookList.FilteredMembership` | src/components/BookList.tsx:42-55 | a book is listed iff it is in the catalogue and passes both tests (so with the box ticked every available matching book is listed) |
| `BookList.FilteredIsSubsequence` | src/components/BookList.tsx:41-57 | the listed books are the catalogue read at increasing positions, a position being read iff its book passes both tests |
| `BookList.MatchesSearch` | src/components/BookList.tsx:50-53 | the search test holds iff the lower-cased query occurs at some index of the lower-cased title, author or genre |
| `BookList.SearchIsSubstringMatch` | src/components/BookList.tsx:48-55 | with a non-empty query, a book is listed iff it is in the catalogue, is available when asked, and the query occurs ignoring case in its title, author or genre |
| `BookList.FilteredIdempotent` | src/components/BookList.tsx:41-57 | filtering the listed books again with the same settings gives the same list |
| `BookList.FilteredIgnoresQueryCase` | src/components/BookList.tsx:50-53 | two queries with the same lower-case form list the same books |
| `BookList.FilterStepsCommute` | src/components/BookList.tsx:44-55 | searching first and then keeping available books gives the same list as the source's order |
| `BookList.BookListView.constructor` | src/components/BookList.tsx:6-12 | the view starts with no books, an empty query, the box unticked and an empty list, consistent with its invariant |
| `BookList.BookListView.FilterBooks` | src/components/BookList.tsx:41-58 | the stored list becomes the filter of the current books with the current settings; nothing else changes |
| `BookList.BookListView.SetBooks` | src/components/BookList.tsx:25-33 | new books from the server replace the catalogue, settings stay, and the list is refiltered |
| `BookList.BookListView.SetSearchQuery` | src/components/BookList.tsx:110 | a new query replaces the old one, books and checkbox stay, and the list is refiltered |
| `BookList.BookListView.SetFilterAvailable` | src/components/BookList.tsx:117 | the checkbox value replaces the old one, books and query stay, and the list is refiltered |
| `LoanFilter.EndpointFor` | src/components/EmpruntList.tsx:50-62 | "all" and "current" load the in-progress list, "overdue" the overdue list, "history" the history list, and only those |
| `LoanFilter.EndpointPath` | src/services/empruntService.ts:26-46 | every list endpoint requests a path under `/emprunts/` |
| `LoanFilter.EndpointsCovered` | src/services/empruntService.ts:26-46 | every list endpoint is loaded by some tab, and distinct endpoints request distinct paths |
| `LoanFilter.SameListIff` | src/components/EmpruntList.tsx:50-62 | two tabs request the same path iff they are the same tab or are "all" and "current" |
| `LoanRow.GetStatusInfo` | src/components/EmpruntList.tsx:105-134 | total on strings: `EN_RETARD` gives the overdue badge, `RETOURNE` the returned badge, and every other string, `EN_COURS` included, the in-progress badge |
| `LoanRow.StatusInfoSeparatesStates` | src/components/EmpruntList.tsx:105-134 | distinct loan states get distinct badges; a string that is no loan state gets the same badge as `EN_COURS` |
| `LoanRow.CeilDays` | src/components/EmpruntList.tsx:140 | the least whole number of days whose length reaches the span |
| `LoanRow.DaysRemaining` | src/components/EmpruntList.tsx:136-142 | the least integer `d` with `d` days at least `due - now` |
| `LoanRow.DaysRemainingOfWholeDays` | src/components/EmpruntList.tsx:136-142 | a due instant exactly `k` days from now shows `k` (e.g. five days late shows -5) |
| `LoanRow.DaysRemainingNegativeIff` | src/components/EmpruntList.tsx:136-142 | the count is negative iff the due instant is at least one full day before now |
| `LoanRow.UrgencyOf` | src/components/EmpruntList.tsx:338-344 | exactly one class: late iff `d < 0`, warning iff `0 <= d <= 3`, normal iff `d > 3` |
| `LoanRow.UrgencyMonotone` | src/components/EmpruntList.tsx:338-344 | fewer days left never gives a less urgent class |
| `LoanRow.UrgencyByDueDate` | src/components/EmpruntList.tsx:338-344 | the class in terms of the due instant: late iff due at least a day ago, warning iff within (now - 1 day, now + 3 days], normal beyond |
| `LoanRow.UrgencyClass` | src/components/EmpruntList.tsx:339-343 | "overdue" iff late, "warning" iff warning, "normal" iff normal: one class name per urgency |
| `LoanRow.RemainingLabel` | src/components/EmpruntList.tsx:346-348 | the label reads back as the signed day count: `|d|` days late when `d < 0`, otherwise `d` days |
| `LoanRow.HistoryDuration` | src/components/EmpruntList.tsx:289-298 | defined iff the tab is history and the loan has a return date, and then the least whole number of days covering return minus loan |
| `LoanRow.DurationText` | src/components/EmpruntList.tsx:335 | the history cell is "-" iff there is no duration, and otherwise reads back as that duration |
| `LoanRow.RemainingCell` | src/components/EmpruntList.tsx:333-350 | off the history tab the cell's text reads back as the days remaining, and it is classed "overdue" iff the due instant is a full day past, "warning" iff it lies within (now - 1 day, now + 3 days], "normal" iff beyond; on the history tab it is classed "normal" and reads back as the duration, or is "-" |
| `LoanRow.ShowsReturnAction` | src/components/EmpruntList.tsx:364-373 | a row offers the return button iff it is off the history tab and its raw status string is the `EN_COURS` spelling; a row with the button always has the in-progress badge |
| `LoanRow.ReturnActionMatchesBadge` | src/components/EmpruntList.tsx:364-373 | for each of the three loan states, a row offers the return button iff it is off the history tab and its badge is the in-progress badge |
| `LoanRow.UnknownStatusBadgeWithoutButton` | src/components/EmpruntList.tsx:364-373 | a status string that is no loan state shows the in-progress badge but never the return button |
| `EmpruntList.ActiveUsers` | src/components/EmpruntList.tsx:224-230 | every offered member is active and every active member is offered |
| `EmpruntList.ActiveUsersKeepOrder` | src/components/EmpruntList.tsx:224-230 | the offered members are the member list read at the positions of its active members, in order |
| `EmpruntList.EmpruntListView.constructor` | src/components/EmpruntList.tsx:10-23 | the view starts on the "all" tab with empty lists, no error, the form hidden and holding no user, no book and fourteen days |
| `EmpruntList.EmpruntListView.LoadData` | src/components/EmpruntList.tsx:29-45 | the loans always come from the in-progress endpoint, whatever the tab, and the tab is kept; loans, members and available books are replaced only when all three arrive; otherwise all are kept and the load error is set |
| `EmpruntList.EmpruntListView.LoadEmpruntsByFilter` | src/components/EmpruntList.tsx:47-67 | the endpoint requested is the one the current tab selects; a list that arrives replaces the loans, a failed request keeps them and sets the loans error |
| `EmpruntList.EmpruntListView.SetFilter` | src/components/EmpruntList.tsx:69-73 | choosing a different tab sets the filter and reloads the loans from that tab's endpoint: a list that arrives replaces them, a failed request keeps them and sets the loans error; choosing the tab already selected requests nothing and changes nothing |
| `EmpruntList.EmpruntListView.HandleCreateEmprunt` | src/components/EmpruntList.tsx:75-92 | on success the form is reset to no user, no book, fourteen days, is hidden and data is reloaded; on any refusal, whatever its reason, the single "already has a loan in progress" error is set and the form is kept |
| `EmpruntList.EmpruntListView.HandleReturnBook` | src/components/EmpruntList.tsx:94-103 | nothing happens without confirmation; an accepted return reloads the data, a refused one sets the return error |

## Left out

- The loan lifecycle (copy counting against `nombreExemplaires`, one active loan per member, due date from the duration, return idempotence) is implemented by the server, which is not part of this model; the front end only displays `disponible` and `statut`.
- The service modules (`bookService`, `empruntService`, `userService`) are HTTP calls over a client that is not part of this model; their answers are parameters of the state methods, and only the endpoint paths are modelled.
- `Dashboard.tsx` (parallel fetches followed by counting), `UserList.tsx` (member CRUD handlers and the `actif` toggle) and `App.tsx` (routing) are I/O and markup without decision logic of their own.
- The book handlers `loadBooks`, `handleCreateBook` and `handleDeleteBook` are I/O around state setters; only `setBooks` followed by the refilter effect is modelled (`SetBooks`).
- JSX rendering, CSS class strings other than the badge and urgency classes, option labels of the form selects, `toLocaleDateString` date formatting, the `loading` flag (so `SetFilter` reloads on a tab change even while the first load is pending, where the effect skips it), and the five-second timer that clears the error are presentation, timers and locale.
- `Text.Lower`: lower-cases ASCII letters only, because full Unicode `toLowerCase` (which can change the length of a string) has no counterpart here.
- `LoanRow.DaysRemaining`: computed exactly on integer milliseconds; the floating-point division before `Math.ceil`, and the parsing of date strings by `new Date(...)`, are not modelled.
- `parseInt` on the duration input can yield `NaN`; the form's duration is an integer here.
- `LoadData`, `LoadEmpruntsByFilter`, `SetFilter`: each request and its answer are one atomic step here. In the code they are asynchronous and not awaited by their callers, so answers can interleave or arrive out of order (two quick tab changes, or a reload after a create racing a tab change) and a tab can end up showing another tab's list; that interleaving is not captured.
- The browser's constraint validation of the create form (`required` selects, `min`/`max` on the duration) runs before `handleCreateEmprunt` and is browser behaviour, not code of the component; `HandleCreateEmprunt` takes the server's answer for whatever request was sent.
