# Movie catalog: loans, renewal and listings in Dafny

A model of the business logic of a small Django library catalog of movies.
The catalog holds genres, countries, directors, movies and loanable copies
("instances") of movies. Each copy has a status of Maintenance, On loan,
Available or Reserved, an optional due date and an optional borrower.

The model covers four things:

- the renewal form's date check;
- the values derived from the records: overdue, the genre column, the text forms;
- the table constraints and default orderings;
- what the views compute: the home page counts and visit counter, the two loan
  listings, and the renewal that writes a new due date back.

Dates are day numbers (`Common.Date`), so "four weeks" is 28 and "three
weeks" is 21. The current date is always passed in as `today`, never read
from a clock. Tables are sequences of records. The state that the views
change in place is held in two classes:

- `Views.Session` holds a visitor's session store;
- `Views.Library` holds the catalog's tables.

Files:

- `common.dfy`: `Option` and `Date`.
- `ordering.dfy`: total preorders, a sort specified as "sorted and a permutation", and the character-code order on text.
- `forms.dfy`: `RenewMovieForm.clean_renewal_date`.
- `models.dfy`: the records, `LOAN_STATUS` and its default, `is_overdue`, `display_genre`, the `__str__` forms, the uniqueness constraints and the `Meta.ordering` declarations.
- `views.py` is modelled in `views.dfy`: `index`, the two `get_queryset` bodies and `renew_movie_employer`.

Conventions the Django code leaves to the database:

- In `order_by('due_back')`, copies without a due date sort first, as in SQLite's ascending order.
- Text sorts by character code.
- The ordering `['title', 'director']` sorts by the director's own ordering (last name, then first name), as Django does for a foreign key in an ordering. A movie without a director sorts first.
- Rows whose sort keys are equal may come out in any order. The sort contracts say only "sorted and a permutation".
- An insert that breaks several constraints reports the primary key first, then the other unique constraint (ISBN, or one copy per borrower), then a missing foreign-key target. Django declares foreign keys as deferred constraints, checked at commit, so they come last.

The staff listing (`LoanedMoviesAllListView.get_queryset`) is modelled as
written. It lists every copy, whatever its status, although its name and
docstring speak of copies on loan, and a commented-out line filtered on
status `'o'`. `Views.AllBorrowedListsCopiesNotOnLoan` states this behaviour.
Likewise `is_overdue` does not look at the status, and
`Models.OverdueIgnoresStatus` states that.

## Model

| member | source | states |
|---|---|---|
| `Forms.CleanRenewalDate` | catalog/forms.py:14-27 | a date is accepted iff today <= d <= today + 28, and it is then returned unchanged; the "renewal in past" error occurs iff d < today; the "more than 4 weeks ahead" error occurs iff d > today + 28 |
| `Forms.RenewalWindowBoundaries` | catalog/forms.py:18-25 | both ends of the window are included: today and today + 28 are accepted; today - 1 is refused as past and today + 29 as too far ahead |
| `Forms.RenewalError.Message` | catalog/forms.py:20-25 | both error messages begin "Invalid date - renewal " |
| `Forms.RefusalReasonUnique` | catalog/forms.py:18-25 | a refused date fails exactly one of the two checks, and the two error messages differ |
| `Models.StatusFromCode` | catalog/models.py:86-98 | a stored status code is a status iff it is one of 'd', 'o', 'a', 'r', and the status read back has that code |
| `Models.StatusCodeRoundTrip` | catalog/models.py:86-91 | every status, stored as its code and read back, is the same status; no two statuses share a code or a label |
| `Models.NewInstance` | catalog/models.py:93-98 | a copy created without a status is in Maintenance, whose stored code is 'd'; its other fields are the given values |
| `Models.IsOverdue` | catalog/models.py:80-84 | a copy is overdue iff it has a due date and today is strictly after it; a copy without a due date is never overdue |
| `Models.OverdueIgnoresStatus` | catalog/models.py:80-84 | two copies that differ only in status are both overdue or both not overdue |
| `Models.LoanStatus.Code` | catalog/models.py:86-91 | the stored code of every status is one of 'd', 'o', 'a', 'r' |
| `Models.LoanStatus.Label` | catalog/models.py:86-91 | the label of every status is one of "Maintenance", "On loan", "Available", "Reserved" |
| `Models.Join` | catalog/models.py:52 | `', '.join`: the joined text is empty iff there are no parts or the only part is empty, and it starts with the first part |
| `Models.UnjoinJoin` | catalog/models.py:52 | for a non-empty list of comma-free names, cutting the ", "-joined text at its commas gives back the list |
| `Models.DisplayGenre` | catalog/models.py:50-52 | the genre column is empty with no genres, the one name with one genre, "g1, g2" with two, and the first three names joined by ", " with three or more; with comma-free names it splits back into the first min(3, n) names in association order, so at most 3 |
| `Models.DirectorStr` | catalog/models.py:125-127 | a director's text is last name, ", ", first name, of that length; with comma-free names it splits back into [last, first] |
| `Models.InstanceStr` | catalog/models.py:104-106 | a copy's text exists iff the copy refers to an existing movie, and it is then the copy id followed by the movie's title in parentheses |
| `Models.InstanceStrDefined` | catalog/models.py:75 | when no copy refers to a missing movie, every copy that has a movie has a text form |
| `Models.AddMovie` | catalog/models.py:33-45 | inserting a movie is refused as a duplicate key iff a stored movie has its key; as a duplicate ISBN iff the key is new and a stored movie has its ISBN; as a missing reference iff key and ISBN are new and its director or country is not stored; otherwise it succeeds, appends the movie, and keeps keys and ISBNs unique and director and country references resolvable |
| `Models.AddInstance` | catalog/models.py:73-78 | inserting a copy is refused as a duplicate key iff a stored copy has its key; as a duplicate borrower iff the key is new and its borrower already borrows a copy; as a missing reference iff neither and its movie is not stored; otherwise it succeeds, appends the copy, and keeps keys and borrowers unique and movie references resolvable |
| `Models.InstanceOrderTotalPreorder` | catalog/models.py:101 | the due-date order of copies is reflexive, transitive and total |
| `Models.DirectorOrderTotalPreorder` | catalog/models.py:117 | the (last name, first name) order of directors is reflexive, transitive and total |
| `Models.MovieOrderTotalPreorder` | catalog/models.py:48 | the (title, director) order of movies is reflexive, transitive and total |
| `Models.OrderedMovies` | catalog/models.py:48 | the movie table in default order is a permutation of the table, sorted by title and then director |
| `Models.OrderedDirectors` | catalog/models.py:117 | the director table in default order is a permutation of the table, sorted by last and then first name |
| `Ordering.SortBy` | catalog/views.py:72 | `order_by`: the result is a permutation of the input and is non-decreasing under any total order |
| `Ordering.Insert` | catalog/views.py:72 | inserting into a sorted sequence adds exactly that element and keeps it sorted |
| `Ordering.SortedPairwise` | catalog/views.py:88 | under a transitive order, a non-decreasing sequence is ordered between every pair of positions, not only neighbours |
| `Ordering.StrLeTotalPreorder` | catalog/models.py:117 | the order on text used for names and titles is reflexive, transitive and total |
| `Ordering.StrLeAntisymmetric` | catalog/models.py:48 | two texts that each sort before the other are equal |
| `Views.CountWithStatus` | catalog/views.py:17 | the number of copies with a given status equals that status's multiplicity among the copies' statuses, and is at most the number of copies |
| `Views.Counts` | catalog/views.py:14-18 | the home page counts all movies, all copies and all directors; the available count is the number of copies with status 'a' and is at most the number of copies |
| `Views.Session.CountVisit` | catalog/views.py:21-22 | the visit number shown is the stored one, or 1 if there is none; the stored value becomes that number plus 1; no other session key changes |
| `Views.Library.Valid` | catalog/models.py:73-78 | the catalog keeps unique copy keys, ISBNs and borrowers, and every copy's movie reference resolves, so every copy that names a movie has a text form; the constructor establishes it and `Views.Library.RenewMovie` keeps it |
| `Views.Library.Index` | catalog/views.py:11-22 | the home page shows the counts of the current tables and the visit number, and records one more visit in the session |
| `Views.LoansOf` | catalog/views.py:72 | the filter keeps exactly the copies whose borrower is the user and whose status is 'o', each as often as in the table |
| `Views.LoanedByUser` | catalog/views.py:72 | the user's listing holds exactly the copies on loan to that user, each as often as in the table, in non-decreasing due-date order |
| `Views.LoansOfAtMostOne` | catalog/views.py:72 | when no user borrows two copies, the filter keeps at most one copy |
| `Views.LoanedByUserAtMostOne` | catalog/views.py:72 | when no user borrows two copies, a user's listing has at most one element |
| `Views.AllBorrowed` | catalog/views.py:88 | the staff listing is a permutation of all copies, whatever their status, and is ordered by due date between every pair of positions |
| `Views.AllBorrowedListsCopiesNotOnLoan` | catalog/views.py:87-88 | a copy that is not on loan still appears in the staff listing |
| `Views.FindInstance` | catalog/views.py:105 | the lookup by primary key gives a position holding that key, or none exactly when no copy has that key |
| `Views.ProposedRenewalDate` | catalog/views.py:126-127 | the date the renewal form proposes first is three weeks after today, and the date check accepts it |
| `Views.Library.RenewalForm` | catalog/views.py:124-127 | the unsubmitted renewal form finds nothing iff no copy has the key; otherwise it shows that copy and proposes today + 21, an accepted date |
| `Views.Library.RenewMovie` | catalog/views.py:103-117 | an unknown key is not found, and nothing changes; a date the form refuses gives that error and changes nothing; an accepted date becomes the due date of the copy with that key; its id, movie, imprint, borrower and status stay, no other copy changes, and the table constraints still hold |

## Left out

- Persistence is not modelled: query evaluation, `save()`, `select_related` and transactions. Tables are sequences, and `get_object_or_404` is the lookup `Views.FindInstance`.
- `on_delete` behaviour is left out. Deleting a director or country sets movie references to null, and deleting a movie that still has copies is refused. The model states only the invariants that references resolve (`Models.MovieRefsResolve`, `Models.MovieFksResolve`).
- `Views.Library` holds no country table, so its invariant does not cover movies' director and country references; `Models.AddMovie` checks them against tables passed in.
- The asynchronous scaffolding of `renew_movie_employer` is left out: `asyncio.create_task` and `await` on values that are not coroutines. Only the sequential logic is modelled: look up the copy, validate the date, write it back.
- Parsing the form field (text to date) is outside the model; the date check receives a date.
- Logging calls, UUID generation, `date.today()` are not modelled, and Python's date range limits are not modelled either: `today + 28` cannot overflow here.
- Authentication and permission checks, pagination, templates, URL reversing, `get_absolute_url` and the admin site are not modelled.
- The generic list, detail, create, update and delete views are left out: they have no logic of their own beyond using the default orderings, which are modelled.
- The `max_length` limits of text fields are not modelled.
- `Genre.__str__`, `Country.__str__` and `Movie.__str__` are not modelled: each returns a name or title field unchanged.
- `Models.DisplayGenre` takes the order of a movie's genres to be the association order, held as a sequence. The database query `self.genre.all()` has no declared ordering.
- `Models.StatusFromCode`: the status field is declared with `blank=True`, so a form could store the empty string. The model's status is always one of the four choices.
- `Views.Session.CountVisit`: session values are modelled as integers only; the model does not cover a stored non-integer visit count.
