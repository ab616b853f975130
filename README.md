# Library catalog: validators, renewal form and loan views

This project models the logic of the `catalog` app of a Django library
catalog. Librarians renew the loans of book copies ("book instances"), and
patrons list the copies they have on loan. It covers three parts:

- **Validators** (`validators.dfy`). Four checks: "not before today",
  "not after today + 4 weeks", "death not before birth" and "first name
  differs from last name". Each one either returns or raises, and
  `Outcome<T>` makes the raise a value. Dates are day numbers. The clock
  reading `date.today()` becomes the parameter `today`.
- **Forms** (`forms.dfy`). `RenewBookForm` binds a raw due date and a raw
  borrower key. It gives either the cleaned pair or an error map keyed by
  field name, following Django's field cleaning: convert, check required,
  then run every validator and keep all of their messages. The borrower
  selector lists all users by last name, each labelled "last, first". The
  BookInstance create and update forms are modelled by the fields they
  write.
- **Views** (`views.dfy`, `pagination.dfy`). The two loan lists filter and
  sort the copies, and then paginate them. The home page computes counts
  and increments a session visit counter. `renew_book_librarian` checks
  login, permission and that the copy exists. A valid POST then changes
  `due_back` and `borrower` of that one record.

`Library` is the database, with one sequence per table. `Session` is the
visitor's session dictionary. Both are classes, because the views update
them in place. The records in `models.dfy` hold the fields that the forms
and views use. catalog/models.py is not part of this model. `sorting.dfy`
and `text.dfy` hold the generic filter and sort, the substring test of a
`contains` lookup, and a code-point order on text.

Behaviour of the code that the model keeps as written:

- The Harry/Fantasy count on the home page counts join rows. A book with two
  genres whose names contain "Fantasy" is counted twice.
- The `contains` lookups are case-sensitive.
- A renewal changes only `due_back` and `borrower`. The status is never
  touched.
- Equal names in `Compare_FirstLastName` crash with a `NameError` (see
  Findings).

## Model

| member | source | states |
|---|---|---|
| `Validators.CheckMinDateValue` | catalog/validators.py:16-25 | returns True exactly when the date is not before today; otherwise raises the given message |
| `Validators.CheckMaxDateValue` | catalog/validators.py:49-58 | returns True exactly when the date is at most today + 28 days (the boundary passes); otherwise raises the given message |
| `Validators.ConfiguredMessage` | catalog/validators.py:44 | the raised message is the configured `errmsg` unless it is None or empty, and then "Invalid value provided."; it is never empty |
| `Validators.MinDateValidator.IsValid` | catalog/validators.py:40-47 | returns True iff value >= today; otherwise raises the configured message with code "invalid_value" |
| `Validators.MinDateValidator.Call` | catalog/validators.py:35-38 | passes iff value >= today; a rejection always carries the `is_valid` message, so the fallback raise is unreachable |
| `Validators.MaxDateValidator.IsValid` | catalog/validators.py:73-80 | returns True iff value <= today + 28; otherwise raises the configured message with code "invalid_value" |
| `Validators.MaxDateValidator.Call` | catalog/validators.py:68-71 | passes iff value <= today + 28, with the `is_valid` message on rejection |
| `Validators.RenewalWindow` | catalog/validators.py:40-80 | the two date checks together accept exactly [today, today + 28], and no date fails both |
| `Validators.CompareDates` | catalog/validators.py:82-92 | passes iff birth <= death (equal dates pass); otherwise raises the message |
| `Validators.CompareFirstLastNameAsWritten` | catalog/validators.py:94-103 | raises exactly when both names are non-empty and equal, and then always a NameError for `forms` |
| `Validators.CompareFirstLastName` | catalog/validators.py:94-103 | intended check: rejects exactly equal non-empty names (case-sensitive) with the message; an empty name passes |
| `Validators.CompareFirstLastNameCrashes` | catalog/validators.py:100-101 | the as-written check crashes exactly where the intended one rejects, and agrees with it elsewhere |
| `Validators.CompareFirstLastNameCrashExample` | catalog/validators.py:100-101 | "Ann"/"Ann" gives a NameError as written and a validation error as intended |
| `Models.FindInstance` | catalog/views.py:150 | finds the position of the record with the key, or reports that no record has it |
| `Models.FindUser` | catalog/forms.py:44-49 | finds a user with the key among the users, or reports that none has it |
| `Forms.LabelFromInstance` | catalog/forms.py:12-13 | the label is the last name, then ", ", then the first name |
| `Forms.LabelIdentifiesNames` | catalog/forms.py:12-13 | labels "last, first" of two users are equal iff their names are, when last names hold no comma |
| `Forms.UsersByLastName` | catalog/forms.py:42 | every user, each as often as stored, sorted ascending by last name |
| `Forms.BorrowerChoices` | catalog/forms.py:42-49 | the empty "Select a user" entry, then one entry per user in last-name order; every user is offered |
| `Forms.CleanRequiredDate` | catalog/forms.py:94-96 | a required date field: a blank input is "This field is required.", an unreadable one "Enter a valid date."; otherwise the date |
| `Forms.RunDueDateValidators` | catalog/forms.py:32-37 | no message iff today <= d <= today + 28; a date in the past gives only the past message, one too far ahead only the 4-weeks message |
| `Forms.CleanNewDueDate` | catalog/forms.py:19-40 | cleaned iff a date in [today, today + 28] was entered; otherwise the required, invalid, past or too-far message |
| `Forms.CleanNewBorrower` | catalog/forms.py:44-49 | cleaned iff a key of an existing user was submitted; a missing key is "required", an unknown one "invalid choice" |
| `Forms.RenewBookFormClean` | catalog/forms.py:17-49 | valid iff both fields clean; otherwise the error map holds exactly the failing fields, each with its messages |
| `Forms.ConstructInstance` | catalog/forms.py:89-105 | saving a form copies each listed field from the cleaned data; with no model field listed the record is unchanged; the status is never written |
| `Forms.ConstructInstanceIdempotent` | catalog/forms.py:89-105 | saving the same cleaned data a second time changes nothing |
| `Forms.UpdateFormKeepsIdentity` | catalog/forms.py:98-105 | the update form writes imprint, due_back and borrower, and keeps id, book and status |
| `Forms.CreateFormSetsListedFields` | catalog/forms.py:89-96 | the create form writes id, book, imprint, due_back and borrower; status keeps its initial value |
| `Sorting.FilterContents` | catalog/views.py:131-132 | a filter keeps exactly the rows satisfying the condition, each as often as stored |
| `Sorting.FilterCount` | catalog/views.py:33 | the number of rows a filter keeps is the number of positions whose row satisfies the condition |
| `Sorting.SortBy` | catalog/views.py:133 | the rows ascending under a total preorder, as a permutation of the input |
| `Sorting.FilterKeepsAll` | catalog/views.py:33 | a filter keeps every row iff every row satisfies the condition |
| `Views.LoanedBooksByUser` | catalog/views.py:129-134 | exactly the copies on loan ('o') to the user, each as often as stored, ascending by due_back |
| `Views.LoanedBooksAll` | catalog/views.py:143-144 | exactly the copies on loan ('o'), ascending by due_back |
| `Views.OwnLoansAreLoans` | catalog/views.py:129-144 | a user's loan list is contained in the list of all loans |
| `Views.ListPage` | catalog/views.py:126 | a page number from 1 to the page count gives that page; any other gives "not found" |
| `Views.LoanedBooksByUserView` | catalog/views.py:122-134 | anonymous visitors go to login; otherwise the requested page, 10 per page, of the visitor's own loans sorted by due date, or 404 for a page that does not exist |
| `Views.LoanedBooksAllView` | catalog/views.py:136-144 | anonymous visitors go to login, visitors without the permission get 403; otherwise the requested page, 10 per page, of all loans sorted by due date, or 404 |
| `Views.PageItemsAreRows` | catalog/views.py:141 | a page holds at most `paginate_by` rows, all taken from the list |
| `Pagination.PagesPartition` | catalog/views.py:68 | the pages read in order are the list; every page but the last is full; the last is empty only for an empty list |
| `Pagination.Page` | catalog/views.py:68 | the page with a number from 1 to the page count; no page otherwise |
| `Views.CountAvailable` | catalog/views.py:33 | the number of positions holding an available copy ('a'): all of them iff every copy is available, none iff no copy is |
| `Views.FantasyLinks` | catalog/views.py:37 | the number of a book's genre links whose name contains "Fantasy": positive iff there is one |
| `Views.HarryFantasyCount` | catalog/views.py:36-44 | the number of rows of the book-genre join whose title contains "Harry" and whose genre name contains "Fantasy" |
| `Views.HarryFantasyCountsJoinRows` | catalog/views.py:36-44 | the count is at least the number of matching books, zero iff there is none, and equal to it when no Harry title has two matching genres |
| `Views.HarryCountedOncePerFantasyGenre` | catalog/views.py:36-44 | one "Harry Potter" book with the genres "Fantasy" and "Dark Fantasy" counts 2 |
| `Views.IndexCounts` | catalog/views.py:27-60 | the page counts: books, copies, the available-copy count, authors and the join-row Harry/Fantasy count; available never exceeds copies, and the Harry/Fantasy count is zero iff no book matches |
| `Views.ProposedDueDate` | catalog/views.py:174-179 | the proposed date lies strictly inside the window, and the due-date field accepts it unchanged |
| `Views.Renewed` | catalog/views.py:165-166 | the new due date and borrower are written; id, book, imprint and status are kept |
| `Views.Session.Get` | catalog/views.py:50 | the stored value for the key, or the default when there is none |
| `Views.Library.Index` | catalog/views.py:24-63 | the page shows the counts and the old visit count (0 if none); the session then stores that count + 1 |
| `Views.Library.RenewBookLibrarian` | catalog/views.py:146-188 | login, then permission (403), then 404 for an unknown key, each without a change. A valid POST updates only that record's due date and borrower, then redirects to "all-borrowed". An invalid POST shows the bound form with its errors, and a GET proposes today + 21. Neither changes anything |

## Left out

- `Views.LoanedBooksByUser`, `Views.LoanedBooksAll`: `order_by('due_back')` is specified as "sorted and a permutation". SQL leaves the order of equal due dates open. Where a missing due date sorts depends on the database, so the parameter `nullsFirst` decides it.
- `Forms.UsersByLastName`: names are compared by code point, as a binary collation such as SQLite's BINARY orders them. A database with a locale-aware collation may order last names differently, and such collations are not modelled.
- Views.HarryFantasyCount and Views.IsFantasy: `contains` is modelled as case-sensitive, as Django defines it. On SQLite, `LIKE` ignores ASCII case, and that backend difference is not modelled.
- Date parsing: a date input is blank, unreadable or a date. Django's input formats are not modelled.
- Borrower keys: a key that is not a number behaves like an unknown key ("invalid choice"). The parsing is not modelled separately.
- Date range: dates are unbounded integers. Python's overflow past year 9999 in `today + timedelta(...)` is not modelled.
- Translation: `gettext_lazy` (`_()`) is treated as the identity.
- Widget placeholders, labels and help texts are left out, including the placeholder date that is fixed at import time. So is `RenewBookModelForm`, which no view uses.
- Template rendering is left out. A response is a value naming the page and its context. The login redirect's URL and `next` parameter are not modelled.
- Authentication internals: a visitor is two flags. `has_perm` is one boolean, and inactive users and superusers are not distinguished.
- Persistence: `save()` replaces the one row. Concurrent renewals (last write wins) are not modelled, and neither is session expiry.
- The other list views (`BookListView`, `AuthorListView`, `BookInstanceListView`) appear only as their page sizes 10, 10 and 50. Their querysets depend on catalog/models.py.
- The model leaves out the generic create, update and delete views of authors, books and book instances, URL routing and the admin registration. Those files are configuration. The `success_url` of the BookInstance views names a route, "bookinstances", that the catalog URL table does not define.
- The `Compare_Dates` and `Compare_FirstLastName` checks are modelled on their own. Nothing in the modelled forms attaches them to a field.

## Findings

| source | as written | input that shows it | evidently intended | confidence | as-written member | corrected member |
|---|---|---|---|---|---|---|
| catalog/validators.py:100-101 | the rejection branch evaluates `forms.ValidationError`, but the module never imports `forms`, so it raises `NameError` | first name "Ann", last name "Ann" (`Validators.CompareFirstLastNameCrashExample`) | raise a validation error with `errmsg` | high; not executed | `Validators.CompareFirstLastNameAsWritten` | `Validators.CompareFirstLastName` |
