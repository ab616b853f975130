/**
 * The catalog's views: the loan lists, the home page's counts and visit
 * counter, and the librarian's renewal of a loan. The database is a
 * `Library` object whose tables are sequences of records; the session is a
 * `Session` object holding a dictionary.
 */
module Views {
  import opened Wrappers
  import opened Dates
  import opened Validators
  import opened Models
  import opened Forms
  import Text
  import Sorting
  import Pagination

  /** `paginate_by` of the list views. */
  const BookListPageSize: nat := 10
  const AuthorListPageSize: nat := 10
  const BookInstanceListPageSize: nat := 50
  const LoanedBooksByUserPageSize: nat := 10
  const LoanedBooksAllPageSize: nat := 10

  /** `timedelta(weeks=3)` in days: the renewal date proposed on GET. */
  const ThreeWeeks: int := 21

  /** The route the renewal redirects to after saving. */
  const AllBorrowedRoute: string := "all-borrowed"

  const NumVisitsKey: string := "num_visits"

  /** Who is asking: the authentication flag and the `catalog.can_mark_returned` permission. */
  datatype Visitor = Visitor(isAuthenticated: bool, canMarkReturned: bool, id: UserId)

  /** An anonymous visitor holds no permission. */
  predicate HasRenewPermission(v: Visitor) {
    v.isAuthenticated && v.canMarkReturned
  }

  /** The renewal form as the page shows it. */
  datatype RenewalFormView =
    | Unbound(initialDueDate: Date)
    | Bound(rawDate: RawDate, rawBorrower: Option<UserId>, errors: map<string, seq<string>>)

  /** What a view answers. */
  datatype Response =
    | RedirectToLogin
    | Forbidden
    | NotFound
    | Redirect(route: string)
    | RenewalPage(form: RenewalFormView, instance: BookInstance)
    | InstanceListPage(items: seq<BookInstance>, number: int, numPages: nat)

  // ---------------------------------------------------------------------------
  // The loan lists

  /**
   * Ascending `due_back`. Where a missing date sorts depends on the database,
   * so `nullsFirst` says whether it comes before every date or after.
   */
  predicate DueLe(a: Option<Date>, b: Option<Date>, nullsFirst: bool) {
    match (a, b)
    case (None, None) => true
    case (None, Some(_)) => nullsFirst
    case (Some(_), None) => !nullsFirst
    case (Some(x), Some(y)) => x <= y
  }

  function DueOrder(nullsFirst: bool): (BookInstance, BookInstance) -> bool {
    (x: BookInstance, y: BookInstance) => DueLe(x.dueBack, y.dueBack, nullsFirst)
  }

  lemma DueOrderIsTotalPreorder(nullsFirst: bool)
    ensures Sorting.IsTotalPreorder(DueOrder(nullsFirst))
  {
  }

  predicate IsLoanOf(x: BookInstance, user: UserId) {
    x.borrower == Some(user) && x.status == OnLoan
  }

  predicate IsOnLoan(x: BookInstance) {
    x.status == OnLoan
  }

  /**
   * `LoanedBooksByUserListView.get_queryset`: exactly the rows on loan to
   * `user` (each as often as stored), ascending by due date.
   */
  function LoanedBooksByUser(rows: seq<BookInstance>, user: UserId, nullsFirst: bool): (r: seq<BookInstance>)
    ensures forall x :: multiset(r)[x] == if IsLoanOf(x, user) then multiset(rows)[x] else 0
    ensures forall i, j :: 0 <= i < j < |r| ==> DueLe(r[i].dueBack, r[j].dueBack, nullsFirst)
  {
    DueOrderIsTotalPreorder(nullsFirst);
    var keep := (x: BookInstance) => IsLoanOf(x, user);
    Sorting.FilterContents(rows, keep);
    var r := Sorting.SortBy(Sorting.Filter(rows, keep), DueOrder(nullsFirst));
    assert forall i, j :: 0 <= i < j < |r| ==> DueOrder(nullsFirst)(r[i], r[j]);
    r
  }

  /**
   * `LoanedBooksAllListView.get_queryset`: exactly the rows on loan to anyone,
   * ascending by due date.
   */
  function LoanedBooksAll(rows: seq<BookInstance>, nullsFirst: bool): (r: seq<BookInstance>)
    ensures forall x :: multiset(r)[x] == if IsOnLoan(x) then multiset(rows)[x] else 0
    ensures forall i, j :: 0 <= i < j < |r| ==> DueLe(r[i].dueBack, r[j].dueBack, nullsFirst)
  {
    DueOrderIsTotalPreorder(nullsFirst);
    Sorting.FilterContents(rows, IsOnLoan);
    var r := Sorting.SortBy(Sorting.Filter(rows, IsOnLoan), DueOrder(nullsFirst));
    assert forall i, j :: 0 <= i < j < |r| ==> DueOrder(nullsFirst)(r[i], r[j]);
    r
  }

  /** A user's own loans are among all loans, the same number of times. */
  lemma OwnLoansAreLoans(rows: seq<BookInstance>, user: UserId, nullsFirst: bool)
    ensures multiset(LoanedBooksByUser(rows, user, nullsFirst)) <= multiset(LoanedBooksAll(rows, nullsFirst))
  {
  }

  /** One page of a loan list, or "not found" for a page number out of range. */
  function ListPage(items: seq<BookInstance>, perPage: nat, number: int): (resp: Response)
    requires perPage > 0
    ensures resp.NotFound? || resp.InstanceListPage?
    ensures resp.InstanceListPage? <==> 1 <= number <= |Pagination.Pages(items, perPage)|
    ensures resp.InstanceListPage? ==>
              resp.items == Pagination.Pages(items, perPage)[number - 1]
              && resp.numPages == |Pagination.Pages(items, perPage)|
  {
    match Pagination.Page(items, perPage, number)
    case None => NotFound
    case Some(page) => InstanceListPage(page, number, |Pagination.Pages(items, perPage)|)
  }

  /** `/mybooks/`: login required, then page `number` of the visitor's loans, ten per page. */
  function LoanedBooksByUserView(visitor: Visitor, rows: seq<BookInstance>, number: int, nullsFirst: bool)
    : (resp: Response)
    ensures !visitor.isAuthenticated <==> resp == RedirectToLogin
    ensures visitor.isAuthenticated ==>
              resp == ListPage(LoanedBooksByUser(rows, visitor.id, nullsFirst), LoanedBooksByUserPageSize, number)
    ensures resp.InstanceListPage? ==>
              |resp.items| <= LoanedBooksByUserPageSize
              && forall x :: x in resp.items ==> x in rows && IsLoanOf(x, visitor.id)
  {
    if !visitor.isAuthenticated then RedirectToLogin
    else
      var loans := LoanedBooksByUser(rows, visitor.id, nullsFirst);
      var resp := ListPage(loans, LoanedBooksByUserPageSize, number);
      PageItemsAreRows(loans, LoanedBooksByUserPageSize, number);
      assert forall x :: x in loans ==> x in multiset(loans);
      resp
  }

  /**
   * `/borrowed/`: the permission is required; a visitor without it is sent to
   * log in when anonymous and refused otherwise. Then page `number` of all
   * loans, ten per page.
   */
  function LoanedBooksAllView(visitor: Visitor, rows: seq<BookInstance>, number: int, nullsFirst: bool)
    : (resp: Response)
    ensures !visitor.isAuthenticated <==> resp == RedirectToLogin
    ensures resp == Forbidden <==> visitor.isAuthenticated && !visitor.canMarkReturned
    ensures HasRenewPermission(visitor) ==>
              resp == ListPage(LoanedBooksAll(rows, nullsFirst), LoanedBooksAllPageSize, number)
    ensures resp.InstanceListPage? ==>
              |resp.items| <= LoanedBooksAllPageSize
              && forall x :: x in resp.items ==> x in rows && IsOnLoan(x)
  {
    if !HasRenewPermission(visitor) then
      if visitor.isAuthenticated then Forbidden else RedirectToLogin
    else
      var loans := LoanedBooksAll(rows, nullsFirst);
      var resp := ListPage(loans, LoanedBooksAllPageSize, number);
      PageItemsAreRows(loans, LoanedBooksAllPageSize, number);
      assert forall x :: x in loans ==> x in multiset(loans);
      resp
  }

  /** The rows of a page are rows of the list, and a page is never longer than `perPage`. */
  lemma PageItemsAreRows(items: seq<BookInstance>, perPage: nat, number: int)
    requires perPage > 0
    ensures var resp := ListPage(items, perPage, number);
            resp.InstanceListPage? ==> |resp.items| <= perPage && forall x :: x in resp.items ==> x in items
  {
    var pages := Pagination.Pages(items, perPage);
    Pagination.PagesPartition(items, perPage);
    if 1 <= number <= |pages| {
      FlattenContains(pages, number - 1);
    }
  }

  /** Every row of one page appears in the pages read in order. */
  lemma {:induction false} FlattenContains(pages: seq<seq<BookInstance>>, k: nat)
    requires k < |pages|
    ensures forall x :: x in pages[k] ==> x in Pagination.Flatten(pages)
  {
    assert Pagination.Flatten(pages) == pages[0] + Pagination.Flatten(pages[1..]);
    if k > 0 {
      FlattenContains(pages[1..], k - 1);
    }
  }

  // ---------------------------------------------------------------------------
  // The home page

  datatype IndexContext = IndexContext(
    numBooks: nat,
    numBooksHarryFantasy: nat,
    numInstances: nat,
    numInstancesAvailable: nat,
    numAuthors: nat,
    numVisits: int)

  predicate IsAvailable(x: BookInstance) {
    x.status == Available
  }

  /** `filter(status__exact='a').count()`. */
  function CountAvailable(rows: seq<BookInstance>): (n: nat)
    ensures n == |set i | 0 <= i < |rows| && rows[i].status == Available|
    ensures n <= |rows|
    ensures n == |rows| <==> forall x :: x in rows ==> x.status == Available
    ensures n == 0 <==> forall x :: x in rows ==> x.status != Available
  {
    Sorting.FilterKeepsAll(rows, IsAvailable);
    Sorting.FilterNonEmpty(rows, IsAvailable);
    Sorting.FilterCount(rows, IsAvailable);
    var passing := set i | 0 <= i < |rows| && rows[i].status == Available;
    assert Sorting.Positions(rows, IsAvailable) == passing;
    var kept := Sorting.Filter(rows, IsAvailable);
    assert kept == [] <==> forall x :: x in rows ==> !IsAvailable(x) by {
      if kept != [] { assert kept[0] in kept; }
    }
    |kept|
  }

  predicate IsFantasy(genreName: string) {
    Text.Contains(genreName, "Fantasy")
  }

  predicate IsHarryTitle(b: Book) {
    Text.Contains(b.title, "Harry")
  }

  /** The genre links of one book whose genre name contains "Fantasy". */
  function FantasyLinks(b: Book): (n: nat)
    ensures n == |set j | 0 <= j < |b.genreNames| && IsFantasy(b.genreNames[j])|
    ensures n <= |b.genreNames|
    ensures n > 0 <==> exists g :: g in b.genreNames && IsFantasy(g)
  {
    Sorting.FilterNonEmpty(b.genreNames, IsFantasy);
    Sorting.FilterCount(b.genreNames, IsFantasy);
    var names := b.genreNames;
    var passing := set j | 0 <= j < |names| && IsFantasy(names[j]);
    assert Sorting.Positions(names, IsFantasy) == passing;
    |Sorting.Filter(b.genreNames, IsFantasy)|
  }

  /** One row of the book-genre join: a book and the name of one of its genres. */
  type JoinRow = (Book, string)

  /** The join rows of one book, one per genre link. */
  function BookRows(b: Book): seq<JoinRow> {
    seq(|b.genreNames|, j requires 0 <= j < |b.genreNames| => (b, b.genreNames[j]))
  }

  /** The inner join of the books with their genres. */
  function JoinRows(books: seq<Book>): seq<JoinRow> {
    if books == [] then [] else BookRows(books[0]) + JoinRows(books[1..])
  }

  /** A join row meeting both conditions of the query. */
  predicate MatchesBoth(row: JoinRow) {
    IsHarryTitle(row.0) && IsFantasy(row.1)
  }

  /** The join rows of one book that meet both conditions. */
  lemma BookRowsMatching(b: Book)
    ensures |Sorting.Filter(BookRows(b), MatchesBoth)| == if IsHarryTitle(b) then FantasyLinks(b) else 0
  {
    var rows := BookRows(b);
    Sorting.FilterCount(rows, MatchesBoth);
    Sorting.FilterCount(b.genreNames, IsFantasy);
    var matching := Sorting.Positions(rows, MatchesBoth);
    assert |rows| == |b.genreNames|;
    assert forall j :: 0 <= j < |rows| ==> rows[j] == (b, b.genreNames[j]);
    if IsHarryTitle(b) {
      assert matching == Sorting.Positions(b.genreNames, IsFantasy);
    } else {
      assert matching == {};
    }
  }

  /**
   * `Book.objects.filter(Q(title__contains='Harry') & Q(genre__name__contains='Fantasy')).count()`:
   * the condition on the genre joins each book to its genres, and without
   * `distinct()` the count is of join rows, so a Harry title is counted
   * once per matching genre.
   */
  function HarryFantasyCount(books: seq<Book>): (n: nat)
    ensures n == |Sorting.Filter(JoinRows(books), MatchesBoth)|
  {
    if books == [] then 0
    else
      Sorting.FilterConcat(BookRows(books[0]), JoinRows(books[1..]), MatchesBoth);
      BookRowsMatching(books[0]);
      (if IsHarryTitle(books[0]) then FantasyLinks(books[0]) else 0) + HarryFantasyCount(books[1..])
  }

  /** A book meeting both conditions, whatever its number of matching genres. */
  predicate IsHarryFantasy(b: Book) {
    IsHarryTitle(b) && exists g :: g in b.genreNames && IsFantasy(g)
  }

  /**
   * The join count is at least the number of books meeting both conditions,
   * is zero exactly when there is none, and equals it when no Harry title has
   * two matching genres.
   */
  lemma {:induction false} HarryFantasyCountsJoinRows(books: seq<Book>)
    ensures HarryFantasyCount(books) >= |Sorting.Filter(books, IsHarryFantasy)|
    ensures HarryFantasyCount(books) == 0 <==> forall b :: b in books ==> !IsHarryFantasy(b)
    ensures (forall b :: b in books && IsHarryTitle(b) ==> FantasyLinks(b) <= 1)
            ==> HarryFantasyCount(books) == |Sorting.Filter(books, IsHarryFantasy)|
  {
    if books != [] {
      var first, rest := books[0], books[1..];
      HarryFantasyCountsJoinRows(rest);
      assert books == [first] + rest;
      assert forall b :: b in books <==> b == first || b in rest;
      var own := if IsHarryTitle(first) then FantasyLinks(first) else 0;
      assert HarryFantasyCount(books) == own + HarryFantasyCount(rest);
      assert |Sorting.Filter(books, IsHarryFantasy)|
             == (if IsHarryFantasy(first) then 1 else 0) + |Sorting.Filter(rest, IsHarryFantasy)|;
      assert own > 0 <==> IsHarryFantasy(first);
    }
  }

  /** A Harry title with two matching genres adds two to the count, though it is one book. */
  lemma HarryCountedOncePerFantasyGenre()
    ensures var b := Book(1, "Harry Potter", ["Fantasy", "Dark Fantasy"]);
            HarryFantasyCount([b]) == 2 && |Sorting.Filter([b], IsHarryFantasy)| == 1
  {
    var b := Book(1, "Harry Potter", ["Fantasy", "Dark Fantasy"]);
    Text.ContainsAt(b.title, "Harry", 0);
    Text.ContainsAt("Fantasy", "Fantasy", 0);
    Text.ContainsAt("Dark Fantasy", "Fantasy", 5);
    assert b.genreNames[1..] == ["Dark Fantasy"];
    assert IsHarryFantasy(b) by { assert "Fantasy" in b.genreNames; }
    assert [b][1..] == [];
  }

  /** The home page's counts, with the visit count read from the session. */
  function IndexCounts(books: seq<Book>, instances: seq<BookInstance>, authors: seq<Author>, numVisits: int)
    : (c: IndexContext)
    ensures c.numInstancesAvailable <= c.numInstances == |instances|
    ensures c.numBooks == |books| && c.numAuthors == |authors| && c.numVisits == numVisits
    ensures c.numInstancesAvailable == CountAvailable(instances)
    ensures c.numBooksHarryFantasy == HarryFantasyCount(books)
    ensures c.numBooksHarryFantasy == 0 <==> forall b :: b in books ==> !IsHarryFantasy(b)
  {
    HarryFantasyCountsJoinRows(books);
    IndexContext(|books|, HarryFantasyCount(books), |instances|, CountAvailable(instances), |authors|, numVisits)
  }

  /** The date the renewal form proposes: three weeks ahead, inside the window the form accepts. */
  function ProposedDueDate(today: Date): (d: Date)
    ensures today < d < today + FourWeeks
    ensures CleanNewDueDate(Entered(d), today) == Cleaned(d)
  {
    today + ThreeWeeks
  }

  /** A renewed record: new due date and borrower, every other field as it was. */
  function Renewed(inst: BookInstance, data: RenewalData): (r: BookInstance)
    ensures r.dueBack == Some(data.newDueDate) && r.borrower == Some(data.newBorrower.id)
    ensures r.id == inst.id && r.book == inst.book && r.imprint == inst.imprint && r.status == inst.status
  {
    inst.(dueBack := Some(data.newDueDate), borrower := Some(data.newBorrower.id))
  }

  /** A visitor's session: a dictionary of integers. */
  class Session {
    var data: map<string, int>

    constructor ()
      ensures data == map[]
    {
      data := map[];
    }

    /** `session.get(key, default)`. */
    function Get(key: string, default: int): (v: int)
      reads this
      ensures key in data ==> v == data[key]
      ensures key !in data ==> v == default
    {
      if key in data then data[key] else default
    }
  }

  /** The database: the tables the views read and the renewal writes. */
  class Library {
    var books: seq<Book>
    var instances: seq<BookInstance>
    var authors: seq<Author>
    var users: seq<User>

    ghost predicate Valid()
      reads this
    {
      UniqueIds(instances)
    }

    constructor (books: seq<Book>, instances: seq<BookInstance>, authors: seq<Author>, users: seq<User>)
      requires UniqueIds(instances)
      ensures Valid()
      ensures this.books == books && this.instances == instances
      ensures this.authors == authors && this.users == users
    {
      this.books, this.instances, this.authors, this.users := books, instances, authors, users;
    }

    /**
     * `index`: the counts of the catalog, shown with the visit count the
     * session held before (0 when it held none); the session then stores
     * that count plus one.
     */
    method Index(session: Session) returns (context: IndexContext)
      modifies session
      ensures context == IndexCounts(books, instances, authors, old(session.Get(NumVisitsKey, 0)))
      ensures session.data == old(session.data)[NumVisitsKey := context.numVisits + 1]
    {
      var numVisits := session.Get(NumVisitsKey, 0);
      session.data := session.data[NumVisitsKey := numVisits + 1];
      context := IndexCounts(books, instances, authors, numVisits);
    }

    /**
     * `renew_book_librarian`: login, then the permission, then the record must
     * exist. A POST whose form is valid writes the new due date and borrower
     * into that one record and redirects to the list of all loans; any other
     * request leaves the records unchanged and shows the form, bound to the
     * submitted input with its errors, or for a GET proposing a date three
     * weeks ahead.
     */
    method RenewBookLibrarian(visitor: Visitor, httpMethod: string, rawDate: RawDate,
                              rawBorrower: Option<UserId>, pk: Uuid, today: Date)
      returns (response: Response)
      requires Valid()
      modifies this`instances
      ensures Valid()
      ensures !visitor.isAuthenticated ==> response == RedirectToLogin && instances == old(instances)
      ensures visitor.isAuthenticated && !visitor.canMarkReturned ==>
                response == Forbidden && instances == old(instances)
      ensures HasRenewPermission(visitor) && FindInstance(old(instances), pk).None? ==>
                response == NotFound && instances == old(instances)
      ensures HasRenewPermission(visitor) && FindInstance(old(instances), pk).Some? ==>
                var i := FindInstance(old(instances), pk).value;
                var form := RenewBookFormClean(rawDate, rawBorrower, users, today);
                if httpMethod == "POST" && form.Valid? then
                  response == Redirect(AllBorrowedRoute)
                  && instances == old(instances)[i := Renewed(old(instances)[i], form.data)]
                else if httpMethod == "POST" then
                  response == RenewalPage(Bound(rawDate, rawBorrower, form.errors), old(instances)[i])
                  && instances == old(instances)
                else
                  response == RenewalPage(Unbound(ProposedDueDate(today)), old(instances)[i])
                  && instances == old(instances)
    {
      if !visitor.isAuthenticated {
        return RedirectToLogin;
      }
      if !visitor.canMarkReturned {
        return Forbidden;
      }
      var found := FindInstance(instances, pk);
      if found.None? {
        return NotFound;
      }
      var i := found.value;
      var bookInstance := instances[i];
      if httpMethod == "POST" {
        var form := RenewBookFormClean(rawDate, rawBorrower, users, today);
        if form.Valid? {
          bookInstance := Renewed(bookInstance, form.data);
          instances := instances[i := bookInstance];
          return Redirect(AllBorrowedRoute);
        }
        response := RenewalPage(Bound(rawDate, rawBorrower, form.errors), bookInstance);
      } else {
        response := RenewalPage(Unbound(ProposedDueDate(today)), bookInstance);
      }
    }
  }
}
