/**
 * The records the catalog's forms and views read and write, with the fields
 * they use. The schema module itself is not part of this model.
 */
module Models {
  import opened Wrappers
  import opened Dates

  /** A user's primary key. */
  type UserId = int
  /** A BookInstance's primary key: a UUID token, compared only for equality. */
  type Uuid = int
  type BookId = int

  /** The `User` fields the renewal form shows. */
  datatype User = User(id: UserId, firstName: string, lastName: string)

  /** Loan status codes of a BookInstance ('m', 'o', 'a', 'r'). */
  const Maintenance: char := 'm'
  const OnLoan: char := 'o'
  const Available: char := 'a'
  const Reserved: char := 'r'

  /** One physical copy of a book. */
  datatype BookInstance = BookInstance(
    id: Uuid,
    book: BookId,
    imprint: string,
    dueBack: Option<Date>,
    status: char,
    borrower: Option<UserId>)

  /** A book with the names of its genres (one entry per book-genre link). */
  datatype Book = Book(id: BookId, title: string, genreNames: seq<string>)

  datatype Author = Author(id: int, firstName: string, lastName: string,
                           dateOfBirth: Option<Date>, dateOfDeath: Option<Date>)

  /** No two stored instances share a primary key. */
  predicate UniqueIds(rows: seq<BookInstance>) {
    forall i, j :: 0 <= i < j < |rows| ==> rows[i].id != rows[j].id
  }

  /** `get(pk=pk)`: the position of the row with that key, if any. */
  function FindInstance(rows: seq<BookInstance>, pk: Uuid): (r: Option<nat>)
    ensures r.Some? ==> r.value < |rows| && rows[r.value].id == pk
    ensures r.None? <==> forall i :: 0 <= i < |rows| ==> rows[i].id != pk
  {
    if rows == [] then None
    else if rows[0].id == pk then Some(0)
    else
      match FindInstance(rows[1..], pk)
      case None => None
      case Some(i) => Some(i + 1)
  }

  /** `get(pk=id)` on the users: the user with that key, if any. */
  function FindUser(users: seq<User>, id: UserId): (r: Option<User>)
    ensures r.Some? ==> r.value in users && r.value.id == id
    ensures r.None? <==> forall u :: u in users ==> u.id != id
  {
    if users == [] then None
    else if users[0].id == id then Some(users[0])
    else
      assert users == [users[0]] + users[1..];
      FindUser(users[1..], id)
  }
}
