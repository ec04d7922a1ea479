/** The library book of the Null-Object exercise.

    A `Borrower` is a registered user with a name or the single `NoBorrower` object,
    which answers `getName` with a fixed text. A `Book` never holds `null`: its
    constructor puts the `NoBorrower` instance in place of a `null` borrower, so
    `getStatus` can always ask the borrower for its name. */
module Library {

  import opened Wrappers

  datatype Borrower = RegisteredUser(name: string) | NoBorrower

  const AvailableText := "Available for borrowing"

  /** `Borrower.getName`: a registered user's own name, or the fixed text of the null
      object. */
  function GetName(b: Borrower): (n: string)
    ensures b.RegisteredUser? ==> n == b.name
    ensures b.NoBorrower? ==> n == AvailableText
  {
    match b
    case RegisteredUser(name) => name
    case NoBorrower => AvailableText
  }

  /** `NoBorrower.getInstance()`: there is one null object, and every call returns it. */
  function GetInstance(): (b: Borrower)
    ensures b.NoBorrower?
  {
    NoBorrower
  }

  /** A book holds a title and a borrower that is never `null`. */
  datatype Book = Book(title: string, borrower: Borrower)

  /** `new Book(title, borrower)`, where `None` is a `null` borrower: the null object
      takes the place of `null`, and any other borrower is kept as given. */
  function NewBook(title: string, borrower: Option<Borrower>): (book: Book)
    ensures book.title == title
    ensures borrower.None? ==> book.borrower == GetInstance()
    ensures borrower.Some? ==> book.borrower == borrower.value
  {
    Book(title, borrower.GetOr(GetInstance()))
  }

  const StatusPrefix := "Book: "
  const BorrowerLabel := " | Borrower: "

  /** `getStatus`: the title and the borrower's name in the fixed status layout. */
  function GetStatus(book: Book): (s: string)
    ensures |s| == |StatusPrefix| + |book.title| + |BorrowerLabel| + |GetName(book.borrower)|
    ensures s[..|StatusPrefix|] == StatusPrefix
    ensures s[|StatusPrefix|..|StatusPrefix| + |book.title|] == book.title
    ensures s[|StatusPrefix| + |book.title|..|StatusPrefix| + |book.title| + |BorrowerLabel|] == BorrowerLabel
    ensures s[|s| - |GetName(book.borrower)|..] == GetName(book.borrower)
  {
    StatusPrefix + book.title + BorrowerLabel + GetName(book.borrower)
  }

  /** Passing `null` and passing the null object explicitly build the same book. */
  lemma NullIsTheNullObject(title: string)
    ensures NewBook(title, None) == NewBook(title, Some(GetInstance()))
  {
  }

  /** The borrower's name can be read back from a status: two statuses of books with the
      same title are equal exactly when the borrowers' names are. */
  lemma {:induction false} StatusDeterminesName(title: string, a: Borrower, b: Borrower)
    ensures GetStatus(Book(title, a)) == GetStatus(Book(title, b)) <==> GetName(a) == GetName(b)
  {
    var sa, sb := GetStatus(Book(title, a)), GetStatus(Book(title, b));
    var k := |StatusPrefix| + |title| + |BorrowerLabel|;
    if sa == sb {
      assert sa[k..] == GetName(a);
      assert sb[k..] == GetName(b);
    }
  }

  /** The first book of the exercise's `main`, lent to Rohit. */
  lemma DemoBorrowedBook()
    ensures GetStatus(NewBook("Design Patterns", Some(RegisteredUser("Rohit")))) ==
      "Book: " + "Design Patterns" + " | Borrower: " + "Rohit"
  {
    assert NewBook("Design Patterns", Some(RegisteredUser("Rohit"))) ==
      Book("Design Patterns", RegisteredUser("Rohit"));
  }

  /** The second book of the exercise's `main`, built with a `null` borrower. */
  lemma DemoAvailableBook()
    ensures GetStatus(NewBook("Java Basics", None)) ==
      "Book: " + "Java Basics" + " | Borrower: " + "Available for borrowing"
  {
    assert NewBook("Java Basics", None) == Book("Java Basics", NoBorrower);
  }
}
