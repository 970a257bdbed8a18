/**
 * The borrowing page: the table of borrowing records with its two mutually exclusive searches
 * (by book name, by borrower name), the lend/edit form with its checks, and the delete
 * confirmation. Unlike the entity pages, this page keeps the shown list itself: a create or
 * an update is applied to both the full list and the shown list.
 */
module BorrowBook {
  import opened Optional
  import opened Text
  import opened ListOps
  import opened Outcomes
  import Books

  /** The book a borrowing record embeds. */
  datatype LoanedBook = LoanedBook(id: int, name: string)

  datatype Borrow = Borrow(
    id: int,
    book: Option<LoanedBook>,
    borrowerName: string,
    borrowerMail: string,
    borrowingDate: string,
    returnDate: Option<string>)

  /** The draft in the lend/edit form; the book select holds the chosen book's id as text. */
  datatype BorrowForm = BorrowForm(
    bookId: string,
    borrowerName: string,
    borrowerMail: string,
    borrowingDate: string,
    returnDate: string)

  /** The create/update body; `bookId` is `bookForBorrowingRequest.id`, a missing return date is `null`. */
  datatype BorrowRequest = BorrowRequest(
    borrowerName: string,
    borrowerMail: string,
    borrowingDate: string,
    returnDate: Option<string>,
    bookId: int)

  /** The outcome of the form checks: the first failed check's message, or the selected book. */
  datatype Checked = Rejected(message: string) | Accepted(book: Books.Book)

  const EmptyForm: BorrowForm := BorrowForm("", "", "", "", "")

  /** The fewest characters a trimmed borrower name may have. */
  const MinNameLength: nat := 2

  const NoBookMessage: string := "Lütfen bir kitap seçin"
  const NoDateMessage: string := "Lütfen ödünç alma tarihini seçin"
  const BadMailMessage: string := "Lütfen geçerli bir e-posta adresi girin"
  const BadNameMessage: string := "Lütfen geçerli bir isim girin"
  const UnexpectedMessage: string := "Beklenmeyen bir hata oluştu"
  const UpdatedMessage: string := "Ödünç kaydı başarıyla güncellendi"
  const CreatedMessage: string := "Kitap başarıyla ödünç alındı"
  const LoadFailedMessage: string := "Ödünç kayıtları yüklenirken bir hata oluştu"
  const BooksFailedMessage: string := "Kitaplar yüklenirken bir hata oluştu"
  const DetailsFailedMessage: string := "Ödünç kaydı detayları yüklenirken bir hata oluştu"
  const DeletedMessage: string := "Ödünç kayıt başarıyla silindi"
  const DeleteContext: string := "Silme işlemi sırasında bir hata oluştu"

  /** The status a successful update (200) or create (201) answers with. */
  function ExpectedStatus(current: Option<Borrow>): int {
    if current.Some? then 200 else 201
  }

  function BorrowId(b: Borrow): int { b.id }

  /** `borrow.book?.name`: a record without a book has no name to search. */
  function LoanedBookName(b: Borrow): Option<string> {
    if b.book.Some? then Some(b.book.value.name) else None
  }

  function BorrowerName(b: Borrow): Option<string> { Some(b.borrowerName) }

  /** `handleBookSearch`'s filter: the records with a book whose lower-cased name contains the term. */
  function SearchByBook(borrows: seq<Borrow>, term: string): (r: seq<Borrow>)
    ensures IsSubsequence(r, borrows)
    ensures forall i :: 0 <= i < |r| ==> r[i].book.Some? && Contains(Lower(r[i].book.value.name), term)
    ensures forall i :: 0 <= i < |borrows| && borrows[i].book.Some? && Contains(Lower(borrows[i].book.value.name), term) ==>
      borrows[i] in r
    ensures forall b {:trigger multiset(r)[b]} :: multiset(r)[b] == if b.book.Some? && Contains(Lower(b.book.value.name), term) then multiset(borrows)[b] else 0
  {
    FilterContains(borrows, LoanedBookName, term)
  }

  /**
   * Clearing the book search box does not show every record again: the empty term keeps exactly
   * the records that have a book.
   */
  lemma ClearedBookSearch(borrows: seq<Borrow>)
    ensures forall i :: 0 <= i < |borrows| ==> (borrows[i] in SearchByBook(borrows, "") <==> borrows[i].book.Some?)
  {
    var r := SearchByBook(borrows, "");
    forall i | 0 <= i < |borrows|
      ensures borrows[i] in r <==> borrows[i].book.Some?
    {
      if borrows[i].book.Some? {
        ContainsEmpty(Lower(borrows[i].book.value.name));
      }
    }
  }

  /** `handleBorrowerSearch`'s filter: the records whose lower-cased borrower name contains the term. */
  function SearchByBorrower(borrows: seq<Borrow>, term: string): (r: seq<Borrow>)
    ensures IsSubsequence(r, borrows)
    ensures forall i :: 0 <= i < |r| ==> Contains(Lower(r[i].borrowerName), term)
    ensures forall i :: 0 <= i < |borrows| && Contains(Lower(borrows[i].borrowerName), term) ==> borrows[i] in r
    ensures forall b {:trigger multiset(r)[b]} :: multiset(r)[b] == if Contains(Lower(b.borrowerName), term) then multiset(borrows)[b] else 0
  {
    FilterContains(borrows, BorrowerName, term)
  }

  /** Clearing the borrower search box shows every record again. */
  lemma ClearedBorrowerSearch(borrows: seq<Borrow>)
    ensures SearchByBorrower(borrows, "") == borrows
  {
    FilterEmptyTerm(borrows, BorrowerName);
  }

  /** `books.find(book => book.id === parseInt(bookId))`; a text that is not a number finds no book. */
  function SelectedBook(books: seq<Books.Book>, bookId: string): (r: Option<Books.Book>)
    ensures r.Some? ==> r.value in books && ParseInt(bookId) == Some(r.value.id)
    ensures r.None? <==> ParseInt(bookId).None? || forall i :: 0 <= i < |books| ==> books[i].id != ParseInt(bookId).value
  {
    match ParseInt(bookId)
    case None => None
    case Some(n) => FindById(books, Books.BookId, n)
  }

  /** The select's value for a listed book finds that book again. */
  lemma SelectShown(books: seq<Books.Book>, k: nat)
    requires k < |books|
    ensures SelectedBook(books, Show(books[k].id)).Some?
    ensures SelectedBook(books, Show(books[k].id)).value.id == books[k].id
  {
    ParseShow(books[k].id);
  }

  /**
   * The four checks of `handleSubmit`, in order: a book is selected, a borrowing date is given,
   * the mail contains '@', and the trimmed name has at least two characters. The first one that
   * fails decides the message.
   */
  function Validate(books: seq<Books.Book>, f: BorrowForm): (r: Checked)
    ensures r.Accepted? <==>
      SelectedBook(books, f.bookId).Some? && f.borrowingDate != "" && Contains(f.borrowerMail, "@")
      && |Trim(f.borrowerName)| >= MinNameLength
    ensures r.Accepted? ==> SelectedBook(books, f.bookId) == Some(r.book)
    ensures r == Rejected(NoBookMessage) <==> SelectedBook(books, f.bookId).None?
    ensures r == Rejected(NoDateMessage) <==> SelectedBook(books, f.bookId).Some? && f.borrowingDate == ""
    ensures r == Rejected(BadMailMessage) <==>
      SelectedBook(books, f.bookId).Some? && f.borrowingDate != "" && !Contains(f.borrowerMail, "@")
    ensures r.Rejected? ==> r.message in {NoBookMessage, NoDateMessage, BadMailMessage, BadNameMessage}
  {
    var selected := SelectedBook(books, f.bookId);
    if selected.None? then Rejected(NoBookMessage)
    else if f.borrowingDate == "" then Rejected(NoDateMessage)
    else if f.borrowerMail == "" || !Contains(f.borrowerMail, "@") then Rejected(BadMailMessage)
    else if f.borrowerName == "" || |Trim(f.borrowerName)| < MinNameLength then Rejected(BadNameMessage)
    else Accepted(selected.value)
  }

  /**
   * The body `handleSubmit` sends for an accepted form: trimmed name and mail, the dates through
   * `new Date(..).toISOString().split('T')[0]` (given here as `toIso`, `None` where it throws),
   * no return date when the field is empty, and the selected book's id.
   */
  function BuildRequest(f: BorrowForm, book: Books.Book, toIso: string -> Option<string>): (r: Option<BorrowRequest>)
    ensures r.Some? <==> toIso(f.borrowingDate).Some? && (f.returnDate != "" ==> toIso(f.returnDate).Some?)
    ensures r.Some? ==> r.value.bookId == book.id && (r.value.returnDate.None? <==> f.returnDate == "")
    ensures r.Some? ==> r.value.borrowerName == Trim(f.borrowerName) && r.value.borrowerMail == Trim(f.borrowerMail)
  {
    var borrowing := toIso(f.borrowingDate);
    var returning := if f.returnDate != "" then toIso(f.returnDate) else None;
    if borrowing.None? || (f.returnDate != "" && returning.None?) then None
    else Some(BorrowRequest(Trim(f.borrowerName), Trim(f.borrowerMail), borrowing.value, returning, book.id))
  }

  /**
   * Whatever `handleSubmit` sends names a listed book, the one the form's text selects, a mail
   * that contains '@', and a name of at least two characters without surrounding white space.
   */
  lemma SentRequestIsValid(books: seq<Books.Book>, f: BorrowForm, toIso: string -> Option<string>)
    requires Validate(books, f).Accepted?
    requires BuildRequest(f, Validate(books, f).book, toIso).Some?
    ensures var q := BuildRequest(f, Validate(books, f).book, toIso).value;
      && (exists i :: 0 <= i < |books| && books[i].id == q.bookId)
      && ParseInt(f.bookId) == Some(q.bookId)
      && Contains(q.borrowerMail, "@")
      && |q.borrowerName| >= MinNameLength && !IsSpace(q.borrowerName[0])
      && !IsSpace(q.borrowerName[|q.borrowerName| - 1])
  {
    var book := Validate(books, f).book;
    assert SelectedBook(books, f.bookId) == Some(book);
    var q := BuildRequest(f, book, toIso).value;
    assert q.bookId == book.id && q.borrowerName == Trim(f.borrowerName) && q.borrowerMail == Trim(f.borrowerMail);
    var k :| 0 <= k < |books| && books[k] == book;
    var name := Trim(f.borrowerName);
    assert |name| >= MinNameLength && !IsSpace(name[0]) && !IsSpace(name[|name| - 1]);
    assert !IsSpace('@');
    TrimKeepsContained(f.borrowerMail, '@');
  }

  /**
   * `handleEdit`'s form for a fetched record: the book's id as the select's value, and an empty
   * return date when the record has none. A record without a book has no form (`book.id` throws).
   */
  function FormFromBorrow(d: Borrow): (r: Option<BorrowForm>)
    ensures r.None? <==> d.book.None?
    ensures r.Some? ==> ParseInt(r.value.bookId) == Some(d.book.value.id)
    ensures r.Some? ==> (r.value.returnDate == "" <==> d.returnDate.None? || d.returnDate == Some(""))
  {
    if d.book.None? then None
    else
      ParseShow(d.book.value.id);
      Some(BorrowForm(
        Show(d.book.value.id),
        d.borrowerName,
        d.borrowerMail,
        d.borrowingDate,
        if d.returnDate.Some? then d.returnDate.value else ""))
  }

  /**
   * Opening a record whose book is still listed and whose fields pass the checks, then saving
   * without changes, passes the checks with that same book.
   */
  lemma EditThenSubmit(books: seq<Books.Book>, d: Borrow, k: nat)
    requires k < |books| && d.book.Some? && books[k].id == d.book.value.id
    requires d.borrowingDate != "" && Contains(d.borrowerMail, "@") && |Trim(d.borrowerName)| >= MinNameLength
    ensures FormFromBorrow(d).Some?
    ensures Validate(books, FormFromBorrow(d).value).Accepted?
    ensures Validate(books, FormFromBorrow(d).value).book.id == d.book.value.id
  {
    var f := FormFromBorrow(d).value;
    assert SelectedBook(books, f.bookId).Some?;
  }

  /**
   * A list after a successful submit: the record with the edited id replaced by the server's
   * copy, or the created record put on top.
   */
  function AfterSubmit(borrows: seq<Borrow>, current: Option<Borrow>, saved: Borrow): (r: seq<Borrow>)
    ensures current.None? ==> r == [saved] + borrows
    ensures current.Some? ==> |r| == |borrows|
    ensures current.Some? ==>
      forall i :: 0 <= i < |borrows| ==> r[i] == if borrows[i].id == current.value.id then saved else borrows[i]
  {
    if current.Some? then ReplaceById(borrows, BorrowId, current.value.id, saved) else [saved] + borrows
  }

  /** Applying the same submit to the full list and to the shown list keeps the shown one a subsequence. */
  lemma AfterSubmitKeepsSubsequence(shown: seq<Borrow>, borrows: seq<Borrow>, current: Option<Borrow>, saved: Borrow)
    requires IsSubsequence(shown, borrows)
    ensures IsSubsequence(AfterSubmit(shown, current, saved), AfterSubmit(borrows, current, saved))
  {
    if current.Some? {
      ReplaceKeepsSubsequence(shown, borrows, BorrowId, current.value.id, saved);
    } else {
      SubsequencePrepend(shown, borrows, saved);
    }
  }

  /** Submitting the same update twice leaves the list as one submit does. */
  lemma UpdateTwice(borrows: seq<Borrow>, current: Borrow, saved: Borrow)
    requires saved.id == current.id
    ensures AfterSubmit(AfterSubmit(borrows, Some(current), saved), Some(current), saved)
      == AfterSubmit(borrows, Some(current), saved)
  {
    ReplaceTwice(borrows, BorrowId, current.id, saved);
  }

  class BorrowPage {
    var borrows: seq<Borrow>
    var filteredBorrows: seq<Borrow>
    var bookSearchTerm: string
    var borrowerSearchTerm: string
    var books: seq<Books.Book>
    var isModalOpen: bool
    var currentBorrow: Option<Borrow>
    var isLoading: bool
    var formData: BorrowForm
    var isDeleteModalOpen: bool
    var recordToDelete: Option<Borrow>

    /**
     * The table only shows records of the full list, in its order, and at most one of the two
     * search boxes holds text.
     */
    ghost predicate Valid()
      reads this
    {
      IsSubsequence(filteredBorrows, borrows) && (bookSearchTerm == "" || borrowerSearchTerm == "")
    }

    constructor ()
      ensures Valid()
      ensures borrows == [] && filteredBorrows == [] && books == []
      ensures bookSearchTerm == "" && borrowerSearchTerm == ""
      ensures formData == EmptyForm && currentBorrow == None && !isLoading
      ensures !isModalOpen && !isDeleteModalOpen && recordToDelete == None
    {
      borrows, filteredBorrows, books := [], [], [];
      bookSearchTerm, borrowerSearchTerm := "", "";
      formData, currentBorrow, isLoading := EmptyForm, None, false;
      isModalOpen, isDeleteModalOpen, recordToDelete := false, false, None;
      SubsequenceRefl<Borrow>([]);
    }

    /**
     * `fetchBorrows`: both lists become the fetched records, reversed; the search boxes keep their
     * text. A failure only reports. Either way loading has ended.
     */
    method Load(resp: Response<seq<Borrow>>) returns (note: Option<Notice>)
      requires Valid()
      modifies this`borrows, this`filteredBorrows, this`isLoading
      ensures Valid() && !isLoading
      ensures resp.Ok? ==> borrows == Reverse(resp.data) && filteredBorrows == borrows && note == None
      ensures resp.Err? ==>
        borrows == old(borrows) && filteredBorrows == old(filteredBorrows) && note == Some(Notice(LoadFailedMessage, Error))
    {
      isLoading := true;
      if resp.Ok? {
        borrows := Reverse(resp.data);
        filteredBorrows := Reverse(resp.data);
        SubsequenceRefl(borrows);
        note := None;
      } else {
        note := Some(Notice(LoadFailedMessage, Error));
      }
      isLoading := false;
    }

    /** `fetchBooks`: the choices of the book select, in the server's order. */
    method LoadBooks(resp: Response<seq<Books.Book>>) returns (note: Option<Notice>)
      modifies this`books
      ensures resp.Ok? ==> books == resp.data && note == None
      ensures resp.Err? ==> books == old(books) && note == Some(Notice(BooksFailedMessage, Error))
    {
      match resp
      case Ok(_, data) =>
        books := data;
        note := None;
      case Err(_) =>
        note := Some(Notice(BooksFailedMessage, Error));
    }

    /** `handleBookSearch`: keep the typed text, clear the other box, filter by book name. */
    method BookSearch(value: string)
      requires Valid()
      modifies this`bookSearchTerm, this`borrowerSearchTerm, this`filteredBorrows
      ensures Valid()
      ensures bookSearchTerm == value && borrowerSearchTerm == ""
      ensures filteredBorrows == SearchByBook(borrows, Lower(value))
    {
      bookSearchTerm, borrowerSearchTerm := value, "";
      filteredBorrows := SearchByBook(borrows, Lower(value));
    }

    /** `handleBorrowerSearch`: keep the typed text, clear the other box, filter by borrower name. */
    method BorrowerSearch(value: string)
      requires Valid()
      modifies this`bookSearchTerm, this`borrowerSearchTerm, this`filteredBorrows
      ensures Valid()
      ensures borrowerSearchTerm == value && bookSearchTerm == ""
      ensures filteredBorrows == SearchByBorrower(borrows, Lower(value))
    {
      borrowerSearchTerm, bookSearchTerm := value, "";
      filteredBorrows := SearchByBorrower(borrows, Lower(value));
    }

    /** `resetForm`: the empty draft and no record being edited. */
    method Reset()
      modifies this`currentBorrow, this`formData
      ensures formData == EmptyForm && currentBorrow == None
    {
      formData, currentBorrow := EmptyForm, None;
    }

    /** The tail of `handleSubmit` once the server answered with the expected status. */
    method Saved(saved: Borrow) returns (note: Notice)
      requires Valid()
      modifies this`borrows, this`filteredBorrows, this`formData, this`currentBorrow, this`isModalOpen
      ensures Valid()
      ensures borrows == AfterSubmit(old(borrows), old(currentBorrow), saved)
      ensures filteredBorrows == AfterSubmit(old(filteredBorrows), old(currentBorrow), saved)
      ensures formData == EmptyForm && currentBorrow == None && !isModalOpen
      ensures note == Notice(if old(currentBorrow).Some? then UpdatedMessage else CreatedMessage, Success)
    {
      note := Notice(if currentBorrow.Some? then UpdatedMessage else CreatedMessage, Success);
      AfterSubmitKeepsSubsequence(filteredBorrows, borrows, currentBorrow, saved);
      borrows := AfterSubmit(borrows, currentBorrow, saved);
      filteredBorrows := AfterSubmit(filteredBorrows, currentBorrow, saved);
      Reset();
      isModalOpen := false;
    }

    /**
     * `handleSubmit`: check the form, build the body, send it (`resp` is the server's answer) and,
     * when the answer has the expected status, apply it to both lists, clear the form and close
     * the dialog. Any other status changes nothing and reports nothing; a rejection or a date
     * that cannot be converted reports the unexpected-error message.
     */
    method Submit(toIso: string -> Option<string>, resp: Response<Borrow>)
      returns (request: Option<BorrowRequest>, note: Option<Notice>)
      requires Valid()
      modifies this`borrows, this`filteredBorrows, this`formData, this`currentBorrow, this`isModalOpen
      ensures Valid()
      ensures request.Some? <==>
        Validate(old(books), old(formData)).Accepted?
        && BuildRequest(old(formData), Validate(old(books), old(formData)).book, toIso).Some?
      ensures request.Some? ==> request == BuildRequest(old(formData), Validate(old(books), old(formData)).book, toIso)
      ensures Validate(old(books), old(formData)).Rejected? ==>
        note == Some(Notice(Validate(old(books), old(formData)).message, Error))
      ensures Validate(old(books), old(formData)).Accepted? && request.None? ==>
        note == Some(Notice(UnexpectedMessage, Error))
      ensures request.None? || resp.Err? || resp.status != ExpectedStatus(old(currentBorrow)) ==>
        unchanged(this)
      ensures request.Some? && resp.Err? ==> note == Some(Notice(UnexpectedMessage, Error))
      ensures request.Some? && resp.Ok? && resp.status != ExpectedStatus(old(currentBorrow)) ==> note == None
      ensures request.Some? && resp.Ok? && resp.status == ExpectedStatus(old(currentBorrow)) ==>
        && borrows == AfterSubmit(old(borrows), old(currentBorrow), resp.data)
        && filteredBorrows == AfterSubmit(old(filteredBorrows), old(currentBorrow), resp.data)
        && formData == EmptyForm && currentBorrow == None && !isModalOpen
        && note == Some(Notice(if old(currentBorrow).Some? then UpdatedMessage else CreatedMessage, Success))
    {
      var checked := Validate(books, formData);
      if checked.Rejected? {
        request, note := None, Some(Notice(checked.message, Error));
        return;
      }
      request := BuildRequest(formData, checked.book, toIso);
      if request.None? {
        note := Some(Notice(UnexpectedMessage, Error));
        return;
      }
      match resp
      case Err(_) =>
        note := Some(Notice(UnexpectedMessage, Error));
      case Ok(status, data) =>
        if status == ExpectedStatus(currentBorrow) {
          var saved := Saved(data);
          note := Some(saved);
        } else {
          note := None;
        }
    }

    /**
     * `handleDelete(id)`: on success report, ask for a refetch and close the dialog; on failure
     * report the server's message when it answered.
     */
    method Delete(id: int, resp: Response<()>) returns (note: Notice, refetch: bool)
      requires Valid()
      modifies this`recordToDelete, this`isDeleteModalOpen
      ensures Valid()
      ensures resp.Ok? ==> refetch && note == Notice(DeletedMessage, Success) && !isDeleteModalOpen && recordToDelete == None
      ensures resp.Err? ==> !refetch && note == Notice(ResponseMessage(DeleteContext, resp.error), Error) && unchanged(this)
    {
      match resp
      case Ok(_, _) =>
        note, refetch := Notice(DeletedMessage, Success), true;
        isDeleteModalOpen, recordToDelete := false, None;
      case Err(e) =>
        note, refetch := Notice(ResponseMessage(DeleteContext, e), Error), false;
    }

    /**
     * `handleEdit`: fetch the record's details (`resp`), remember them, fill the form and open the
     * dialog. A record without a book is remembered but fails before the form is filled.
     */
    method Edit(resp: Response<Borrow>) returns (note: Option<Notice>)
      requires Valid()
      modifies this`currentBorrow, this`formData, this`isModalOpen
      ensures Valid()
      ensures resp.Err? ==> unchanged(this) && note == Some(Notice(DetailsFailedMessage, Error))
      ensures resp.Ok? ==> currentBorrow == Some(resp.data)
      ensures resp.Ok? && resp.data.book.Some? ==>
        Some(formData) == FormFromBorrow(resp.data) && isModalOpen && note == None
      ensures resp.Ok? && resp.data.book.None? ==>
        formData == old(formData) && isModalOpen == old(isModalOpen) && note == Some(Notice(DetailsFailedMessage, Error))
    {
      match resp
      case Err(_) =>
        note := Some(Notice(DetailsFailedMessage, Error));
      case Ok(_, details) =>
        currentBorrow := Some(details);
        var form := FormFromBorrow(details);
        if form.None? {
          note := Some(Notice(DetailsFailedMessage, Error));
        } else {
          formData := form.value;
          isModalOpen := true;
          note := None;
        }
    }

    /** `openDeleteModal`: remember the record and open the confirmation. */
    method OpenDeleteModal(record: Borrow)
      modifies this`recordToDelete, this`isDeleteModalOpen
      ensures recordToDelete == Some(record) && isDeleteModalOpen
    {
      recordToDelete, isDeleteModalOpen := Some(record), true;
    }

    /** The delete dialog's cancel and close buttons. */
    method CancelDelete()
      modifies this`recordToDelete, this`isDeleteModalOpen
      ensures recordToDelete == None && !isDeleteModalOpen
    {
      isDeleteModalOpen, recordToDelete := false, None;
    }

    /** The new-record button: reset the form, then open the dialog. */
    method OpenCreate()
      modifies this`currentBorrow, this`formData, this`isModalOpen
      ensures formData == EmptyForm && currentBorrow == None && isModalOpen
    {
      Reset();
      isModalOpen := true;
    }

    /** The form's cancel and close buttons: close the dialog, then reset the form. */
    method CloseForm()
      modifies this`currentBorrow, this`formData, this`isModalOpen
      ensures formData == EmptyForm && currentBorrow == None && !isModalOpen
    {
      isModalOpen := false;
      Reset();
    }
  }
}
