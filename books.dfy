/**
 * The Books page: the book table with its name search, the add/edit form with its author,
 * publisher and category references, and the delete confirmation. Unlike the other entity
 * pages, a create or an update reverses the whole list afterwards.
 */
module Books {
  import opened Optional
  import opened Text
  import opened ListOps
  import opened Outcomes

  /** A reference the server embeds in a book: its author, its publisher or one of its categories. */
  datatype Ref = Ref(id: int, name: string)

  datatype Book = Book(
    id: int,
    name: string,
    publicationYear: int,
    stock: int,
    author: Option<Ref>,
    publisher: Option<Ref>,
    categories: Option<seq<Ref>>)

  /** The draft in the add/edit form; every input holds text, the category select a list of ids as text. */
  datatype BookForm = BookForm(
    name: string,
    publicationYear: string,
    stock: string,
    authorId: string,
    publisherId: string,
    categoryIds: seq<string>)

  /** The create/update body; a number that failed to parse is `None` (`NaN`, sent as JSON `null`). */
  datatype BookRequest = BookRequest(
    name: string,
    publicationYear: Option<int>,
    stock: Option<int>,
    authorId: Option<int>,
    publisherId: Option<int>,
    categoryIds: seq<Option<int>>)

  const PublisherNameLimit: nat := 16
  const BookNameLimit: nat := 20
  const CategoriesLimit: nat := 17

  const EmptyForm: BookForm := BookForm("", "", "", "", "", [])

  const LoadContext: string := "Kitaplar yüklenirken bir hata oluştu"
  const PublishersContext: string := "Yayımcılar yüklenirken bir hata oluştu"
  const AuthorsContext: string := "Yazarlar yüklenirken bir hata oluştu"
  const CategoriesContext: string := "Kategoriler yüklenirken bir hata oluştu"
  const SubmitContext: string := "İşlem sırasında bir hata oluştu"
  const DeleteContext: string := "Silme işlemi sırasında bir hata oluştu"
  const NoCategoryMessage: string := "Lütfen en az bir kategori seçin"
  const UpdatedMessage: string := "Kitap başarıyla güncellendi"
  const CreatedMessage: string := "Kitap başarıyla eklendi"
  const DeletedMessage: string := "Kitap başarıyla silindi"

  function BookId(b: Book): int { b.id }

  function BookName(b: Book): Option<string> { Some(b.name) }

  /** `truncatePublisherName`: a missing name shows as '', a long one as its first 16 characters and '...'. */
  function TruncatePublisherName(name: Option<string>): (r: string)
    ensures name.None? ==> r == ""
    ensures name.Some? && |name.value| <= PublisherNameLimit ==> r == name.value
    ensures name.Some? && |name.value| > PublisherNameLimit ==> r == name.value[..PublisherNameLimit] + Ellipsis
  {
    TruncateName(name, PublisherNameLimit)
  }

  /** `truncateBookName`: a missing name shows as '', a long one as its first 20 characters and '...'. */
  function TruncateBookName(name: Option<string>): (r: string)
    ensures name.None? ==> r == ""
    ensures name.Some? && |name.value| <= BookNameLimit ==> r == name.value
    ensures name.Some? && |name.value| > BookNameLimit ==> r == name.value[..BookNameLimit] + Ellipsis
  {
    TruncateName(name, BookNameLimit)
  }

  /** `categories.map(cat => cat.name)`. */
  function CategoryNames(cats: seq<Ref>): (r: seq<string>)
    ensures |r| == |cats| && forall i :: 0 <= i < |cats| ==> r[i] == cats[i].name
  {
    seq(|cats|, i requires 0 <= i < |cats| => cats[i].name)
  }

  /**
   * `truncateCategories`: no categories show as ''; otherwise the names joined with ", ",
   * cut to 17 characters and '...' when longer.
   */
  function TruncateCategories(cats: Option<seq<Ref>>): (r: string)
    ensures cats.None? || cats == Some([]) ==> r == ""
    ensures cats.Some? && |cats.value| > 0 ==> r == Truncate(Join(CategoryNames(cats.value), ", "), CategoriesLimit)
    ensures |r| <= CategoriesLimit + |Ellipsis|
  {
    if cats.None? || |cats.value| == 0 then ""
    else Truncate(Join(CategoryNames(cats.value), ", "), CategoriesLimit)
  }

  /** The shown text of a single category is its name, cut as above. */
  lemma TruncateSingleCategory(c: Ref)
    ensures TruncateCategories(Some([c])) == Truncate(c.name, CategoriesLimit)
  {
    assert CategoryNames([c]) == [c.name];
  }

  /** `ref?.id || ''`: the id as text, or '' for a missing reference or the falsy id 0. */
  function RefIdText(r: Option<Ref>): (t: string)
    ensures r.Some? && r.value.id != 0 ==> t == Show(r.value.id)
    ensures r.None? || r.value.id == 0 ==> t == ""
  {
    if r.Some? && r.value.id != 0 then Show(r.value.id) else ""
  }

  /** `handleEdit`'s form: the book's fields, its reference ids and its category ids, as text. */
  function FormFromBook(b: Book): (f: BookForm)
    ensures f.name == b.name
    ensures b.categories.None? ==> f.categoryIds == []
    ensures b.categories.Some? ==> |f.categoryIds| == |b.categories.value|
    ensures b.categories.Some? ==> forall i :: 0 <= i < |f.categoryIds| ==> f.categoryIds[i] == Show(b.categories.value[i].id)
  {
    BookForm(
      b.name, Show(b.publicationYear), Show(b.stock), RefIdText(b.author), RefIdText(b.publisher),
      if b.categories.Some? then
        seq(|b.categories.value|, i requires 0 <= i < |b.categories.value| => Show(b.categories.value[i].id))
      else [])
  }

  /** `handleSubmit`'s request body: every number parsed from the form, the category ids in the same order. */
  function BuildRequest(f: BookForm): (r: BookRequest)
    ensures r.name == f.name
    ensures r.authorId == ParseInt(f.authorId) && r.publisherId == ParseInt(f.publisherId)
    ensures |r.categoryIds| == |f.categoryIds|
    ensures forall i :: 0 <= i < |f.categoryIds| ==> r.categoryIds[i] == ParseInt(f.categoryIds[i])
  {
    BookRequest(
      f.name, ParseInt(f.publicationYear), ParseInt(f.stock), ParseInt(f.authorId), ParseInt(f.publisherId),
      seq(|f.categoryIds|, i requires 0 <= i < |f.categoryIds| => ParseInt(f.categoryIds[i])))
  }

  /**
   * Editing a book and submitting the form unchanged sends the book's own values back: its year,
   * stock, author and publisher ids (when present and non-zero) and its category ids in order.
   */
  lemma EditThenSubmit(b: Book)
    ensures BuildRequest(FormFromBook(b)).name == b.name
    ensures BuildRequest(FormFromBook(b)).publicationYear == Some(b.publicationYear)
    ensures BuildRequest(FormFromBook(b)).stock == Some(b.stock)
    ensures b.author.Some? && b.author.value.id != 0 ==> BuildRequest(FormFromBook(b)).authorId == Some(b.author.value.id)
    ensures b.author.None? || b.author.value.id == 0 ==> BuildRequest(FormFromBook(b)).authorId == None
    ensures b.publisher.Some? && b.publisher.value.id != 0 ==> BuildRequest(FormFromBook(b)).publisherId == Some(b.publisher.value.id)
    ensures b.publisher.None? || b.publisher.value.id == 0 ==> BuildRequest(FormFromBook(b)).publisherId == None
    ensures b.categories.Some? ==> |BuildRequest(FormFromBook(b)).categoryIds| == |b.categories.value|
    ensures b.categories.Some? ==> forall i :: 0 <= i < |b.categories.value| ==>
      BuildRequest(FormFromBook(b)).categoryIds[i] == Some(b.categories.value[i].id)
  {
    ParseShow(b.publicationYear);
    ParseShow(b.stock);
    if b.author.Some? { ParseShow(b.author.value.id); }
    if b.publisher.Some? { ParseShow(b.publisher.value.id); }
    if b.categories.Some? {
      forall i | 0 <= i < |b.categories.value| {
        ParseShow(b.categories.value[i].id);
      }
    }
  }

  /** `books.filter(book => book.name.toLowerCase().includes(term))`. */
  function SearchBooks(books: seq<Book>, term: string): (r: seq<Book>)
    ensures forall i :: 0 <= i < |r| ==> Contains(Lower(r[i].name), term)
    ensures forall i :: 0 <= i < |books| && Contains(Lower(books[i].name), term) ==> books[i] in r
    ensures IsSubsequence(r, books)
    ensures forall b {:trigger multiset(r)[b]} :: multiset(r)[b] == if Contains(Lower(b.name), term) then multiset(books)[b] else 0
  {
    FilterContains(books, BookName, term)
  }

  /** An empty search shows every book. */
  lemma SearchBooksEmpty(books: seq<Book>)
    ensures SearchBooks(books, "") == books
  {
    FilterEmptyTerm(books, BookName);
  }

  /** The list after a create: `[...prev, created].reverse()`. */
  function AfterCreate(books: seq<Book>, created: Book): (r: seq<Book>)
    ensures r == [created] + Reverse(books)
    ensures |r| == |books| + 1 && r[0] == created
  {
    ReverseAppend(books, created);
    Reverse(books + [created])
  }

  /**
   * After a load the list runs newest-first; a create then leaves the new book first but the
   * rest oldest-first, in the server's order, which is the reverse of what a reload shows.
   */
  lemma CreateAfterLoad(server: seq<Book>, created: Book)
    ensures AfterCreate(Reverse(server), created) == [created] + server
    ensures Reverse(server + [created]) == [created] + Reverse(server)
  {
    ReverseReverse(server);
    ReverseAppend(server, created);
  }

  /** The list after an update: `prev.map(b => b.id === id ? updated : b).reverse()`. */
  function AfterUpdate(books: seq<Book>, id: int, updated: Book): (r: seq<Book>)
    ensures |r| == |books|
    ensures forall k :: 0 <= k < |books| ==>
      r[k] == if books[|books| - 1 - k].id == id then updated else books[|books| - 1 - k]
  {
    Reverse(ReplaceById(books, BookId, id, updated))
  }

  /** Two successive updates with the same response restore the original order, with the book replaced. */
  lemma UpdateTwice(books: seq<Book>, id: int, updated: Book)
    requires updated.id == id
    ensures AfterUpdate(AfterUpdate(books, id, updated), id, updated) == ReplaceById(books, BookId, id, updated)
  {
    var once := ReplaceById(books, BookId, id, updated);
    ReplaceReverse(once, BookId, id, updated);
    ReplaceTwice(books, BookId, id, updated);
    ReverseReverse(once);
  }

  /** The list after a successful submit: an update when a book is being edited, a create otherwise. */
  function AfterSubmit(books: seq<Book>, current: Option<Book>, data: Book): (r: seq<Book>)
    ensures current.None? ==> r == [data] + Reverse(books)
    ensures current.Some? ==> |r| == |books|
  {
    if current.Some? then AfterUpdate(books, current.value.id, data) else AfterCreate(books, data)
  }

  class BooksPage {
    var books: seq<Book>
    var filteredBooks: seq<Book>
    var searchTerm: string
    var formData: BookForm
    var currentBook: Option<Book>
    var isModalOpen: bool
    var isDeleteModalOpen: bool
    var bookToDelete: Option<Book>
    /** The choices of the form's publisher, author and category selects. */
    var publishers: seq<Ref>
    var authors: seq<Ref>
    var categories: seq<Ref>
    /** The term whose search the table shows: the last search, or "" once the list has changed. */
    ghost var activeFilter: string

    /** The table always shows the search of the full list by some term. */
    ghost predicate Valid()
      reads this
    {
      filteredBooks == SearchBooks(books, activeFilter)
    }

    constructor ()
      ensures Valid()
      ensures books == [] && filteredBooks == [] && searchTerm == ""
      ensures formData == EmptyForm && currentBook == None
      ensures !isModalOpen && !isDeleteModalOpen && bookToDelete == None
      ensures publishers == [] && authors == [] && categories == []
    {
      books, filteredBooks, searchTerm := [], [], "";
      publishers, authors, categories := [], [], [];
      formData, currentBook := EmptyForm, None;
      isModalOpen, isDeleteModalOpen, bookToDelete := false, false, None;
      activeFilter := "";
    }

    /** The effect that runs whenever `books` changes: the table shows the whole list again. */
    method Resync()
      modifies this`filteredBooks, this`activeFilter
      ensures Valid() && filteredBooks == books
    {
      filteredBooks := books;
      activeFilter := "";
      SearchBooksEmpty(books);
    }

    /** `fetchBooks`: the fetched list, reversed; a failure only reports. */
    method Load(resp: Response<seq<Book>>) returns (note: Option<Notice>)
      requires Valid()
      modifies this`books, this`filteredBooks, this`activeFilter
      ensures Valid()
      ensures resp.Ok? ==> books == Reverse(resp.data) && filteredBooks == books && note == None
      ensures resp.Ok? ==> searchTerm == old(searchTerm) && formData == old(formData) && currentBook == old(currentBook)
      ensures resp.Ok? ==> isModalOpen == old(isModalOpen) && isDeleteModalOpen == old(isDeleteModalOpen) && bookToDelete == old(bookToDelete)
      ensures resp.Err? ==> unchanged(this) && note == Some(DescribeWithNetwork(LoadContext, resp.error))
    {
      match resp
      case Ok(_, data) =>
        books := Reverse(data);
        Resync();
        note := None;
      case Err(e) =>
        note := Some(DescribeWithNetwork(LoadContext, e));
    }

    /** `fetchPublishers`: the publisher choices, in the server's order; a failure only reports. */
    method LoadPublishers(resp: Response<seq<Ref>>) returns (note: Option<Notice>)
      modifies this`publishers
      ensures resp.Ok? ==> publishers == resp.data && note == None
      ensures resp.Err? ==> publishers == old(publishers) && note == Some(DescribeWithNetwork(PublishersContext, resp.error))
    {
      match resp
      case Ok(_, data) =>
        publishers, note := data, None;
      case Err(e) =>
        note := Some(DescribeWithNetwork(PublishersContext, e));
    }

    /** `fetchAuthors`: the author choices, in the server's order; a failure only reports. */
    method LoadAuthors(resp: Response<seq<Ref>>) returns (note: Option<Notice>)
      modifies this`authors
      ensures resp.Ok? ==> authors == resp.data && note == None
      ensures resp.Err? ==> authors == old(authors) && note == Some(DescribeWithNetwork(AuthorsContext, resp.error))
    {
      match resp
      case Ok(_, data) =>
        authors, note := data, None;
      case Err(e) =>
        note := Some(DescribeWithNetwork(AuthorsContext, e));
    }

    /** `fetchCategories`: the category choices, in the server's order; a failure only reports. */
    method LoadCategories(resp: Response<seq<Ref>>) returns (note: Option<Notice>)
      modifies this`categories
      ensures resp.Ok? ==> categories == resp.data && note == None
      ensures resp.Err? ==> categories == old(categories) && note == Some(DescribeWithNetwork(CategoriesContext, resp.error))
    {
      match resp
      case Ok(_, data) =>
        categories, note := data, None;
      case Err(e) =>
        note := Some(DescribeWithNetwork(CategoriesContext, e));
    }

    /** `handleSearch`: remember the lower-cased term and show the books whose name contains it. */
    method Search(value: string)
      requires Valid()
      modifies this`searchTerm, this`filteredBooks, this`activeFilter
      ensures Valid()
      ensures searchTerm == Lower(value) && filteredBooks == SearchBooks(books, Lower(value))
    {
      searchTerm := Lower(value);
      filteredBooks := SearchBooks(books, searchTerm);
      activeFilter := searchTerm;
    }

    /** `handleCategoryChange`: the selected options become the category ids, in order. */
    method CategoryChange(selected: seq<string>)
      modifies this`formData
      ensures formData == old(formData).(categoryIds := selected)
    {
      formData := formData.(categoryIds := selected);
    }

    /**
     * The tail of `handleSubmit` once the server accepted the request: the list is rebuilt
     * (reversed) around the response, the form is cleared and the dialog closed.
     */
    method Saved(data: Book) returns (note: Notice)
      requires Valid()
      modifies this`books, this`filteredBooks, this`activeFilter, this`formData, this`currentBook, this`isModalOpen
      ensures Valid()
      ensures books == AfterSubmit(old(books), old(currentBook), data) && filteredBooks == books
      ensures formData == EmptyForm && currentBook == None && !isModalOpen
      ensures searchTerm == old(searchTerm) && isDeleteModalOpen == old(isDeleteModalOpen) && bookToDelete == old(bookToDelete)
      ensures note == Notice(if old(currentBook).Some? then UpdatedMessage else CreatedMessage, Success)
    {
      note := Notice(if currentBook.Some? then UpdatedMessage else CreatedMessage, Success);
      books := AfterSubmit(books, currentBook, data);
      Resync();
      formData, currentBook, isModalOpen := EmptyForm, None, false;
    }

    /**
     * `handleSubmit`. With no category selected it reports and sends nothing. Otherwise it sends
     * the request built from the form; on success the list is rebuilt around the response (see
     * `Saved`); on failure only the report is made.
     */
    method Submit(resp: Response<Book>) returns (request: Option<BookRequest>, note: Notice)
      requires Valid()
      modifies this`books, this`filteredBooks, this`activeFilter, this`formData, this`currentBook, this`isModalOpen
      ensures Valid()
      ensures old(formData).categoryIds == [] ==>
        request == None && note == Notice(NoCategoryMessage, Error) && unchanged(this)
      ensures old(formData).categoryIds != [] ==> request == Some(BuildRequest(old(formData)))
      ensures old(formData).categoryIds != [] && resp.Ok? ==>
        && books == AfterSubmit(old(books), old(currentBook), resp.data)
        && filteredBooks == books
        && formData == EmptyForm && currentBook == None && !isModalOpen
        && searchTerm == old(searchTerm) && isDeleteModalOpen == old(isDeleteModalOpen) && bookToDelete == old(bookToDelete)
        && note == Notice(if old(currentBook).Some? then UpdatedMessage else CreatedMessage, Success)
      ensures old(formData).categoryIds != [] && resp.Err? ==>
        unchanged(this) && note == DescribeWithNetwork(SubmitContext, resp.error)
    {
      if formData.categoryIds == [] {
        request := None;
        note := Notice(NoCategoryMessage, Error);
        return;
      }
      request := Some(BuildRequest(formData));
      if resp.Err? {
        note := DescribeWithNetwork(SubmitContext, resp.error);
        return;
      }
      note := Saved(resp.data);
    }

    /** `openDeleteModal`. */
    method OpenDeleteModal(book: Book)
      modifies this`bookToDelete, this`isDeleteModalOpen
      ensures bookToDelete == Some(book) && isDeleteModalOpen
    {
      bookToDelete, isDeleteModalOpen := Some(book), true;
    }

    /** The delete dialog's cancel and close buttons. */
    method CancelDelete()
      modifies this`bookToDelete, this`isDeleteModalOpen
      ensures bookToDelete == None && !isDeleteModalOpen
    {
      bookToDelete, isDeleteModalOpen := None, false;
    }

    /**
     * `handleDelete(id)`: on success report, ask for a refetch and close the dialog;
     * on failure only report, leaving the dialog open.
     */
    method Delete(id: int, resp: Response<()>) returns (note: Notice, refetch: bool)
      requires Valid()
      modifies this`bookToDelete, this`isDeleteModalOpen
      ensures Valid()
      ensures resp.Ok? ==> refetch && note == Notice(DeletedMessage, Success) && !isDeleteModalOpen && bookToDelete == None
      ensures resp.Err? ==> !refetch && note == DescribeWithNetwork(DeleteContext, resp.error) && unchanged(this)
    {
      match resp
      case Ok(_, _) =>
        note, refetch := Notice(DeletedMessage, Success), true;
        isDeleteModalOpen, bookToDelete := false, None;
      case Err(e) =>
        note, refetch := DescribeWithNetwork(DeleteContext, e), false;
    }

    /** `handleEdit`: remember the book, fill the form from it and open the dialog. */
    method Edit(book: Book)
      modifies this`currentBook, this`formData, this`isModalOpen
      ensures currentBook == Some(book) && formData == FormFromBook(book) && isModalOpen
    {
      currentBook := Some(book);
      formData := FormFromBook(book);
      isModalOpen := true;
    }

    /** `resetForm`: the empty draft and no book being edited. */
    method Reset()
      modifies this`currentBook, this`formData
      ensures formData == EmptyForm && currentBook == None
    {
      formData, currentBook := EmptyForm, None;
    }

    /** The add button: reset the form, then open the dialog. */
    method OpenCreate()
      modifies this`currentBook, this`formData, this`isModalOpen
      ensures formData == EmptyForm && currentBook == None && isModalOpen
    {
      Reset();
      isModalOpen := true;
    }

    /** The form's cancel and close buttons: close the dialog, then reset the form. */
    method CloseForm()
      modifies this`currentBook, this`formData, this`isModalOpen
      ensures formData == EmptyForm && currentBook == None && !isModalOpen
    {
      isModalOpen := false;
      Reset();
    }
  }
}
