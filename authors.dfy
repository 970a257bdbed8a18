/**
 * The Authors page: the author table with its name search, the add/edit form and the delete
 * confirmation. An edited author is merged with the form and moved to the top of the list;
 * a created one is put on top.
 */
module Authors {
  import opened Optional
  import opened Text
  import opened ListOps
  import opened Outcomes

  datatype Author = Author(id: int, name: string, birthDate: string, country: string)

  /** The draft in the add/edit form, which is also the request body. */
  datatype AuthorForm = AuthorForm(name: string, birthDate: string, country: string)

  const EmptyForm: AuthorForm := AuthorForm("", "", "")

  const LoadContext: string := "Yazarlar yüklenirken bir hata oluştu"
  const SubmitContext: string := "İşlem sırasında bir hata oluştu"
  const DeleteContext: string := "Silme işlemi sırasında bir hata oluştu"
  const UpdatedMessage: string := "Yazar başarıyla güncellendi"
  const CreatedMessage: string := "Yazar başarıyla eklendi"
  const DeletedMessage: string := "Yazar başarıyla silindi"

  /** The page's two-way report: the server's message when it answered, the bare context otherwise. */
  function Describe(context: string, e: HttpError): (n: Notice)
    ensures n.kind == Error && n.message == ResponseMessage(context, e)
  {
    Notice(ResponseMessage(context, e), Error)
  }

  function AuthorId(a: Author): int { a.id }

  function AuthorName(a: Author): Option<string> { Some(a.name) }

  /** `{ ...a, ...requestData }`: the form's three fields over the author, whose id is kept. */
  function Merge(a: Author, f: AuthorForm): (r: Author)
    ensures r.id == a.id
  {
    a.(name := f.name, birthDate := f.birthDate, country := f.country)
  }

  /** `handleEdit`'s form: the author's three fields. */
  function FormFromAuthor(a: Author): (f: AuthorForm)
    ensures Merge(a, f) == a
  {
    AuthorForm(a.name, a.birthDate, a.country)
  }

  /** `authors.filter(author => author.name.toLowerCase().includes(term))`. */
  function SearchAuthors(authors: seq<Author>, term: string): (r: seq<Author>)
    ensures forall i :: 0 <= i < |r| ==> Contains(Lower(r[i].name), term)
    ensures forall i :: 0 <= i < |authors| && Contains(Lower(authors[i].name), term) ==> authors[i] in r
    ensures IsSubsequence(r, authors)
    ensures forall a {:trigger multiset(r)[a]} :: multiset(r)[a] == if Contains(Lower(a.name), term) then multiset(authors)[a] else 0
  {
    FilterContains(authors, AuthorName, term)
  }

  /** An empty search shows every author. */
  lemma SearchAuthorsEmpty(authors: seq<Author>)
    ensures SearchAuthors(authors, "") == authors
  {
    FilterEmptyTerm(authors, AuthorName);
  }

  /** Searching a search result again with the same term changes nothing. */
  lemma SearchAuthorsTwice(authors: seq<Author>, term: string)
    ensures SearchAuthors(SearchAuthors(authors, term), term) == SearchAuthors(authors, term)
  {
    FilterIdempotent(authors, AuthorName, term);
  }

  /**
   * The list after an update: the author with the id merged with the form and moved to the
   * front, the others after it in order. A list without that id is left as it is.
   */
  function AfterUpdate(authors: seq<Author>, id: int, f: AuthorForm): (r: seq<Author>)
    ensures (forall i :: 0 <= i < |authors| ==> authors[i].id != id) ==> r == authors
  {
    var merged := MapById(authors, AuthorId, id, Merge, f);
    assert (forall i :: 0 <= i < |authors| ==> authors[i].id != id) ==> merged == authors;
    MoveToFront(merged, AuthorId, id)
  }

  /**
   * Whenever the id occurs, the updated list starts with an author carrying it and the form's
   * three fields, followed by every other author in the old order.
   */
  lemma UpdateFront(authors: seq<Author>, id: int, f: AuthorForm, k: nat)
    requires k < |authors| && authors[k].id == id
    ensures var r := AfterUpdate(authors, id, f);
      |r| >= 1 && r[0].id == id && r[0].name == f.name && r[0].birthDate == f.birthDate && r[0].country == f.country
      && r[1..] == WithoutId(authors, AuthorId, id)
  {
    var merged := MapById(authors, AuthorId, id, Merge, f);
    assert AuthorId(merged[k]) == id;
    assert forall y :: y in merged && y.id == id ==> y.name == f.name && y.birthDate == f.birthDate && y.country == f.country;
    WithoutIdAfterMap(authors, AuthorId, id, Merge, f);
  }

  /** With the id at exactly one index, the update keeps the length and only moves that author, merged, to the front. */
  lemma UpdateMovesToFront(authors: seq<Author>, id: int, f: AuthorForm, k: nat)
    requires k < |authors| && authors[k].id == id
    requires forall j :: 0 <= j < |authors| && j != k ==> authors[j].id != id
    ensures AfterUpdate(authors, id, f) == [Merge(authors[k], f)] + authors[..k] + authors[k + 1..]
    ensures |AfterUpdate(authors, id, f)| == |authors|
  {
    MergeMoveToFront(authors, AuthorId, id, Merge, f, k);
  }

  /** The list after a successful submit: an update when an author is being edited, a create (prepend) otherwise. */
  function AfterSubmit(authors: seq<Author>, current: Option<Author>, f: AuthorForm, created: Author): (r: seq<Author>)
    ensures current.None? ==> r == [created] + authors
  {
    if current.Some? then AfterUpdate(authors, current.value.id, f) else [created] + authors
  }

  class AuthorsPage {
    var authors: seq<Author>
    var filteredAuthors: seq<Author>
    var searchTerm: string
    var formData: AuthorForm
    var currentAuthor: Option<Author>
    var isModalOpen: bool
    var isDeleteModalOpen: bool
    var authorToDelete: Option<Author>
    /** The term whose search the table shows: the last search, or "" once the list has changed. */
    ghost var activeFilter: string

    /** The table always shows the search of the full list by some term. */
    ghost predicate Valid()
      reads this
    {
      filteredAuthors == SearchAuthors(authors, activeFilter)
    }

    constructor ()
      ensures Valid()
      ensures authors == [] && filteredAuthors == [] && searchTerm == ""
      ensures formData == EmptyForm && currentAuthor == None
      ensures !isModalOpen && !isDeleteModalOpen && authorToDelete == None
    {
      authors, filteredAuthors, searchTerm := [], [], "";
      formData, currentAuthor := EmptyForm, None;
      isModalOpen, isDeleteModalOpen, authorToDelete := false, false, None;
      activeFilter := "";
    }

    /** The effect that runs whenever `authors` changes: the table shows the whole list again. */
    method Resync()
      modifies this`filteredAuthors, this`activeFilter
      ensures Valid() && filteredAuthors == authors
    {
      filteredAuthors := authors;
      activeFilter := "";
      SearchAuthorsEmpty(authors);
    }

    /** `fetchAuthors`: the fetched list, reversed; a failure only reports. */
    method Load(resp: Response<seq<Author>>) returns (note: Option<Notice>)
      requires Valid()
      modifies this
      ensures Valid()
      ensures resp.Ok? ==> authors == Reverse(resp.data) && filteredAuthors == authors && note == None
      ensures resp.Ok? ==> searchTerm == old(searchTerm) && formData == old(formData) && currentAuthor == old(currentAuthor)
      ensures resp.Ok? ==> isModalOpen == old(isModalOpen) && isDeleteModalOpen == old(isDeleteModalOpen) && authorToDelete == old(authorToDelete)
      ensures resp.Err? ==> unchanged(this) && note == Some(Describe(LoadContext, resp.error))
    {
      match resp
      case Ok(_, data) =>
        authors := Reverse(data);
        Resync();
        note := None;
      case Err(e) =>
        note := Some(Describe(LoadContext, e));
    }

    /** `handleSearch`: remember the lower-cased term and show the authors whose name contains it. */
    method Search(value: string)
      requires Valid()
      modifies this`searchTerm, this`filteredAuthors, this`activeFilter
      ensures Valid()
      ensures searchTerm == Lower(value) && filteredAuthors == SearchAuthors(authors, Lower(value))
    {
      searchTerm := Lower(value);
      filteredAuthors := SearchAuthors(authors, searchTerm);
      activeFilter := searchTerm;
    }

    /** The tail of `handleSubmit` once the server accepted the request. */
    method Saved(created: Author) returns (note: Notice)
      requires Valid()
      modifies this
      ensures Valid()
      ensures authors == AfterSubmit(old(authors), old(currentAuthor), old(formData), created) && filteredAuthors == authors
      ensures formData == EmptyForm && currentAuthor == None && !isModalOpen
      ensures searchTerm == old(searchTerm) && isDeleteModalOpen == old(isDeleteModalOpen) && authorToDelete == old(authorToDelete)
      ensures note == Notice(if old(currentAuthor).Some? then UpdatedMessage else CreatedMessage, Success)
    {
      note := Notice(if currentAuthor.Some? then UpdatedMessage else CreatedMessage, Success);
      authors := AfterSubmit(authors, currentAuthor, formData, created);
      Resync();
      formData, currentAuthor, isModalOpen := EmptyForm, None, false;
    }

    /**
     * `handleSubmit`: send the form's three fields; on success update or prepend (see `Saved`),
     * clear the form and close the dialog; on failure only report.
     */
    method Submit(resp: Response<Author>) returns (request: AuthorForm, note: Notice)
      requires Valid()
      modifies this
      ensures Valid()
      ensures request == old(formData)
      ensures resp.Ok? ==>
        && authors == AfterSubmit(old(authors), old(currentAuthor), old(formData), resp.data)
        && filteredAuthors == authors
        && formData == EmptyForm && currentAuthor == None && !isModalOpen
        && searchTerm == old(searchTerm) && isDeleteModalOpen == old(isDeleteModalOpen) && authorToDelete == old(authorToDelete)
        && note == Notice(if old(currentAuthor).Some? then UpdatedMessage else CreatedMessage, Success)
      ensures resp.Err? ==> unchanged(this) && note == Describe(SubmitContext, resp.error)
    {
      request := formData;
      if resp.Err? {
        note := Describe(SubmitContext, resp.error);
        return;
      }
      note := Saved(resp.data);
    }

    /** `openDeleteModal`. */
    method OpenDeleteModal(author: Author)
      modifies this`authorToDelete, this`isDeleteModalOpen
      ensures authorToDelete == Some(author) && isDeleteModalOpen
    {
      authorToDelete, isDeleteModalOpen := Some(author), true;
    }

    /** The delete dialog's cancel and close buttons. */
    method CancelDelete()
      modifies this`authorToDelete, this`isDeleteModalOpen
      ensures authorToDelete == None && !isDeleteModalOpen
    {
      authorToDelete, isDeleteModalOpen := None, false;
    }

    /**
     * `handleDelete(id)`: on success report, ask for a refetch, close the dialog and forget the
     * author; on failure only report, leaving both set.
     */
    method Delete(id: int, resp: Response<()>) returns (note: Notice, refetch: bool)
      requires Valid()
      modifies this`authorToDelete, this`isDeleteModalOpen
      ensures Valid()
      ensures resp.Ok? ==> refetch && note == Notice(DeletedMessage, Success) && !isDeleteModalOpen && authorToDelete == None
      ensures resp.Err? ==> !refetch && note == Describe(DeleteContext, resp.error) && unchanged(this)
    {
      match resp
      case Ok(_, _) =>
        note, refetch := Notice(DeletedMessage, Success), true;
        isDeleteModalOpen, authorToDelete := false, None;
      case Err(e) =>
        note, refetch := Describe(DeleteContext, e), false;
    }

    /** `handleEdit`: remember the author, copy its three fields into the form and open the dialog. */
    method Edit(author: Author)
      modifies this`currentAuthor, this`formData, this`isModalOpen
      ensures currentAuthor == Some(author) && formData == FormFromAuthor(author) && isModalOpen
      ensures formData.name == author.name && formData.birthDate == author.birthDate && formData.country == author.country
    {
      currentAuthor := Some(author);
      formData := FormFromAuthor(author);
      isModalOpen := true;
    }

    /** `resetForm`: the empty draft and no author being edited. */
    method Reset()
      modifies this`currentAuthor, this`formData
      ensures formData == EmptyForm && currentAuthor == None
    {
      formData, currentAuthor := EmptyForm, None;
    }

    /** The add button: reset the form, then open the dialog. */
    method OpenCreate()
      modifies this`currentAuthor, this`formData, this`isModalOpen
      ensures formData == EmptyForm && currentAuthor == None && isModalOpen
    {
      Reset();
      isModalOpen := true;
    }

    /** The form's cancel and close buttons: close the dialog, then reset the form. */
    method CloseForm()
      modifies this`currentAuthor, this`formData, this`isModalOpen
      ensures formData == EmptyForm && currentAuthor == None && !isModalOpen
    {
      isModalOpen := false;
      Reset();
    }
  }
}
