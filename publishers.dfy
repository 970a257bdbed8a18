/**
 * The Publishers page: the publisher table with its name search, the add/edit form and the delete
 * confirmation. An edited publisher is merged with the form and moved to the top of the list;
 * a created one is put on top.
 */
module Publishers {
  import opened Optional
  import opened Text
  import opened ListOps
  import opened Outcomes

  /** A publisher; the establishment year is kept as the text the table shows and the form edits. */
  datatype Publisher = Publisher(id: int, name: string, establishmentYear: string, address: string)

  /** The draft in the add/edit form, which is also the request body. */
  datatype PublisherForm = PublisherForm(name: string, establishmentYear: string, address: string)

  const EmptyForm: PublisherForm := PublisherForm("", "", "")

  const LoadContext: string := "Yayımcılar yüklenirken bir hata oluştu"
  const SubmitContext: string := "İşlem sırasında bir hata oluştu"
  const DeleteFailedMessage: string := "Yayımcı silinirken bir hata oluştu"
  const UpdatedMessage: string := "Yayımcı başarıyla güncellendi"
  const CreatedMessage: string := "Yayımcı başarıyla eklendi"
  const DeletedMessage: string := "Yayımcı başarıyla silindi"

  function PublisherId(a: Publisher): int { a.id }

  function PublisherName(a: Publisher): Option<string> { Some(a.name) }

  /** `{ ...p, ...formData }`: the form's three fields over the publisher, whose id is kept. */
  function Merge(a: Publisher, f: PublisherForm): (r: Publisher)
    ensures r.id == a.id
  {
    a.(name := f.name, establishmentYear := f.establishmentYear, address := f.address)
  }

  /** `handleEdit`'s form: the publisher's three fields. */
  function FormFromPublisher(a: Publisher): (f: PublisherForm)
    ensures Merge(a, f) == a
  {
    PublisherForm(a.name, a.establishmentYear, a.address)
  }

  /** `publishers.filter(publisher => publisher.name.toLowerCase().includes(term))`. */
  function SearchPublishers(publishers: seq<Publisher>, term: string): (r: seq<Publisher>)
    ensures forall i :: 0 <= i < |r| ==> Contains(Lower(r[i].name), term)
    ensures forall i :: 0 <= i < |publishers| && Contains(Lower(publishers[i].name), term) ==> publishers[i] in r
    ensures IsSubsequence(r, publishers)
    ensures forall p {:trigger multiset(r)[p]} :: multiset(r)[p] == if Contains(Lower(p.name), term) then multiset(publishers)[p] else 0
  {
    FilterContains(publishers, PublisherName, term)
  }

  /** An empty search shows every publisher. */
  lemma SearchPublishersEmpty(publishers: seq<Publisher>)
    ensures SearchPublishers(publishers, "") == publishers
  {
    FilterEmptyTerm(publishers, PublisherName);
  }

  /** Searching a search result again with the same term changes nothing. */
  lemma SearchPublishersTwice(publishers: seq<Publisher>, term: string)
    ensures SearchPublishers(SearchPublishers(publishers, term), term) == SearchPublishers(publishers, term)
  {
    FilterIdempotent(publishers, PublisherName, term);
  }

  /**
   * The list after an update: the publisher with the id merged with the form and moved to the
   * front, the others after it in order. A list without that id is left as it is.
   */
  function AfterUpdate(publishers: seq<Publisher>, id: int, f: PublisherForm): (r: seq<Publisher>)
    ensures (forall i :: 0 <= i < |publishers| ==> publishers[i].id != id) ==> r == publishers
  {
    var merged := MapById(publishers, PublisherId, id, Merge, f);
    assert (forall i :: 0 <= i < |publishers| ==> publishers[i].id != id) ==> merged == publishers;
    MoveToFront(merged, PublisherId, id)
  }

  /**
   * Whenever the id occurs, the updated list starts with a publisher carrying it and the form's
   * three fields, followed by every other publisher in the old order.
   */
  lemma UpdateFront(publishers: seq<Publisher>, id: int, f: PublisherForm, k: nat)
    requires k < |publishers| && publishers[k].id == id
    ensures var r := AfterUpdate(publishers, id, f);
      |r| >= 1 && r[0].id == id && r[0].name == f.name && r[0].establishmentYear == f.establishmentYear && r[0].address == f.address
      && r[1..] == WithoutId(publishers, PublisherId, id)
  {
    var merged := MapById(publishers, PublisherId, id, Merge, f);
    assert PublisherId(merged[k]) == id;
    assert forall y :: y in merged && y.id == id ==> y.name == f.name && y.establishmentYear == f.establishmentYear && y.address == f.address;
    WithoutIdAfterMap(publishers, PublisherId, id, Merge, f);
  }

  /** With the id at exactly one index, the update keeps the length and only moves that publisher, merged, to the front. */
  lemma UpdateMovesToFront(publishers: seq<Publisher>, id: int, f: PublisherForm, k: nat)
    requires k < |publishers| && publishers[k].id == id
    requires forall j :: 0 <= j < |publishers| && j != k ==> publishers[j].id != id
    ensures AfterUpdate(publishers, id, f) == [Merge(publishers[k], f)] + publishers[..k] + publishers[k + 1..]
    ensures |AfterUpdate(publishers, id, f)| == |publishers|
  {
    MergeMoveToFront(publishers, PublisherId, id, Merge, f, k);
  }

  /** The list after a successful submit: an update when a publisher is being edited, a create (prepend) otherwise. */
  function AfterSubmit(publishers: seq<Publisher>, current: Option<Publisher>, f: PublisherForm, created: Publisher): (r: seq<Publisher>)
    ensures current.None? ==> r == [created] + publishers
  {
    if current.Some? then AfterUpdate(publishers, current.value.id, f) else [created] + publishers
  }

  class PublishersPage {
    var publishers: seq<Publisher>
    var filteredPublishers: seq<Publisher>
    var searchTerm: string
    var formData: PublisherForm
    var currentPublisher: Option<Publisher>
    var isModalOpen: bool
    var isDeleteModalOpen: bool
    var publisherToDelete: Option<Publisher>
    /** The term whose search the table shows: the last search, or "" once the list has changed. */
    ghost var activeFilter: string

    /** The table always shows the search of the full list by some term. */
    ghost predicate Valid()
      reads this
    {
      filteredPublishers == SearchPublishers(publishers, activeFilter)
    }

    constructor ()
      ensures Valid()
      ensures publishers == [] && filteredPublishers == [] && searchTerm == ""
      ensures formData == EmptyForm && currentPublisher == None
      ensures !isModalOpen && !isDeleteModalOpen && publisherToDelete == None
    {
      publishers, filteredPublishers, searchTerm := [], [], "";
      formData, currentPublisher := EmptyForm, None;
      isModalOpen, isDeleteModalOpen, publisherToDelete := false, false, None;
      activeFilter := "";
    }

    /** The effect that runs whenever `publishers` changes: the table shows the whole list again. */
    method Resync()
      modifies this`filteredPublishers, this`activeFilter
      ensures Valid() && filteredPublishers == publishers
    {
      filteredPublishers := publishers;
      activeFilter := "";
      SearchPublishersEmpty(publishers);
    }

    /** `fetchPublishers`: the fetched list, reversed; a failure only reports. */
    method Load(resp: Response<seq<Publisher>>) returns (note: Option<Notice>)
      requires Valid()
      modifies this
      ensures Valid()
      ensures resp.Ok? ==> publishers == Reverse(resp.data) && filteredPublishers == publishers && note == None
      ensures resp.Ok? ==> searchTerm == old(searchTerm) && formData == old(formData) && currentPublisher == old(currentPublisher)
      ensures resp.Ok? ==> isModalOpen == old(isModalOpen) && isDeleteModalOpen == old(isDeleteModalOpen) && publisherToDelete == old(publisherToDelete)
      ensures resp.Err? ==> unchanged(this) && note == Some(DescribeMessage(LoadContext, resp.error))
    {
      match resp
      case Ok(_, data) =>
        publishers := Reverse(data);
        Resync();
        note := None;
      case Err(e) =>
        note := Some(DescribeMessage(LoadContext, e));
    }

    /** `handleSearch`: remember the lower-cased term and show the publishers whose name contains it. */
    method Search(value: string)
      requires Valid()
      modifies this`searchTerm, this`filteredPublishers, this`activeFilter
      ensures Valid()
      ensures searchTerm == Lower(value) && filteredPublishers == SearchPublishers(publishers, Lower(value))
    {
      searchTerm := Lower(value);
      filteredPublishers := SearchPublishers(publishers, searchTerm);
      activeFilter := searchTerm;
    }

    /** The tail of `handleSubmit` once the server accepted the request. */
    method Saved(created: Publisher) returns (note: Notice)
      requires Valid()
      modifies this
      ensures Valid()
      ensures publishers == AfterSubmit(old(publishers), old(currentPublisher), old(formData), created) && filteredPublishers == publishers
      ensures formData == EmptyForm && currentPublisher == None && !isModalOpen
      ensures searchTerm == old(searchTerm) && isDeleteModalOpen == old(isDeleteModalOpen) && publisherToDelete == old(publisherToDelete)
      ensures note == Notice(if old(currentPublisher).Some? then UpdatedMessage else CreatedMessage, Success)
    {
      note := Notice(if currentPublisher.Some? then UpdatedMessage else CreatedMessage, Success);
      publishers := AfterSubmit(publishers, currentPublisher, formData, created);
      Resync();
      formData, currentPublisher, isModalOpen := EmptyForm, None, false;
    }

    /**
     * `handleSubmit`: send the form's three fields; on success update or prepend (see `Saved`),
     * clear the form and close the dialog; on failure only report.
     */
    method Submit(resp: Response<Publisher>) returns (request: PublisherForm, note: Notice)
      requires Valid()
      modifies this
      ensures Valid()
      ensures request == old(formData)
      ensures resp.Ok? ==>
        && publishers == AfterSubmit(old(publishers), old(currentPublisher), old(formData), resp.data)
        && filteredPublishers == publishers
        && formData == EmptyForm && currentPublisher == None && !isModalOpen
        && searchTerm == old(searchTerm) && isDeleteModalOpen == old(isDeleteModalOpen) && publisherToDelete == old(publisherToDelete)
        && note == Notice(if old(currentPublisher).Some? then UpdatedMessage else CreatedMessage, Success)
      ensures resp.Err? ==> unchanged(this) && note == DescribeMessage(SubmitContext, resp.error)
    {
      request := formData;
      if resp.Err? {
        note := DescribeMessage(SubmitContext, resp.error);
        return;
      }
      note := Saved(resp.data);
    }

    /** The delete button of a row: open the confirmation for that row. */
    method OpenDeleteModal(publisher: Publisher)
      modifies this`publisherToDelete, this`isDeleteModalOpen
      ensures publisherToDelete == Some(publisher) && isDeleteModalOpen
    {
      publisherToDelete, isDeleteModalOpen := Some(publisher), true;
    }

    /** The delete dialog's cancel and close buttons. */
    method CancelDelete()
      modifies this`publisherToDelete, this`isDeleteModalOpen
      ensures publisherToDelete == None && !isDeleteModalOpen
    {
      publisherToDelete, isDeleteModalOpen := None, false;
    }

    /**
     * `handleDelete(id)`: on success report and ask for a refetch; on failure report. Neither
     * outcome touches the dialog flag or the publisher to delete.
     */
    method Delete(id: int, resp: Response<()>) returns (note: Notice, refetch: bool)
      ensures refetch <==> resp.Ok?
      ensures resp.Ok? ==> note == Notice(DeletedMessage, Success)
      ensures resp.Err? ==> note == Notice(DeleteFailedMessage, Error)
    {
      if resp.Ok? {
        note, refetch := Notice(DeletedMessage, Success), true;
      } else {
        note, refetch := Notice(DeleteFailedMessage, Error), false;
      }
    }

    /** `handleEdit`: remember the publisher, copy its three fields into the form and open the dialog. */
    method Edit(publisher: Publisher)
      modifies this`currentPublisher, this`formData, this`isModalOpen
      ensures currentPublisher == Some(publisher) && formData == FormFromPublisher(publisher) && isModalOpen
      ensures formData.name == publisher.name && formData.establishmentYear == publisher.establishmentYear && formData.address == publisher.address
    {
      currentPublisher := Some(publisher);
      formData := FormFromPublisher(publisher);
      isModalOpen := true;
    }

    /** `resetForm`: the empty draft and no publisher being edited. */
    method Reset()
      modifies this`currentPublisher, this`formData
      ensures formData == EmptyForm && currentPublisher == None
    {
      formData, currentPublisher := EmptyForm, None;
    }

    /** The add button: reset the form, then open the dialog. */
    method OpenCreate()
      modifies this`currentPublisher, this`formData, this`isModalOpen
      ensures formData == EmptyForm && currentPublisher == None && isModalOpen
    {
      Reset();
      isModalOpen := true;
    }

    /** The form's cancel and close buttons: close the dialog, then reset the form. */
    method CloseForm()
      modifies this`currentPublisher, this`formData, this`isModalOpen
      ensures formData == EmptyForm && currentPublisher == None && !isModalOpen
    {
      isModalOpen := false;
      Reset();
    }
  }
}
