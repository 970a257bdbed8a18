/**
 * The Categories page: the category table with its name search, the add/edit form and the delete
 * confirmation. An edited category is merged with the form and moved to the top of the list;
 * a created one is put on top.
 */
module Categories {
  import opened Optional
  import opened Text
  import opened ListOps
  import opened Outcomes

  datatype Category = Category(id: int, name: string, description: string)

  /** The draft in the add/edit form, which is also the request body. */
  datatype CategoryForm = CategoryForm(name: string, description: string)

  const EmptyForm: CategoryForm := CategoryForm("", "")

  const LoadContext: string := "Kategoriler yüklenirken bir hata oluştu"
  const SubmitContext: string := "İşlem sırasında bir hata oluştu"
  const DeleteFailedMessage: string := "Kategori silinirken bir hata oluştu"
  const UpdatedMessage: string := "Kategori başarıyla güncellendi"
  const CreatedMessage: string := "Kategori başarıyla eklendi"
  const DeletedMessage: string := "Kategori başarıyla silindi"

  /** The phrase of a body that refuses the deletion because books still use the category. */
  const BlockedPhrase: string := "kayıtlı kitap mevcut"
  /** The phrase of a body that confirms the deletion. */
  const SuccessPhrase: string := "silme işlemi başarılı"
  const BlockedMessage: string := "Bu kategori silinemez! Veri tabanında bu kategoriyi kullanan kitaplar bulunmaktadır."

  datatype DeleteOutcome = Blocked | Deleted | Unrecognised

  /**
   * How `handleDelete` reads the body of the delete response: the refusal phrase is looked for
   * first, then the confirmation phrase; a missing body, or one with neither, is an error.
   */
  function ClassifyDeleteBody(body: Option<string>): (r: DeleteOutcome)
    ensures r == Blocked <==> body.Some? && Contains(body.value, BlockedPhrase)
    ensures r == Deleted <==> body.Some? && !Contains(body.value, BlockedPhrase) && Contains(body.value, SuccessPhrase)
    ensures r == Unrecognised <==>
      body.None? || (!Contains(body.value, BlockedPhrase) && !Contains(body.value, SuccessPhrase))
  {
    if body.Some? && Contains(body.value, BlockedPhrase) then Blocked
    else if body.Some? && Contains(body.value, SuccessPhrase) then Deleted
    else Unrecognised
  }

  /** A body carrying both phrases is a refusal: the refusal phrase is checked first. */
  lemma BlockedBeforeDeleted(body: string)
    requires Contains(body, BlockedPhrase) && Contains(body, SuccessPhrase)
    ensures ClassifyDeleteBody(Some(body)) == Blocked
  {
  }

  /** The notification each outcome of a delete produces. */
  function DeleteNotice(outcome: DeleteOutcome): (n: Notice)
    ensures n.kind == Success <==> outcome == Deleted
  {
    match outcome
    case Blocked => Notice(BlockedMessage, Error)
    case Deleted => Notice(DeletedMessage, Success)
    case Unrecognised => Notice(DeleteFailedMessage, Error)
  }

  function CategoryId(a: Category): int { a.id }

  function CategoryName(a: Category): Option<string> { Some(a.name) }

  /** `{ ...c, ...formData }`: the form's two fields over the category, whose id is kept. */
  function Merge(a: Category, f: CategoryForm): (r: Category)
    ensures r.id == a.id
  {
    a.(name := f.name, description := f.description)
  }

  /** `handleEdit`'s form: the category's two fields. */
  function FormFromCategory(a: Category): (f: CategoryForm)
    ensures Merge(a, f) == a
  {
    CategoryForm(a.name, a.description)
  }

  /** `categories.filter(category => category.name.toLowerCase().includes(term))`. */
  function SearchCategories(categories: seq<Category>, term: string): (r: seq<Category>)
    ensures forall i :: 0 <= i < |r| ==> Contains(Lower(r[i].name), term)
    ensures forall i :: 0 <= i < |categories| && Contains(Lower(categories[i].name), term) ==> categories[i] in r
    ensures IsSubsequence(r, categories)
    ensures forall c {:trigger multiset(r)[c]} :: multiset(r)[c] == if Contains(Lower(c.name), term) then multiset(categories)[c] else 0
  {
    FilterContains(categories, CategoryName, term)
  }

  /** An empty search shows every category. */
  lemma SearchCategoriesEmpty(categories: seq<Category>)
    ensures SearchCategories(categories, "") == categories
  {
    FilterEmptyTerm(categories, CategoryName);
  }

  /** Searching a search result again with the same term changes nothing. */
  lemma SearchCategoriesTwice(categories: seq<Category>, term: string)
    ensures SearchCategories(SearchCategories(categories, term), term) == SearchCategories(categories, term)
  {
    FilterIdempotent(categories, CategoryName, term);
  }

  /**
   * The list after an update: the category with the id merged with the form and moved to the
   * front, the others after it in order. A list without that id is left as it is.
   */
  function AfterUpdate(categories: seq<Category>, id: int, f: CategoryForm): (r: seq<Category>)
    ensures (forall i :: 0 <= i < |categories| ==> categories[i].id != id) ==> r == categories
  {
    var merged := MapById(categories, CategoryId, id, Merge, f);
    assert (forall i :: 0 <= i < |categories| ==> categories[i].id != id) ==> merged == categories;
    MoveToFront(merged, CategoryId, id)
  }

  /**
   * Whenever the id occurs, the updated list starts with a category carrying it and the form's
   * two fields, followed by every other category in the old order.
   */
  lemma UpdateFront(categories: seq<Category>, id: int, f: CategoryForm, k: nat)
    requires k < |categories| && categories[k].id == id
    ensures var r := AfterUpdate(categories, id, f);
      |r| >= 1 && r[0].id == id && r[0].name == f.name && r[0].description == f.description
      && r[1..] == WithoutId(categories, CategoryId, id)
  {
    var merged := MapById(categories, CategoryId, id, Merge, f);
    assert CategoryId(merged[k]) == id;
    assert forall y :: y in merged && y.id == id ==> y.name == f.name && y.description == f.description;
    WithoutIdAfterMap(categories, CategoryId, id, Merge, f);
  }

  /** With the id at exactly one index, the update keeps the length and only moves that category, merged, to the front. */
  lemma UpdateMovesToFront(categories: seq<Category>, id: int, f: CategoryForm, k: nat)
    requires k < |categories| && categories[k].id == id
    requires forall j :: 0 <= j < |categories| && j != k ==> categories[j].id != id
    ensures AfterUpdate(categories, id, f) == [Merge(categories[k], f)] + categories[..k] + categories[k + 1..]
    ensures |AfterUpdate(categories, id, f)| == |categories|
  {
    MergeMoveToFront(categories, CategoryId, id, Merge, f, k);
  }

  /** The list after a successful submit: an update when a category is being edited, a create (prepend) otherwise. */
  function AfterSubmit(categories: seq<Category>, current: Option<Category>, f: CategoryForm, created: Category): (r: seq<Category>)
    ensures current.None? ==> r == [created] + categories
  {
    if current.Some? then AfterUpdate(categories, current.value.id, f) else [created] + categories
  }

  class CategoriesPage {
    var categories: seq<Category>
    var filteredCategories: seq<Category>
    var searchTerm: string
    var formData: CategoryForm
    var currentCategory: Option<Category>
    var isModalOpen: bool
    var isDeleteModalOpen: bool
    var categoryToDelete: Option<Category>
    /** The term whose search the table shows: the last search, or "" once the list has changed. */
    ghost var activeFilter: string

    /** The table always shows the search of the full list by some term. */
    ghost predicate Valid()
      reads this
    {
      filteredCategories == SearchCategories(categories, activeFilter)
    }

    constructor ()
      ensures Valid()
      ensures categories == [] && filteredCategories == [] && searchTerm == ""
      ensures formData == EmptyForm && currentCategory == None
      ensures !isModalOpen && !isDeleteModalOpen && categoryToDelete == None
    {
      categories, filteredCategories, searchTerm := [], [], "";
      formData, currentCategory := EmptyForm, None;
      isModalOpen, isDeleteModalOpen, categoryToDelete := false, false, None;
      activeFilter := "";
    }

    /** The effect that runs whenever `categories` changes: the table shows the whole list again. */
    method Resync()
      modifies this`filteredCategories, this`activeFilter
      ensures Valid() && filteredCategories == categories
    {
      filteredCategories := categories;
      activeFilter := "";
      SearchCategoriesEmpty(categories);
    }

    /** `fetchCategories`: the fetched list, reversed; a failure only reports. */
    method Load(resp: Response<seq<Category>>) returns (note: Option<Notice>)
      requires Valid()
      modifies this
      ensures Valid()
      ensures resp.Ok? ==> categories == Reverse(resp.data) && filteredCategories == categories && note == None
      ensures resp.Ok? ==> searchTerm == old(searchTerm) && formData == old(formData) && currentCategory == old(currentCategory)
      ensures resp.Ok? ==> isModalOpen == old(isModalOpen) && isDeleteModalOpen == old(isDeleteModalOpen) && categoryToDelete == old(categoryToDelete)
      ensures resp.Err? ==> unchanged(this) && note == Some(DescribeMessage(LoadContext, resp.error))
    {
      match resp
      case Ok(_, data) =>
        categories := Reverse(data);
        Resync();
        note := None;
      case Err(e) =>
        note := Some(DescribeMessage(LoadContext, e));
    }

    /** `handleSearch`: remember the lower-cased term and show the categories whose name contains it. */
    method Search(value: string)
      requires Valid()
      modifies this`searchTerm, this`filteredCategories, this`activeFilter
      ensures Valid()
      ensures searchTerm == Lower(value) && filteredCategories == SearchCategories(categories, Lower(value))
    {
      searchTerm := Lower(value);
      filteredCategories := SearchCategories(categories, searchTerm);
      activeFilter := searchTerm;
    }

    /** The tail of `handleSubmit` once the server accepted the request. */
    method Saved(created: Category) returns (note: Notice)
      requires Valid()
      modifies this
      ensures Valid()
      ensures categories == AfterSubmit(old(categories), old(currentCategory), old(formData), created) && filteredCategories == categories
      ensures formData == EmptyForm && currentCategory == None && !isModalOpen
      ensures searchTerm == old(searchTerm) && isDeleteModalOpen == old(isDeleteModalOpen) && categoryToDelete == old(categoryToDelete)
      ensures note == Notice(if old(currentCategory).Some? then UpdatedMessage else CreatedMessage, Success)
    {
      note := Notice(if currentCategory.Some? then UpdatedMessage else CreatedMessage, Success);
      categories := AfterSubmit(categories, currentCategory, formData, created);
      Resync();
      formData, currentCategory, isModalOpen := EmptyForm, None, false;
    }

    /**
     * `handleSubmit`: send the form's two fields; on success update or prepend (see `Saved`),
     * clear the form and close the dialog; on failure only report.
     */
    method Submit(resp: Response<Category>) returns (request: CategoryForm, note: Notice)
      requires Valid()
      modifies this
      ensures Valid()
      ensures request == old(formData)
      ensures resp.Ok? ==>
        && categories == AfterSubmit(old(categories), old(currentCategory), old(formData), resp.data)
        && filteredCategories == categories
        && formData == EmptyForm && currentCategory == None && !isModalOpen
        && searchTerm == old(searchTerm) && isDeleteModalOpen == old(isDeleteModalOpen) && categoryToDelete == old(categoryToDelete)
        && note == Notice(if old(currentCategory).Some? then UpdatedMessage else CreatedMessage, Success)
      ensures resp.Err? ==> unchanged(this) && note == DescribeMessage(SubmitContext, resp.error)
    {
      request := formData;
      if resp.Err? {
        note := DescribeMessage(SubmitContext, resp.error);
        return;
      }
      note := Saved(resp.data);
    }

    /** The delete button of a row: open the confirmation for that row. */
    method OpenDeleteModal(category: Category)
      modifies this`categoryToDelete, this`isDeleteModalOpen
      ensures categoryToDelete == Some(category) && isDeleteModalOpen
    {
      categoryToDelete, isDeleteModalOpen := Some(category), true;
    }

    /** The delete dialog's cancel and close buttons. */
    method CancelDelete()
      modifies this`categoryToDelete, this`isDeleteModalOpen
      ensures categoryToDelete == None && !isDeleteModalOpen
    {
      categoryToDelete, isDeleteModalOpen := None, false;
    }

    /**
     * `handleDelete(id)`: the body the server sends decides the outcome (see `ClassifyDeleteBody`);
     * only a confirmed deletion asks for a refetch, so a refused one leaves the list as it is.
     * No outcome touches the dialog flag or the category to delete.
     */
    method Delete(id: int, resp: Response<Option<string>>) returns (note: Notice, refetch: bool)
      ensures refetch <==> resp.Ok? && ClassifyDeleteBody(resp.data) == Deleted
      ensures resp.Ok? ==> note == DeleteNotice(ClassifyDeleteBody(resp.data))
      ensures resp.Err? ==> note == Notice(DeleteFailedMessage, Error)
    {
      if resp.Err? {
        note, refetch := Notice(DeleteFailedMessage, Error), false;
      } else {
        var outcome := ClassifyDeleteBody(resp.data);
        note, refetch := DeleteNotice(outcome), outcome == Deleted;
      }
    }

    /** `handleEdit`: remember the category, copy its two fields into the form and open the dialog. */
    method Edit(category: Category)
      modifies this`currentCategory, this`formData, this`isModalOpen
      ensures currentCategory == Some(category) && formData == FormFromCategory(category) && isModalOpen
      ensures formData.name == category.name && formData.description == category.description
    {
      currentCategory := Some(category);
      formData := FormFromCategory(category);
      isModalOpen := true;
    }

    /** `resetForm`: the empty draft and no category being edited. */
    method Reset()
      modifies this`currentCategory, this`formData
      ensures formData == EmptyForm && currentCategory == None
    {
      formData, currentCategory := EmptyForm, None;
    }

    /** The add button: reset the form, then open the dialog. */
    method OpenCreate()
      modifies this`currentCategory, this`formData, this`isModalOpen
      ensures formData == EmptyForm && currentCategory == None && isModalOpen
    {
      Reset();
      isModalOpen := true;
    }

    /** The form's cancel and close buttons: close the dialog, then reset the form. */
    method CloseForm()
      modifies this`currentCategory, this`formData, this`isModalOpen
      ensures formData == EmptyForm && currentCategory == None && !isModalOpen
    {
      isModalOpen := false;
      Reset();
    }
  }
}
