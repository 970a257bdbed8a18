# Library management front-end: page state in Dafny

This project models the six pages of a React front-end for a library service: books,
authors, publishers, categories, book borrowing and the home page. Each page
keeps a small state record:

- the full list fetched from the server;
- the list the table shows;
- the search term or terms;
- the draft in the add/edit form;
- the record being edited or deleted;
- the dialog flags.

Its handlers change that record with a few exact sequence operations:

- **Load** reverses the fetched list.
- **Search** is a case-insensitive substring filter.
- **Create** prepends the new record.
- **Update** depends on the page:
  - Authors, Publishers and Categories merge the form into the record and move it to the front.
  - Borrowing records are replaced in place.
  - Books are replaced or appended, and then the whole list is reversed.

Around these sit some pure helpers:

- the table-cell truncations;
- the book request body and the form filled from a book;
- the ordered checks of the borrowing form;
- the reading of the category-delete response text.

Modules:

- `Optional`: `Option`.
- `Text`:
  - ASCII lower-casing, `includes`, truncation, `join` and `trim`;
  - integer `parseInt` and its printing.
- `ListOps`: the sequence operations the pages share, with their laws.
- `Outcomes`:
  - a server response (`Ok(status, data)` or `Err(error)`);
  - the notification a page shows;
  - the error-message rules.
- `Books`, `Authors`, `Publishers`, `Categories`, `BorrowBook`, `Home`: one module per page. Each holds:
  - its records;
  - the pure functions of that page, with lemmas;
  - a class whose fields are the page's state variables and whose methods are its handlers.

Modelling choices:

- **Server answers are parameters.** Each awaited request is a method parameter of type `Response<T>`.
  - A rejected request is `Err`.
  - A call of `showNotification` is an out-parameter `Notice`.
  - A request to refetch is an out-parameter `refetch`.
- **The re-sync effect is part of each method.** Books, Authors, Publishers and Categories run an effect whenever the full list changes. It makes the shown list the full list again.
  - The effect is the method `Resync`.
  - Every method that changes the list ends with it.
  - Each such page class keeps the invariant `Valid()`: the shown list is the search of the full list by some term.
  - After any change to the list, that term is `""`.
- **Borrowing keeps its own shown list.** The borrowing page has no such effect: it updates both lists itself.
  - Its invariant: the shown list is a subsequence of the full list.
  - Its invariant: at most one of the two search boxes holds text.

## Model

| member | source | states |
|---|---|---|
| Text.Lower | src/pages/Authors.jsx:61 | Lower-casing keeps the length, leaves no upper-case ASCII letter and keeps every other character |
| Text.LowerIdempotent | src/pages/Authors.jsx:61-62 | The stored search term is already lower-case: lowering it again changes nothing |
| Text.ContainsEmpty | src/pages/Authors.jsx:64-66 | Every name contains the empty term |
| Text.Truncate | src/pages/Books.jsx:48 | A text of at most `limit` characters is kept; a longer one is its first `limit` characters followed by "..." |
| Text.TruncateIdempotent | src/pages/Books.jsx:48 | Truncating a shown cell again leaves it as it is |
| Text.TruncateName | src/pages/Books.jsx:46-49 | A missing name shows as ""; a present one is truncated |
| Text.Join | src/pages/Books.jsx:60 | `join` of no parts is ""; of one part is that part; otherwise it starts with the first part and ends with the last |
| Text.TrimStart | src/pages/BorrowBook.jsx:177 | The suffix left after removing leading white space; what was removed is all white space |
| Text.TrimEnd | src/pages/BorrowBook.jsx:177 | The prefix left after removing trailing white space; what was removed is all white space |
| Text.Trim | src/pages/BorrowBook.jsx:188-189 | `trim` result neither starts nor ends with white space, and a text that does neither is unchanged |
| Text.TrimIdempotent | src/pages/BorrowBook.jsx:188-189 | Trimming a trimmed text changes nothing |
| Text.TrimKeeps | src/pages/BorrowBook.jsx:188-189 | Trimming only removes white space: every other character survives it |
| Text.ContainsChar | src/pages/BorrowBook.jsx:171 | `includes` of a one-character text holds exactly when that character occurs |
| Text.TrimKeepsContained | src/pages/BorrowBook.jsx:189 | A mail that contains '@' still contains it after `trim` |
| Text.ShowNat | src/pages/Books.jsx:299-302 | The decimal text of a natural number is digits only, with no leading zero |
| Text.Show | src/pages/Books.jsx:299-302 | The decimal text of an integer is all digits exactly when the integer is not negative |
| Text.ParseInt | src/pages/Books.jsx:218-222 | `parseInt` gives a number exactly for an optional '-' followed by digits, and `None` (NaN) otherwise, the empty text included |
| Text.ParseShowNat | src/pages/Books.jsx:218-222 | Parsing the digits of a natural number gives the number back |
| Text.ParseShow | src/pages/Books.jsx:218-222 | Parsing the printed form of any integer gives the integer back |
| ListOps.Reverse | src/pages/Authors.jsx:45 | `slice().reverse()`: same length, the element at `k` is the one at `n-1-k` |
| ListOps.ReverseReverse | src/pages/Books.jsx:230 | Reversing twice gives the list back |
| ListOps.ReverseAppend | src/pages/Books.jsx:237-238 | `[...prev, x].reverse()` is `x` followed by `prev` reversed |
| ListOps.SubsequenceRefl | src/pages/BorrowBook.jsx:56-57 | A list is a subsequence of itself (both lists equal after a load) |
| ListOps.SubsequencePrepend | src/pages/BorrowBook.jsx:258-259 | Prepending the same record to both lists keeps one a subsequence of the other |
| ListOps.FilterContains | src/pages/Authors.jsx:64-66 | `filter` by a name that contains the term: the result is a subsequence, every kept element matches, and each matching element occurs as often as in the input while no other element occurs |
| ListOps.FilterEmptyTerm | src/pages/Authors.jsx:64-66 | With every name present, the empty term keeps the whole list |
| ListOps.FilterIdempotent | src/pages/Authors.jsx:64-66 | Filtering a filtered list by the same term changes nothing |
| ListOps.MapById | src/pages/Authors.jsx:112 | `map` that merges the patch into the elements with the id and keeps the others, index by index |
| ListOps.ReplaceById | src/pages/BorrowBook.jsx:202-203 | `map(b => b.id === id ? incoming : b)`: same length; each element with the id becomes the incoming one, the others stay |
| ListOps.ReplaceReverse | src/pages/Books.jsx:229-230 | Replacing by id commutes with reversing |
| ListOps.ReplaceTwice | src/pages/BorrowBook.jsx:202-203 | Replacing twice by an element carrying the id is replacing once |
| ListOps.ReplaceKeepsSubsequence | src/pages/BorrowBook.jsx:202-203 | Replacing in both lists keeps the shown list a subsequence of the full list |
| ListOps.FindById | src/pages/BorrowBook.jsx:157 | `find` by id: nothing exactly when no element has the id; otherwise an element of the list with that id |
| ListOps.FindByIdFirst | src/pages/Authors.jsx:113 | `find` returns the first element with the id |
| ListOps.WithoutId | src/pages/Authors.jsx:114 | `filter(x => x.id !== id)`: a subsequence without the id that keeps every other element |
| ListOps.WithoutIdAppend | src/pages/Authors.jsx:114 | Removing an id distributes over concatenation |
| ListOps.WithoutAbsentId | src/pages/Authors.jsx:114 | Removing an id that does not occur changes nothing |
| ListOps.WithoutIdAfterMap | src/pages/Authors.jsx:112-114 | When the merge keeps ids, merging before removing the id does not change what is left |
| ListOps.WithoutIdSlice | src/pages/Authors.jsx:114 | A stretch of the list in which no element has the id is kept whole by the removal |
| ListOps.WithoutIdSingle | src/pages/Authors.jsx:114 | With the id at one index only, removing it is cutting out that index |
| ListOps.MoveToFrontAsWritten | src/pages/Authors.jsx:113-115 | The update's `find` and `filter` as written: the head is the first element with the id (or missing) and the rest the others |
| ListOps.MoveToFrontAsWrittenAbsent | src/pages/Authors.jsx:113-115 | When the id does not occur, the head as written is missing (`undefined`) and the rest is the whole list |
| ListOps.MoveToFront | src/pages/Authors.jsx:111-116 | Corrected move to front: a list without the id is unchanged; otherwise an element with the id comes first, followed by the others in order |
| ListOps.MoveToFrontAgrees | src/pages/Authors.jsx:111-116 | Whenever the id occurs, the corrected and the as-written move to front give the same list |
| ListOps.MoveToFrontAt | src/pages/Authors.jsx:113-115 | When index `k` holds the first element with the id, that element heads the moved list and the elements without the id follow |
| ListOps.MapByIdFirst | src/pages/Authors.jsx:112-113 | With a merge that keeps the id, the first element with the id stays at the same index after the merge, now merged |
| ListOps.MergeMoveToFront | src/pages/Authors.jsx:111-116 | With the id at index `k` only, merge-and-move gives the merged element followed by the elements before and after `k`, in order |
| Outcomes.ResponseMessage | src/pages/Authors.jsx:129-133 | The message starts with the context; with a server answer it ends with the server's message (or the error's), without one it is the context |
| Outcomes.DescribeWithNetwork | src/pages/Books.jsx:75-84 | A timeout or connection failure shows the wait message whatever the server sent; any other failure shows the context message; always an error |
| Outcomes.DescribeMessage | src/pages/Publishers.jsx:54 | `${context}: ${error.message}`: an error notification whose text starts with the context |
| Books.TruncatePublisherName | src/pages/Books.jsx:46-49 | A missing name shows as ""; up to 16 characters unchanged; a longer name shows as its first 16 characters and "..." |
| Books.TruncateBookName | src/pages/Books.jsx:52-55 | A missing name shows as ""; up to 20 characters unchanged; a longer name shows as its first 20 characters and "..." |
| Books.CategoryNames | src/pages/Books.jsx:60 | The category names, one per category, in order |
| Books.TruncateCategories | src/pages/Books.jsx:58-62 | No categories show as ""; otherwise the names joined with ", " and truncated at 17; never longer than 20 |
| Books.TruncateSingleCategory | src/pages/Books.jsx:58-62 | A single category shows as its own name, truncated at 17 |
| Books.RefIdText | src/pages/Books.jsx:300-301 | `ref?.id \|\| ''`: the id as text, or "" for a missing reference or the id 0 |
| Books.FormFromBook | src/pages/Books.jsx:294-305 | The edit form holds the book's name and one category id text per category, in order |
| Books.BuildRequest | src/pages/Books.jsx:216-223 | The body holds the form's name and the parsed author, publisher and category ids, one per selected category, in order |
| Books.EditThenSubmit | src/pages/Books.jsx:294-305 | Editing a book and submitting unchanged sends back its year, stock, non-zero author and publisher ids and its category ids in order; a missing or zero reference is sent as `null` |
| Books.SearchBooks | src/pages/Books.jsx:158-166 | In order, exactly the books whose lower-cased name contains the term |
| Books.SearchBooksEmpty | src/pages/Books.jsx:178-180 | The empty term shows every book |
| Books.AfterCreate | src/pages/Books.jsx:236-239 | `[...prev, created].reverse()`: the created book first, then the old list reversed; one longer |
| Books.CreateAfterLoad | src/pages/Books.jsx:236-239 | After a load, a create puts the old books back in the server's order behind the new one: the reverse of what a reload shows |
| Books.AfterUpdate | src/pages/Books.jsx:228-231 | Same length; position `k` holds the mirrored old book, replaced by the response where the id matches |
| Books.UpdateTwice | src/pages/Books.jsx:228-231 | Two updates with the same response restore the original order, with the book replaced |
| Books.AfterSubmit | src/pages/Books.jsx:224-240 | A create puts the response first before the reversed list; an update keeps the length |
| Books.BooksPage.constructor | src/pages/Books.jsx:17-43 | Empty lists, empty term, empty form, nothing edited or to delete, both dialogs closed |
| Books.BooksPage.Resync | src/pages/Books.jsx:178-180 | The table shows the whole list |
| Books.BooksPage.Load | src/pages/Books.jsx:69-86 | Success: the fetched list reversed, shown whole, nothing else changed; failure: the network-aware report and no change |
| Books.BooksPage.LoadPublishers | src/pages/Books.jsx:92-108 | Success: the publisher choices as fetched; failure: the network-aware report, choices kept |
| Books.BooksPage.LoadAuthors | src/pages/Books.jsx:114-130 | Success: the author choices as fetched; failure: the network-aware report, choices kept |
| Books.BooksPage.LoadCategories | src/pages/Books.jsx:136-152 | Success: the category choices as fetched; failure: the network-aware report, choices kept |
| Books.BooksPage.Search | src/pages/Books.jsx:158-166 | The lower-cased term is stored and the table shows the books matching it |
| Books.BooksPage.CategoryChange | src/pages/Books.jsx:199-202 | Only the form's category ids change, to the selected options |
| Books.BooksPage.Saved | src/pages/Books.jsx:224-245 | The list rebuilt around the response and shown whole; the form cleared and the dialog closed; the success notice |
| Books.BooksPage.Submit | src/pages/Books.jsx:209-258 | No category: an error, no request, nothing changed. Otherwise the parsed body is sent; success as `Saved`, failure only reports |
| Books.BooksPage.OpenDeleteModal | src/pages/Books.jsx:261-264 | The book to delete is set and the confirmation opened |
| Books.BooksPage.CancelDelete | src/pages/Books.jsx:582-585 | The confirmation closed and the book to delete cleared |
| Books.BooksPage.Delete | src/pages/Books.jsx:267-288 | Success: report, refetch, confirmation closed and cleared; failure: the network-aware report and no change |
| Books.BooksPage.Edit | src/pages/Books.jsx:294-305 | The book remembered, the form filled from it, the dialog opened |
| Books.BooksPage.Reset | src/pages/Books.jsx:311-321 | The empty form and no book being edited |
| Books.BooksPage.OpenCreate | src/pages/Books.jsx:330-333 | The empty form, no book being edited, the dialog opened |
| Books.BooksPage.CloseForm | src/pages/Books.jsx:438-441 | The dialog closed, the empty form, no book being edited |
| Authors.Describe | src/pages/Authors.jsx:48-52 | An error notification with the context message |
| Authors.Merge | src/pages/Authors.jsx:112 | `{ ...a, ...requestData }` keeps the author's id |
| Authors.FormFromAuthor | src/pages/Authors.jsx:173-181 | Merging an author with the form filled from it gives the author back |
| Authors.SearchAuthors | src/pages/Authors.jsx:60-68 | In order, exactly the authors whose lower-cased name contains the term |
| Authors.SearchAuthorsEmpty | src/pages/Authors.jsx:77-79 | The empty term shows every author |
| Authors.SearchAuthorsTwice | src/pages/Authors.jsx:60-68 | Searching a search result by the same term changes nothing |
| Authors.AfterUpdate | src/pages/Authors.jsx:111-116 | A list without the edited id is unchanged. This is the corrected move-to-front of the Findings row; the page as written gives `[undefined, ...list]` there |
| Authors.UpdateFront | src/pages/Authors.jsx:111-116 | When the id occurs, the author with it and the form's three fields comes first, then every other author in the old order |
| Authors.UpdateMovesToFront | src/pages/Authors.jsx:111-116 | With the id at one index, the update keeps the length and only moves that author, merged, to the front |
| Authors.AfterSubmit | src/pages/Authors.jsx:107-122 | A create prepends the response |
| Authors.AuthorsPage.constructor | src/pages/Authors.jsx:16-34 | Empty lists, empty term, empty form, nothing edited or to delete, both dialogs closed |
| Authors.AuthorsPage.Resync | src/pages/Authors.jsx:77-79 | The table shows the whole list |
| Authors.AuthorsPage.Load | src/pages/Authors.jsx:41-54 | Success: the fetched list reversed and shown whole; failure: the report and no change |
| Authors.AuthorsPage.Search | src/pages/Authors.jsx:60-68 | The lower-cased term is stored and the table shows the authors matching it |
| Authors.AuthorsPage.Saved | src/pages/Authors.jsx:107-126 | The list after the submit, shown whole; the form cleared, nothing edited, the dialog closed; the success notice |
| Authors.AuthorsPage.Submit | src/pages/Authors.jsx:98-135 | The body is the form; success as `Saved`; failure only reports |
| Authors.AuthorsPage.OpenDeleteModal | src/pages/Authors.jsx:163-166 | The author to delete is set and the confirmation opened |
| Authors.AuthorsPage.CancelDelete | src/pages/Authors.jsx:359-362 | The confirmation closed and the author to delete cleared |
| Authors.AuthorsPage.Delete | src/pages/Authors.jsx:142-157 | Success: report, refetch, confirmation closed and cleared; failure: the report, both kept |
| Authors.AuthorsPage.Edit | src/pages/Authors.jsx:173-181 | The author remembered, its three fields in the form, the dialog opened |
| Authors.AuthorsPage.Reset | src/pages/Authors.jsx:187-194 | The empty form and no author being edited |
| Authors.AuthorsPage.OpenCreate | src/pages/Authors.jsx:203-206 | The empty form, no author being edited, the dialog opened |
| Authors.AuthorsPage.CloseForm | src/pages/Authors.jsx:293-296 | The dialog closed, the empty form, no author being edited |
| Publishers.Merge | src/pages/Publishers.jsx:113 | `{ ...p, ...formData }` keeps the publisher's id |
| Publishers.FormFromPublisher | src/pages/Publishers.jsx:165-173 | Merging a publisher with the form filled from it gives the publisher back |
| Publishers.SearchPublishers | src/pages/Publishers.jsx:63-71 | In order, exactly the publishers whose lower-cased name contains the term |
| Publishers.SearchPublishersEmpty | src/pages/Publishers.jsx:195-197 | The empty term shows every publisher |
| Publishers.SearchPublishersTwice | src/pages/Publishers.jsx:63-71 | Searching a search result by the same term changes nothing |
| Publishers.AfterUpdate | src/pages/Publishers.jsx:112-117 | A list without the edited id is unchanged. This is the corrected move-to-front of the Findings row; the page as written gives `[undefined, ...list]` there |
| Publishers.UpdateFront | src/pages/Publishers.jsx:112-117 | When the id occurs, the publisher with it and the form's three fields comes first, then every other publisher in the old order |
| Publishers.UpdateMovesToFront | src/pages/Publishers.jsx:112-117 | With the id at one index, the update keeps the length and only moves that publisher, merged, to the front |
| Publishers.AfterSubmit | src/pages/Publishers.jsx:107-124 | A create prepends the response |
| Publishers.PublishersPage.constructor | src/pages/Publishers.jsx:23-41 | Empty lists, empty term, empty form, nothing edited or to delete, both dialogs closed |
| Publishers.PublishersPage.Resync | src/pages/Publishers.jsx:195-197 | The table shows the whole list |
| Publishers.PublishersPage.Load | src/pages/Publishers.jsx:48-56 | Success: the fetched list reversed and shown whole; failure: the report and no change |
| Publishers.PublishersPage.Search | src/pages/Publishers.jsx:63-71 | The lower-cased term is stored and the table shows the publishers matching it |
| Publishers.PublishersPage.Saved | src/pages/Publishers.jsx:107-132 | The list after the submit, shown whole; the form cleared, nothing edited, the dialog closed; the success notice |
| Publishers.PublishersPage.Submit | src/pages/Publishers.jsx:104-136 | The body is the form; success as `Saved`; failure only reports |
| Publishers.PublishersPage.OpenDeleteModal | src/pages/Publishers.jsx:275-278 | The publisher to delete is set and the confirmation opened |
| Publishers.PublishersPage.CancelDelete | src/pages/Publishers.jsx:382-385 | The confirmation closed and the publisher to delete cleared |
| Publishers.PublishersPage.Delete | src/pages/Publishers.jsx:150-159 | Refetch exactly on success; success and failure notices; the dialog state is not touched |
| Publishers.PublishersPage.Edit | src/pages/Publishers.jsx:165-173 | The publisher remembered, its three fields in the form, the dialog opened |
| Publishers.PublishersPage.Reset | src/pages/Publishers.jsx:179-186 | The empty form and no publisher being edited |
| Publishers.PublishersPage.OpenCreate | src/pages/Publishers.jsx:206-209 | The empty form, no publisher being edited, the dialog opened |
| Publishers.PublishersPage.CloseForm | src/pages/Publishers.jsx:299-302 | The dialog closed, the empty form, no publisher being edited |
| Categories.ClassifyDeleteBody | src/pages/Categories.jsx:143-150 | Blocked exactly when the body contains the refusal phrase; deleted exactly when it lacks it and contains the confirmation phrase; unrecognised otherwise or with no body |
| Categories.BlockedBeforeDeleted | src/pages/Categories.jsx:143-145 | A body with both phrases is a refusal |
| Categories.DeleteNotice | src/pages/Categories.jsx:144-149 | Only a confirmed deletion is reported as a success |
| Categories.Merge | src/pages/Categories.jsx:106 | `{ ...c, ...formData }` keeps the category's id |
| Categories.FormFromCategory | src/pages/Categories.jsx:161-168 | Merging a category with the form filled from it gives the category back |
| Categories.SearchCategories | src/pages/Categories.jsx:56-64 | In order, exactly the categories whose lower-cased name contains the term |
| Categories.SearchCategoriesEmpty | src/pages/Categories.jsx:189-191 | The empty term shows every category |
| Categories.SearchCategoriesTwice | src/pages/Categories.jsx:56-64 | Searching a search result by the same term changes nothing |
| Categories.AfterUpdate | src/pages/Categories.jsx:105-110 | A list without the edited id is unchanged. This is the corrected move-to-front of the Findings row; the page as written gives `[undefined, ...list]` there |
| Categories.UpdateFront | src/pages/Categories.jsx:105-110 | When the id occurs, the category with it and the form's two fields comes first, then every other category in the old order |
| Categories.UpdateMovesToFront | src/pages/Categories.jsx:105-110 | With the id at one index, the update keeps the length and only moves that category, merged, to the front |
| Categories.AfterSubmit | src/pages/Categories.jsx:100-117 | A create prepends the response |
| Categories.CategoriesPage.constructor | src/pages/Categories.jsx:17-34 | Empty lists, empty term, empty form, nothing edited or to delete, both dialogs closed |
| Categories.CategoriesPage.Resync | src/pages/Categories.jsx:189-191 | The table shows the whole list |
| Categories.CategoriesPage.Load | src/pages/Categories.jsx:41-49 | Success: the fetched list reversed and shown whole; failure: the report and no change |
| Categories.CategoriesPage.Search | src/pages/Categories.jsx:56-64 | The lower-cased term is stored and the table shows the categories matching it |
| Categories.CategoriesPage.Saved | src/pages/Categories.jsx:100-121 | The list after the submit, shown whole; the form cleared, nothing edited, the dialog closed; the success notice |
| Categories.CategoriesPage.Submit | src/pages/Categories.jsx:97-126 | The body is the form; success as `Saved`; failure only reports |
| Categories.CategoriesPage.OpenDeleteModal | src/pages/Categories.jsx:263-266 | The category to delete is set and the confirmation opened |
| Categories.CategoriesPage.CancelDelete | src/pages/Categories.jsx:339-342 | The confirmation closed and the category to delete cleared |
| Categories.CategoriesPage.Delete | src/pages/Categories.jsx:139-155 | Refetch exactly for a confirmed deletion, so a refused one leaves the list; the notice follows the body; a rejection is an error |
| Categories.CategoriesPage.Edit | src/pages/Categories.jsx:161-168 | The category remembered, its two fields in the form, the dialog opened |
| Categories.CategoriesPage.Reset | src/pages/Categories.jsx:174-180 | The empty form and no category being edited |
| Categories.CategoriesPage.OpenCreate | src/pages/Categories.jsx:200-203 | The empty form, no category being edited, the dialog opened |
| Categories.CategoriesPage.CloseForm | src/pages/Categories.jsx:287-290 | The dialog closed, the empty form, no category being edited |
| BorrowBook.SearchByBook | src/pages/BorrowBook.jsx:90-93 | In order, exactly the records with a book whose lower-cased name contains the term |
| BorrowBook.ClearedBookSearch | src/pages/BorrowBook.jsx:90-93 | The empty book term keeps exactly the records that have a book |
| BorrowBook.SearchByBorrower | src/pages/BorrowBook.jsx:106-109 | In order, exactly the records whose lower-cased borrower name contains the term |
| BorrowBook.ClearedBorrowerSearch | src/pages/BorrowBook.jsx:106-109 | The empty borrower term keeps every record |
| BorrowBook.SelectedBook | src/pages/BorrowBook.jsx:157 | A listed book whose id is the parsed text; nothing exactly when the text is not a number or no book has that id |
| BorrowBook.SelectShown | src/pages/BorrowBook.jsx:157 | The select's value for a listed book selects that book |
| BorrowBook.Validate | src/pages/BorrowBook.jsx:157-180 | Accepted exactly when a book is selected, a date is given, the mail contains '@' and the trimmed name has two characters; otherwise the first failed check's message |
| BorrowBook.BuildRequest | src/pages/BorrowBook.jsx:183-195 | Sent exactly when the dates convert; trimmed name and mail, the selected book's id, no return date exactly when the field is empty |
| BorrowBook.SentRequestIsValid | src/pages/BorrowBook.jsx:157-195 | A sent body names a listed book, the form's, a mail with '@' and a name of at least two characters without surrounding white space |
| BorrowBook.FormFromBorrow | src/pages/BorrowBook.jsx:305-312 | No form for a record without a book; otherwise the book id parses back to the record's, and the return date is "" exactly when it is missing or empty |
| BorrowBook.EditThenSubmit | src/pages/BorrowBook.jsx:300-313 | A record with a listed book and passing fields, edited and saved unchanged, passes the checks with the same book |
| BorrowBook.AfterSubmit | src/pages/BorrowBook.jsx:200-263 | A create prepends the response; an update replaces the records with the edited id in place, same length |
| BorrowBook.AfterSubmitKeepsSubsequence | src/pages/BorrowBook.jsx:202-203 | Applying one submit to both lists keeps the shown list a subsequence of the full one |
| BorrowBook.UpdateTwice | src/pages/BorrowBook.jsx:202-203 | Applying the same update twice is applying it once |
| BorrowBook.BorrowPage.constructor | src/pages/BorrowBook.jsx:17-43 | Empty lists and terms, empty form, not loading, nothing edited or to delete, both dialogs closed |
| BorrowBook.BorrowPage.Load | src/pages/BorrowBook.jsx:51-64 | Success: both lists the fetched records reversed; failure: the report, lists kept; loading ended either way |
| BorrowBook.BorrowPage.LoadBooks | src/pages/BorrowBook.jsx:70-78 | Success: the book choices as fetched; failure: the report, choices kept |
| BorrowBook.BorrowPage.BookSearch | src/pages/BorrowBook.jsx:86-95 | The typed text kept, the borrower term cleared, the records matching by book name shown |
| BorrowBook.BorrowPage.BorrowerSearch | src/pages/BorrowBook.jsx:102-111 | The typed text kept, the book term cleared, the records matching by borrower name shown |
| BorrowBook.BorrowPage.Reset | src/pages/BorrowBook.jsx:130-139 | The empty form and no record being edited |
| BorrowBook.BorrowPage.Saved | src/pages/BorrowBook.jsx:200-206 | Both lists updated by the submit; form cleared, nothing edited, the dialog closed; the success notice |
| BorrowBook.BorrowPage.Submit | src/pages/BorrowBook.jsx:150-271 | A failed check reports its message and sends nothing; an unconvertible date or a rejection reports the unexpected error; an unexpected status changes and reports nothing; the expected status acts as `Saved` |
| BorrowBook.BorrowPage.Delete | src/pages/BorrowBook.jsx:278-293 | Success: report, refetch, confirmation closed and cleared; failure: the report with the server's message, both kept |
| BorrowBook.BorrowPage.Edit | src/pages/BorrowBook.jsx:300-318 | The fetched record remembered; with a book the form filled and the dialog opened; without one, or on failure, the details error and form and dialog kept |
| BorrowBook.BorrowPage.OpenDeleteModal | src/pages/BorrowBook.jsx:321-324 | The record to delete is set and the confirmation opened |
| BorrowBook.BorrowPage.CancelDelete | src/pages/BorrowBook.jsx:578-581 | The confirmation closed and the record to delete cleared |
| BorrowBook.BorrowPage.OpenCreate | src/pages/BorrowBook.jsx:340-343 | The empty form, no record being edited, the dialog opened |
| BorrowBook.BorrowPage.CloseForm | src/pages/BorrowBook.jsx:454-457 | The dialog closed, the empty form, no record being edited |
| Home.LastFiveReversed | src/pages/Home.jsx:114 | `slice(-5).reverse()`: `min(5, n)` entries, the newest first |
| Home.RecentIsTopOfTable | src/pages/Home.jsx:114-116 | The recent list is the first `min(5, n)` rows an entity table shows after a load |
| Home.RecentHead | src/pages/Home.jsx:114 | A non-empty fetch shows its last entry first |
| Home.HomePage.constructor | src/pages/Home.jsx:67-78 | Zero counters, empty recent lists, loading |
| Home.HomePage.FetchData | src/pages/Home.jsx:92-123 | All six answers present: counters are the four lengths and the recent lists the newest five; any failure keeps counters and lists; loading ends either way |

## Left out

- Rendering, routing, the header, the dialog and form components, the icons and all markup are not modelled. The notification banner and its auto-dismiss timer in `src/App.jsx` are not modelled either.
- `handleInputChange` is not modelled. It sets one form field from an input event by its name. The model treats `formData` as a field that the form writes.
- The request layer (`src/services/api.js`) is not modelled. Every awaited call is a parameter holding the server's answer or a rejection. The Authors, Books and BorrowBook pages call `api.bookBorrowingService`, `api.bookService`, `api.authorService`, `api.publisherService` and `api.categoryService`, and the default export of `src/services/api.js` does not define these. As written, those calls throw before any request is sent. The model treats them as if they reached the server.
- The date conversion `new Date(..).toISOString().split('T')[0]` depends on the time zone. BorrowBook.BuildRequest takes it as a function parameter, where `None` means the conversion threw.
- Text.Lower: only ASCII letters are lower-cased. JavaScript's `toLowerCase` also maps non-ASCII letters, and `includes` compares UTF-16 code units.
- Text.Trim: only ASCII white space is removed. Unicode spaces are not.
- Text.ParseInt: only an optional '-' followed by digits parses. The model does not cover these `parseInt` behaviours:
  - leading white space, a '+' sign or a numeric prefix followed by other text ("12abc" gives 12);
  - numbers given as numbers.

  The pages put numbers into the form when editing. The model puts their decimal text there instead, and `parseInt` reads either the same way.
- Home.HomePage.FetchData:
  - `Promise.all` becomes six independent answers. The page is rendered without a notification callback (`src/App.jsx:40`), so a failed fetch reports nothing.
  - The intermediate `isLoading = true` state is not observable after the call.
- Categories.CategoriesPage.Delete: only a text body (or no body) is modelled. A non-text body whose `includes` behaves differently is not.
- The year lists of the book and publisher forms are built from the current date, and they are not modelled.
- The return-date hint notification on the create form is not modelled. Neither are the alternative book option shown while editing, nor the `disabled` attributes of the search boxes and selects.
- Outcomes.ResponseMessage: a server answer with no `message` field is modelled as "". The case where `error.response.data` itself is missing is not: the page would then throw inside its error handler.
- After a create or an update, the Books, Authors, Publishers and Categories pages show the whole list again. They do not re-apply the search term, though the search box keeps its text. The model does the same.
- A delete never removes the record locally. The page refetches the list instead, so the model returns `refetch` and leaves the list to the next `Load`.
- Text.Truncate: lengths and cuts count Unicode scalar values, whereas JavaScript's `length` and `substring` count UTF-16 code units. The two agree on text inside the Basic Multilingual Plane. A character outside it, such as an emoji, counts once here and twice in the page, and the page's `substring` can cut it in half.
- Text.TruncateName: inherits the scalar-value counting of Text.Truncate, so its bound is not the page's UTF-16 bound for characters outside the Basic Multilingual Plane.
- Books.TruncatePublisherName: the 16-character bound counts scalar values, not UTF-16 code units (see Text.Truncate).
- Books.TruncateBookName: the 20-character bound counts scalar values, not UTF-16 code units (see Text.Truncate).
- Books.TruncateCategories: the 17-character cut counts scalar values, not UTF-16 code units (see Text.Truncate).
- Books.TruncateSingleCategory: the 17-character cut of the single name counts scalar values, not UTF-16 code units (see Text.Truncate).
- BorrowBook.Validate: the two-character minimum of the trimmed name counts scalar values, whereas `trim().length` counts UTF-16 code units. A name made of one character outside the Basic Multilingual Plane is rejected here and accepted by the page.
- Authors.AuthorsPage.Saved, Authors.AuthorsPage.Submit, Publishers.PublishersPage.Saved, Publishers.PublishersPage.Submit, Categories.CategoriesPage.Saved and Categories.CategoriesPage.Submit: after an update they use the corrected move-to-front of the Findings row (Authors.AfterUpdate and its Publishers and Categories counterparts). When the edited id is no longer in the list, the page as written puts `undefined` first, and the model leaves the list as it is.

## Findings

| source | as written | input that shows it | evidently intended | confidence | as-written member | corrected member |
|---|---|---|---|---|---|---|
| src/pages/Authors.jsx:111-116 (also src/pages/Publishers.jsx:112-117, src/pages/Categories.jsx:105-110) | The update takes `updated.find(..)` as the new head without checking it. When the edited id is no longer in the list, for example after a reload that dropped it, the head is `undefined`, and the next render reads `.name` of it. | the list `[]` with the edited author's id 1 gives `[undefined]` | A list without the edited id is left as it is | low, not executed | ListOps.MoveToFrontAsWrittenAbsent | ListOps.MoveToFront |
