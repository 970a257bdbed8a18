/**
 * The home page: four counters and the five newest books and borrowing records, all fetched
 * together. The page is rendered without a notification callback, so a failed fetch shows
 * nothing beyond ending the loading state.
 */
module Home {
  import opened ListOps
  import opened Outcomes
  import Books
  import Authors
  import Categories
  import BorrowBook

  datatype Stats = Stats(totalBooks: nat, totalAuthors: nat, totalCategories: nat, totalBorrows: nat)

  const ZeroStats: Stats := Stats(0, 0, 0, 0)

  /** How many of the newest entries each recent list shows. */
  const RecentCount: nat := 5

  function Min(a: nat, b: nat): nat { if a < b then a else b }

  /** `list.slice(-5).reverse()`: the newest entries first, at most five of them. */
  function LastFiveReversed<T>(s: seq<T>): (r: seq<T>)
    ensures |r| == Min(RecentCount, |s|)
    ensures forall k :: 0 <= k < |r| ==> r[k] == s[|s| - 1 - k]
  {
    Reverse(s[|s| - Min(RecentCount, |s|)..])
  }

  /**
   * The recent list is the top of the entity page's table after a load, which shows the
   * fetched list reversed.
   */
  lemma RecentIsTopOfTable<T>(s: seq<T>)
    ensures LastFiveReversed(s) == Reverse(s)[..Min(RecentCount, |s|)]
  {
    var r := LastFiveReversed(s);
    var t := Reverse(s)[..Min(RecentCount, |s|)];
    assert |r| == |t|;
    forall k | 0 <= k < |r|
      ensures r[k] == t[k]
    {
      assert t[k] == Reverse(s)[k];
    }
  }

  /** A non-empty fetch shows its last entry first. */
  lemma RecentHead<T>(s: seq<T>)
    requires |s| > 0
    ensures |LastFiveReversed(s)| >= 1 && LastFiveReversed(s)[0] == s[|s| - 1]
  {
  }

  class HomePage {
    var stats: Stats
    var recentBooks: seq<Books.Book>
    var recentBorrows: seq<BorrowBook.Borrow>
    var isLoading: bool

    /** Each recent list holds at most five entries. */
    ghost predicate Valid()
      reads this
    {
      |recentBooks| <= RecentCount && |recentBorrows| <= RecentCount
    }

    /** The first render: zero counters, empty lists, loading. */
    constructor ()
      ensures Valid()
      ensures stats == ZeroStats && recentBooks == [] && recentBorrows == [] && isLoading
    {
      stats, recentBooks, recentBorrows, isLoading := ZeroStats, [], [], true;
    }

    /**
     * `fetchData`: the six requests run together and succeed only together. Then the counters
     * are the lengths of the four lists and the recent lists the newest five of the last two.
     * If any request fails, the counters and lists stay as they were. Loading ends either way.
     */
    method FetchData(
      books: Response<seq<Books.Book>>,
      authors: Response<seq<Authors.Author>>,
      categories: Response<seq<Categories.Category>>,
      borrows: Response<seq<BorrowBook.Borrow>>,
      latestBooks: Response<seq<Books.Book>>,
      latestBorrows: Response<seq<BorrowBook.Borrow>>)
      requires Valid()
      modifies this
      ensures Valid() && !isLoading
      ensures books.Ok? && authors.Ok? && categories.Ok? && borrows.Ok? && latestBooks.Ok? && latestBorrows.Ok? ==>
        && stats == Stats(|books.data|, |authors.data|, |categories.data|, |borrows.data|)
        && recentBooks == LastFiveReversed(latestBooks.data)
        && recentBorrows == LastFiveReversed(latestBorrows.data)
      ensures !(books.Ok? && authors.Ok? && categories.Ok? && borrows.Ok? && latestBooks.Ok? && latestBorrows.Ok?) ==>
        stats == old(stats) && recentBooks == old(recentBooks) && recentBorrows == old(recentBorrows)
    {
      isLoading := true;
      if books.Ok? && authors.Ok? && categories.Ok? && borrows.Ok? && latestBooks.Ok? && latestBorrows.Ok? {
        stats := Stats(|books.data|, |authors.data|, |categories.data|, |borrows.data|);
        recentBooks := LastFiveReversed(latestBooks.data);
        recentBorrows := LastFiveReversed(latestBorrows.data);
      }
      isLoading := false;
    }
  }
}
