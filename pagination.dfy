/**
 * `get_page` of yatube/posts/utils.py: a Paginator over the ordered rows with
 * `SORT_POST` rows per page, asked for the page named by the `page` query
 * parameter through `Paginator.get_page`, whose contract is written out here:
 * a missing or non-integer parameter gives page 1, a number below 1 or past
 * the end gives the last page. The paginator has no orphans and allows an
 * empty first page, so there is always at least one page.
 */
module Pagination {
  import opened Wrappers
  import PyInt

  /** Rows per page (`SORT_POST`). */
  const SortPost: nat := 10

  function Min(a: int, b: int): int { if a < b then a else b }
  function Max(a: int, b: int): int { if a < b then b else a }

  /** `Paginator.num_pages`: the fewest pages of `SortPost` rows that hold `count` rows, and never none. */
  function NumPages(count: nat): (n: nat)
    ensures n >= 1
    ensures (n - 1) * SortPost < Max(count, 1) <= n * SortPost
  {
    (Max(count, 1) + SortPost - 1) / SortPost
  }

  /** The outcomes of `Paginator.validate_number`: a valid number, or one of its two exceptions. */
  datatype Validated = Number(n: int) | PageNotAnInteger | EmptyPage

  function ValidateNumber(page: Option<string>, count: nat): (v: Validated)
    ensures v == PageNotAnInteger <==> page.None? || PyInt.ParseInt(page.value).None?
    ensures v == EmptyPage <==>
              page.Some? && PyInt.ParseInt(page.value).Some?
              && !(1 <= PyInt.ParseInt(page.value).value <= NumPages(count))
    ensures v.Number? ==> page.Some? && PyInt.ParseInt(page.value) == Some(v.n) && 1 <= v.n <= NumPages(count)
  {
    match page
    // `int(None)` raises TypeError, which is reported as PageNotAnInteger
    case None => PageNotAnInteger
    case Some(s) =>
      match PyInt.ParseInt(s)
      case None => PageNotAnInteger
      // the exception for `number == 1` past the end needs zero pages, which an
      // empty-first-page paginator never has
      case Some(k) => if k < 1 || k > NumPages(count) then EmptyPage else Number(k)
  }

  /** The page number `Paginator.get_page` settles on. */
  function PageNumber(page: Option<string>, count: nat): (k: nat)
    ensures 1 <= k <= NumPages(count)
    ensures page.None? ==> k == 1
    ensures page.Some? && PyInt.ParseInt(page.value).None? ==> k == 1
    ensures page.Some? && PyInt.ParseInt(page.value).Some? ==>
              var n := PyInt.ParseInt(page.value).value;
              k == if 1 <= n <= NumPages(count) then n else NumPages(count)
  {
    match ValidateNumber(page, count)
    case Number(n) => n
    case PageNotAnInteger => 1
    case EmptyPage => NumPages(count)
  }

  /** `Paginator.page(number).object_list`: every page but the last is full, and row `i` of page `number` is row `(number - 1) * SortPost + i` of the input. */
  function PageOf<T>(items: seq<T>, number: nat): (p: seq<T>)
    requires 1 <= number <= NumPages(|items|)
    ensures |p| == if number < NumPages(|items|) then SortPost else |items| - (number - 1) * SortPost
    ensures forall i :: 0 <= i < |p| ==> p[i] == items[(number - 1) * SortPost + i]
  {
    var bottom := (number - 1) * SortPost;
    var top := bottom + SortPost;
    items[bottom..if top >= |items| then |items| else top]
  }

  /** A page object: its rows, its number and the paginator's page count. */
  datatype Page<T> = Page(objectList: seq<T>, number: nat, numPages: nat) {
    predicate HasNext() { number < numPages }
    predicate HasPrevious() { number > 1 }
  }

  /** `get_page(queryset, request)` with `page` the value of the `page` query parameter. */
  function GetPage<T>(items: seq<T>, page: Option<string>): (p: Page<T>)
    ensures p.numPages == NumPages(|items|) && p.number == PageNumber(page, |items|)
    ensures p.objectList == PageOf(items, p.number)
    ensures |p.objectList| <= SortPost
    ensures p.HasNext() <==> p.number * SortPost < |items|
    ensures p.HasPrevious() <==> p.number != 1
  {
    var n := PageNumber(page, |items|);
    Page(PageOf(items, n), n, NumPages(|items|))
  }

  /** Pages 1 to `k`, one after the other. */
  function Pages<T>(items: seq<T>, k: nat): seq<T>
    requires k <= NumPages(|items|)
  {
    if k == 0 then [] else Pages(items, k - 1) + PageOf(items, k)
  }

  lemma {:induction false} PagesPrefix<T>(items: seq<T>, k: nat)
    requires k <= NumPages(|items|)
    ensures Pages(items, k) == items[..Min(k * SortPost, |items|)]
  {
    if k > 0 {
      PagesPrefix(items, k - 1);
      var a, b := (k - 1) * SortPost, Min(k * SortPost, |items|);
      assert PageOf(items, k) == items[a..b];
      assert items[..a] + items[a..b] == items[..b];
    }
  }

  /** The pages partition the input: pages 1 to `num_pages`, concatenated, give back every row in order. */
  lemma PagesCoverItems<T>(items: seq<T>)
    ensures Pages(items, NumPages(|items|)) == items
  {
    PagesPrefix(items, NumPages(|items|));
    assert items[..|items|] == items;
  }

  /** `?page=k` names page `k` when that page exists. */
  lemma PageNumberOf(k: nat, count: nat)
    requires 1 <= k <= NumPages(count)
    ensures PageNumber(Some(PyInt.IntToString(k)), count) == k
  {
    PyInt.ParseIntToString(k);
  }

  /** `?page=k` for a page that exists shows rows `(k - 1) * SortPost` up to `min(k * SortPost, n)`. */
  lemma RequestedPage<T>(items: seq<T>, k: nat)
    requires 1 <= k <= NumPages(|items|)
    ensures GetPage(items, Some(PyInt.IntToString(k))).number == k
    ensures GetPage(items, Some(PyInt.IntToString(k))).objectList == items[(k - 1) * SortPost..Min(k * SortPost, |items|)]
  {
    PageNumberOf(k, |items|);
  }

  /** `?page=k` for a number below 1 or past the end shows the last page instead of failing. */
  lemma OutOfRangePage<T>(items: seq<T>, k: int)
    requires k < 1 || k > NumPages(|items|)
    ensures GetPage(items, Some(PyInt.IntToString(k))) == GetPage(items, Some(PyInt.IntToString(NumPages(|items|))))
    ensures GetPage(items, Some(PyInt.IntToString(k))).number == NumPages(|items|)
  {
    PyInt.ParseIntToString(k);
    PyInt.ParseIntToString(NumPages(|items|));
  }

  /** No `page` parameter, or one without a digit in it, shows the first page. */
  lemma FirstPageByDefault<T>(items: seq<T>, s: string)
    requires forall i :: 0 <= i < |s| ==> !PyInt.IsDigit(s[i])
    ensures GetPage(items, Some(s)) == GetPage(items, None)
    ensures GetPage(items, None).objectList == items[..Min(SortPost, |items|)]
  {
    PyInt.NoDigitNoInt(s);
  }

  lemma ThirteenRowsTwoPages()
    ensures NumPages(13) == 2
  {
    assert SortPost == 10;
  }

  /** With 13 rows, page 1 holds the first 10. */
  lemma ThirteenItemsFirstPage<T>(items: seq<T>)
    requires |items| == 13
    ensures GetPage(items, Some("1")).objectList == items[..10]
  {
    assert PyInt.IntToString(1) == "1";
    RequestedPage(items, 1);
  }

  /** With 13 rows, page 2 holds the other 3. */
  lemma ThirteenItemsSecondPage<T>(items: seq<T>)
    requires |items| == 13
    ensures GetPage(items, Some("2")).objectList == items[10..]
  {
    ThirteenRowsTwoPages();
    assert PyInt.IntToString(2) == "2";
    RequestedPage(items, 2);
  }

  /** With 13 rows, page 3 is past the end and shows page 2. */
  lemma ThirteenItemsThirdPage<T>(items: seq<T>)
    requires |items| == 13
    ensures GetPage(items, Some("3")) == GetPage(items, Some("2"))
  {
    ThirteenRowsTwoPages();
    assert PyInt.IntToString(2) == "2" && PyInt.IntToString(3) == "3";
    OutOfRangePage(items, 3);
  }

  /** Every row shown on a page is a row of the input. */
  lemma PageRowsFromItems<T>(items: seq<T>, page: Option<string>, x: T)
    requires x in GetPage(items, page).objectList
    ensures x in items
  {
    var k := GetPage(items, page).number;
    PageOfRowsFromItems(items, k, x);
  }

  lemma PageOfRowsFromItems<T>(items: seq<T>, k: nat, x: T)
    requires 1 <= k <= NumPages(|items|)
    requires x in PageOf(items, k)
    ensures x in items
  {
    var p := PageOf(items, k);
    var i :| 0 <= i < |p| && p[i] == x;
    var j := (k - 1) * SortPost + i;
    assert items[j] == x;
  }

  /** The first row of a non-empty input opens the default (first) page. */
  lemma FirstRowOnFirstPage<T>(items: seq<T>)
    requires |items| > 0
    ensures |GetPage(items, None).objectList| > 0 && GetPage(items, None).objectList[0] == items[0]
  {
  }
}
