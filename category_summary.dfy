/**
 * The summary sheet of `ReportService.GenerateExcel`: the distinct
 * categories of the mapped rows in ascending order in column 1, and in
 * column 2 of the same row the sum of `Amount` over the rows of that
 * category.
 *
 * `OrderBy` compares with the culture's string comparer, which is not part
 * of this model: it is a parameter `less`, assumed to be a strict total
 * order on strings, with null ordered before every string.
 */
module CategorySummary {
  import opened Wrappers
  import opened ViewModels

  /** A value of the nullable `Category` column. */
  type CategoryName = Option<string>

  ghost predicate StrictTotalOrder(less: (string, string) -> bool)
  {
    && (forall a :: !less(a, a))
    && (forall a, b, c :: less(a, b) && less(b, c) ==> less(a, c))
    && (forall a, b :: a != b ==> less(a, b) || less(b, a))
  }

  /** The key order of `OrderBy(c => c)`: null first, then strings by `less`. */
  predicate CategoryLess(less: (string, string) -> bool, x: CategoryName, y: CategoryName)
  {
    (x.None? && y.Some?) || (x.Some? && y.Some? && less(x.value, y.value))
  }

  predicate StrictlySorted(less: (string, string) -> bool, xs: seq<CategoryName>)
  {
    forall i, j :: 0 <= i < j < |xs| ==> CategoryLess(less, xs[i], xs[j])
  }

  predicate NoDuplicates(xs: seq<CategoryName>)
  {
    forall i, j :: 0 <= i < j < |xs| ==> xs[i] != xs[j]
  }

  /** `CategoryLess` is a strict total order on the nullable column. */
  lemma CategoryOrder(less: (string, string) -> bool)
    requires StrictTotalOrder(less)
    ensures forall x :: !CategoryLess(less, x, x)
    ensures forall x, y, z :: CategoryLess(less, x, y) && CategoryLess(less, y, z) ==> CategoryLess(less, x, z)
    ensures forall x, y :: x != y ==> CategoryLess(less, x, y) || CategoryLess(less, y, x)
  {
    forall x: CategoryName, y: CategoryName | x != y
      ensures CategoryLess(less, x, y) || CategoryLess(less, y, x)
    {
      if x.Some? && y.Some? {
        assert x.value != y.value;
      }
    }
  }

  /** A strictly sorted sequence has no duplicates. */
  lemma SortedDistinct(less: (string, string) -> bool, xs: seq<CategoryName>)
    requires StrictTotalOrder(less) && StrictlySorted(less, xs)
    ensures NoDuplicates(xs)
  {
    CategoryOrder(less);
  }

  /** `transactions.Select(t => t.Category)`. */
  function CategoriesOf(rows: seq<TransactionViewModel>): (cs: seq<CategoryName>)
    ensures |cs| == |rows| && forall i :: 0 <= i < |rows| ==> cs[i] == rows[i].category
  {
    if rows == [] then [] else [rows[0].category] + CategoriesOf(rows[1..])
  }

  /** LINQ `Distinct`: the first occurrence of every value, in order of appearance. */
  function {:induction false} Distinct(xs: seq<CategoryName>): (d: seq<CategoryName>)
    ensures NoDuplicates(d)
    ensures forall x :: x in d <==> x in xs
  {
    if xs == [] then []
    else
      var rest := Distinct(xs[..|xs| - 1]);
      assert xs == xs[..|xs| - 1] + [xs[|xs| - 1]];
      if xs[|xs| - 1] in rest then rest else rest + [xs[|xs| - 1]]
  }

  /** Inserting a new key into a strictly sorted sequence. */
  function {:induction false} Insert(less: (string, string) -> bool, x: CategoryName, s: seq<CategoryName>):
    (r: seq<CategoryName>)
    requires StrictTotalOrder(less) && StrictlySorted(less, s) && x !in s
    ensures StrictlySorted(less, r)
    ensures |r| == |s| + 1
    ensures forall y :: y in r <==> y == x || y in s
  {
    CategoryOrder(less);
    if s == [] then [x]
    else if CategoryLess(less, x, s[0]) then [x] + s
    else
      var tail := Insert(less, x, s[1..]);
      assert forall y :: y in s <==> y == s[0] || y in s[1..];
      assert forall k :: 0 <= k < |tail| ==> CategoryLess(less, s[0], tail[k]) by {
        forall k | 0 <= k < |tail| ensures CategoryLess(less, s[0], tail[k]) {
          assert tail[k] in tail;
          if tail[k] != x {
            var m :| 1 <= m < |s| && s[m] == tail[k];
          }
        }
      }
      [s[0]] + tail
  }

  /** `OrderBy(c => c)` on a sequence without duplicates. */
  function {:induction false} SortCategories(less: (string, string) -> bool, xs: seq<CategoryName>): (r: seq<CategoryName>)
    requires StrictTotalOrder(less) && NoDuplicates(xs)
    ensures StrictlySorted(less, r)
    ensures |r| == |xs|
    ensures forall y :: y in r <==> y in xs
  {
    if xs == [] then []
    else
      var init := xs[..|xs| - 1];
      assert xs == init + [xs[|xs| - 1]];
      Insert(less, xs[|xs| - 1], SortCategories(less, init))
  }

  /**
   * `transactions.Select(t => t.Category).Distinct().OrderBy(c => c)`: every
   * category of the rows, null included, exactly once, in ascending order.
   */
  function DistinctCategories(less: (string, string) -> bool, rows: seq<TransactionViewModel>): (cs: seq<CategoryName>)
    requires StrictTotalOrder(less)
    ensures StrictlySorted(less, cs) && NoDuplicates(cs)
    ensures forall i :: 0 <= i < |rows| ==> rows[i].category in cs
    ensures forall k :: 0 <= k < |cs| ==> cs[k] in CategoriesOf(rows)
  {
    var cs := SortCategories(less, Distinct(CategoriesOf(rows)));
    SortedDistinct(less, cs);
    cs
  }

  /**
   * A strictly sorted listing of a set of keys is unique: the category
   * column does not depend on how the sort is carried out.
   */
  lemma {:induction false} SortedListingUnique(less: (string, string) -> bool, a: seq<CategoryName>, b: seq<CategoryName>)
    requires StrictTotalOrder(less) && StrictlySorted(less, a) && StrictlySorted(less, b)
    requires forall x :: x in a <==> x in b
    ensures a == b
  {
    CategoryOrder(less);
    if a == [] {
      if b != [] {
        HeadIsMember(b);
        assert false;
      }
    } else {
      assert a[0] in b;
      assert b[0] in a;
      var i :| 0 <= i < |a| && a[i] == b[0];
      var j :| 0 <= j < |b| && b[j] == a[0];
      assert a[0] == b[0];
      assert forall x :: x in a[1..] <==> x in a && x != a[0] by {
        forall x ensures x in a[1..] <==> x in a && x != a[0] {
          if x in a[1..] {
            var k :| 0 <= k < |a[1..]| && a[1..][k] == x;
            assert a[k + 1] == x;
          }
        }
      }
      assert forall x :: x in b[1..] <==> x in b && x != b[0] by {
        forall x ensures x in b[1..] <==> x in b && x != b[0] {
          if x in b[1..] {
            var k :| 0 <= k < |b[1..]| && b[1..][k] == x;
            assert b[k + 1] == x;
          }
        }
      }
      SortedListingUnique(less, a[1..], b[1..]);
      assert a == [a[0]] + a[1..] && b == [b[0]] + b[1..];
    }
  }

  lemma HeadIsMember(b: seq<CategoryName>)
    requires b != []
    ensures b[0] in b
  {
  }

  /** `transactions.Where(t => t.Category == category).Sum(t => t.Amount)`. */
  function SumOfCategory(rows: seq<TransactionViewModel>, category: CategoryName): int
  {
    if rows == [] then 0
    else (if rows[0].category == category then rows[0].amount else 0) + SumOfCategory(rows[1..], category)
  }

  /** The sum of `Amount` over all rows. */
  function Total(rows: seq<TransactionViewModel>): int
  {
    if rows == [] then 0 else rows[0].amount + Total(rows[1..])
  }

  /** The rows of the summary sheet for a list of categories. */
  function SummaryOf(categories: seq<CategoryName>, rows: seq<TransactionViewModel>): (summary: seq<(CategoryName, int)>)
    ensures |summary| == |categories|
    ensures forall k :: 0 <= k < |categories| ==> summary[k] == (categories[k], SumOfCategory(rows, categories[k]))
  {
    if categories == [] then []
    else [(categories[0], SumOfCategory(rows, categories[0]))] + SummaryOf(categories[1..], rows)
  }

  /** The summary sheet as (category, sum) rows, row 1 first. */
  function Summary(less: (string, string) -> bool, rows: seq<TransactionViewModel>): seq<(CategoryName, int)>
    requires StrictTotalOrder(less)
  {
    SummaryOf(DistinctCategories(less, rows), rows)
  }

  function SumColumn(summary: seq<(CategoryName, int)>): int
  {
    if summary == [] then 0 else summary[0].1 + SumColumn(summary[1..])
  }

  /** What one row of amount `a` and category `c` adds to the sums of `categories`. */
  function Contribution(categories: seq<CategoryName>, c: CategoryName, a: int): int
  {
    if categories == [] then 0
    else (if categories[0] == c then a else 0) + Contribution(categories[1..], c, a)
  }

  /** A key listed exactly once receives the amount once; an unlisted key not at all. */
  lemma {:induction false} ContributionOnce(categories: seq<CategoryName>, c: CategoryName, a: int)
    requires NoDuplicates(categories)
    ensures Contribution(categories, c, a) == if c in categories then a else 0
  {
    if categories != [] {
      assert NoDuplicates(categories[1..]) by {
        forall i, j | 0 <= i < j < |categories[1..]| ensures categories[1..][i] != categories[1..][j] {
          assert categories[1..][i] == categories[i + 1] && categories[1..][j] == categories[j + 1];
        }
      }
      ContributionOnce(categories[1..], c, a);
      if categories[0] == c {
        assert c !in categories[1..] by {
          forall k | 0 <= k < |categories[1..]| ensures categories[1..][k] != c {
            assert categories[1..][k] == categories[k + 1];
          }
        }
      } else {
        assert c in categories <==> c in categories[1..] by {
          assert categories == [categories[0]] + categories[1..];
        }
      }
    }
  }

  /** Removing the first row from the data removes exactly its contribution. */
  lemma {:induction false} SummaryWithoutFirstRow(categories: seq<CategoryName>, rows: seq<TransactionViewModel>)
    requires rows != []
    ensures SumColumn(SummaryOf(categories, rows))
      == Contribution(categories, rows[0].category, rows[0].amount) + SumColumn(SummaryOf(categories, rows[1..]))
  {
    if categories != [] {
      SummaryWithoutFirstRow(categories[1..], rows);
    }
  }

  /**
   * The sums partition the data: when every row's category is listed exactly
   * once, the sums of the listed categories add up to the total.
   */
  lemma {:induction false} SumsPartition(categories: seq<CategoryName>, rows: seq<TransactionViewModel>)
    requires NoDuplicates(categories)
    requires forall i :: 0 <= i < |rows| ==> rows[i].category in categories
    ensures SumColumn(SummaryOf(categories, rows)) == Total(rows)
  {
    if rows == [] {
      ZeroSums(categories);
    } else {
      SummaryWithoutFirstRow(categories, rows);
      ContributionOnce(categories, rows[0].category, rows[0].amount);
      assert forall i :: 0 <= i < |rows[1..]| ==> rows[1..][i] == rows[i + 1];
      SumsPartition(categories, rows[1..]);
    }
  }

  lemma {:induction false} ZeroSums(categories: seq<CategoryName>)
    ensures SumColumn(SummaryOf(categories, [])) == 0
  {
    if categories != [] {
      ZeroSums(categories[1..]);
    }
  }

  /** The summary's column 2 adds up to the sum of `Amount` over all rows. */
  lemma SummaryTotal(less: (string, string) -> bool, rows: seq<TransactionViewModel>)
    requires StrictTotalOrder(less)
    ensures SumColumn(Summary(less, rows)) == Total(rows)
  {
    SumsPartition(DistinctCategories(less, rows), rows);
  }

  /** Every row is counted in exactly one summary row: the one of its category. */
  lemma ExactlyOneSummaryRow(less: (string, string) -> bool, rows: seq<TransactionViewModel>, i: int)
    requires StrictTotalOrder(less) && 0 <= i < |rows|
    ensures var summary := Summary(less, rows);
      && (exists k :: 0 <= k < |summary| && summary[k].0 == rows[i].category)
      && (forall k1, k2 :: (0 <= k1 < |summary| && 0 <= k2 < |summary| &&
            summary[k1].0 == rows[i].category && summary[k2].0 == rows[i].category) ==> k1 == k2)
  {
    var cs := DistinctCategories(less, rows);
    var k :| 0 <= k < |cs| && cs[k] == rows[i].category;
    assert Summary(less, rows)[k].0 == rows[i].category;
  }

  /** A cell of the summary sheet: a category (null for the rows without one) or a sum. */
  datatype CellValue = TextCell(text: CategoryName) | NumberCell(number: int)

  /**
   * The cells of a sheet hold the summary rows: row r (counted from 1) has
   * the category in column 1 and its sum in column 2, and no other cell is set.
   */
  predicate SheetHolds(cells: map<(int, int), CellValue>, summary: seq<(CategoryName, int)>)
  {
    && (forall p :: p in cells ==> 1 <= p.0 <= |summary| && (p.1 == 1 || p.1 == 2))
    && (forall r :: 1 <= r <= |summary| ==> (r, 1) in cells && cells[(r, 1)] == TextCell(summary[r - 1].0))
    && (forall r :: 1 <= r <= |summary| ==> (r, 2) in cells && cells[(r, 2)] == NumberCell(summary[r - 1].1))
  }

  /**
   * The summary sheet of `GenerateExcel`: cell (k, 1) holds category k of
   * the ascending distinct categories, and cell (k, 2) the sum of `Amount`
   * over the rows of that category.
   */
  method WriteSummary(less: (string, string) -> bool, rows: seq<TransactionViewModel>)
    returns (cells: map<(int, int), CellValue>)
    requires StrictTotalOrder(less)
    ensures SheetHolds(cells, Summary(less, rows))
  {
    var distinctCategories := DistinctCategories(less, rows);
    cells := WriteColumns(distinctCategories, rows);
  }

  /**
   * The two `foreach` loops of `GenerateExcel` over the ordered categories:
   * the first writes category k to cell (k, 1), the second the sum of that
   * category to cell (k, 2), each counting rows from 1.
   */
  method WriteColumns(distinctCategories: seq<CategoryName>, rows: seq<TransactionViewModel>)
    returns (cells: map<(int, int), CellValue>)
    ensures SheetHolds(cells, SummaryOf(distinctCategories, rows))
  {
    cells := map[];
    var row := 1;
    for k := 0 to |distinctCategories|
      invariant row == k + 1
      invariant forall p :: p in cells ==> 1 <= p.0 <= k && p.1 == 1
      invariant forall r :: 1 <= r <= k ==> (r, 1) in cells && cells[(r, 1)] == TextCell(distinctCategories[r - 1])
    {
      cells := cells[(row, 1) := TextCell(distinctCategories[k])];
      row := row + 1;
    }
    row := 1;
    for k := 0 to |distinctCategories|
      invariant row == k + 1
      invariant forall p :: p in cells ==> 1 <= p.0 <= |distinctCategories| && (p.1 == 1 || (p.1 == 2 && p.0 <= k))
      invariant forall r :: 1 <= r <= |distinctCategories| ==>
        (r, 1) in cells && cells[(r, 1)] == TextCell(distinctCategories[r - 1])
      invariant forall r :: 1 <= r <= k ==>
        (r, 2) in cells && cells[(r, 2)] == NumberCell(SumOfCategory(rows, distinctCategories[r - 1]))
    {
      var sumAmount := SumOfCategory(rows, distinctCategories[k]);
      cells := cells[(row, 2) := NumberCell(sumAmount)];
      row := row + 1;
    }
  }
}
