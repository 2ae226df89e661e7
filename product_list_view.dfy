/** The product list: a list view over products whose `sortBy` sorts by the
    clicked column, reverses the current order, or goes back to identifier order. */
module ProductList {
  import opened Sorting
  import opened Collation
  import opened SortCycle
  import opened ListView

  datatype Category = Category(id: int, name: string)
  datatype Supplier = Supplier(id: int, companyName: string)

  /** A product; the price is a whole number here. */
  datatype Product = Product(id: int, name: string, price: int, category: Category, supplier: Supplier)

  /** The product list's configuration: ten rows a page, sorting and filtering
      on, every row action offered. */
  const ProductConfig := ListViewConfig(10, true, true, Actions(true, true, true))

  // The comparators handed to `sort`, one per case of the product `sortBy`.
  function CompareByName(a: Product, b: Product): int { LocaleCompare(a.name, b.name) }
  function CompareByPrice(a: Product, b: Product): int { a.price - b.price }
  function CompareByCategory(a: Product, b: Product): int { LocaleCompare(a.category.name, b.category.name) }
  function CompareBySupplier(a: Product, b: Product): int { LocaleCompare(a.supplier.companyName, b.supplier.companyName) }
  function CompareById(a: Product, b: Product): int { a.id - b.id }

  /** The columns the ascending branch of `sortBy` has a case for. */
  predicate HasComparator(column: string) {
    column == "name" || column == "price" || column == "category" || column == "supplier"
  }

  /** The ascending comparator of a column with a case in `sortBy`. */
  function ColumnComparator(column: string): (Product, Product) -> int
    requires HasComparator(column)
  {
    if column == "name" then CompareByName
    else if column == "price" then CompareByPrice
    else if column == "category" then CompareByCategory
    else CompareBySupplier
  }

  /** Every comparator the product list sorts with is consistent, so `sort`
      leaves the items in ascending order by it. */
  lemma ComparatorsConsistent()
    ensures Consistent(CompareByName) && Consistent(CompareByPrice)
    ensures Consistent(CompareByCategory) && Consistent(CompareBySupplier)
    ensures Consistent(CompareById)
  {
    forall x: Product, y: Product
      ensures CompareByName(x, y) == -CompareByName(y, x)
      ensures CompareByCategory(x, y) == -CompareByCategory(y, x)
      ensures CompareBySupplier(x, y) == -CompareBySupplier(y, x)
    {
      LocaleCompareAntisymmetric(x.name, y.name);
      LocaleCompareAntisymmetric(x.category.name, y.category.name);
      LocaleCompareAntisymmetric(x.supplier.companyName, y.supplier.companyName);
    }
    forall x: Product, y: Product, z: Product | CompareByName(x, y) <= 0 && CompareByName(y, z) <= 0
      ensures CompareByName(x, z) <= 0
    {
      LocaleCompareTransitive(x.name, y.name, z.name);
    }
    forall x: Product, y: Product, z: Product | CompareByCategory(x, y) <= 0 && CompareByCategory(y, z) <= 0
      ensures CompareByCategory(x, z) <= 0
    {
      LocaleCompareTransitive(x.category.name, y.category.name, z.category.name);
    }
    forall x: Product, y: Product, z: Product | CompareBySupplier(x, y) <= 0 && CompareBySupplier(y, z) <= 0
      ensures CompareBySupplier(x, z) <= 0
    {
      LocaleCompareTransitive(x.supplier.companyName, y.supplier.companyName, z.supplier.companyName);
    }
  }

  /** No two products share an identifier. */
  ghost predicate UniqueIds(s: seq<Product>) {
    forall i, j :: 0 <= i < |s| && 0 <= j < |s| && i != j ==> s[i].id != s[j].id
  }

  /** With unique identifiers, identifier order is one fixed arrangement: two
      id-sorted rearrangements of the same products are equal, whatever order
      each was sorted from. */
  lemma IdOrderUnique(s: seq<Product>, t: seq<Product>)
    requires UniqueIds(s) && multiset(s) == multiset(t)
    requires SortedBy(s, CompareById) && SortedBy(t, CompareById)
    ensures s == t
  {
    ComparatorsConsistent();
    assert Strict(s, CompareById) by {
      forall i, j | 0 <= i < |s| && 0 <= j < |s| && i != j ensures CompareById(s[i], s[j]) != 0 {
        assert s[i].id != s[j].id;
      }
    }
    SortedArrangementUnique(s, t, CompareById);
  }

  class ProductListView {
    const view: BaseListView<Product>

    ghost predicate Valid()
      reads this, view
    {
      view.Valid()
    }

    constructor ()
      ensures Valid() && fresh(view)
      ensures view.config == ProductConfig && view.items[..] == []
      ensures view.currentPage == 1 && view.State() == Initial
    {
      view := new BaseListView(ProductConfig);
    }

    /** The product `sortBy(column)`: the base transition first, then, on the
        sort order it leaves (even when the `sortable` gate made the base return
        early), ascending by the column's comparator for order 0 (no change for
        a column without a case), a reversal of the current order for order 1,
        and identifier order for order 2. The items stay a permutation of what
        they were. */
    method SortBy(column: string)
      requires Valid()
      modifies view`sortOrder, view`lastColumnSorted, view.items
      ensures Valid()
      ensures view.State() == Transition(old(view.State()), column, view.config.sortable)
      ensures multiset(view.items[..]) == multiset(old(view.items[..]))
      ensures view.sortOrder == 0 && HasComparator(column) ==> SortedBy(view.items[..], ColumnComparator(column))
      ensures view.sortOrder == 0 && !HasComparator(column) ==> view.items[..] == old(view.items[..])
      ensures view.sortOrder == 1 ==> view.items[..] == Reversed(old(view.items[..]))
      ensures view.sortOrder == 2 ==> SortedBy(view.items[..], CompareById)
    {
      view.SortBy(column);
      ComparatorsConsistent();
      if view.sortOrder == 0 {
        if column == "name" {
          SortInPlace(view.items, CompareByName);
        } else if column == "price" {
          SortInPlace(view.items, CompareByPrice);
        } else if column == "category" {
          SortInPlace(view.items, CompareByCategory);
        } else if column == "supplier" {
          SortInPlace(view.items, CompareBySupplier);
        }
      } else if view.sortOrder == 1 {
        ReverseInPlace(view.items);
        ReversedPermutes(old(view.items[..]));
      } else {
        SortInPlace(view.items, CompareById);
      }
    }

    /** The product `filter` only hands over to the base one, which changes nothing. */
    method Filter(column: string, value: string) returns (proceeds: bool)
      requires Valid()
      ensures proceeds == view.config.filterable
    {
      proceeds := view.Filter(column, value);
    }

    /** The product `delete(id)` passes the base gate's verdict by: the delete
        request to the product service goes out in every case. */
    method Delete(id: int) returns (requestSent: bool)
      requires Valid()
      ensures requestSent
    {
      var _ := view.Delete(id);
      requestSent := true;
    }
  }

  /** Three clicks on the name column of a freshly loaded product list: the
      first sorts by name, the second reverses that into descending name order,
      the third goes back to identifier order. */
  method ThreeNameClicks(products: seq<Product>) returns (first: seq<Product>, second: seq<Product>, third: seq<Product>)
    ensures multiset(first) == multiset(products) && SortedBy(first, CompareByName)
    ensures second == Reversed(first) && SortedBy(second, Flip(CompareByName))
    ensures multiset(third) == multiset(products) && SortedBy(third, CompareById)
  {
    var list := new ProductListView();
    list.view.Load(products);
    NewColumnWalksCycle(Initial, "name");
    list.SortBy("name");
    assert list.view.State() == SortState(0, "name");
    first := list.view.items[..];
    list.SortBy("name");
    assert list.view.State() == SortState(1, "name");
    second := list.view.items[..];
    list.SortBy("name");
    assert list.view.State() == SortState(2, "name");
    third := list.view.items[..];
    ReversedSortedIsFlipped(first, CompareByName);
  }
}
