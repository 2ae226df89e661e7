/** The generic list-view engine: the working collection, the current page and
    the sort state, with the configuration gates in front of sorting, filtering
    and deleting. Entity list views wrap one of these and add their orderings. */
module ListView {
  import opened SortCycle
  import Pagination

  /** The row actions a list offers; an action the configuration leaves out is
      recorded as `false`. */
  datatype Actions = Actions(edit: bool, delete: bool, view: bool)

  /** The parts of a list-view configuration that drive behaviour. */
  datatype ListViewConfig = ListViewConfig(pageSize: int, sortable: bool, filterable: bool, actions: Actions)

  class BaseListView<T> {
    var items: array<T>
    var currentPage: int
    const config: ListViewConfig
    var sortOrder: int
    var lastColumnSorted: string

    /** The page size is positive and the sort order is one of the three of the cycle. */
    ghost predicate Valid()
      reads this
    {
      config.pageSize > 0 && InCycle(SortState(sortOrder, lastColumnSorted))
    }

    /** The current sort state. */
    function State(): SortState
      reads this
    {
      SortState(sortOrder, lastColumnSorted)
    }

    /** A fresh list: no items, page 1, initial sort state. */
    constructor (config: ListViewConfig)
      requires config.pageSize > 0
      ensures Valid()
      ensures this.config == config && fresh(items) && items[..] == []
      ensures currentPage == 1 && State() == Initial
    {
      this.config := config;
      items := new T[0];
      currentPage := 1;
      sortOrder, lastColumnSorted := 0, "";
    }

    /** Installs a freshly fetched collection as the working collection, as the
        subscription callback of a load does (`this.items = fetched`). */
    method Load(fetched: seq<T>)
      requires Valid()
      modifies this`items
      ensures Valid() && fresh(items) && items[..] == fetched
    {
      items := new T[|fetched|](i requires 0 <= i < |fetched| => fetched[i]);
    }

    /** The `totalPages` getter: the least number of pages that hold the items. */
    function TotalPages(): (r: nat)
      reads this
      requires Valid()
      ensures (r - 1) * config.pageSize < items.Length <= r * config.pageSize
    {
      Pagination.TotalPages(items.Length, config.pageSize)
    }

    /** The `visibleItems` getter: at most one page of items, none past the last
        page, and on a page numbered from 1 the items of that page in order. */
    function VisibleItems(): (r: seq<T>)
      reads this, items
      requires Valid()
      ensures currentPage >= 1 ==> |r| <= config.pageSize
      ensures currentPage > TotalPages() ==> r == []
      ensures currentPage >= 1 ==>
        var start := Pagination.PageStartIndex(currentPage, config.pageSize);
        r == items[Pagination.Min(start, items.Length)..Pagination.Min(start + config.pageSize, items.Length)]
    {
      Pagination.VisibleItems(items[..], currentPage, config.pageSize)
    }

    /** The base `sortBy(column)`: only the sort state changes, as `Transition`
        says; the items and the page stay as they are. */
    method SortBy(column: string)
      requires Valid()
      modifies this`sortOrder, this`lastColumnSorted
      ensures Valid()
      ensures State() == Transition(old(State()), column, config.sortable)
    {
      if !config.sortable {
        return;
      }
      if lastColumnSorted == column {
        sortOrder := (sortOrder + 1) % 3;
      } else {
        sortOrder := 0;
        lastColumnSorted := column;
      }
    }

    /** The base `filter(column, value)`: changes nothing; `proceeds` tells whether
        the `filterable` gate lets the call past its early return. */
    method Filter(column: string, value: string) returns (proceeds: bool)
      requires Valid()
      ensures proceeds == config.filterable
    {
      if !config.filterable {
        return false;
      }
      return true;
    }

    /** The base `delete(id)`: changes nothing; `proceeds` tells whether the delete
        action gate lets the call past its early return. */
    method Delete(id: int) returns (proceeds: bool)
      requires Valid()
      ensures proceeds == config.actions.delete
    {
      if !config.actions.delete {
        return false;
      }
      return true;
    }
  }
}
