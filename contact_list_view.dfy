/** The contact list: a list view over contacts whose `sortBy` orders by name,
    ascending then descending, and goes back to identifier order. */
module ContactList {
  import opened Sorting
  import opened Collation
  import opened SortCycle
  import opened ListView

  /** A contact, with the fields the contact list shows. */
  datatype Contact = Contact(id: int, name: string, firstname: string, email: string, address: string)

  /** A field value read off a contact. */
  datatype FieldValue = Num(n: int) | Text(s: string)

  /** `undefined` is `None`. */
  datatype Option<T> = None | Some(value: T)

  /** The names of a contact's fields. */
  const ContactKeys: set<string> := {"id", "name", "firstname", "email", "address"}

  /** The contact list's configuration: ten rows a page, sorting and filtering
      on, every row action offered. */
  const ContactConfig := ListViewConfig(10, true, true, Actions(true, true, true))

  /** `getItemValue(item, key)`, the property lookup `item[key]`: the value of
      the field named `key`, and `undefined` for a key that names no field. */
  function GetItemValue(item: Contact, key: string): (r: Option<FieldValue>)
    ensures r.Some? <==> key in ContactKeys
    ensures r.Some? && key == "id" ==> r.value.Num?
    ensures r.Some? && key != "id" ==> r.value.Text?
  {
    match key
    case "id" => Some(Num(item.id))
    case "name" => Some(Text(item.name))
    case "firstname" => Some(Text(item.firstname))
    case "email" => Some(Text(item.email))
    case "address" => Some(Text(item.address))
    case _ => None
  }

  /** The lookups by field name see the whole contact: two contacts that agree
      on every field name are the same contact. */
  lemma ItemValuesDetermineContact(a: Contact, b: Contact)
    requires forall key :: GetItemValue(a, key) == GetItemValue(b, key)
    ensures a == b
  {
    assert GetItemValue(a, "id") == GetItemValue(b, "id");
    assert GetItemValue(a, "name") == GetItemValue(b, "name");
    assert GetItemValue(a, "firstname") == GetItemValue(b, "firstname");
    assert GetItemValue(a, "email") == GetItemValue(b, "email");
    assert GetItemValue(a, "address") == GetItemValue(b, "address");
  }

  /** Each lookup reads the field its key names: two contacts give the same
      value under a key exactly when they agree on that key's field. */
  lemma LookupReadsNamedField(a: Contact, b: Contact)
    ensures GetItemValue(a, "id") == GetItemValue(b, "id") <==> a.id == b.id
    ensures GetItemValue(a, "name") == GetItemValue(b, "name") <==> a.name == b.name
    ensures GetItemValue(a, "firstname") == GetItemValue(b, "firstname") <==> a.firstname == b.firstname
    ensures GetItemValue(a, "email") == GetItemValue(b, "email") <==> a.email == b.email
    ensures GetItemValue(a, "address") == GetItemValue(b, "address") <==> a.address == b.address
  {
  }

  // The comparators handed to `sort` by the contact `sortBy`.
  function CompareByName(a: Contact, b: Contact): int { LocaleCompare(a.name, b.name) }
  function CompareByNameDescending(a: Contact, b: Contact): int { LocaleCompare(b.name, a.name) }
  function CompareById(a: Contact, b: Contact): int { a.id - b.id }

  /** Every comparator the contact list sorts with is consistent. */
  lemma ComparatorsConsistent()
    ensures Consistent(CompareByName) && Consistent(CompareByNameDescending)
    ensures Consistent(CompareById)
  {
    forall x: Contact, y: Contact
      ensures CompareByName(x, y) == -CompareByName(y, x)
      ensures CompareByNameDescending(x, y) == -CompareByNameDescending(y, x)
    {
      LocaleCompareAntisymmetric(x.name, y.name);
    }
    forall x: Contact, y: Contact, z: Contact | CompareByName(x, y) <= 0 && CompareByName(y, z) <= 0
      ensures CompareByName(x, z) <= 0
    {
      LocaleCompareTransitive(x.name, y.name, z.name);
    }
    forall x: Contact, y: Contact, z: Contact | CompareByNameDescending(x, y) <= 0 && CompareByNameDescending(y, z) <= 0
      ensures CompareByNameDescending(x, z) <= 0
    {
      LocaleCompareTransitive(z.name, y.name, x.name);
    }
  }

  /** Descending name order read backwards is ascending name order. */
  lemma DescendingReversedIsAscending(s: seq<Contact>)
    requires SortedBy(s, CompareByNameDescending)
    ensures SortedBy(Reversed(s), CompareByName)
  {
    var r := Reversed(s);
    forall i, j | 0 <= i < j < |r| ensures CompareByName(r[i], r[j]) <= 0 {
      assert CompareByNameDescending(s[|s| - 1 - j], s[|s| - 1 - i]) <= 0;
    }
  }

  /** No two contacts share an identifier. */
  ghost predicate UniqueIds(s: seq<Contact>) {
    forall i, j :: 0 <= i < |s| && 0 <= j < |s| && i != j ==> s[i].id != s[j].id
  }

  /** When no two of the contacts' names compare equal, the descending sort
      leaves one fixed arrangement, whatever order it started from. */
  lemma DescendingOrderUnique(s: seq<Contact>, t: seq<Contact>)
    requires Strict(s, CompareByNameDescending) && multiset(s) == multiset(t)
    requires SortedBy(s, CompareByNameDescending) && SortedBy(t, CompareByNameDescending)
    ensures s == t
  {
    ComparatorsConsistent();
    SortedArrangementUnique(s, t, CompareByNameDescending);
  }

  /** With unique identifiers, identifier order is one fixed arrangement. */
  lemma IdOrderUnique(s: seq<Contact>, t: seq<Contact>)
    requires UniqueIds(s) && multiset(s) == multiset(t)
    requires SortedBy(s, CompareById) && SortedBy(t, CompareById)
    ensures s == t
  {
    ComparatorsConsistent();
    assert Strict(s, CompareById) by {
      forall i, j | 0 <= i < |s| && 0 <= j < |s| && i != j ensures CompareById(s[i], s[j]) != 0 {
        assert s[i].id != s[j].id;
      }
    }
    SortedArrangementUnique(s, t, CompareById);
  }

  class ContactListView {
    const view: BaseListView<Contact>

    ghost predicate Valid()
      reads this, view
    {
      view.Valid()
    }

    constructor ()
      ensures Valid() && fresh(view)
      ensures view.config == ContactConfig && view.items[..] == []
      ensures view.currentPage == 1 && view.State() == Initial
    {
      view := new BaseListView(ContactConfig);
    }

    /** The contact `sortBy(column)`: the base transition first, then, on the
        sort order it leaves (even when the `sortable` gate made the base return
        early), ascending by name for order 0 and descending by name for order 1
        (no change for any other column, `firstname` included), and identifier
        order for order 2 whatever the column. The items stay a permutation of
        what they were. */
    method SortBy(column: string)
      requires Valid()
      modifies view`sortOrder, view`lastColumnSorted, view.items
      ensures Valid()
      ensures view.State() == Transition(old(view.State()), column, view.config.sortable)
      ensures multiset(view.items[..]) == multiset(old(view.items[..]))
      ensures view.sortOrder == 0 && column == "name" ==> SortedBy(view.items[..], CompareByName)
      ensures view.sortOrder == 1 && column == "name" ==> SortedBy(view.items[..], CompareByNameDescending)
      ensures view.sortOrder < 2 && column != "name" ==> view.items[..] == old(view.items[..])
      ensures view.sortOrder == 2 ==> SortedBy(view.items[..], CompareById)
    {
      view.SortBy(column);
      ComparatorsConsistent();
      if view.sortOrder == 0 {
        if column == "name" {
          SortInPlace(view.items, CompareByName);
        }
      } else if view.sortOrder == 1 {
        if column == "name" {
          SortInPlace(view.items, CompareByNameDescending);
        }
      } else {
        SortInPlace(view.items, CompareById);
      }
    }

    /** The contact list keeps the base `filter`, which changes nothing. */
    method Filter(column: string, value: string) returns (proceeds: bool)
      requires Valid()
      ensures proceeds == view.config.filterable
    {
      proceeds := view.Filter(column, value);
    }

    /** The contact `delete(id)` passes the base gate's verdict by: the delete
        request to the contact service goes out in every case. */
    method Delete(id: int) returns (requestSent: bool)
      requires Valid()
      ensures requestSent
    {
      var _ := view.Delete(id);
      requestSent := true;
    }
  }
}
