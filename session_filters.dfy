/** The filter bar above the session list (client/components/session/SessionFilters.tsx). Each
    handler builds a new filter record and hands it to the parent; nothing is changed in place. */
module SessionFilters {

  datatype StatusFilter = All | Responded | NotResponded | CreatedByMe
  datatype SortKey = StartTime | CreatedAt | ResponseCount
  datatype SortOrder = Asc | Desc

  /** `SessionFilter`. */
  datatype Filters = Filters(status: StatusFilter, sort: SortKey, sortOrder: SortOrder)

  /** One `handleFilterChange(key, value)` call: the key and a value of that key's type. */
  datatype Change = SetStatus(status: StatusFilter) | SetSort(sort: SortKey) | SetOrder(order: SortOrder)

  /** `{ ...filters, [key]: value }`. */
  function Apply(f: Filters, c: Change): Filters {
    match c
    case SetStatus(s) => f.(status := s)
    case SetSort(k) => f.(sort := k)
    case SetOrder(o) => f.(sortOrder := o)
  }

  /** A change sets the named field to its value and leaves the other two as they were. */
  lemma ApplyChangesOneField(f: Filters, c: Change)
    ensures c.SetStatus? ==> Apply(f, c).status == c.status && Apply(f, c).sort == f.sort && Apply(f, c).sortOrder == f.sortOrder
    ensures c.SetSort? ==> Apply(f, c).sort == c.sort && Apply(f, c).status == f.status && Apply(f, c).sortOrder == f.sortOrder
    ensures c.SetOrder? ==> Apply(f, c).sortOrder == c.order && Apply(f, c).status == f.status && Apply(f, c).sort == f.sort
  {
  }

  /** `resetFilters`. */
  const Defaults := Filters(All, StartTime, Asc)

  /** `hasActiveFilters`: some field differs from its default. */
  predicate HasActiveFilters(f: Filters) {
    f.status != All || f.sort != StartTime || f.sortOrder != Asc
  }

  /** The indicator dot and the "Clear" button show exactly when the record is not the reset one, so
      clearing hides them. */
  lemma ActiveIffNotDefaults(f: Filters)
    ensures HasActiveFilters(f) <==> f != Defaults
    ensures !HasActiveFilters(Defaults)
  {
  }

  function Flip(o: SortOrder): SortOrder {
    if o == Asc then Desc else Asc
  }

  /** The sort-order button: the change it sends. */
  function ToggleOrder(f: Filters): Filters {
    Apply(f, SetOrder(Flip(f.sortOrder)))
  }

  /** The toggle flips the order and nothing else, and pressing it twice restores the record. */
  lemma ToggleInvolution(f: Filters)
    ensures ToggleOrder(f).sortOrder != f.sortOrder
    ensures ToggleOrder(f).status == f.status && ToggleOrder(f).sort == f.sort
    ensures ToggleOrder(ToggleOrder(f)) == f
  {
  }
}
