/** The records the people components work on: characters, lookup records
    (species and movies), filters and the people state held by the store. */
module Models {

  /** A character as loaded from the catalog API; only the fields the
      components read are kept. */
  datatype Person = Person(
    name: string,
    birth_year: string,     // "<number>BBY", "<number>ABY" or "unknown"
    species: seq<string>,   // species locators
    films: seq<string>,     // film locators
    url: string)            // the character's own locator

  /** A species or movie from the lookup lists: a display name and a locator. */
  datatype LookupRecord = LookupRecord(name: string, url: string)

  /** The value a filter slot holds: `null`, a string or a number. */
  datatype FilterValue = Null | Str(s: string) | Num(n: int)

  /** One filter dimension: the slot's name and its current value. */
  datatype FilterType = FilterType(name: string, value: FilterValue)

  /** The slice of the store the list renders: the records, their count and
      the number of pages. */
  datatype PeopleState = PeopleState(count: int, results: seq<Person>, totalPages: int)

  /** The filter actions the filter form dispatches. */
  datatype FilterAction =
    | SetPeopleSpeciesFilter(filterValue: FilterValue)
    | SetPeopleMoviesFilter(filterValue: FilterValue)

  /** JavaScript truthiness of a filter value: `null`, `''` and `0` are falsy. */
  predicate Truthy(v: FilterValue)
  {
    match v
    case Null => false
    case Str(s) => s != ""
    case Num(n) => n != 0
  }
}
