/** The people list component: the per-filter predicate, the conjunctive
    filter fold, the recounted result record, paging and the selection
    helpers. */
module PeopleList {
  import opened Optional
  import opened Models
  import opened JsBuiltins
  import Sequences

  /** The page size of the list: a positive constant of the store. */
  type PageSize = n: int | n > 0 witness 1

  /** The `TypeError` thrown when a filter names a property that is not
      there (`undefined.indexOf(...)`). */
  datatype FilterError = PropertyUndefined(name: string)

  /** What `person[name]` evaluates to in JavaScript. */
  datatype Property = ListProperty(items: seq<string>) | TextProperty(text: string) | Undefined

  function PropertyOf(p: Person, name: string): (r: Property)
    ensures r.ListProperty? <==> name == "species" || name == "films"
    ensures r.TextProperty? <==> name == "birth_year" || name == "name" || name == "url"
    ensures r.ListProperty? ==> r.items == p.species || r.items == p.films
  {
    if name == "species" then ListProperty(p.species)
    else if name == "films" then ListProperty(p.films)
    else if name == "birth_year" then TextProperty(p.birth_year)
    else if name == "name" then TextProperty(p.name)
    else if name == "url" then TextProperty(p.url)
    else Undefined
  }

  /** The two filter names handled by a year comparison. */
  predicate IsRangeFilter(name: string)
  {
    name == "bornFrom" || name == "bornTo"
  }

  /** The filter names for which the predicate does not throw. */
  predicate Resolves(name: string)
  {
    IsRangeFilter(name) || PropertyOf(Person("", "", [], [], ""), name) != Undefined
  }

  /** A filter that never throws: it is unset, or its name resolves. */
  predicate Applicable(f: FilterType)
  {
    !Truthy(f.value) || Resolves(f.name)
  }

  /** `convertSWYear`: the signed year of a birth-year string. The last three
      characters are the era; the rest goes through `parseInt`; `BBY` negates.
      `None` is `NaN`. */
  function ConvertSWYear(birthYear: string): (r: Option<int>)
    ensures r.Some? <==> |birthYear| > 3 && ParseInt(birthYear[..|birthYear| - 3]).Some?
    ensures r.Some? ==>
      r.value == (if birthYear[|birthYear| - 3..] == "BBY" then -1 else 1)
                 * ParseInt(birthYear[..|birthYear| - 3]).value
  {
    var year := |birthYear| - 3;
    var factor := if Substr(birthYear, year, 3) == "BBY" then -1 else 1;
    match ParseInt(Substring(birthYear, 0, year))
    case None => None
    case Some(m) => Some(m * factor)
  }

  /** `matchElement`: membership through `indexOf`. */
  function MatchElement(items: seq<string>, element: string): (r: bool)
    ensures r <==> element in items
  {
    ArrayIndexOf(items, element) > -1
  }

  /** The number a filter value is compared as (`Number(value)`); `None` is `NaN`. */
  function Bound(v: FilterValue): Option<int>
  {
    match v
    case Null => Some(0)
    case Num(n) => Some(n)
    case Str(s) => StringToNumber(s)
  }

  /** JavaScript `a >= b` on numbers that may be `NaN`. */
  predicate AtLeast(a: Option<int>, b: Option<int>)
  {
    a.Some? && b.Some? && a.value >= b.value
  }

  /** `String(value)`, as `indexOf` on a string coerces its argument. */
  function ToJsString(v: FilterValue): string
  {
    match v
    case Null => "null"
    case Str(s) => s
    case Num(n) => IntToString(n)
  }

  /** The callback `processFilter` hands to `filter` for one person: whether
      the person is kept, or `None` when evaluating it throws. */
  function Keep(f: FilterType, p: Person): (r: Option<bool>)
    ensures r.None? <==> !Resolves(f.name)
  {
    if f.name == "bornFrom" then Some(AtLeast(ConvertSWYear(p.birth_year), Bound(f.value)))
    else if f.name == "bornTo" then Some(AtLeast(Bound(f.value), ConvertSWYear(p.birth_year)))
    else match PropertyOf(p, f.name)
      case ListProperty(items) => Some(f.value.Str? && MatchElement(items, f.value.s))
      case TextProperty(text) => Some(IndexOf(text, ToJsString(f.value)) > -1)
      case Undefined => None
  }

  /** A person satisfies a filter: the filter is unset or keeps the person. */
  predicate Passes(f: FilterType, p: Person)
  {
    !Truthy(f.value) || Keep(f, p) == Some(true)
  }

  /** A person satisfies every filter of `filters`. */
  predicate PassesAll(filters: seq<FilterType>, p: Person)
  {
    forall f :: f in filters ==> Passes(f, p)
  }

  /** The reference meaning of filtering: the persons satisfying every filter,
      in their original order. */
  function Select(people: seq<Person>, filters: seq<FilterType>): seq<Person>
  {
    Sequences.Filter(people, p => PassesAll(filters, p))
  }

  /** `people.filter(callback)` for a set filter, left to right; the first
      callback that throws aborts it. */
  function FilterEach(people: seq<Person>, f: FilterType): (r: Result<seq<Person>, FilterError>)
    requires Truthy(f.value)
    ensures r.Err? <==> people != [] && !Resolves(f.name)
    ensures r.Ok? ==> r.value == Select(people, [f])
  {
    if people == [] then Ok([])
    else match Keep(f, people[0])
      case None => Err(PropertyUndefined(f.name))
      case Some(kept) =>
        match FilterEach(people[1..], f)
        case Err(e) => Err(e)
        case Ok(rest) =>
          SelectUnfold(people, [f]);
          PassesAllSingle(f, people[0]);
          Ok(if kept then [people[0]] + rest else rest)
  }

  lemma PassesAllSingle(f: FilterType, p: Person)
    ensures PassesAll([f], p) == Passes(f, p)
  {
    assert f in [f];
  }

  lemma SelectUnfold(people: seq<Person>, filters: seq<FilterType>)
    requires people != []
    ensures Select(people, filters)
            == (if PassesAll(filters, people[0]) then [people[0]] else []) + Select(people[1..], filters)
  {
  }

  /** `processFilter`: an unset (falsy) filter returns the list as it is;
      otherwise the persons the filter keeps; a name that does not resolve
      throws as soon as there is a person to test. */
  function ProcessFilter(people: seq<Person>, f: FilterType): (r: Result<seq<Person>, FilterError>)
    ensures !Truthy(f.value) ==> r == Ok(people)
    ensures r.Err? <==> Truthy(f.value) && !Resolves(f.name) && people != []
    ensures r.Ok? ==> r.value == Select(people, [f])
  {
    if !Truthy(f.value) then
      Sequences.FilterAll(people, p => PassesAll([f], p));
      Ok(people)
    else FilterEach(people, f)
  }

  /** `Math.ceil(n / d)` for a positive integer `d`. */
  function CeilDiv(n: nat, d: PageSize): (r: nat)
    ensures r * d >= n
    ensures (r - 1) * d < n
  {
    var q := (n + d - 1) / d;
    assert q * d + (n + d - 1) % d == n + d - 1;
    q
  }

  /** The record `filterPeople` maps a state to: the filtered results with
      their count and number of pages; the other fields are kept. */
  function FilteredState(state: PeopleState, f: FilterType, pageSize: PageSize): (r: Result<PeopleState, FilterError>)
    ensures r.Err? <==> ProcessFilter(state.results, f).Err?
    ensures r.Ok? ==> r.value.results == Select(state.results, [f])
    ensures r.Ok? ==> r.value.count == |r.value.results|
    ensures r.Ok? ==> r.value.totalPages == CeilDiv(|r.value.results|, pageSize)
  {
    match ProcessFilter(state.results, f)
    case Err(e) => Err(e)
    case Ok(filtered) =>
      Ok(state.(count := |filtered|, results := filtered, totalPages := CeilDiv(|filtered|, pageSize)))
  }

  /** The fold of `handleFiltering`: start from the full state and apply
      every filter whose value is not `null`, in order. */
  function ApplyFilters(state: PeopleState, filters: seq<FilterType>, pageSize: PageSize): (r: Result<PeopleState, FilterError>)
    ensures !HasActive(filters) ==> r == Ok(state)
    ensures r.Err? ==> exists f :: f in filters && Truthy(f.value) && !Resolves(f.name)
    decreases |filters|
  {
    if filters == [] then Ok(state)
    else
    assert forall f :: f in filters[1..] ==> f in filters;
    if filters[0].value == Null then ApplyFilters(state, filters[1..], pageSize)
    else match FilteredState(state, filters[0], pageSize)
      case Err(e) => Err(e)
      case Ok(next) => ApplyFilters(next, filters[1..], pageSize)
  }

  /** Continue the fold from an intermediate result. */
  function ApplyRemaining(acc: Result<PeopleState, FilterError>, filters: seq<FilterType>, pageSize: PageSize): Result<PeopleState, FilterError>
  {
    match acc
    case Err(e) => Err(e)
    case Ok(s) => ApplyFilters(s, filters, pageSize)
  }

  /** Some filter of `filters` is not `null`, so `filterPeople` runs at least once. */
  predicate HasActive(filters: seq<FilterType>)
  {
    exists f :: f in filters && f.value != Null
  }

  /** Whether the fold sets the page back to 1: the first filter that is not
      `null` is applied to the full list without throwing. */
  function ResetsPage(people: seq<Person>, filters: seq<FilterType>): (r: bool)
    ensures r ==> HasActive(filters)
  {
    if filters == [] then false
    else
    assert forall f :: f in filters[1..] ==> f in filters;
    if filters[0].value == Null then ResetsPage(people, filters[1..])
    else ProcessFilter(people, filters[0]).Ok?
  }

  /** `personUrlId`: the path segment before the locator's final character. */
  function PersonUrlId(url: string): (r: string)
    ensures url == [] ==> r == []
    ensures url != [] ==> |r| <= |url| - 1 && r == url[|url| - 1 - |r|..|url| - 1]
    ensures url != [] && url[|url| - 1] == '/' ==> '/' !in r
  {
    var start := LastIndexOf(url, '/', LastIndexOf(url, '/', |url|) - 1) + 1;
    Slice(url, start, |url| - 1)
  }

  /** The list component's own state. The observables `people$` and
      `peopleFiltered$` are modelled by the values they deliver. */
  class PeopleListComponent {
    var page: int
    const pageSize: PageSize
    var isAllLoaded: bool
    var people: Option<PeopleState>
    var peopleFiltered: Option<Result<PeopleState, FilterError>>

    /** `peopleFiltered$` is only ever set together with `people$`. */
    ghost predicate Valid()
      reads this
    {
      peopleFiltered.Some? ==> people.Some?
    }

    constructor (pageSize: PageSize)
      ensures Valid()
      ensures page == 1 && this.pageSize == pageSize && !isAllLoaded
      ensures people.None? && peopleFiltered.None?
    {
      page := 1;
      this.pageSize := pageSize;
      isAllLoaded := false;
      people := None;
      peopleFiltered := None;
    }

    /** The `getIsAllLoaded` subscription with `getPeople`: once everything is
        loaded, both observables deliver the full state. */
    method OnAllLoaded(allLoaded: bool, state: PeopleState)
      requires Valid()
      modifies this`isAllLoaded, this`people, this`peopleFiltered
      ensures Valid()
      ensures allLoaded ==> isAllLoaded && people == Some(state) && peopleFiltered == Some(Ok(state))
      ensures !allLoaded ==> isAllLoaded == old(isAllLoaded) && people == old(people)
                             && peopleFiltered == old(peopleFiltered)
    {
      if allLoaded {
        isAllLoaded := true;
        people := Some(state);
        peopleFiltered := Some(Ok(state));
      }
    }

    /** `filterPeople`: the recounted record for one filter; the page goes
        back to 1 whenever the record is produced. */
    method FilterPeople(peopleToFilter: Result<PeopleState, FilterError>, filter: FilterType)
      returns (r: Result<PeopleState, FilterError>)
      modifies this`page
      ensures r == match peopleToFilter
                   case Err(e) => Err(e)
                   case Ok(state) => FilteredState(state, filter, pageSize)
      ensures page == if r.Ok? then 1 else old(page)
    {
      match peopleToFilter {
        case Err(e) =>
          r := Err(e);
        case Ok(state) =>
          r := FilteredState(state, filter, pageSize);
          if r.Ok? {
            page := 1;
          }
      }
    }

    /** The filter-state subscription of `handleFiltering`: once loaded,
        restart from the full set and apply each non-`null` filter in turn. */
    method HandleFiltering(filters: seq<FilterType>)
      requires Valid()
      modifies this`peopleFiltered, this`page
      ensures Valid()
      ensures old(peopleFiltered).None? ==> peopleFiltered.None? && page == old(page)
      ensures old(peopleFiltered).Some? ==>
        peopleFiltered == Some(ApplyFilters(people.value, filters, pageSize))
        && page == if ResetsPage(people.value.results, filters) then 1 else old(page)
    {
      if peopleFiltered.Some? {
        var start := people.value;
        var acc: Result<PeopleState, FilterError> := Ok(start);
        var i := 0;
        while i < |filters|
          invariant 0 <= i <= |filters|
          invariant ApplyRemaining(acc, filters[i..], pageSize) == ApplyFilters(start, filters, pageSize)
          invariant !HasActive(filters[..i]) ==> acc == Ok(start) && page == old(page)
          invariant HasActive(filters[..i]) ==>
            page == (if ResetsPage(start.results, filters) then 1 else old(page))
          invariant HasActive(filters[..i]) && !ResetsPage(start.results, filters) ==> acc.Err?
        {
          assert filters[i..][0] == filters[i] && filters[i..][1..] == filters[i + 1..];
          assert filters[..i + 1] == filters[..i] + [filters[i]];
          if filters[i].value != Null {
            if !HasActive(filters[..i]) {
              ResetsPageAtFirstActive(start.results, filters, i);
            }
            acc := FilterPeople(acc, filters[i]);
          }
          i := i + 1;
        }
        assert filters[i..] == [] && filters[..i] == filters;
        if !HasActive(filters) {
          NoActiveNoReset(start.results, filters);
        }
        peopleFiltered := Some(acc);
      }
    }

    /** `byPage`: the slice of the current page. */
    function ByPage(items: seq<Person>): (r: seq<Person>)
      reads this
      ensures |r| <= pageSize
    {
      PageSliceWindow(items, page, pageSize);
      Slice(items, page * pageSize - pageSize, pageSize * page)
    }

    method OnNextPage()
      modifies this`page
      ensures page == old(page) + 1
    {
      page := page + 1;
    }

    /** `onPrevPage`: no lower clamp, as in the source. */
    method OnPrevPage()
      modifies this`page
      ensures page == old(page) - 1
    {
      page := page - 1;
    }

    /** `personNumber`: the 1-based position in the whole list of the
        `index`-th record of the current page. */
    function PersonNumber(index: int): (r: int)
      reads this
      ensures page >= 1 && 0 <= index < pageSize ==> (page - 1) * pageSize < r <= page * pageSize
    {
      (page - 1) * pageSize + index + 1
    }
  }

  /** What `slice` returns for the bounds `byPage` computes. */
  lemma PageSliceWindow(items: seq<Person>, page: int, size: PageSize)
    ensures var r := Slice(items, page * size - size, size * page);
      && |r| <= size
      && (page >= 1 ==> var lo := (page - 1) * size;
                        r == items[Min(lo, |items|)..Min(lo + size, |items|)])
      && (page >= 1 ==> (r == [] <==> page > CeilDiv(|items|, size)))
  {
    var lo := page * size - size;
    var hi := size * page;
    assert hi == lo + size;
    assert (page - 1) * size == lo;
    assert page * size == hi;
    if page >= 1 {
      assert lo >= 0 by {
        assert (page - 1) * size >= 0;
      }
      PageEmptyPastLast(|items|, page, size);
    }
  }

  /** With every filter `null`, the page is never reset. */
  lemma {:induction false} NoActiveNoReset(people: seq<Person>, filters: seq<FilterType>)
    requires !HasActive(filters)
    ensures !ResetsPage(people, filters)
  {
    if filters != [] {
      assert filters[0] in filters;
      assert forall f :: f in filters[1..] ==> f in filters;
      NoActiveNoReset(people, filters[1..]);
    }
  }

  /** A page starting at `(page - 1) * size` is empty exactly past the last page. */
  lemma PageEmptyPastLast(n: nat, page: int, size: PageSize)
    requires page >= 1
    ensures (page - 1) * size >= n <==> page > CeilDiv(n, size)
  {
    var c := CeilDiv(n, size);
    if page > c {
      assert page - 1 >= c;
      assert (page - 1) * size >= c * size;
    } else {
      assert page - 1 <= c - 1;
      assert (page - 1) * size <= (c - 1) * size;
    }
  }

  /** If the first non-`null` filter is at index `i`, it decides the page reset. */
  lemma {:induction false} ResetsPageAtFirstActive(people: seq<Person>, filters: seq<FilterType>, i: nat)
    requires i < |filters| && filters[i].value != Null && !HasActive(filters[..i])
    ensures ResetsPage(people, filters) == ProcessFilter(people, filters[i]).Ok?
  {
    if i > 0 {
      assert filters[0] in filters[..i];
      assert filters[1..][..i - 1] == filters[1..i];
      assert forall f :: f in filters[1..i] ==> f in filters[..i];
      ResetsPageAtFirstActive(people, filters[1..], i - 1);
    }
  }
}
