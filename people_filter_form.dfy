/** The people filter form: the species name search, the mapping from a
    selection to the filter value it dispatches, the `compareWith` equality
    of the species select, and syncing the form back from the filter state. */
module PeopleFilterForm {
  import opened Optional
  import opened Models
  import opened JsBuiltins
  import Sequences
  import PeopleList
  import PeopleListProofs

  // ---- Species search ----

  /** The list `filterSpecies` pushes for a loaded species list: a copy of it
      for a missing or empty term, otherwise the species whose lower-cased
      name contains the lower-cased term. */
  function SearchSpecies(species: seq<LookupRecord>, search: Option<string>): (r: seq<LookupRecord>)
    ensures search.None? || search.value == "" ==> r == species
  {
    if search.None? || search.value == "" then species
    else
      var term := ToLowerCase(search.value);
      Sequences.Filter(species, NameContains(term))
  }

  /** The `filter` callback of the search: the lower-cased name contains the
      (already lower-cased) term, by `indexOf`. */
  function NameContains(term: string): (r: LookupRecord -> bool)
    ensures forall x :: r(x) <==> Contains(ToLowerCase(x.name), term)
  {
    (item: LookupRecord) => IndexOf(ToLowerCase(item.name), term) > -1
  }

  /** The search keeps the species it returns in their original order, each
      as often as it occurs. */
  lemma SearchSpeciesPreservesOrder(species: seq<LookupRecord>, search: Option<string>, x: LookupRecord)
    ensures Sequences.IsSubsequence(SearchSpecies(species, search), species)
    ensures multiset(SearchSpecies(species, search))[x] <= multiset(species)[x]
  {
    if search.None? || search.value == "" {
      assert SearchSpecies(species, search) == species;
      Sequences.FilterIsSubsequence(species, (item: LookupRecord) => true);
      Sequences.FilterAll(species, (item: LookupRecord) => true);
    } else {
      var term := ToLowerCase(search.value);
      Sequences.FilterIsSubsequence(species, NameContains(term));
      Sequences.FilterMultiplicity(species, NameContains(term), x);
    }
  }

  /** With a non-empty term, a species is returned exactly when its
      lower-cased name contains the lower-cased term. */
  lemma SearchSpeciesMembership(species: seq<LookupRecord>, term: string, x: LookupRecord)
    requires term != ""
    ensures x in SearchSpecies(species, Some(term))
            <==> x in species && Contains(ToLowerCase(x.name), ToLowerCase(term))
  {
    var lower := ToLowerCase(term);
    Sequences.FilterMembership(species, NameContains(lower), x);
  }

  // ---- Selection and the filter value it dispatches ----

  /** The filter value for a selection: `''` when nothing is selected,
      the record's locator otherwise. */
  function SelectionValue(data: Option<LookupRecord>): (r: FilterValue)
    ensures r.Str?
    ensures Truthy(r) <==> data.Some? && data.value.url != ""
    ensures data.Some? ==> UrlEquals(data.value, r)
  {
    if data.None? then Str("") else Str(data.value.url)
  }

  /** `onSpeciesSelected`: the action dispatched for a species selection. */
  function OnSpeciesSelected(data: Option<LookupRecord>): (a: FilterAction)
    ensures a.SetPeopleSpeciesFilter?
    ensures data.None? ==> a.filterValue == Str("")
    ensures data.Some? ==> a.filterValue == Str(data.value.url)
    ensures Truthy(a.filterValue) <==> data.Some? && data.value.url != ""
  {
    SetPeopleSpeciesFilter(SelectionValue(data))
  }

  /** `onMovieSelected`: the action dispatched for a movie selection. */
  function OnMovieSelected(data: Option<LookupRecord>): (a: FilterAction)
    ensures a.SetPeopleMoviesFilter?
    ensures data.None? ==> a.filterValue == Str("")
    ensures data.Some? ==> a.filterValue == Str(data.value.url)
    ensures Truthy(a.filterValue) <==> data.Some? && data.value.url != ""
  {
    SetPeopleMoviesFilter(SelectionValue(data))
  }

  /** The `compareWith` function of the species select: both present and
      with the same locator. */
  predicate CompareWith(a: Option<LookupRecord>, b: Option<LookupRecord>)
    ensures CompareWith(a, b) ==> a.Some? && b.Some?
    ensures a.Some? && a == b ==> CompareWith(a, b)
  {
    a.Some? && b.Some? && a.value.url == b.value.url
  }

  /** `item.url === value`: a strict comparison, so only a string value
      can match. */
  predicate UrlEquals(item: LookupRecord, value: FilterValue)
    ensures UrlEquals(item, value) <==> value == Str(item.url)
  {
    value.Str? && item.url == value.s
  }

  /** `items.find(item => item.url === value)`: the first record whose
      locator is the filter value, or `undefined`. */
  function FindByUrl(items: seq<LookupRecord>, value: FilterValue): (r: Option<LookupRecord>)
    ensures r.None? <==> forall i :: 0 <= i < |items| ==> !UrlEquals(items[i], value)
    ensures r.Some? ==> exists i :: 0 <= i < |items| && items[i] == r.value && UrlEquals(items[i], value)
                                    && forall j :: 0 <= j < i ==> !UrlEquals(items[j], value)
  {
    if items == [] then None
    else if UrlEquals(items[0], value) then Some(items[0])
    else
      FindByUrl(items[1..], value)
  }

  // ---- Properties of the selection helpers ----

  lemma CompareWithSymmetric(a: Option<LookupRecord>, b: Option<LookupRecord>)
    ensures CompareWith(a, b) == CompareWith(b, a)
  {
  }

  /** On present values `compareWith` is an equivalence; on a missing value
      it never holds. */
  lemma CompareWithEquivalence(a: LookupRecord, b: LookupRecord, c: LookupRecord)
    ensures CompareWith(Some(a), Some(a))
    ensures CompareWith(Some(a), Some(b)) && CompareWith(Some(b), Some(c)) ==> CompareWith(Some(a), Some(c))
    ensures !CompareWith(None, Some(a)) && !CompareWith(Some(a), None)
  {
  }

  /** Selecting a record and syncing back from the value dispatched finds a
      record the select shows as the same one; when locators are unique in
      the list, it is that record. */
  lemma SelectionRoundTrip(items: seq<LookupRecord>, x: LookupRecord)
    requires x in items
    ensures FindByUrl(items, SelectionValue(Some(x))).Some?
    ensures CompareWith(FindByUrl(items, SelectionValue(Some(x))), Some(x))
    ensures (forall i, j :: 0 <= i < j < |items| ==> items[i].url != items[j].url)
            ==> FindByUrl(items, SelectionValue(Some(x))) == Some(x)
  {
    var k :| 0 <= k < |items| && items[k] == x;
    assert UrlEquals(items[k], SelectionValue(Some(x)));
  }

  /** A missing selection syncs back to no selection, provided no record
      has an empty locator; a reset (`null`) filter always does. */
  lemma NoSelectionRoundTrip(items: seq<LookupRecord>)
    ensures (forall i :: 0 <= i < |items| ==> items[i].url != "")
            ==> FindByUrl(items, SelectionValue(None)).None?
    ensures FindByUrl(items, Null).None?
  {
  }

  /** The value dispatched for a missing selection is falsy, so the list
      ignores it whatever the filter's name. */
  lemma NoSelectionIsNoConstraint(people: seq<Person>, name: string)
    ensures PeopleList.ProcessFilter(people, FilterType(name, SelectionValue(None))) == Ok(people)
  {
  }

  /** The value dispatched for a selected species makes the list keep exactly
      the persons of that species. */
  lemma SelectedSpeciesFiltersPeople(people: seq<Person>, x: LookupRecord, p: Person)
    requires x.url != ""
    ensures var r := PeopleList.ProcessFilter(people, FilterType("species", OnSpeciesSelected(Some(x)).filterValue));
      r.Ok? && (p in r.value <==> p in people && x.url in p.species)
  {
    PeopleListProofs.LocatorFilterKeeps(people, "species", x.url, p);
  }

  // ---- The component ----

  /** The form component's state; the subjects and form controls are
      modelled by the values they hold. */
  class PeopleFilterFormComponent {
    var species: Option<seq<LookupRecord>>
    var movies: Option<seq<LookupRecord>>
    var search: Option<string>
    var filteredSpecies: seq<seq<LookupRecord>>
    var speciesControl: Option<LookupRecord>
    var movieControl: Option<LookupRecord>

    constructor ()
      ensures species.None? && movies.None? && search.None?
      ensures filteredSpecies == [] && speciesControl.None? && movieControl.None?
    {
      species := None;
      movies := None;
      search := None;
      filteredSpecies := [];
      speciesControl := None;
      movieControl := None;
    }

    /** The species subscription: store the list and push a copy of it. */
    method OnSpeciesLoaded(list: seq<LookupRecord>)
      modifies this`species, this`filteredSpecies
      ensures species == Some(list)
      ensures filteredSpecies == old(filteredSpecies) + [list]
    {
      species := Some(list);
      filteredSpecies := filteredSpecies + [list];
    }

    /** The movies subscription: store the list. */
    method OnMoviesLoaded(list: seq<LookupRecord>)
      modifies this`movies
      ensures movies == Some(list)
    {
      movies := Some(list);
    }

    /** A change of the search control: record the term and search again. */
    method OnSearchChanged(term: Option<string>)
      modifies this`search, this`filteredSpecies
      ensures search == term
      ensures species.None? ==> filteredSpecies == old(filteredSpecies)
      ensures species.Some? ==> filteredSpecies == old(filteredSpecies) + [SearchSpecies(species.value, term)]
    {
      search := term;
      FilterSpecies();
    }

    /** `filterSpecies`: nothing before the species arrive; otherwise push
        the result of the search. */
    method FilterSpecies()
      modifies this`filteredSpecies
      ensures species.None? ==> filteredSpecies == old(filteredSpecies)
      ensures species.Some? ==> filteredSpecies == old(filteredSpecies) + [SearchSpecies(species.value, search)]
    {
      if species.None? {
        return;
      }
      if search.None? || search.value == "" {
        filteredSpecies := filteredSpecies + [species.value];
        return;
      }
      var term := ToLowerCase(search.value);
      filteredSpecies := filteredSpecies
        + [Sequences.Filter(species.value, NameContains(term))];
    }

    /** The filter-state subscription: select the species and the movie the
        stored filters name. `find` on a list not yet loaded throws, which
        `thrown` reports; the species control is set before the movies are read. */
    method SyncFromFilters(speciesFilter: FilterValue, moviesFilter: FilterValue) returns (thrown: bool)
      modifies this`speciesControl, this`movieControl
      ensures thrown <==> species.None? || movies.None?
      ensures species.None? ==> speciesControl == old(speciesControl) && movieControl == old(movieControl)
      ensures species.Some? ==> speciesControl == FindByUrl(species.value, speciesFilter)
      ensures species.Some? && movies.None? ==> movieControl == old(movieControl)
      ensures species.Some? && movies.Some? ==> movieControl == FindByUrl(movies.value, moviesFilter)
    {
      if species.None? {
        return true;
      }
      speciesControl := FindByUrl(species.value, speciesFilter);
      if movies.None? {
        return true;
      }
      movieControl := FindByUrl(movies.value, moviesFilter);
      thrown := false;
    }
  }
}
