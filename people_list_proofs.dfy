/** Properties of the people list: what the filter fold computes, that it
    is conjunctive, order-independent, idempotent and narrowing; what each
    branch of the per-filter predicate keeps; the birth-year conversion;
    the page window and the selection helpers. */
module PeopleListProofs {
  import opened Optional
  import opened Models
  import opened JsBuiltins
  import opened PeopleList
  import Sequences

  // ---- The reference meaning of the fold ----

  /** What `handleFiltering` should deliver: the persons satisfying every
      filter, recounted, when at least one filter is not `null`; the full
      state untouched otherwise. */
  function Conjunction(state: PeopleState, filters: seq<FilterType>, pageSize: PageSize): PeopleState
  {
    if HasActive(filters) then
      var r := Select(state.results, filters);
      state.(count := |r|, results := r, totalPages := CeilDiv(|r|, pageSize))
    else state
  }

  lemma SelectCongruent(people: seq<Person>, fs: seq<FilterType>, gs: seq<FilterType>)
    requires forall i :: 0 <= i < |people| ==> PassesAll(fs, people[i]) == PassesAll(gs, people[i])
    ensures Select(people, fs) == Select(people, gs)
  {
    Sequences.FilterCongruent(people, p => PassesAll(fs, p), p => PassesAll(gs, p));
  }

  /** Selecting with `fs` and then with `gs` is selecting with both. */
  lemma SelectThen(people: seq<Person>, fs: seq<FilterType>, gs: seq<FilterType>)
    ensures Select(Select(people, fs), gs) == Select(people, fs + gs)
  {
    forall p ensures PassesAll(fs + gs, p) == (PassesAll(fs, p) && PassesAll(gs, p)) {
      assert forall f :: f in fs + gs <==> f in fs || f in gs;
    }
    Sequences.FilterTwice(people, p => PassesAll(fs, p), p => PassesAll(gs, p), p => PassesAll(fs + gs, p));
  }

  /** Selecting twice with the same filters is selecting once. */
  lemma SelectIdempotent(people: seq<Person>, fs: seq<FilterType>)
    ensures Select(Select(people, fs), fs) == Select(people, fs)
  {
    Sequences.FilterTwice(people, p => PassesAll(fs, p), p => PassesAll(fs, p), p => PassesAll(fs, p));
  }

  /** With no active filter, every person passes. */
  lemma SelectInactive(people: seq<Person>, fs: seq<FilterType>)
    requires !HasActive(fs)
    ensures Select(people, fs) == people
  {
    forall p ensures PassesAll(fs, p) {
      forall f | f in fs ensures Passes(f, p) {
        assert f.value == Null;
      }
    }
    Sequences.FilterAll(people, p => PassesAll(fs, p));
  }

  /** The fold computes the conjunction of its filters, provided no filter
      names a property that is not there. */
  lemma {:induction false} ApplyFiltersIsConjunction(state: PeopleState, filters: seq<FilterType>, pageSize: PageSize)
    requires forall f :: f in filters ==> Applicable(f)
    ensures ApplyFilters(state, filters, pageSize) == Ok(Conjunction(state, filters, pageSize))
    decreases |filters|
  {
    if filters != [] {
      var f, rest := filters[0], filters[1..];
      assert filters == [f] + rest;
      assert forall g :: g in filters <==> g == f || g in rest;
      var ps := state.results;
      if f.value == Null {
        ApplyFiltersIsConjunction(state, rest, pageSize);
        assert HasActive(filters) == HasActive(rest);
        forall i | 0 <= i < |ps| ensures PassesAll(filters, ps[i]) == PassesAll(rest, ps[i]) {
          assert Passes(f, ps[i]);
        }
        SelectCongruent(ps, filters, rest);
      } else {
        assert Applicable(f);
        var next := FilteredState(state, f, pageSize).value;
        ApplyFiltersIsConjunction(next, rest, pageSize);
        SelectThen(ps, [f], rest);
        if !HasActive(rest) {
          SelectInactive(Select(ps, [f]), rest);
        }
      }
    }
  }

  /** The fold does not depend on the order of the filters. */
  lemma ApplyFiltersOrderIndependent(state: PeopleState, fs: seq<FilterType>, gs: seq<FilterType>, pageSize: PageSize)
    requires multiset(fs) == multiset(gs)
    requires forall f :: f in fs ==> Applicable(f)
    ensures ApplyFilters(state, fs, pageSize) == ApplyFilters(state, gs, pageSize)
  {
    assert forall f :: f in fs <==> f in gs by {
      forall f ensures f in fs <==> f in gs {
        assert f in fs <==> f in multiset(fs);
        assert f in gs <==> f in multiset(gs);
      }
    }
    ApplyFiltersIsConjunction(state, fs, pageSize);
    ApplyFiltersIsConjunction(state, gs, pageSize);
    assert HasActive(fs) == HasActive(gs);
    SelectCongruent(state.results, fs, gs);
  }

  /** Without `Applicable` the order does matter: a filter on a field persons
      do not have throws only while persons remain, so a filter that empties
      the list first hides the error. */
  lemma UndefinedFieldOrderMatters()
    ensures var p := Person("Luke", "19BBY", [], [], "people/1/");
      var st := PeopleState(1, [p], 1);
      var known := FilterType("species", Str("A"));
      var unknown := FilterType("vehicles", Str("x"));
      ApplyFilters(st, [known, unknown], 10).Ok? && ApplyFilters(st, [unknown, known], 10).Err?
  {
    var p := Person("Luke", "19BBY", [], [], "people/1/");
    var st := PeopleState(1, [p], 1);
    var known := FilterType("species", Str("A"));
    var unknown := FilterType("vehicles", Str("x"));
    assert !Passes(known, p);
    SelectUnfold([p], [known]);
    PassesAllSingle(known, p);
    assert Select([p], [known]) == [];
    var next := FilteredState(st, known, 10).value;
    assert ApplyFilters(st, [known, unknown], 10) == ApplyFilters(next, [unknown], 10);
    assert [known, unknown][1..] == [unknown];
    assert !Resolves("vehicles");
    assert ProcessFilter([p], unknown).Err?;
  }

  /** Folding the same filters over the fold's own result changes nothing. */
  lemma ApplyFiltersIdempotent(state: PeopleState, filters: seq<FilterType>, pageSize: PageSize)
    requires forall f :: f in filters ==> Applicable(f)
    ensures ApplyFilters(state, filters, pageSize).Ok?
    ensures var once := ApplyFilters(state, filters, pageSize).value;
      ApplyFilters(once, filters, pageSize) == Ok(once)
  {
    ApplyFiltersIsConjunction(state, filters, pageSize);
    var once := Conjunction(state, filters, pageSize);
    ApplyFiltersIsConjunction(once, filters, pageSize);
    if HasActive(filters) {
      SelectIdempotent(state.results, filters);
    }
  }

  /** One more filter can only remove records, never reorder them. */
  lemma AddingFilterNarrows(state: PeopleState, filters: seq<FilterType>, f: FilterType, pageSize: PageSize)
    requires forall g :: g in filters + [f] ==> Applicable(g)
    ensures ApplyFilters(state, filters, pageSize).Ok? && ApplyFilters(state, filters + [f], pageSize).Ok?
    ensures var before := ApplyFilters(state, filters, pageSize).value.results;
      var after := ApplyFilters(state, filters + [f], pageSize).value.results;
      Sequences.IsSubsequence(after, before) && |after| <= |before|
  {
    assert forall g :: g in filters ==> g in filters + [f];
    ApplyFiltersIsConjunction(state, filters, pageSize);
    ApplyFiltersIsConjunction(state, filters + [f], pageSize);
    var ps := state.results;
    var before := Conjunction(state, filters, pageSize).results;
    var after := Conjunction(state, filters + [f], pageSize).results;
    if HasActive(filters + [f]) {
      SelectThen(ps, filters, [f]);
      if HasActive(filters) {
        Sequences.FilterIsSubsequence(Select(ps, filters), p => PassesAll([f], p));
      } else {
        Sequences.FilterIsSubsequence(ps, p => PassesAll(filters + [f], p));
      }
    } else {
      assert !HasActive(filters);
      assert after == before;
      Sequences.FilterIsSubsequence(ps, p => PassesAll(filters, p));
      SelectInactive(ps, filters);
    }
    Sequences.SubsequenceLength(after, before);
  }

  /** Resetting every filter to `null` gives back the full state. */
  lemma {:induction false} AllNullFiltersKeepState(state: PeopleState, filters: seq<FilterType>, pageSize: PageSize)
    requires forall i :: 0 <= i < |filters| ==> filters[i].value == Null
    ensures ApplyFilters(state, filters, pageSize) == Ok(state)
    decreases |filters|
  {
    if filters != [] {
      AllNullFiltersKeepState(state, filters[1..], pageSize);
    }
  }

  // ---- One filter ----

  /** `processFilter` returns the kept persons in their original order, each
      with its multiplicity. */
  lemma ProcessFilterPreservesOrder(people: seq<Person>, f: FilterType, p: Person)
    requires ProcessFilter(people, f).Ok?
    ensures var r := ProcessFilter(people, f).value;
      Sequences.IsSubsequence(r, people)
      && multiset(r)[p] == if Passes(f, p) then multiset(people)[p] else 0
  {
    Sequences.FilterIsSubsequence(people, q => PassesAll([f], q));
    Sequences.FilterMultiplicity(people, q => PassesAll([f], q), p);
    PassesAllSingle(f, p);
  }

  /** Membership in the result of one filter. */
  lemma ProcessFilterMembership(people: seq<Person>, f: FilterType, p: Person)
    requires ProcessFilter(people, f).Ok?
    ensures p in ProcessFilter(people, f).value <==> p in people && Passes(f, p)
  {
    Sequences.FilterMembership(people, q => PassesAll([f], q), p);
    PassesAllSingle(f, p);
  }

  /** `bornFrom`: kept exactly when the converted year is a number at least
      the bound; `NaN` years are never kept. */
  lemma BornFromKeeps(people: seq<Person>, bound: int, p: Person)
    requires bound != 0
    ensures var r := ProcessFilter(people, FilterType("bornFrom", Num(bound)));
      r.Ok? && (p in r.value <==> p in people && ConvertSWYear(p.birth_year).Some?
                                  && ConvertSWYear(p.birth_year).value >= bound)
  {
    ProcessFilterMembership(people, FilterType("bornFrom", Num(bound)), p);
  }

  /** `bornTo`: kept exactly when the converted year is a number at most
      the bound; `NaN` years are never kept. */
  lemma BornToKeeps(people: seq<Person>, bound: int, p: Person)
    requires bound != 0
    ensures var r := ProcessFilter(people, FilterType("bornTo", Num(bound)));
      r.Ok? && (p in r.value <==> p in people && ConvertSWYear(p.birth_year).Some?
                                  && ConvertSWYear(p.birth_year).value <= bound)
  {
    ProcessFilterMembership(people, FilterType("bornTo", Num(bound)), p);
  }

  /** A range bound given as the numeral of `n` compares like the number `n`,
      since `Number(String(n))` is `n`; only the zero bound differs, because
      the string `"0"` is truthy where the number `0` is not. */
  lemma RangeBoundNumeral(people: seq<Person>, name: string, n: int)
    requires IsRangeFilter(name)
    ensures Bound(Str(IntToString(n))) == Some(n)
    ensures Truthy(Str(IntToString(n)))
    ensures n != 0 ==> ProcessFilter(people, FilterType(name, Str(IntToString(n))))
                       == ProcessFilter(people, FilterType(name, Num(n)))
  {
    StringToNumberOfIntToString(n);
    var fs, fn := FilterType(name, Str(IntToString(n))), FilterType(name, Num(n));
    assert IntToString(n) != "";
    if n != 0 {
      forall q | q in people
        ensures PassesAll([fs], q) == PassesAll([fn], q)
      {
        PassesAllSingle(fs, q);
        PassesAllSingle(fn, q);
      }
      Sequences.FilterCongruent(people, q => PassesAll([fs], q), q => PassesAll([fn], q));
    }
  }

  /** The default branch on a locator list: kept exactly when the list holds
      the filter's locator. */
  lemma LocatorFilterKeeps(people: seq<Person>, name: string, locator: string, p: Person)
    requires name == "species" || name == "films"
    requires locator != ""
    ensures var r := ProcessFilter(people, FilterType(name, Str(locator)));
      r.Ok? && (p in r.value <==> p in people
                                  && locator in (if name == "species" then p.species else p.films))
  {
    ProcessFilterMembership(people, FilterType(name, Str(locator)), p);
  }

  /** A numeric value in the default branch matches no locator, since
      `indexOf` compares strictly. */
  lemma NumberNeverMatchesLocators(people: seq<Person>, name: string, n: int)
    requires name == "species" || name == "films"
    requires n != 0
    ensures ProcessFilter(people, FilterType(name, Num(n))) == Ok([])
  {
    var f := FilterType(name, Num(n));
    forall p | p in people ensures !Passes(f, p) {
    }
    var r := ProcessFilter(people, f).value;
    if r != [] {
      ProcessFilterMembership(people, f, r[0]);
    }
  }

  // ---- Birth-year conversion ----

  lemma ConvertBBY()
    ensures ConvertSWYear("19BBY") == Some(-19)
  {
    assert "19BBY"[..2] == NatToString(19) + [];
    ParseIntOfNumeralPrefix(19, []);
  }

  lemma ConvertABY()
    ensures ConvertSWYear("8ABY") == Some(8)
  {
    assert "8ABY"[..1] == NatToString(8) + [];
    ParseIntOfNumeralPrefix(8, []);
  }

  lemma ConvertFractionalYear()
    ensures ConvertSWYear("41.9BBY") == Some(-41)
  {
    assert "41.9BBY"[..4] == NatToString(41) + ".9";
    ParseIntOfNumeralPrefix(41, ".9");
  }

  lemma ConvertUnknown()
    ensures ConvertSWYear("unknown") == None
  {
    assert "unknown"[..4] == "unkn";
  }

  /** A year without a digit before the era, or with no room for one, is `NaN`. */
  lemma ConvertShort(birthYear: string)
    requires |birthYear| <= 3
    ensures ConvertSWYear(birthYear) == None
  {
  }

  /** For an unsigned numeral before the era, the year is negative exactly
      for `BBY` with a non-zero numeral, and its magnitude is the numeral. */
  lemma ConvertSign(n: nat, era: string)
    requires |era| == 3 && !IsDigit(era[0])
    ensures ConvertSWYear(NatToString(n) + era) == Some(if era == "BBY" then -(n as int) else n)
    ensures ConvertSWYear(NatToString(n) + era).value < 0 <==> era == "BBY" && n > 0
  {
    var s := NatToString(n) + era;
    assert s[..|s| - 3] == NatToString(n) + [];
    assert s[|s| - 3..] == era;
    ParseIntOfNumeralPrefix(n, []);
  }

  // ---- Paging and selection ----

  /** For a page from 1 on, `byPage` is the window `[(page-1)*size, page*size)`
      clipped to the list, and it is empty exactly past the last page. */
  lemma ByPageWindow(c: PeopleListComponent, items: seq<Person>)
    requires c.page >= 1
    ensures var lo := (c.page - 1) * c.pageSize;
      c.ByPage(items) == items[Min(lo, |items|)..Min(lo + c.pageSize, |items|)]
    ensures c.ByPage(items) == [] <==> c.page > CeilDiv(|items|, c.pageSize)
  {
    PageSliceWindow(items, c.page, c.pageSize);
  }

  /** `personNumber(index)` is the 1-based position in the whole list of the
      record shown at `index` on the current page. */
  lemma PersonNumberLocates(c: PeopleListComponent, items: seq<Person>, index: int)
    requires c.page >= 1
    requires 0 <= index < |c.ByPage(items)|
    ensures 1 <= c.PersonNumber(index) <= |items|
    ensures items[c.PersonNumber(index) - 1] == c.ByPage(items)[index]
  {
    ByPageWindow(c, items);
    var lo := (c.page - 1) * c.pageSize;
    assert lo >= 0 by {
      assert (c.page - 1) * c.pageSize >= 0;
    }
    assert c.PersonNumber(index) - 1 == lo + index;
  }

  /** `personUrlId` returns the segment between the last two slashes of a
      locator that ends in a slash. */
  lemma PersonUrlIdExtracts(prefix: string, id: string)
    requires '/' !in id
    ensures PersonUrlId(prefix + "/" + id + "/") == id
  {
    var url := prefix + "/" + id + "/";
    var n := |url|;
    var last := LastIndexOf(url, '/', n);
    assert url[n - 1] == '/';
    assert last == n - 1;
    var second := LastIndexOf(url, '/', last - 1);
    assert url[|prefix|] == '/';
    assert forall k :: |prefix| < k <= n - 2 ==> url[k] == id[k - |prefix| - 1];
    assert second == |prefix|;
    assert url[|prefix| + 1..n - 1] == id;
  }

  lemma PersonUrlIdExample()
    ensures PersonUrlId("https://swapi.co/api/people/4/") == "4"
  {
    assert "https://swapi.co/api/people/4/" == "https://swapi.co/api/people" + "/" + "4" + "/";
    PersonUrlIdExtracts("https://swapi.co/api/people", "4");
  }

  /** Without the final slash, `personUrlId` returns the segment before the
      id, a slash and the id less its last character. */
  lemma PersonUrlIdWithoutTrailingSlash(prefix: string, collection: string, id: string)
    requires '/' !in collection && '/' !in id && id != ""
    ensures PersonUrlId(prefix + "/" + collection + "/" + id) == collection + "/" + id[..|id| - 1]
  {
    var url := prefix + "/" + collection + "/" + id;
    var n := |url|;
    var slash := |prefix| + 1 + |collection|;
    assert url[slash] == '/';
    assert forall k :: slash < k < n ==> url[k] == id[k - slash - 1];
    var last := LastIndexOf(url, '/', n);
    assert last == slash;
    assert url[|prefix|] == '/';
    assert forall k :: |prefix| < k < slash ==> url[k] == collection[k - |prefix| - 1];
    var second := LastIndexOf(url, '/', last - 1);
    assert second == |prefix|;
    assert url[|prefix| + 1..n - 1] == collection + "/" + id[..|id| - 1];
  }

  // ---- A worked scenario ----

  /** Three persons of species A, A and B; filtering on A keeps the first
      two, recounted on one page. */
  lemma SpeciesScenario(a: Person, b: Person, c: Person)
    requires a.species == ["A"] && b.species == ["A"] && c.species == ["B"]
    ensures ApplyFilters(PeopleState(3, [a, b, c], 1), [FilterType("species", Str("A"))], 10)
            == Ok(PeopleState(2, [a, b], 1))
  {
    var f := FilterType("species", Str("A"));
    SelectUnfold([a, b, c], [f]);
    SelectUnfold([b, c], [f]);
    SelectUnfold([c], [f]);
    PassesAllSingle(f, a);
    PassesAllSingle(f, b);
    PassesAllSingle(f, c);
    assert [a, b, c][1..] == [b, c] && [b, c][1..] == [c] && [c][1..] == [];
    assert Passes(f, a) && Passes(f, b) && !Passes(f, c);
    assert Select([a, b, c], [f]) == [a, b];
    assert f in [f];
    ApplyFiltersIsConjunction(PeopleState(3, [a, b, c], 1), [f], 10);
    assert CeilDiv(2, 10) == 1;
  }

  /** A client of the component: after paging to page 3, applying the species
      filter returns to page 1 with the two matching persons. */
  method SpeciesFilterResetsPage(a: Person, b: Person, c: Person)
    requires a.species == ["A"] && b.species == ["A"] && c.species == ["B"]
  {
    var list := new PeopleListComponent(10);
    list.OnAllLoaded(true, PeopleState(3, [a, b, c], 1));
    list.OnNextPage();
    list.OnNextPage();
    assert list.page == 3;
    var f := FilterType("species", Str("A"));
    list.HandleFiltering([f]);
    SpeciesScenario(a, b, c);
    assert list.page == 1;
    assert list.peopleFiltered == Some(Ok(PeopleState(2, [a, b], 1)));
  }
}
