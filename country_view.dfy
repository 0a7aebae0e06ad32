/**
 * The list the country browser shows (src/App.tsx): the loaded countries filtered by the
 * debounced search term and sorted by the chosen option, the number of grid columns for the
 * viewport width, and the grouping of the sorted list into rows of that many cards.
 */
module CountryView {
  import opened CountryTypes
  import opened Text
  import opened Seqs
  import opened StableSort

  /**
   * `localeCompare` is not modelled; any three-way comparison stands for it whose
   * "not after" relation (`lc(a, b) <= 0`) is total and transitive.
   */
  ghost predicate LocaleOrder(lc: (string, string) -> int)
  {
    && (forall a, b :: lc(a, b) <= 0 || lc(b, a) <= 0)
    && (forall a, b, c :: lc(a, b) <= 0 && lc(b, c) <= 0 ==> lc(a, c) <= 0)
  }

  /** The lower-cased common name contains the lower-cased search term. */
  predicate NameMatches(c: Country, term: string)
  {
    Contains(ToLower(c.name.common), ToLower(term))
  }

  function MatchesTerm(term: string): Country -> bool
  {
    (c: Country) => NameMatches(c, term)
  }

  /** Step 1 of the derivation: `countries.filter(...)`. */
  function FilterByName(countries: seq<Country>, term: string): (r: seq<Country>)
    ensures forall c :: c in r <==> c in countries && NameMatches(c, term)
  {
    FilterMembership(countries, MatchesTerm(term));
    Filter(countries, MatchesTerm(term))
  }

  /** The comparator handed to `sort` for each option. */
  function Compare(opt: SortOption, lc: (string, string) -> int, a: Country, b: Country): (r: int)
    ensures opt == PopulationAsc ==> (r <= 0 <==> a.population <= b.population)
    ensures opt == PopulationDesc ==> (r <= 0 <==> b.population <= a.population)
    ensures opt.PopulationAsc? || opt.PopulationDesc? ==> (r == 0 <==> a.population == b.population)
  {
    match opt
    case NameAsc => lc(a.name.common, b.name.common)
    case NameDesc => lc(b.name.common, a.name.common)
    case PopulationAsc => a.population - b.population
    case PopulationDesc => b.population - a.population
  }

  /** `a` may stay before `b`: the comparator does not put it after. */
  function Precedes(opt: SortOption, lc: (string, string) -> int): (Country, Country) -> bool
  {
    (a, b) => Compare(opt, lc, a, b) <= 0
  }

  /** `filteredAndSortedCountries`: filter, then a stable sort of a copy. */
  function FilterAndSort(countries: seq<Country>, term: string, opt: SortOption,
                         lc: (string, string) -> int): (r: seq<Country>)
    ensures multiset(r) == multiset(FilterByName(countries, term))
    ensures forall c :: c in r <==> c in countries && NameMatches(c, term)
  {
    var filtered := FilterByName(countries, term);
    var r := SortBy(filtered, Precedes(opt, lc));
    assert forall c :: c in r <==> c in multiset(filtered);
    r
  }

  /** Every option orders countries by a total preorder once `localeCompare` is one. */
  lemma PrecedesIsTotalPreorder(opt: SortOption, lc: (string, string) -> int)
    requires LocaleOrder(lc)
    ensures TotalPreorder(Precedes(opt, lc))
  {
  }

  /** The filter keeps exactly the matching positions of `countries`, in their original order. */
  lemma FilteredInSourceOrder(countries: seq<Country>, term: string)
    ensures |FilterByName(countries, term)| == |MatchIndices(countries, MatchesTerm(term))|
    ensures forall i :: 0 <= i < |MatchIndices(countries, MatchesTerm(term))| ==>
      MatchIndices(countries, MatchesTerm(term))[i] < |countries| &&
      FilterByName(countries, term)[i] == countries[MatchIndices(countries, MatchesTerm(term))[i]]
    ensures forall i, j :: 0 <= i < j < |MatchIndices(countries, MatchesTerm(term))| ==>
      MatchIndices(countries, MatchesTerm(term))[i] < MatchIndices(countries, MatchesTerm(term))[j]
    ensures forall j :: 0 <= j < |countries| ==>
      (j in MatchIndices(countries, MatchesTerm(term)) <==> NameMatches(countries[j], term))
  {
    FilterKeepsOrder(countries, MatchesTerm(term));
  }

  /** An empty search term keeps every country, in order. */
  lemma EmptyTermKeepsAll(countries: seq<Country>)
    ensures FilterByName(countries, "") == countries
  {
    forall c | c in countries
      ensures MatchesTerm("")(c)
    {
      ContainsEmpty(ToLower(c.name.common));
    }
    FilterAll(countries, MatchesTerm(""));
  }

  /** The sorted list is ordered as the chosen option says. */
  lemma FilterAndSortOrdered(countries: seq<Country>, term: string, opt: SortOption,
                             lc: (string, string) -> int)
    requires LocaleOrder(lc)
    ensures opt == NameAsc ==> forall i, j :: 0 <= i < j < |FilterAndSort(countries, term, opt, lc)| ==>
      lc(FilterAndSort(countries, term, opt, lc)[i].name.common,
         FilterAndSort(countries, term, opt, lc)[j].name.common) <= 0
    ensures opt == NameDesc ==> forall i, j :: 0 <= i < j < |FilterAndSort(countries, term, opt, lc)| ==>
      lc(FilterAndSort(countries, term, opt, lc)[j].name.common,
         FilterAndSort(countries, term, opt, lc)[i].name.common) <= 0
    ensures opt == PopulationAsc ==> forall i, j :: 0 <= i < j < |FilterAndSort(countries, term, opt, lc)| ==>
      FilterAndSort(countries, term, opt, lc)[i].population <= FilterAndSort(countries, term, opt, lc)[j].population
    ensures opt == PopulationDesc ==> forall i, j :: 0 <= i < j < |FilterAndSort(countries, term, opt, lc)| ==>
      FilterAndSort(countries, term, opt, lc)[i].population >= FilterAndSort(countries, term, opt, lc)[j].population
  {
    PrecedesIsTotalPreorder(opt, lc);
    SortBySorted(FilterByName(countries, term), Precedes(opt, lc));
  }

  /** Countries the comparator ranks equal keep their filtered-list order. */
  lemma FilterAndSortStable(countries: seq<Country>, term: string, opt: SortOption,
                            lc: (string, string) -> int)
    requires LocaleOrder(lc)
    ensures Stable(FilterAndSort(countries, term, opt, lc), FilterByName(countries, term), Precedes(opt, lc))
  {
    PrecedesIsTotalPreorder(opt, lc);
    SortByStable(FilterByName(countries, term), Precedes(opt, lc));
  }

  function HasPopulation(p: nat): Country -> bool
  {
    (c: Country) => c.population == p
  }

  /** Under a population order, countries of equal population appear in their filtered-list order. */
  lemma PopulationTiesKeepOrder(countries: seq<Country>, term: string, opt: SortOption,
                                lc: (string, string) -> int, p: nat)
    requires opt == PopulationAsc || opt == PopulationDesc
    ensures Filter(FilterAndSort(countries, term, opt, lc), HasPopulation(p))
         == Filter(FilterByName(countries, term), HasPopulation(p))
  {
    var le := Precedes(opt, lc);
    var filtered := FilterByName(countries, term);
    var r := FilterAndSort(countries, term, opt, lc);
    assert TotalPreorder(le);
    SortByStable(filtered, le);
    var k := Country(CountryName("", ""), None, p, Flags("", "", None), "");
    assert Equivalents(r, le, k) == Equivalents(filtered, le, k);
    FilterCongruent(r, EquivalentTo(le, k), HasPopulation(p));
    FilterCongruent(filtered, EquivalentTo(le, k), HasPopulation(p));
  }

  /** Whatever stable sort the engine uses, it returns exactly FilterAndSort's list. */
  lemma AnyStableSortAgrees(countries: seq<Country>, term: string, opt: SortOption,
                            lc: (string, string) -> int, r: seq<Country>)
    requires LocaleOrder(lc)
    requires Sorted(r, Precedes(opt, lc))
    requires Stable(r, FilterByName(countries, term), Precedes(opt, lc))
    ensures r == FilterAndSort(countries, term, opt, lc)
  {
    PrecedesIsTotalPreorder(opt, lc);
    StableSortIsUnique(FilterByName(countries, term), r, Precedes(opt, lc));
  }

  function Sample(name: string, population: nat): Country
  {
    Country(CountryName(name, name), None, population, Flags("", "", None), "")
  }

  /** Searching "g" over Germany, Greece and France, by ascending population, gives Greece, Germany. */
  lemma SearchGByPopulation(lc: (string, string) -> int)
    ensures FilterAndSort([Sample("Germany", 83000000), Sample("Greece", 10000000), Sample("France", 67000000)],
                          "g", PopulationAsc, lc)
         == [Sample("Greece", 10000000), Sample("Germany", 83000000)]
  {
    var germany, greece, france := Sample("Germany", 83000000), Sample("Greece", 10000000), Sample("France", 67000000);
    SampleMatches();
    var cs := [germany, greece, france];
    var p := MatchesTerm("g");
    assert cs[1..] == [greece, france] && cs[1..][1..] == [france] && [france][1..] == [];
    assert Filter([france], p) == [];
    assert Filter([greece, france], p) == [greece];
    assert FilterByName(cs, "g") == [germany, greece];
    var le := Precedes(PopulationAsc, lc);
    assert SortBy([greece], le) == [greece];
    assert [germany, greece][1..] == [greece];
  }

  lemma SampleMatches()
    ensures NameMatches(Sample("Germany", 83000000), "g")
    ensures NameMatches(Sample("Greece", 10000000), "g")
    ensures !NameMatches(Sample("France", 67000000), "g")
  {
    assert ToLower("g") == "g";
    assert ToLower("Germany") == "germany";
    assert ToLower("Greece") == "greece";
    assert ToLower("France") == "france";
    assert "g" <= "germany" && "g" <= "greece";
    ContainsAt("france", "g");
    forall i ensures !OccursAt("france", "g", i) {
      if 0 <= i <= 5 { assert "france"[i..i + 1][0] == "france"[i] != 'g'; }
    }
  }

  /** The viewport: `window` may be absent (server-side rendering). */
  datatype Viewport = NoWindow | Window(innerWidth: int)

  /** `getColumnCount`: 1, 2, 3 or 4 columns at the 640, 1024 and 1280 pixel breakpoints. */
  function ColumnCount(v: Viewport): (r: int)
    ensures 1 <= r <= 4
    ensures v.NoWindow? ==> r == 4
    ensures v.Window? ==> (r == 1 <==> v.innerWidth < 640)
    ensures v.Window? ==> (r == 2 <==> 640 <= v.innerWidth < 1024)
    ensures v.Window? ==> (r == 3 <==> 1024 <= v.innerWidth < 1280)
    ensures v.Window? ==> (r == 4 <==> 1280 <= v.innerWidth)
  {
    match v
    case NoWindow => 4
    case Window(width) =>
      if width < 640 then 1
      else if width < 1024 then 2
      else if width < 1280 then 3
      else 4
  }

  /** A wider viewport never has fewer columns. */
  lemma ColumnCountMonotone(w1: int, w2: int)
    requires w1 <= w2
    ensures ColumnCount(Window(w1)) <= ColumnCount(Window(w2))
  {
  }

  /** The column count changes exactly at the three breakpoints. */
  lemma ColumnCountSteps(w: int)
    ensures ColumnCount(Window(w)) != ColumnCount(Window(w - 1)) <==> w == 640 || w == 1024 || w == 1280
  {
  }

  /** ceil(n / k) pinned down by the rows it takes: q rows of k hold n items, q - 1 rows do not. */
  lemma CeilingDivision(n: nat, k: int, q: nat)
    requires k >= 1
    requires n <= q * k
    requires q == 0 || (q - 1) * k < n
    ensures q == (n + k - 1) / k
  {
    var c := (n + k - 1) / k;
    assert c * k <= n + k - 1 < c * k + k;
    if q < c {
      MultiplyMonotone(q + 1, c, k);
    }
  }

  lemma MultiplyMonotone(a: int, b: int, k: int)
    requires a <= b && k >= 0
    ensures a * k <= b * k
  {
  }

  /** The `rows` loop: slices of `columnCount` items, the last one possibly shorter. */
  method GroupRows<T>(items: seq<T>, columnCount: int) returns (rows: seq<seq<T>>)
    requires columnCount >= 1
    ensures Flatten(rows) == items
    ensures |rows| == (|items| + columnCount - 1) / columnCount
    ensures forall i :: 0 <= i < |rows| ==> 0 < |rows[i]| <= columnCount
    ensures forall i :: 0 <= i < |rows| - 1 ==> |rows[i]| == columnCount
  {
    rows := [];
    var i := 0;
    while i < |items|
      invariant i == |rows| * columnCount
      invariant Flatten(rows) == items[..Min(i, |items|)]
      invariant forall j :: 0 <= j < |rows| ==> 0 < |rows[j]| <= columnCount
      invariant forall j :: 0 <= j < |rows| - 1 ==> |rows[j]| == columnCount
      invariant i <= |items| ==> forall j :: 0 <= j < |rows| ==> |rows[j]| == columnCount
      invariant |rows| == 0 || (|rows| - 1) * columnCount < |items|
    {
      var row := items[i..Min(i + columnCount, |items|)];
      assert items[..Min(i + columnCount, |items|)] == items[..i] + row;
      rows := rows + [row];
      i := i + columnCount;
    }
    CeilingDivision(|items|, columnCount, |rows|);
  }

  /** The grid App renders: the filtered, sorted list cut into rows of ColumnCount(viewport) cards. */
  method DeriveRows(countries: seq<Country>, debouncedTerm: string, opt: SortOption,
                    lc: (string, string) -> int, viewport: Viewport) returns (rows: seq<seq<Country>>)
    ensures Flatten(rows) == FilterAndSort(countries, debouncedTerm, opt, lc)
    ensures forall i :: 0 <= i < |rows| ==> 0 < |rows[i]| <= ColumnCount(viewport)
    ensures forall i :: 0 <= i < |rows| - 1 ==> |rows[i]| == ColumnCount(viewport)
  {
    var sorted := FilterAndSort(countries, debouncedTerm, opt, lc);
    rows := GroupRows(sorted, ColumnCount(viewport));
  }
}
