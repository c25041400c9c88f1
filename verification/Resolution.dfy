/** The matching cascades of the database writer (DBWriter/DBWriter.py), as
    functions of the table contents they read. None of them changes a
    table: the writes happen one level up, in Pipeline. */
module Resolution {
  import opened Seqs
  import opened Tables

  /** The rule every cascade follows: the first stage that yields exactly
      one row wins; when no stage does, there is no result. Several rows at
      a stage count as ambiguous and the cascade moves on. */
  function FirstUnique<T>(stages: seq<seq<T>>): (r: Option<T>)
    ensures r.Some? <==> exists k :: 0 <= k < |stages| && |stages[k]| == 1
    ensures r.Some? ==> exists k :: 0 <= k < |stages| && |stages[k]| == 1 && r.value == stages[k][0]
                                   && forall j :: 0 <= j < k ==> |stages[j]| != 1
  {
    if stages == [] then None
    else if |stages[0]| == 1 then Some(stages[0][0])
    else
      var r := FirstUnique(stages[1..]);
      assert forall k :: 1 <= k < |stages| ==> stages[k] == stages[1..][k - 1];
      r
  }

  /** FirstUnique over four stages, written out stage by stage. */
  lemma FirstUniqueOfFour<T>(a: seq<T>, b: seq<T>, c: seq<T>, d: seq<T>)
    ensures FirstUnique([a, b, c, d]) ==
      if |a| == 1 then Some(a[0])
      else if |b| == 1 then Some(b[0])
      else if |c| == 1 then Some(c[0])
      else if |d| == 1 then Some(d[0])
      else None
  {
    var s := [a, b, c, d];
    assert s[1..] == [b, c, d] && s[0] == a;
    assert [b, c, d][1..] == [c, d];
    assert [c, d][1..] == [d];
    assert [d][1..] == [];
    assert FirstUnique([d]) == if |d| == 1 then Some(d[0]) else FirstUnique([]);
    assert FirstUnique([c, d]) == if |c| == 1 then Some(c[0]) else FirstUnique([d]);
    assert FirstUnique([b, c, d]) == if |b| == 1 then Some(b[0]) else FirstUnique([c, d]);
    assert FirstUnique(s) == if |a| == 1 then Some(a[0]) else FirstUnique([b, c, d]);
  }

  /** The four stages of _GetUniqueCommon, in the order they are tried. */
  function Stages(t: seq<Row>, n: string, sim: (string, string) -> bool): seq<seq<Row>> {
    [NameMatches(t, n), AliasMatches(t, n), SimilarNames(t, n, sim), SimilarAliases(t, n, sim)]
  }

  /** How a catalog row can match a name in some stage of the cascade. */
  predicate MatchesSomeStage(r: Row, n: string, sim: (string, string) -> bool) {
    r.name == n || n in r.aliases || sim(r.name, n) || exists a :: a in r.aliases && sim(a, n)
  }

  /** _GetUniqueCommon: the id of the row chosen by the cascade over one
      catalog table, or -1 when no stage yields exactly one row. */
  function UniqueCommon(t: seq<Row>, n: string, sim: (string, string) -> bool): (id: int)
    ensures id != -1 ==> exists r :: r in t && r.id == id && MatchesSomeStage(r, n, sim)
  {
    var stages := Stages(t, n, sim);
    assert forall k, x :: 0 <= k < |stages| && x in stages[k] ==> x in t && MatchesSomeStage(x, n, sim);
    match FirstUnique(stages)
    case Some(r) => r.id
    case None => -1
  }

  /** Stage order of _GetUniqueCommon: a stage is consulted only when every
      earlier stage failed to yield exactly one row. */
  lemma UniqueCommonStageOrder(t: seq<Row>, n: string, sim: (string, string) -> bool)
    ensures |NameMatches(t, n)| == 1 ==> UniqueCommon(t, n, sim) == NameMatches(t, n)[0].id
    ensures (|NameMatches(t, n)| != 1 && |AliasMatches(t, n)| == 1) ==>
              UniqueCommon(t, n, sim) == AliasMatches(t, n)[0].id
    ensures (|NameMatches(t, n)| != 1 && |AliasMatches(t, n)| != 1 && |SimilarNames(t, n, sim)| == 1) ==>
              UniqueCommon(t, n, sim) == SimilarNames(t, n, sim)[0].id
    ensures (|NameMatches(t, n)| != 1 && |AliasMatches(t, n)| != 1 && |SimilarNames(t, n, sim)| != 1
             && |SimilarAliases(t, n, sim)| == 1) ==>
              UniqueCommon(t, n, sim) == SimilarAliases(t, n, sim)[0].id
    ensures (|NameMatches(t, n)| != 1 && |AliasMatches(t, n)| != 1 && |SimilarNames(t, n, sim)| != 1
             && |SimilarAliases(t, n, sim)| != 1) ==> UniqueCommon(t, n, sim) == -1
  {
    FirstUniqueOfFour(NameMatches(t, n), AliasMatches(t, n), SimilarNames(t, n, sim), SimilarAliases(t, n, sim));
  }

  /** Read-after-write: once a row for a name that no row carried has been
      added, the cascade resolves that name to the new row. */
  lemma ResolveAfterInsert(t: seq<Row>, n: string, id: int, sim: (string, string) -> bool)
    requires NameMatches(t, n) == []
    ensures UniqueCommon(t + [Row(id, n, [], None, None)], n, sim) == id
  {
    var row := Row(id, n, [], None, None);
    SelectAppend(t, [row], (r: Row) => r.name == n);
    assert NameMatches(t + [row], n) == [row];
    UniqueCommonStageOrder(t + [row], n, sim);
  }

  // ---- countries and first-level administrative areas ----

  /** The four stages of _FindCountries for one location, in order. */
  function CountryStages(countries: seq<CountryRow>, n: string, sim: (string, string) -> bool): seq<seq<CountryRow>> {
    [CountryNameMatches(countries, n), CountryAliasMatches(countries, n),
     CountrySimilarNames(countries, n, sim), CountrySimilarAliases(countries, n, sim)]
  }

  /** `x` is the (name, cc2) pair of a row of the countries table. */
  predicate FromCountries(countries: seq<CountryRow>, x: AdminRef) {
    exists c :: c in countries && x == AdminRef(c.name, c.cc2)
  }

  /** The (name, cc2) pair `_FindCountries` keeps from a countries row. */
  function RefOf(c: CountryRow): AdminRef {
    AdminRef(c.name, c.cc2)
  }

  /** The admin area one location stands for, if the cascade over the
      countries table finds exactly one row at some stage. */
  function CountryOf(countries: seq<CountryRow>, n: string, sim: (string, string) -> bool): (r: Option<AdminRef>)
    ensures r.Some? ==> FromCountries(countries, r.value)
  {
    var stages := CountryStages(countries, n, sim);
    assert forall k, x :: 0 <= k < |stages| && x in stages[k] ==> x in countries;
    match FirstUnique(stages)
    case Some(c) => Some(RefOf(c))
    case None => None
  }

  /** Stage order of _FindCountries for one location: exact name, alias,
      similar name, similar alias; the first stage with exactly one row
      gives the area. */
  lemma CountryOfStageOrder(countries: seq<CountryRow>, n: string, sim: (string, string) -> bool)
    ensures CountryOf(countries, n, sim) ==
      if |CountryNameMatches(countries, n)| == 1 then Some(RefOf(CountryNameMatches(countries, n)[0]))
      else if |CountryAliasMatches(countries, n)| == 1 then Some(RefOf(CountryAliasMatches(countries, n)[0]))
      else if |CountrySimilarNames(countries, n, sim)| == 1 then Some(RefOf(CountrySimilarNames(countries, n, sim)[0]))
      else if |CountrySimilarAliases(countries, n, sim)| == 1 then Some(RefOf(CountrySimilarAliases(countries, n, sim)[0]))
      else None
  {
    FirstUniqueOfFour(CountryNameMatches(countries, n), CountryAliasMatches(countries, n),
                      CountrySimilarNames(countries, n, sim), CountrySimilarAliases(countries, n, sim));
  }

  /** The admin area of one location as a list of zero or one element
      (what one turn of the loop appends to `returnList`). */
  function AreaOf(countries: seq<CountryRow>, n: string, sim: (string, string) -> bool): (r: seq<AdminRef>)
    ensures |r| <= 1
    ensures forall x :: x in r ==> FromCountries(countries, x)
  {
    match CountryOf(countries, n, sim) case Some(a) => [a] case None => []
  }

  /** _FindCountries on a working connection: the admin areas among the
      article's locations, at most one per location, in input order, each a
      row of the countries table. */
  function AdminAreas(countries: seq<CountryRow>, locs: seq<string>, sim: (string, string) -> bool): (r: seq<AdminRef>)
    ensures |r| <= |locs|
    ensures forall x :: x in r ==> FromCountries(countries, x)
  {
    var f := (n: string) => AreaOf(countries, n, sim);
    FlatMapAtMostOne(locs, f);
    FlatMap(locs, f)
  }

  /** AdminAreas treats each location on its own: the areas of a
      concatenation are the areas of the parts, in order. */
  lemma AdminAreasAppend(countries: seq<CountryRow>, xs: seq<string>, ys: seq<string>,
                         sim: (string, string) -> bool)
    ensures AdminAreas(countries, xs + ys, sim) == AdminAreas(countries, xs, sim) + AdminAreas(countries, ys, sim)
  {
    FlatMapAppend(xs, ys, (n: string) => AreaOf(countries, n, sim));
  }

  /** One more location adds its own area, if any, at the end. */
  lemma AdminAreasSnoc(countries: seq<CountryRow>, xs: seq<string>, y: string, sim: (string, string) -> bool)
    ensures AdminAreas(countries, xs + [y], sim) == AdminAreas(countries, xs, sim) + AreaOf(countries, y, sim)
  {
    var f := (n: string) => AreaOf(countries, n, sim);
    FlatMapAppend(xs, [y], f);
    FlatMapSingle(y, f);
  }

  // ---- location disambiguation, cases two and three ----

  /** The row with the largest population (`ORDER BY population DESC`,
      first row); among equal populations the earliest row. */
  function Highest(rows: seq<Row>): (h: Row)
    requires rows != []
    requires forall r :: r in rows ==> r.population.Some?
    ensures h in rows
    ensures forall r :: r in rows ==> r.population.value <= h.population.value
  {
    if |rows| == 1 then rows[0]
    else
      var rest := Highest(rows[1..]);
      assert forall r :: r in rows ==> r == rows[0] || r in rows[1..];
      if rows[0].population.value >= rest.population.value then rows[0] else rest
  }

  /** How a location row can match a name inside one country. */
  predicate MatchesInCountry(row: Row, n: string, cc: string, sim: (string, string) -> bool) {
    row.cc2 == Some(cc) && (row.name == n || sim(row.name, n) || n in row.aliases)
  }

  /** The loop of _LocationCaseTwo over the admin list, in list order. For
      each area: exactly one name+cc2 row is taken; several are settled by
      the largest non-null population, and when none of them has one the
      call ends with no result (the `fetchone()` of an empty result is
      None, subscripting it raises, and the handler returns False without
      trying later areas); otherwise a single similarity+cc2 row, then a
      single alias+cc2 row, is taken. */
  function CaseTwoFrom(t: seq<Row>, n: string, admins: seq<AdminRef>, sim: (string, string) -> bool): (r: Option<int>)
    ensures r.Some? ==> exists row, i :: row in t && 0 <= i < |admins| && row.id == r.value
                                         && MatchesInCountry(row, n, admins[i].cc2, sim)
    decreases |admins|
  {
    if admins == [] then None
    else
      var cc := admins[0].cc2;
      var exact := NameCcMatches(t, n, cc);
      var similar := SimilarCcMatches(t, n, cc, sim);
      var aliased := AliasCcMatches(t, n, cc);
      assert forall row :: row in exact ==> row in t && MatchesInCountry(row, n, admins[0].cc2, sim);
      assert forall row :: row in similar ==> row in t && MatchesInCountry(row, n, admins[0].cc2, sim);
      assert forall row :: row in aliased ==> row in t && MatchesInCountry(row, n, admins[0].cc2, sim);
      if |exact| == 1 then Some(exact[0].id)
      else if |exact| > 1 then
        var pop := Populated(exact);
        if pop == [] then None else Some(Highest(pop).id)
      else if |similar| == 1 then Some(similar[0].id)
      else if |aliased| == 1 then Some(aliased[0].id)
      else
        var r := CaseTwoFrom(t, n, admins[1..], sim);
        assert forall i :: 1 <= i < |admins| ==> admins[i] == admins[1..][i - 1];
        r
  }

  /** _LocationCaseTwo: no result for an empty admin list or location. */
  function CaseTwo(t: seq<Row>, n: string, admins: seq<AdminRef>, sim: (string, string) -> bool): (r: Option<int>)
    ensures (admins == [] || n == "") ==> r == None
    ensures r.Some? ==> exists row, i :: row in t && 0 <= i < |admins| && row.id == r.value
                                         && MatchesInCountry(row, n, admins[i].cc2, sim)
  {
    if admins == [] || n == "" then None else CaseTwoFrom(t, n, admins, sim)
  }

  /** The order of case two within the first admin area: a single exact
      name+cc2 row; else, among several, the most populous (none when no
      row has a population); else a single similar row; else a single alias
      row; and when none of these settles the area, the next areas are
      tried as if the first were absent. */
  lemma CaseTwoStageOrder(t: seq<Row>, n: string, admins: seq<AdminRef>, sim: (string, string) -> bool)
    requires admins != [] && n != ""
    ensures var exact := NameCcMatches(t, n, admins[0].cc2);
            var similar := SimilarCcMatches(t, n, admins[0].cc2, sim);
            var aliased := AliasCcMatches(t, n, admins[0].cc2);
            (|exact| == 1 ==> CaseTwo(t, n, admins, sim) == Some(exact[0].id))
            && (|exact| > 1 && Populated(exact) != [] ==>
                  CaseTwo(t, n, admins, sim) == Some(Highest(Populated(exact)).id))
            && (|exact| > 1 && Populated(exact) == [] ==> CaseTwo(t, n, admins, sim) == None)
            && (exact == [] && |similar| == 1 ==> CaseTwo(t, n, admins, sim) == Some(similar[0].id))
            && (exact == [] && |similar| != 1 && |aliased| == 1 ==> CaseTwo(t, n, admins, sim) == Some(aliased[0].id))
            && (exact == [] && |similar| != 1 && |aliased| != 1 ==>
                  CaseTwo(t, n, admins, sim) == CaseTwo(t, n, admins[1..], sim))
  {
  }

  /** Whether the stages of case two settle an admin area (with a row, or
      with the abort on several unpopulated exact rows). */
  predicate SettlesArea(t: seq<Row>, n: string, cc: string, sim: (string, string) -> bool) {
    NameCcMatches(t, n, cc) != [] || |SimilarCcMatches(t, n, cc, sim)| == 1 || |AliasCcMatches(t, n, cc)| == 1
  }

  /** Case two has no result when no admin area is settled; otherwise it
      is decided by the first area that is. */
  lemma {:induction false} CaseTwoFirstSettled(t: seq<Row>, n: string, admins: seq<AdminRef>, k: nat,
                                               sim: (string, string) -> bool)
    requires n != "" && k <= |admins|
    requires forall i :: 0 <= i < k ==> !SettlesArea(t, n, admins[i].cc2, sim)
    ensures CaseTwo(t, n, admins, sim) == CaseTwo(t, n, admins[k..], sim)
    decreases k
  {
    if k > 0 {
      assert !SettlesArea(t, n, admins[0].cc2, sim);
      CaseTwoStageOrder(t, n, admins, sim);
      var rest := admins[1..];
      assert CaseTwo(t, n, admins, sim) == CaseTwo(t, n, rest, sim);
      assert forall i :: 0 <= i < k - 1 ==> rest[i] == admins[i + 1];
      CaseTwoFirstSettled(t, n, rest, k - 1, sim);
      assert rest[k - 1..] == admins[k..];
    }
  }

  /** Case two has no result when no admin area is settled. */
  lemma CaseTwoNoneWhenUnsettled(t: seq<Row>, n: string, admins: seq<AdminRef>, sim: (string, string) -> bool)
    requires forall i :: 0 <= i < |admins| ==> !SettlesArea(t, n, admins[i].cc2, sim)
    ensures CaseTwo(t, n, admins, sim) == None
  {
    if n != "" {
      CaseTwoFirstSettled(t, n, admins, |admins|, sim);
      assert admins[|admins|..] == [];
    }
  }

  /** A filter over two rows tests each of them. */
  lemma SelectPair<T(!new)>(x: T, y: T, p: T -> bool)
    ensures Select([x, y], p) == (if p(x) then [x] else []) + (if p(y) then [y] else [])
  {
    assert [x, y][1..] == [y] && [y][1..] == [];
  }

  /** The locations table of the Paris example: an American Paris listed
      before the French one. */
  function ParisRows(): seq<Row> {
    [Row(1, "Paris", [], Some(25000), Some("US")), Row(2, "Paris", [], Some(2100000), Some("FR"))]
  }

  /** With two rows named "Paris" and no aliases, the common cascade finds
      no single row, whatever the similarity test says. */
  lemma ParisCaseOneFails(sim: (string, string) -> bool)
    ensures UniqueCommon(ParisRows(), "Paris", sim) == -1
  {
    var t := ParisRows();
    SelectPair(t[0], t[1], (r: Row) => r.name == "Paris");
    SelectPair(t[0], t[1], (r: Row) => "Paris" in r.aliases);
    SelectPair(t[0], t[1], (r: Row) => sim(r.name, "Paris"));
    assert t[1..] == [t[1]] && [t[1]][1..] == [];
    assert HitCount(t, (r: Row) => r.aliases, (a: string) => sim(a, "Paris")) == 0;
    UniqueCommonStageOrder(t, "Paris", sim);
  }

  /** An article naming Paris and France: France is the first admin area
      found among its locations, whether or not "Paris" is judged similar
      to "France". */
  lemma FranceIsFirstArea(sim: (string, string) -> bool)
    ensures var admins := AdminAreas([CountryRow("France", "FR", [])], ["Paris", "France"], sim);
            admins != [] && admins[0] == AdminRef("France", "FR")
  {
    var countries := [CountryRow("France", "FR", [])];
    assert CountryNameMatches(countries, "France") == countries;
    CountryOfStageOrder(countries, "France", sim);
    AdminAreasSnoc(countries, ["Paris"], "France", sim);
    assert ["Paris"] + ["France"] == ["Paris", "France"];
    var admins := AdminAreas(countries, ["Paris", "France"], sim);
    assert admins[|admins| - 1] == AdminRef("France", "FR");
    assert admins[0] in admins;
  }

  /** Case two for "Paris" with France as the first admin area picks the
      French Paris, even though the American one is listed first. */
  lemma CaseTwoPrefersNamedCountry(admins: seq<AdminRef>, sim: (string, string) -> bool)
    requires admins != [] && admins[0].cc2 == "FR"
    ensures CaseTwo(ParisRows(), "Paris", admins, sim) == Some(2)
  {
    var t := ParisRows();
    SelectPair(t[0], t[1], (r: Row) => r.name == "Paris" && r.cc2 == Some("FR"));
    CaseTwoStageOrder(t, "Paris", admins, sim);
  }

  /** The abort path of case two: when the first admin area has several
      exact name+cc2 rows and none of them has a population, case two gives
      no result, whatever later areas would have matched. */
  lemma CaseTwoAbortsOnUnpopulatedDuplicates(t: seq<Row>, n: string, admins: seq<AdminRef>,
                                             sim: (string, string) -> bool)
    requires admins != [] && n != ""
    requires |NameCcMatches(t, n, admins[0].cc2)| > 1
    requires Populated(NameCcMatches(t, n, admins[0].cc2)) == []
    ensures CaseTwo(t, n, admins, sim) == None
  {
  }

  /** _LocationCaseThree: with an article id and a location, and at least
      two rows of that exact name with a population, the most populous of
      them; otherwise no result. */
  function CaseThree(t: seq<Row>, articleId: int, n: string): (r: Option<int>)
    ensures r.Some? <==> articleId != 0 && n != "" && |Populated(NameMatches(t, n))| >= 2
    ensures r.Some? ==> exists row :: row in t && row.id == r.value && row.name == n && row.population.Some?
                          && forall other :: other in t && other.name == n && other.population.Some? ==>
                                               other.population.value <= row.population.value
  {
    if articleId == 0 || n == "" then None
    else
      var rows := Populated(NameMatches(t, n));
      if |rows| > 1 then
        var h := Highest(rows);
        assert forall other :: other in t && other.name == n && other.population.Some? ==> other in rows;
        Some(h.id)
      else None
  }
}
