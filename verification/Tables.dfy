/** The tables the database writer reads and appends to, and the SELECT
    statements it runs over them, each as a filter over a sequence of rows.
    A statement's `rowcount` is the length of the filtered sequence. */
module Tables {
  import opened Seqs

  /** A row of a catalog table (people, locations, facilities,
      organizations, event). Only locations carry a population and a
      two-letter country code; for the other tables both are None. */
  datatype Row = Row(id: int, name: string, aliases: seq<string>, population: Option<int>, cc2: Option<string>)

  /** A row of the countries reference table. */
  datatype CountryRow = CountryRow(name: string, cc2: string, aliases: seq<string>)

  /** A row of news_articles. */
  datatype ArticleRow = ArticleRow(id: int, title: string, url: string, text: string, website: string)

  /** A row of a link table article_<category>. */
  datatype Link = Link(articleId: int, entityId: int)

  /** A country or first-level administrative area recognised in an
      article: the (name, cc2) pair read from the countries table. */
  datatype AdminRef = AdminRef(name: string, cc2: string)

  datatype Category = People | Locations | Facilities | Organizations | Events

  /** One value per entity category: the five catalog tables, or the five
      link tables. */
  datatype PerCategory<T> = PerCategory(people: T, locations: T, facilities: T, organizations: T, events: T)
  {
    function Get(c: Category): T {
      match c
      case People => people
      case Locations => locations
      case Facilities => facilities
      case Organizations => organizations
      case Events => events
    }

    function Set(c: Category, v: T): (r: PerCategory<T>)
      ensures r.Get(c) == v
      ensures forall d :: d != c ==> r.Get(d) == Get(d)
    {
      match c
      case People => this.(people := v)
      case Locations => this.(locations := v)
      case Facilities => this.(facilities := v)
      case Organizations => this.(organizations := v)
      case Events => this.(events := v)
    }
  }

  /** The number of (row, alias) pairs of `t` whose alias passes `hit`. */
  function HitCount<T>(t: seq<T>, aliases: T -> seq<string>, hit: string -> bool): nat {
    if t == [] then 0 else Count(aliases(t[0]), hit) + HitCount(t[1..], aliases, hit)
  }

  /** The number of elements of `s` that pass `p`. */
  function Count(s: seq<string>, p: string -> bool): nat {
    if s == [] then 0 else (if p(s[0]) then 1 else 0) + Count(s[1..], p)
  }

  /** `SELECT ... FROM t, UNNEST(t.aliases) p WHERE hit(p)`: one output row
      per (row, alias) pair whose alias passes the test, so a row with two
      such aliases is counted twice, and the `rowcount` is HitCount. */
  function Unnest<T(!new)>(t: seq<T>, aliases: T -> seq<string>, hit: string -> bool): (r: seq<T>)
    ensures |r| == HitCount(t, aliases, hit)
    ensures forall x :: x in r ==> x in t && exists a :: a in aliases(x) && hit(a)
  {
    if t == [] then []
    else
      var hits := Select(aliases(t[0]), hit);
      SelectCount(aliases(t[0]), hit);
      var copies := seq(|hits|, _ => t[0]);
      assert forall x :: x in copies ==> x == t[0] && hits[0] in aliases(t[0]) && hit(hits[0]);
      copies + Unnest(t[1..], aliases, hit)
  }

  /** Every row with an alias that passes the test is in the UNNEST result. */
  lemma {:induction false} UnnestComplete<T(!new)>(t: seq<T>, aliases: T -> seq<string>, hit: string -> bool, x: T, a: string)
    requires x in t && a in aliases(x) && hit(a)
    ensures x in Unnest(t, aliases, hit)
  {
    if x == t[0] {
      assert a in Select(aliases(t[0]), hit);
      assert Unnest(t, aliases, hit)[0] == x;
    } else {
      UnnestComplete(t[1..], aliases, hit, x, a);
    }
  }

  /** A filter keeps exactly Count elements. */
  lemma {:induction false} SelectCount(s: seq<string>, p: string -> bool)
    ensures |Select(s, p)| == Count(s, p)
  {
    if s != [] {
      SelectCount(s[1..], p);
    }
  }

  // ---- catalog queries used by _GetUniqueCommon ----

  /** `WHERE name = n` */
  function NameMatches(t: seq<Row>, n: string): seq<Row> {
    Select(t, (r: Row) => r.name == n)
  }

  /** `WHERE aliases @> '{n}'` */
  function AliasMatches(t: seq<Row>, n: string): seq<Row> {
    Select(t, (r: Row) => n in r.aliases)
  }

  /** `WHERE SIMILARITY(name, n) > 0.5` */
  function SimilarNames(t: seq<Row>, n: string, sim: (string, string) -> bool): seq<Row> {
    Select(t, (r: Row) => sim(r.name, n))
  }

  /** `FROM t, UNNEST(t.aliases) p WHERE SIMILARITY(p, n) > 0.5` */
  function SimilarAliases(t: seq<Row>, n: string, sim: (string, string) -> bool): seq<Row> {
    Unnest(t, (r: Row) => r.aliases, (a: string) => sim(a, n))
  }

  // ---- location queries scoped to a country code ----

  /** `WHERE name = n AND cc2 = cc` */
  function NameCcMatches(t: seq<Row>, n: string, cc: string): seq<Row> {
    Select(t, (r: Row) => r.name == n && r.cc2 == Some(cc))
  }

  /** `WHERE SIMILARITY(name, n) > 0.5 AND cc2 = cc` */
  function SimilarCcMatches(t: seq<Row>, n: string, cc: string, sim: (string, string) -> bool): seq<Row> {
    Select(t, (r: Row) => sim(r.name, n) && r.cc2 == Some(cc))
  }

  /** `WHERE aliases @> '{n}' AND cc2 = cc` */
  function AliasCcMatches(t: seq<Row>, n: string, cc: string): seq<Row> {
    Select(t, (r: Row) => n in r.aliases && r.cc2 == Some(cc))
  }

  /** `AND population IS NOT NULL` */
  function Populated(t: seq<Row>): seq<Row> {
    Select(t, (r: Row) => r.population.Some?)
  }

  // ---- countries queries used by _FindCountries ----

  function CountryNameMatches(t: seq<CountryRow>, n: string): seq<CountryRow> {
    Select(t, (c: CountryRow) => c.name == n)
  }

  function CountryAliasMatches(t: seq<CountryRow>, n: string): seq<CountryRow> {
    Select(t, (c: CountryRow) => n in c.aliases)
  }

  function CountrySimilarNames(t: seq<CountryRow>, n: string, sim: (string, string) -> bool): seq<CountryRow> {
    Select(t, (c: CountryRow) => sim(c.name, n))
  }

  function CountrySimilarAliases(t: seq<CountryRow>, n: string, sim: (string, string) -> bool): seq<CountryRow> {
    Unnest(t, (c: CountryRow) => c.aliases, (a: string) => sim(a, n))
  }
}
