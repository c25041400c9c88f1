/** What the database writer does to the database, as functions from the
    database before a call to the database after it (DBWriter/DBWriter.py
    on a working connection). The class in Writer performs the same steps
    statement by statement and is proved to end in these states. */
module Pipeline {
  import opened Seqs
  import opened Tables
  import opened Resolution
  import opened Articles

  /** The tables the writer appends to, and the next id the database hands
      out for an inserted row. */
  datatype Db = Db(articles: seq<ArticleRow>, catalogs: PerCategory<seq<Row>>, links: PerCategory<seq<Link>>,
                   nextId: int)

  /** Every id in use was handed out earlier and is positive. */
  ghost predicate WellFormed(db: Db) {
    db.nextId >= 1
    && (forall x :: x in db.articles ==> 1 <= x.id < db.nextId)
    && (forall c, r :: r in db.catalogs.Get(c) ==> 1 <= r.id < db.nextId)
  }

  /** The guard of every _InsertArticle* method: nothing is written for a
      missing (zero) article or entity id, nor for the debugging article
      id -1. */
  predicate LinkAllowed(articleId: int, entityId: int) {
    articleId != 0 && entityId != 0 && articleId != -1
  }

  /** _InsertArticle<Category>: one row in the link table, when allowed. */
  function AddLink(db: Db, c: Category, articleId: int, entityId: int): (r: Db)
    ensures r.articles == db.articles && r.catalogs == db.catalogs && r.nextId == db.nextId
  {
    if LinkAllowed(articleId, entityId) then db.(links := db.links.Set(c, db.links.Get(c) + [Link(articleId, entityId)]))
    else db
  }

  /** The row `INSERT INTO <table> (name) VALUES (n)` creates. */
  function NewRow(id: int, n: string): Row {
    Row(id, n, [], None, None)
  }

  /** _Insert<Category>: -1 and no change for an empty name; otherwise a
      new row with the next id, which is returned. */
  function Insert(db: Db, c: Category, n: string): (r: (Db, int))
  {
    if n == "" then (db, -1)
    else (db.(catalogs := db.catalogs.Set(c, db.catalogs.Get(c) + [NewRow(db.nextId, n)]), nextId := db.nextId + 1),
          db.nextId)
  }

  /** The fallback of every process loop: insert the name and link the new
      row when the insert returned an id. */
  function InsertAndLink(db: Db, c: Category, articleId: int, n: string): Db {
    var (d, id) := Insert(db, c, n);
    if id != -1 then AddLink(d, c, articleId, id) else d
  }

  /** One turn of the loop of _ProcessPeople, _ProcessFacilities,
      _ProcessOrganizations and _ProcessEvents: link the row the cascade
      resolves, or else a new row. */
  function ResolveName(db: Db, c: Category, articleId: int, n: string, sim: (string, string) -> bool): Db {
    var id := UniqueCommon(db.catalogs.Get(c), n, sim);
    if id != -1 then AddLink(db, c, articleId, id) else InsertAndLink(db, c, articleId, n)
  }

  /** The whole process loop over a list of names, in list order. */
  function ProcessNames(db: Db, c: Category, articleId: int, names: seq<string>, sim: (string, string) -> bool): Db
    decreases |names|
  {
    if names == [] then db
    else ResolveName(ProcessNames(db, c, articleId, names[..|names| - 1], sim), c, articleId, names[|names| - 1], sim)
  }

  /** One turn of the loop of _ProcessLocations: case one (the common
      cascade), case two (inside a country named in the article), case
      three (the most populous exact match), and only then a new row. */
  function LocateName(db: Db, articleId: int, n: string, admins: seq<AdminRef>, sim: (string, string) -> bool): Db {
    var t := db.catalogs.Get(Locations);
    var id := UniqueCommon(t, n, sim);
    if id != -1 then AddLink(db, Locations, articleId, id)
    else match CaseTwo(t, n, admins, sim)
      case Some(e) => AddLink(db, Locations, articleId, e)
      case None =>
        match CaseThree(t, articleId, n)
        case Some(e) => AddLink(db, Locations, articleId, e)
        case None => InsertAndLink(db, Locations, articleId, n)
  }

  /** The location loop for a fixed admin list. */
  function LocateAll(db: Db, articleId: int, names: seq<string>, admins: seq<AdminRef>,
                     sim: (string, string) -> bool): Db
    decreases |names|
  {
    if names == [] then db
    else LocateName(LocateAll(db, articleId, names[..|names| - 1], admins, sim), articleId, names[|names| - 1], admins, sim)
  }

  /** _ProcessLocations: the admin list is the admin areas found among all
      the article's locations (it reads only the countries table, so it is
      the same whenever it is computed). */
  function ProcessLocations(db: Db, articleId: int, names: seq<string>, countries: seq<CountryRow>,
                            sim: (string, string) -> bool): Db {
    LocateAll(db, articleId, names, AdminAreas(countries, names, sim), sim)
  }

  /** The entity names of one category in an article. */
  function Names(art: ExtractedArticle, c: Category): seq<string> {
    match c
    case People => art.people
    case Locations => art.locations
    case Facilities => art.facilities
    case Organizations => art.organizations
    case Events => art.events
  }

  /** The news_articles row WriteEntries inserts for an article. */
  function ArticleRowOf(id: int, art: ExtractedArticle): ArticleRow {
    ArticleRow(id, art.articleTitle, art.articleURL, art.articleText, art.website)
  }

  /** The five process calls of WriteEntries, in the source's order:
      people, facilities, organizations, events, locations, all linked to
      article `aid`. */
  function LinkEntities(d0: Db, aid: int, art: ExtractedArticle, countries: seq<CountryRow>,
                        sim: (string, string) -> bool): Db {
    var d1 := ProcessNames(d0, People, aid, art.people, sim);
    var d2 := ProcessNames(d1, Facilities, aid, art.facilities, sim);
    var d3 := ProcessNames(d2, Organizations, aid, art.organizations, sim);
    var d4 := ProcessNames(d3, Events, aid, art.events, sim);
    ProcessLocations(d4, aid, art.locations, countries, sim)
  }

  /** WriteEntries on a working connection: the article row first, with
      the next id, then the entities, linked to that id. */
  function WriteArticle(db: Db, art: ExtractedArticle, countries: seq<CountryRow>, sim: (string, string) -> bool): Db {
    LinkEntities(AddArticle(db, art), db.nextId, art, countries, sim)
  }

  /** `INSERT INTO news_articles ... RETURNING id`: the article row, with
      the next id. */
  function AddArticle(db: Db, art: ExtractedArticle): Db {
    db.(articles := db.articles + [ArticleRowOf(db.nextId, art)], nextId := db.nextId + 1)
  }

  /** The position of the first termination marker in the queue, or the
      queue's length when there is none. */
  function PillIndex(q: seq<ExtractedArticle>): (k: nat)
    ensures k <= |q|
    ensures forall i :: 0 <= i < k ==> !IsPoisonPill(q[i])
    ensures k < |q| ==> IsPoisonPill(q[k])
  {
    if q == [] then 0
    else if IsPoisonPill(q[0]) then 0
    else
      var k := 1 + PillIndex(q[1..]);
      assert forall i :: 1 <= i < |q| ==> q[i] == q[1..][i - 1];
      k
  }

  /** The loop of `run` on a working connection: every item before the
      first marker is written, in queue order. */
  function WriteAll(db: Db, items: seq<ExtractedArticle>, countries: seq<CountryRow>, sim: (string, string) -> bool): Db
    decreases |items|
  {
    if items == [] then db
    else WriteArticle(WriteAll(db, items[..|items| - 1], countries, sim), items[|items| - 1], countries, sim)
  }

  // ---- how a step may change the database ----

  /** `r` differs from `db` only by rows appended to the catalogs and the
      link tables; every appended link belongs to article `articleId`, and
      every appended catalog row has a non-empty name and an id handed out
      between the two states. */
  ghost predicate Grows(db: Db, r: Db, articleId: int) {
    r.articles == db.articles
    && db.nextId <= r.nextId
    && (forall c :: db.catalogs.Get(c) <= r.catalogs.Get(c) && db.links.Get(c) <= r.links.Get(c))
    && (forall c, k :: |db.links.Get(c)| <= k < |r.links.Get(c)| ==> r.links.Get(c)[k].articleId == articleId)
    && (forall c, k :: |db.catalogs.Get(c)| <= k < |r.catalogs.Get(c)| ==>
          db.nextId <= r.catalogs.Get(c)[k].id < r.nextId && r.catalogs.Get(c)[k].name != "")
  }

  /** Grows, touching the tables of category `c` only. */
  ghost predicate GrowsIn(db: Db, r: Db, c: Category, articleId: int) {
    Grows(db, r, articleId)
    && forall d :: d != c ==> r.catalogs.Get(d) == db.catalogs.Get(d) && r.links.Get(d) == db.links.Get(d)
  }

  lemma GrowsTransitive(x: Db, y: Db, z: Db, a: int)
    requires Grows(x, y, a) && Grows(y, z, a)
    ensures Grows(x, z, a)
  {
    forall c, k | |x.links.Get(c)| <= k < |z.links.Get(c)|
      ensures z.links.Get(c)[k].articleId == a
    {
      if k < |y.links.Get(c)| {
        assert z.links.Get(c)[k] == y.links.Get(c)[k];
      }
    }
    forall c, k | |x.catalogs.Get(c)| <= k < |z.catalogs.Get(c)|
      ensures x.nextId <= z.catalogs.Get(c)[k].id < z.nextId && z.catalogs.Get(c)[k].name != ""
    {
      if k < |y.catalogs.Get(c)| {
        assert z.catalogs.Get(c)[k] == y.catalogs.Get(c)[k];
      }
    }
  }

  lemma GrowsInTransitive(x: Db, y: Db, z: Db, c: Category, a: int)
    requires GrowsIn(x, y, c, a) && GrowsIn(y, z, c, a)
    ensures GrowsIn(x, z, c, a)
  {
    GrowsTransitive(x, y, z, a);
  }

  /** Growth keeps every id in use positive and handed out. */
  lemma GrowsWellFormed(db: Db, r: Db, a: int)
    requires WellFormed(db) && Grows(db, r, a)
    ensures WellFormed(r)
  {
    forall c, row | row in r.catalogs.Get(c)
      ensures 1 <= row.id < r.nextId
    {
      var k :| 0 <= k < |r.catalogs.Get(c)| && r.catalogs.Get(c)[k] == row;
      if k < |db.catalogs.Get(c)| {
        assert db.catalogs.Get(c)[k] == row;
      }
    }
  }

  // ---- one name ----

  /** A link, when the guard lets it through, is the only change. */
  lemma AddLinkGrows(db: Db, c: Category, a: int, e: int)
    ensures GrowsIn(db, AddLink(db, c, a, e), c, a)
    ensures |AddLink(db, c, a, e).links.Get(c)| == |db.links.Get(c)| + (if LinkAllowed(a, e) then 1 else 0)
    ensures LinkAllowed(a, e) ==> AddLink(db, c, a, e).links.Get(c)[|db.links.Get(c)|] == Link(a, e)
  {
  }

  /** The insert fallback: for an empty name nothing at all; otherwise one
      new row named `n` with the next id, linked when the article id
      allows it. */
  lemma InsertAndLinkOutcome(db: Db, c: Category, a: int, n: string)
    requires db.nextId >= 1
    ensures var r := InsertAndLink(db, c, a, n);
            GrowsIn(db, r, c, a)
            && (n == "" ==> r == db)
            && (n != "" ==> r.catalogs.Get(c) == db.catalogs.Get(c) + [NewRow(db.nextId, n)] && r.nextId == db.nextId + 1
                            && r.links.Get(c) == db.links.Get(c) + (if a != 0 && a != -1 then [Link(a, db.nextId)] else []))
  {
    if n != "" {
      var d := Insert(db, c, n).0;
      assert GrowsIn(db, d, c, a);
      AddLinkGrows(d, c, a, db.nextId);
      GrowsInTransitive(db, d, AddLink(d, c, a, db.nextId), c, a);
    }
  }

  /** A name of people, facilities, organizations or events: the resolved
      row is linked and nothing is inserted; when the cascade finds nothing,
      an empty name changes nothing and any other name gets a new row,
      linked unless the article id is 0 or -1. */
  lemma ResolveNameOutcome(db: Db, c: Category, a: int, n: string, sim: (string, string) -> bool)
    requires WellFormed(db)
    ensures var r := ResolveName(db, c, a, n, sim);
            var id := UniqueCommon(db.catalogs.Get(c), n, sim);
            GrowsIn(db, r, c, a)
            && (id != -1 ==> r.catalogs == db.catalogs && r.nextId == db.nextId
                             && r.links.Get(c) == db.links.Get(c) + (if a != 0 && a != -1 then [Link(a, id)] else []))
            && (id == -1 && n == "" ==> r == db)
            && (id == -1 && n != "" ==>
                  r.catalogs.Get(c) == db.catalogs.Get(c) + [NewRow(db.nextId, n)] && r.nextId == db.nextId + 1
                  && r.links.Get(c) == db.links.Get(c) + (if a != 0 && a != -1 then [Link(a, db.nextId)] else []))
  {
    var id := UniqueCommon(db.catalogs.Get(c), n, sim);
    if id != -1 {
      AddLinkGrows(db, c, a, id);
    } else {
      InsertAndLinkOutcome(db, c, a, n);
    }
  }

  /** Every link a name produces points at a catalog row that the name
      matches at some stage of the cascade (a new row carries the name
      itself). */
  lemma ResolveNameLinksMatchingRow(db: Db, c: Category, a: int, n: string, sim: (string, string) -> bool)
    requires WellFormed(db)
    ensures var r := ResolveName(db, c, a, n, sim);
            forall k :: |db.links.Get(c)| <= k < |r.links.Get(c)| ==>
              exists row :: row in r.catalogs.Get(c) && row.id == r.links.Get(c)[k].entityId && MatchesSomeStage(row, n, sim)
  {
    ResolveNameOutcome(db, c, a, n, sim);
    var r := ResolveName(db, c, a, n, sim);
    var id := UniqueCommon(db.catalogs.Get(c), n, sim);
    if id == -1 && n != "" {
      var row := NewRow(db.nextId, n);
      assert row in r.catalogs.Get(c) && MatchesSomeStage(row, n, sim);
      forall k | |db.links.Get(c)| <= k < |r.links.Get(c)|
        ensures exists row :: row in r.catalogs.Get(c) && row.id == r.links.Get(c)[k].entityId && MatchesSomeStage(row, n, sim)
      {
        assert r.links.Get(c)[k].entityId == row.id;
      }
    }
  }

  /** Read-after-write: a name no row carried is inserted once; resolving it
      again (for this or another article) links the new row and inserts
      nothing. */
  lemma ResolveNameTwice(db: Db, c: Category, a: int, b: int, n: string, sim: (string, string) -> bool)
    requires WellFormed(db)
    requires n != "" && NameMatches(db.catalogs.Get(c), n) == [] && UniqueCommon(db.catalogs.Get(c), n, sim) == -1
    ensures var r1 := ResolveName(db, c, a, n, sim);
            var r2 := ResolveName(r1, c, b, n, sim);
            r2.catalogs == r1.catalogs && r2.nextId == r1.nextId
            && r2.links.Get(c) == r1.links.Get(c) + (if b != 0 && b != -1 then [Link(b, db.nextId)] else [])
  {
    ResolveNameOutcome(db, c, a, n, sim);
    var r1 := ResolveName(db, c, a, n, sim);
    ResolveAfterInsert(db.catalogs.Get(c), n, db.nextId, sim);
    GrowsWellFormed(db, r1, a);
    ResolveNameOutcome(r1, c, b, n, sim);
  }

  /** The whole loop: only the category's own tables grow, every new link
      belongs to the article, and there is at most one new link per name. */
  lemma {:induction false} ProcessNamesGrows(db: Db, c: Category, a: int, names: seq<string>,
                                             sim: (string, string) -> bool)
    requires WellFormed(db)
    ensures GrowsIn(db, ProcessNames(db, c, a, names, sim), c, a)
    ensures WellFormed(ProcessNames(db, c, a, names, sim))
    ensures |ProcessNames(db, c, a, names, sim).links.Get(c)| <= |db.links.Get(c)| + |names|
    decreases |names|
  {
    if names != [] {
      var init := names[..|names| - 1];
      ProcessNamesGrows(db, c, a, init, sim);
      var mid := ProcessNames(db, c, a, init, sim);
      ResolveNameOutcome(mid, c, a, names[|names| - 1], sim);
      var r := ResolveName(mid, c, a, names[|names| - 1], sim);
      GrowsInTransitive(db, mid, r, c, a);
      GrowsWellFormed(mid, r, a);
    }
  }

  // ---- one location ----

  /** A location is handled by the first case that applies: the row found
      by case one, two or three is linked and nothing is inserted; when all
      three fail, an empty name changes nothing and any other name gets a
      new row, linked unless the article id is 0 or -1. At most one link is
      made. */
  lemma LocateNameOutcome(db: Db, a: int, n: string, admins: seq<AdminRef>, sim: (string, string) -> bool)
    requires WellFormed(db)
    ensures var r := LocateName(db, a, n, admins, sim);
            var t := db.catalogs.Get(Locations);
            var id := UniqueCommon(t, n, sim);
            var two := CaseTwo(t, n, admins, sim);
            var three := CaseThree(t, a, n);
            var linked := a != 0 && a != -1;
            GrowsIn(db, r, Locations, a)
            && |r.links.Get(Locations)| <= |db.links.Get(Locations)| + 1
            && (id != -1 ==>
                  r.catalogs == db.catalogs && r.nextId == db.nextId
                  && r.links.Get(Locations) == db.links.Get(Locations) + (if linked then [Link(a, id)] else []))
            && (id == -1 && two.Some? ==>
                  r.catalogs == db.catalogs && r.nextId == db.nextId
                  && r.links.Get(Locations) == db.links.Get(Locations) + (if linked then [Link(a, two.value)] else []))
            && (id == -1 && two == None && three.Some? ==>
                  r.catalogs == db.catalogs && r.nextId == db.nextId
                  && r.links.Get(Locations) == db.links.Get(Locations) + (if linked then [Link(a, three.value)] else []))
            && (id == -1 && two == None && three == None && n == "" ==> r == db)
            && (id == -1 && two == None && three == None && n != "" ==>
                  r.catalogs.Get(Locations) == t + [NewRow(db.nextId, n)] && r.nextId == db.nextId + 1
                  && r.links.Get(Locations) == db.links.Get(Locations) + (if linked then [Link(a, db.nextId)] else []))
  {
    var t := db.catalogs.Get(Locations);
    var id := UniqueCommon(t, n, sim);
    if id != -1 {
      AddLinkGrows(db, Locations, a, id);
    } else {
      match CaseTwo(t, n, admins, sim)
      case Some(e) =>
        // A row matched, so its id is positive.
        assert exists row :: row in t && row.id == e;
        AddLinkGrows(db, Locations, a, e);
      case None =>
        match CaseThree(t, a, n)
        case Some(e) =>
          assert exists row :: row in t && row.id == e;
          AddLinkGrows(db, Locations, a, e);
        case None =>
          InsertAndLinkOutcome(db, Locations, a, n);
    }
  }

  /** "Paris" in an article that also names France, with an American and a
      French Paris among the locations: the common cascade finds no single
      row, France is the first admin area found among the article's
      locations, and case two links the French Paris, whatever the
      similarity test says. */
  lemma ParisResolvesToFrance(db: Db, sim: (string, string) -> bool)
    requires db.catalogs.Get(Locations) == ParisRows()
    ensures LocateName(db, 7, "Paris", AdminAreas([CountryRow("France", "FR", [])], ["Paris", "France"], sim), sim)
            == AddLink(db, Locations, 7, 2)
  {
    var admins := AdminAreas([CountryRow("France", "FR", [])], ["Paris", "France"], sim);
    ParisCaseOneFails(sim);
    FranceIsFirstArea(sim);
    CaseTwoPrefersNamedCountry(admins, sim);
  }

  /** The location loop: only the location tables grow, and each location
      yields at most one link. */
  lemma {:induction false} LocateAllGrows(db: Db, a: int, names: seq<string>, admins: seq<AdminRef>,
                                          sim: (string, string) -> bool)
    requires WellFormed(db)
    ensures GrowsIn(db, LocateAll(db, a, names, admins, sim), Locations, a)
    ensures WellFormed(LocateAll(db, a, names, admins, sim))
    ensures |LocateAll(db, a, names, admins, sim).links.Get(Locations)| <= |db.links.Get(Locations)| + |names|
    decreases |names|
  {
    if names != [] {
      var init := names[..|names| - 1];
      LocateAllGrows(db, a, init, admins, sim);
      var mid := LocateAll(db, a, init, admins, sim);
      LocateNameOutcome(mid, a, names[|names| - 1], admins, sim);
      var r := LocateName(mid, a, names[|names| - 1], admins, sim);
      GrowsInTransitive(db, mid, r, Locations, a);
      GrowsWellFormed(mid, r, a);
    }
  }

  // ---- one article, and the queue ----

  /** The entity pass keeps the database well formed and only grows it,
      every new link carrying the article id. */
  lemma LinkEntitiesGrows(d0: Db, aid: int, art: ExtractedArticle, countries: seq<CountryRow>,
                          sim: (string, string) -> bool)
    requires WellFormed(d0)
    ensures var r := LinkEntities(d0, aid, art, countries, sim);
            WellFormed(r) && Grows(d0, r, aid)
  {
    ProcessNamesGrows(d0, People, aid, art.people, sim);
    var d1 := ProcessNames(d0, People, aid, art.people, sim);
    ProcessNamesGrows(d1, Facilities, aid, art.facilities, sim);
    var d2 := ProcessNames(d1, Facilities, aid, art.facilities, sim);
    ProcessNamesGrows(d2, Organizations, aid, art.organizations, sim);
    var d3 := ProcessNames(d2, Organizations, aid, art.organizations, sim);
    ProcessNamesGrows(d3, Events, aid, art.events, sim);
    var d4 := ProcessNames(d3, Events, aid, art.events, sim);
    var admins := AdminAreas(countries, art.locations, sim);
    LocateAllGrows(d4, aid, art.locations, admins, sim);
    var r := LocateAll(d4, aid, art.locations, admins, sim);
    GrowsTransitive(d0, d1, d2, aid);
    GrowsTransitive(d0, d2, d3, aid);
    GrowsTransitive(d0, d3, d4, aid);
    GrowsTransitive(d0, d4, r, aid);
  }

  /** The entity pass adds at most one link per name to each category. */
  lemma LinkEntitiesBound(d0: Db, aid: int, art: ExtractedArticle, countries: seq<CountryRow>,
                          sim: (string, string) -> bool)
    requires WellFormed(d0)
    ensures var r := LinkEntities(d0, aid, art, countries, sim);
            forall c :: |r.links.Get(c)| <= |d0.links.Get(c)| + |Names(art, c)|
  {
    ProcessNamesGrows(d0, People, aid, art.people, sim);
    var d1 := ProcessNames(d0, People, aid, art.people, sim);
    ProcessNamesGrows(d1, Facilities, aid, art.facilities, sim);
    var d2 := ProcessNames(d1, Facilities, aid, art.facilities, sim);
    ProcessNamesGrows(d2, Organizations, aid, art.organizations, sim);
    var d3 := ProcessNames(d2, Organizations, aid, art.organizations, sim);
    ProcessNamesGrows(d3, Events, aid, art.events, sim);
    var d4 := ProcessNames(d3, Events, aid, art.events, sim);
    LocateAllGrows(d4, aid, art.locations, AdminAreas(countries, art.locations, sim), sim);
  }

  /** WriteEntries appends exactly the article's row, with the next id;
      every link it creates, in any category, carries that id; each
      category gets at most one link per name of that category; the tables
      only grow. */
  lemma WriteArticleOutcome(db: Db, art: ExtractedArticle, countries: seq<CountryRow>, sim: (string, string) -> bool)
    requires WellFormed(db)
    ensures var r := WriteArticle(db, art, countries, sim);
            WellFormed(r)
            && r.articles == db.articles + [ArticleRowOf(db.nextId, art)]
            && Grows(db.(articles := r.articles), r, db.nextId)
            && forall c :: |r.links.Get(c)| <= |db.links.Get(c)| + |Names(art, c)|
  {
    var aid := db.nextId;
    var d0 := AddArticle(db, art);
    assert WellFormed(d0);
    LinkEntitiesGrows(d0, aid, art, countries, sim);
    LinkEntitiesBound(d0, aid, art, countries, sim);
    var r := LinkEntities(d0, aid, art, countries, sim);
    assert Grows(db.(articles := r.articles), d0, aid);
    GrowsTransitive(db.(articles := r.articles), d0, r, aid);
  }

  /** WriteArticle keeps the database well formed. */
  lemma WriteArticleWellFormed(db: Db, art: ExtractedArticle, countries: seq<CountryRow>, sim: (string, string) -> bool)
    requires WellFormed(db)
    ensures WellFormed(WriteArticle(db, art, countries, sim))
  {
    WriteArticleOutcome(db, art, countries, sim);
  }

  lemma PrefixTransitive<T>(a: seq<T>, b: seq<T>, c: seq<T>)
    requires a <= b && b <= c
    ensures a <= c
  {
    assert c[..|a|] == b[..|a|];
  }

  /** `rows` are the article rows of `items`, one per item and in the same
      order, with increasing ids in [lo, hi). */
  ghost predicate ArticlesFor(rows: seq<ArticleRow>, items: seq<ExtractedArticle>, lo: int, hi: int) {
    |rows| == |items|
    && (forall i :: 0 <= i < |rows| ==> rows[i] == ArticleRowOf(rows[i].id, items[i]) && lo <= rows[i].id < hi)
    && (forall i, j :: 0 <= i < j < |rows| ==> rows[i].id < rows[j].id)
  }

  lemma ArticlesForExtend(rows: seq<ArticleRow>, items: seq<ExtractedArticle>, row: ArticleRow,
                          lo: int, hi: int, hi2: int)
    requires items != [] && ArticlesFor(rows, items[..|items| - 1], lo, hi)
    requires row == ArticleRowOf(row.id, items[|items| - 1]) && lo <= hi <= row.id < hi2
    ensures ArticlesFor(rows + [row], items, lo, hi2)
  {
  }

  /** `r` is `db` after writing `items`: still well formed, with one
      article row per item appended in item order (each carrying the item's
      title, URL, text and site, with increasing ids handed out in between),
      and every earlier row and link kept. */
  ghost predicate WrittenFrom(db: Db, r: Db, items: seq<ExtractedArticle>) {
    WellFormed(r)
    && db.nextId <= r.nextId
    && db.articles <= r.articles
    && ArticlesFor(r.articles[|db.articles|..], items, db.nextId, r.nextId)
    && (forall c :: db.catalogs.Get(c) <= r.catalogs.Get(c) && db.links.Get(c) <= r.links.Get(c))
  }

  /** The loop of `run`: one article row per item, in queue order, each
      carrying the item's title, URL, text and site, with increasing ids;
      existing rows and links are kept. */
  lemma {:induction false} WriteAllOutcome(db: Db, items: seq<ExtractedArticle>, countries: seq<CountryRow>,
                                           sim: (string, string) -> bool)
    requires WellFormed(db)
    ensures WrittenFrom(db, WriteAll(db, items, countries, sim), items)
    decreases |items|
  {
    if items == [] {
      assert WriteAll(db, items, countries, sim).articles[|db.articles|..] == [];
    } else {
      WriteAllOutcome(db, items[..|items| - 1], countries, sim);
      WriteOneMore(db, items, countries, sim);
    }
  }

  /** One step of the loop of `run`: the last item is written after all
      the earlier ones. */
  lemma WriteAllUnfold(db: Db, items: seq<ExtractedArticle>, countries: seq<CountryRow>, sim: (string, string) -> bool)
    requires items != []
    ensures WriteAll(db, items, countries, sim)
            == WriteArticle(WriteAll(db, items[..|items| - 1], countries, sim), items[|items| - 1], countries, sim)
  {
  }

  /** Writing the last item extends what the earlier ones wrote. */
  lemma WriteOneMore(db: Db, items: seq<ExtractedArticle>, countries: seq<CountryRow>, sim: (string, string) -> bool)
    requires WellFormed(db) && items != []
    requires WrittenFrom(db, WriteAll(db, items[..|items| - 1], countries, sim), items[..|items| - 1])
    ensures WrittenFrom(db, WriteAll(db, items, countries, sim), items)
  {
    WriteAllUnfold(db, items, countries, sim);
    var mid := WriteAll(db, items[..|items| - 1], countries, sim);
    WriteArticleOutcome(mid, items[|items| - 1], countries, sim);
    WriteAllStep(db, mid, WriteAll(db, items, countries, sim), items);
  }

  /** The inductive step of WriteAllOutcome, on the three states alone. */
  lemma WriteAllStep(db: Db, mid: Db, r: Db, items: seq<ExtractedArticle>)
    requires items != []
    requires WellFormed(db) && WrittenFrom(db, mid, items[..|items| - 1]) && WellFormed(r)
    requires r.articles == mid.articles + [ArticleRowOf(mid.nextId, items[|items| - 1])]
    requires Grows(mid.(articles := r.articles), r, mid.nextId)
    ensures WrittenFrom(db, r, items)
  {
    var row := ArticleRowOf(mid.nextId, items[|items| - 1]);
    assert row in r.articles;
    assert r.articles[|db.articles|..] == mid.articles[|db.articles|..] + [row];
    ArticlesForExtend(mid.articles[|db.articles|..], items, row, db.nextId, mid.nextId, r.nextId);
    forall c
      ensures db.catalogs.Get(c) <= r.catalogs.Get(c) && db.links.Get(c) <= r.links.Get(c)
    {
      PrefixTransitive(db.catalogs.Get(c), mid.catalogs.Get(c), r.catalogs.Get(c));
      PrefixTransitive(db.links.Get(c), mid.links.Get(c), r.links.Get(c));
    }
  }

  /** Nothing after the marker is written: with a marker right after a
      run of ordinary items, exactly those items are written, whatever
      follows. */
  lemma NothingAfterPill(db: Db, q1: seq<ExtractedArticle>, pill: ExtractedArticle, q2: seq<ExtractedArticle>,
                         countries: seq<CountryRow>, sim: (string, string) -> bool)
    requires forall i :: 0 <= i < |q1| ==> !IsPoisonPill(q1[i])
    requires IsPoisonPill(pill)
    ensures PillIndex(q1 + [pill] + q2) == |q1|
    ensures WriteAll(db, (q1 + [pill] + q2)[..PillIndex(q1 + [pill] + q2)], countries, sim) == WriteAll(db, q1, countries, sim)
  {
    var q := q1 + [pill] + q2;
    assert q[|q1|] == pill;
    assert forall i :: 0 <= i < |q1| ==> q[i] == q1[i];
    assert q[..|q1|] == q1;
  }
}
