/** The database writer process (DBWriter/DBWriter.py, class DBWriter): the
    tables it appends to are fields of the object, and each method performs
    the statements of its source counterpart one by one. Every method is
    proved to leave the tables in the state the matching Pipeline function
    describes, or, when the database refuses statements, unchanged. */
module Writer {
  import opened Seqs
  import opened Tables
  import opened Resolution
  import opened Articles
  import opened Pipeline

  class DBWriter {
    /** news_articles */
    var articles: seq<ArticleRow>
    /** people, locations, facilities, organizations, event */
    var catalogs: PerCategory<seq<Row>>
    /** article_people, article_locations, article_facilities,
        article_organizations, article_events */
    var links: PerCategory<seq<Link>>
    /** The id the database hands out for the next inserted row. */
    var nextId: int
    /** Cleared when the connection cannot be made or an article cannot be
        written. */
    var good: bool
    /** Whether the database accepts statements; when it does not, every
        statement raises and its handler gives up on that step. */
    const serverUp: bool
    /** The countries reference table, which the writer only reads. */
    const countries: seq<CountryRow>
    /** `SIMILARITY(x, y) > 0.5` of the trigram extension. */
    const sim: (string, string) -> bool

    /** The tables the writer appends to. */
    function State(): Db
      reads this
    {
      Db(articles, catalogs, links, nextId)
    }

    ghost predicate Valid()
      reads this
    {
      WellFormed(State())
    }

    /** The constructor: the flag is set only when the connection can be
        made. */
    constructor (init: Db, countries: seq<CountryRow>, sim: (string, string) -> bool, serverUp: bool)
      requires WellFormed(init)
      ensures Valid() && State() == init
      ensures this.countries == countries && this.sim == sim && this.serverUp == serverUp
      ensures good == serverUp
    {
      articles := init.articles;
      catalogs := init.catalogs;
      links := init.links;
      nextId := init.nextId;
      this.countries := countries;
      this.sim := sim;
      this.serverUp := serverUp;
      good := serverUp;
    }

    /** _InsertArticlePeople, _InsertArticleLocations, _InsertArticleFacilities,
        _InsertArticleOrganizations, _InsertArticleEvents: one link row,
        unless an id is missing (zero) or the article id is -1. */
    method InsertArticleLink(c: Category, articleId: int, entityId: int)
      modifies this`links
      ensures State() == if serverUp then AddLink(old(State()), c, articleId, entityId) else old(State())
    {
      if articleId == 0 || entityId == 0 {
        return;
      }
      if articleId == -1 {
        return;
      }
      if !serverUp {
        return;
      }
      links := links.Set(c, links.Get(c) + [Link(articleId, entityId)]);
    }

    /** _InsertPerson, _InsertLocation, _InsertFacility, _InsertOrganization,
        _InsertEvent: -1 for an empty name or a failed statement, otherwise
        the id of the new row. */
    method InsertEntity(c: Category, name: string) returns (id: int)
      modifies this`catalogs, this`nextId
      ensures (State(), id) == if serverUp then Insert(old(State()), c, name) else (old(State()), -1)
    {
      if name == "" {
        return -1;
      }
      if !serverUp {
        return -1;
      }
      id := nextId;
      catalogs := catalogs.Set(c, catalogs.Get(c) + [NewRow(id, name)]);
      nextId := nextId + 1;
    }

    /** _GetUniqueCommon: the four SELECTs in order, returning the id of the
        first that yields exactly one row; -1 when none does or a statement
        fails. */
    method GetUniqueCommon(c: Category, name: string) returns (id: int)
      ensures id == if serverUp then UniqueCommon(catalogs.Get(c), name, sim) else -1
    {
      if !serverUp {
        return -1;
      }
      var t := catalogs.Get(c);
      UniqueCommonStageOrder(t, name, sim);
      var rows := NameMatches(t, name);
      if |rows| == 1 {
        return rows[0].id;
      }
      rows := AliasMatches(t, name);
      if |rows| == 1 {
        return rows[0].id;
      }
      rows := SimilarNames(t, name, sim);
      if |rows| == 1 {
        return rows[0].id;
      }
      rows := SimilarAliases(t, name, sim);
      if |rows| == 1 {
        return rows[0].id;
      }
      return -1;
    }

    /** One turn of the loop of _ProcessPeople, _ProcessFacilities,
        _ProcessOrganizations and _ProcessEvents. */
    method ResolveOne(c: Category, articleId: int, name: string)
      modifies this`catalogs, this`nextId, this`links
      ensures State() == if serverUp then ResolveName(old(State()), c, articleId, name, sim) else old(State())
    {
      var id := GetUniqueCommon(c, name);
      if id != -1 {
        InsertArticleLink(c, articleId, id);
      } else {
        id := InsertEntity(c, name);
        if id != -1 {
          InsertArticleLink(c, articleId, id);
        }
      }
    }

    /** The loop shared by _ProcessPeople, _ProcessFacilities,
        _ProcessOrganizations and _ProcessEvents. */
    method ProcessCommon(c: Category, articleId: int, names: seq<string>)
      modifies this`catalogs, this`nextId, this`links
      ensures State() == if serverUp then ProcessNames(old(State()), c, articleId, names, sim) else old(State())
    {
      for i := 0 to |names|
        invariant State() == if serverUp then ProcessNames(old(State()), c, articleId, names[..i], sim) else old(State())
      {
        assert names[..i + 1][..i] == names[..i];
        ResolveOne(c, articleId, names[i]);
      }
      assert names[..|names|] == names;
    }

    method ProcessPeople(articleId: int, names: seq<string>)
      modifies this`catalogs, this`nextId, this`links
      ensures State() == if serverUp then ProcessNames(old(State()), People, articleId, names, sim) else old(State())
    {
      ProcessCommon(People, articleId, names);
    }

    method ProcessFacilities(articleId: int, names: seq<string>)
      modifies this`catalogs, this`nextId, this`links
      ensures State() == if serverUp then ProcessNames(old(State()), Facilities, articleId, names, sim) else old(State())
    {
      ProcessCommon(Facilities, articleId, names);
    }

    method ProcessOrganizations(articleId: int, names: seq<string>)
      modifies this`catalogs, this`nextId, this`links
      ensures State() == if serverUp then ProcessNames(old(State()), Organizations, articleId, names, sim) else old(State())
    {
      ProcessCommon(Organizations, articleId, names);
    }

    method ProcessEvents(articleId: int, names: seq<string>)
      modifies this`catalogs, this`nextId, this`links
      ensures State() == if serverUp then ProcessNames(old(State()), Events, articleId, names, sim) else old(State())
    {
      ProcessCommon(Events, articleId, names);
    }

    /** _FindCountries: for each location in order, the (name, cc2) pair of
        the first countries SELECT that yields exactly one row; the empty
        list when a statement fails. */
    method FindCountries(locations: seq<string>) returns (areas: seq<AdminRef>)
      ensures areas == if serverUp then AdminAreas(countries, locations, sim) else []
    {
      if !serverUp {
        return [];
      }
      areas := [];
      for i := 0 to |locations|
        invariant areas == AdminAreas(countries, locations[..i], sim)
      {
        var location := locations[i];
        assert locations[..i + 1] == locations[..i] + [location];
        AdminAreasSnoc(countries, locations[..i], location, sim);
        CountryOfStageOrder(countries, location, sim);
        var rows := CountryNameMatches(countries, location);
        if |rows| == 1 {
          areas := areas + [RefOf(rows[0])];
          continue;
        }
        rows := CountryAliasMatches(countries, location);
        if |rows| == 1 {
          areas := areas + [RefOf(rows[0])];
          continue;
        }
        rows := CountrySimilarNames(countries, location, sim);
        if |rows| == 1 {
          areas := areas + [RefOf(rows[0])];
          continue;
        }
        rows := CountrySimilarAliases(countries, location, sim);
        if |rows| == 1 {
          areas := areas + [RefOf(rows[0])];
          continue;
        }
      }
      assert locations[..|locations|] == locations;
    }

    /** _LocationCaseTwo: True exactly when some admin area settles the
        location, in which case that row is linked. */
    method LocationCaseTwo(articleId: int, location: string, adminList: seq<AdminRef>) returns (linked: bool)
      modifies this`links
      ensures linked == (serverUp && CaseTwo(catalogs.Get(Locations), location, adminList, sim).Some?)
      ensures State() == if linked then AddLink(old(State()), Locations, articleId,
                                                 CaseTwo(catalogs.Get(Locations), location, adminList, sim).value)
                         else old(State())
    {
      if adminList == [] || location == "" {
        return false;
      }
      if !serverUp {
        return false;
      }
      var t := catalogs.Get(Locations);
      for i := 0 to |adminList|
        invariant State() == old(State())
        invariant CaseTwoFrom(t, location, adminList[i..], sim) == CaseTwoFrom(t, location, adminList, sim)
      {
        var cc := adminList[i].cc2;
        assert adminList[i..][1..] == adminList[i + 1..];
        var rows := NameCcMatches(t, location, cc);
        if |rows| == 1 {
          InsertArticleLink(Locations, articleId, rows[0].id);
          return true;
        } else if |rows| > 1 {
          var populated := Populated(rows);
          if populated == [] {
            // fetchone() is None; subscripting it raises and the handler
            // returns False.
            return false;
          }
          InsertArticleLink(Locations, articleId, Highest(populated).id);
          return true;
        }
        rows := SimilarCcMatches(t, location, cc, sim);
        if |rows| == 1 {
          InsertArticleLink(Locations, articleId, rows[0].id);
          return true;
        }
        rows := AliasCcMatches(t, location, cc);
        if |rows| == 1 {
          InsertArticleLink(Locations, articleId, rows[0].id);
          return true;
        }
      }
      return false;
    }

    /** _LocationCaseThree: True exactly when at least two populated rows
        carry the exact name, in which case the most populous is linked. */
    method LocationCaseThree(articleId: int, location: string) returns (linked: bool)
      modifies this`links
      ensures linked == (serverUp && CaseThree(catalogs.Get(Locations), articleId, location).Some?)
      ensures State() == if linked then AddLink(old(State()), Locations, articleId,
                                                 CaseThree(catalogs.Get(Locations), articleId, location).value)
                         else old(State())
    {
      if articleId == 0 || location == "" {
        return false;
      }
      if !serverUp {
        return false;
      }
      var rows := Populated(NameMatches(catalogs.Get(Locations), location));
      if |rows| > 1 {
        InsertArticleLink(Locations, articleId, Highest(rows).id);
        return true;
      }
      return false;
    }

    /** One turn of the loop of _ProcessLocations: case one, then (with the
        admin list computed first if it is still empty) case two, case
        three, and a new row. Returns the admin list for the next turn. */
    method LocateOne(articleId: int, location: string, locations: seq<string>, adminList: seq<AdminRef>)
      returns (adminsAfter: seq<AdminRef>)
      requires adminList == [] || (serverUp && adminList == AdminAreas(countries, locations, sim))
      modifies this`catalogs, this`nextId, this`links
      ensures adminsAfter == [] || (serverUp && adminsAfter == AdminAreas(countries, locations, sim))
      ensures State() == if serverUp then LocateName(old(State()), articleId, location, AdminAreas(countries, locations, sim), sim)
                         else old(State())
    {
      adminsAfter := adminList;
      var id := GetUniqueCommon(Locations, location);
      if id != -1 {
        InsertArticleLink(Locations, articleId, id);
        return;
      }
      if adminsAfter == [] {
        adminsAfter := FindCountries(locations);
      }
      var done := LocationCaseTwo(articleId, location, adminsAfter);
      if done {
        return;
      }
      done := LocationCaseThree(articleId, location);
      if done {
        return;
      }
      id := InsertEntity(Locations, location);
      if id != -1 {
        InsertArticleLink(Locations, articleId, id);
      }
    }

    /** _ProcessLocations: the admin list starts empty and is computed on
        first need (and again while it is empty). */
    method ProcessLocations(articleId: int, locations: seq<string>)
      modifies this`catalogs, this`nextId, this`links
      ensures State() == if serverUp then Pipeline.ProcessLocations(old(State()), articleId, locations, countries, sim)
                         else old(State())
    {
      var adminList: seq<AdminRef> := [];
      for i := 0 to |locations|
        invariant adminList == [] || (serverUp && adminList == AdminAreas(countries, locations, sim))
        invariant State() == if serverUp then LocateAll(old(State()), articleId, locations[..i], AdminAreas(countries, locations, sim), sim)
                             else old(State())
      {
        assert locations[..i + 1][..i] == locations[..i];
        adminList := LocateOne(articleId, locations[i], locations, adminList);
      }
      assert locations[..|locations|] == locations;
    }

    /** WriteEntries: the article row, then the five categories; when the
        article cannot be written the flag is cleared and nothing else is
        attempted. */
    method WriteEntries(article: ExtractedArticle)
      requires Valid()
      modifies this`articles, this`catalogs, this`links, this`nextId, this`good
      ensures Valid()
      ensures State() == if serverUp then WriteArticle(old(State()), article, countries, sim) else old(State())
      ensures good == (old(good) && serverUp)
    {
      if !serverUp {
        good := false;
        return;
      }
      ghost var before := State();
      var articleId := nextId;
      articles := articles + [ArticleRowOf(articleId, article)];
      nextId := nextId + 1;
      assert State() == AddArticle(before, article);
      LinkAll(articleId, article);
      WriteArticleWellFormed(before, article, countries, sim);
    }

    /** The five process calls of WriteEntries, in order. */
    method LinkAll(articleId: int, article: ExtractedArticle)
      requires serverUp
      modifies this`catalogs, this`nextId, this`links
      ensures State() == LinkEntities(old(State()), articleId, article, countries, sim)
    {
      ProcessPeople(articleId, article.people);
      ProcessFacilities(articleId, article.facilities);
      ProcessOrganizations(articleId, article.organizations);
      ProcessEvents(articleId, article.events);
      ProcessLocations(articleId, article.locations);
    }

    /** `run`: take items off the queue in order and write each one, until
        the first item whose text is the exit marker, which is consumed but
        not written. Returns how many items were taken. */
    method Run(queue: seq<ExtractedArticle>) returns (consumed: nat)
      requires Valid()
      modifies this`articles, this`catalogs, this`links, this`nextId, this`good
      ensures Valid()
      ensures consumed == if PillIndex(queue) < |queue| then PillIndex(queue) + 1 else |queue|
      ensures State() == if serverUp then WriteAll(old(State()), queue[..PillIndex(queue)], countries, sim)
                         else old(State())
      ensures good == (old(good) && (serverUp || PillIndex(queue) == 0))
    {
      var continueFlag := true;
      consumed := 0;
      ghost var written: nat := 0;
      while continueFlag && consumed < |queue|
        invariant consumed <= |queue|
        invariant continueFlag ==> written == consumed <= PillIndex(queue)
        invariant !continueFlag ==> written == PillIndex(queue) < |queue| && consumed == written + 1
        invariant Valid()
        invariant State() == if serverUp then WriteAll(old(State()), queue[..written], countries, sim) else old(State())
        invariant good == (old(good) && (serverUp || written == 0))
        decreases |queue| - consumed
      {
        var articleObject := queue[consumed];
        consumed := consumed + 1;
        if articleObject.articleText == ExitMarker {
          continueFlag := false;
          continue;
        }
        assert queue[..written + 1][..written] == queue[..written];
        WriteEntries(articleObject);
        written := written + 1;
      }
    }
  }
}
