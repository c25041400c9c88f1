# News extractor core, modelled in Dafny

The news extractor is a pipeline with two sides:

- **Producers** are the website scrapers built on `WebsiteBase`. Each one fetches articles, runs named-entity recognition on the article text, filters the entities it finds, and puts one `ExtractedArticle` per article on a queue.
- **The consumer** is the `DBWriter` process. It takes articles off the queue until it sees the termination marker, the text `"EXITCALLED"`. For each article it inserts a `news_articles` row and then resolves every entity name against the catalog tables:
  - `people`, `facilities`, `organizations` and `event`: an exact name, an alias, a similar name and then a similar alias are tried in turn. The first stage that yields exactly one row wins.
  - `locations`: when that cascade finds nothing, two further cases are tried before a new row is inserted:
    - case two looks for the name inside each country or administrative area named in the same article;
    - case three takes the most populous of several rows with exactly that name.
  - Each resolved or newly inserted row is linked to the article through the `article_<category>` tables.

This project models both sides.

- `Seqs.dfy` holds an option type and the sequence vocabulary: filtering, concatenation of per-element results, and subsequences.
- `Tables.dfy` holds the rows of the tables and the SELECT statements the writer runs. Each statement is a filter over a sequence of rows, and its `rowcount` is the length of the result.
- `Resolution.dfy` holds the matching cascades as pure functions of the tables:
  - `_GetUniqueCommon`;
  - `_FindCountries`;
  - the case-two and case-three location rules.
- `Pipeline.dfy` describes what the writer does to the database, as functions from a database value to a database value. It also holds the lemmas about them:
  - tables only grow;
  - every new link carries the article's id;
  - each name yields at most one link;
  - an empty name changes nothing;
  - there is one article row per queue item;
  - nothing after the marker is written.
- `Writer.dfy` is the writer itself: class `DBWriter`.
  - Its fields are the tables, the id counter, the `good` flag and the read-only countries table.
  - Each method is proved to change those fields exactly as the matching function of `Pipeline.dfy` says.
  - When the database does not accept statements (`serverUp` false), every method leaves the tables unchanged.
- `Articles.dfy` holds the `ExtractedArticle` record and the termination marker.
- `TextFilters.dfy` holds the producer's pure string helpers:
  - stop-word removal;
  - the bad-entity patterns;
  - the punctuation and contraction rewrites of `_FixText`;
  - the empty-text guard of `_CheckSimilarity`.
- `Entities.dfy` holds the list-processing part of `_GetEntities`:
  - the problem-entity pass;
  - the label / stop-word / bad-entity / duplicate filter;
  - the in-place pass that blanks the shorter of two similar entries;
  - the compaction;
  - the mapping of labels onto the article's entity lists.

Several things outside the model are passed in as parameters:

- The entity recogniser is passed in as the list of (text, label) spans it produced.
- The trigram similarity test of the database is a fixed predicate, `sim`, meaning `SIMILARITY(x, y) > 0.5`.
- The fuzzy partial-ratio scorer is a function, `score`, compared with the configured `ratio`.
- The queue is the finite sequence of items it delivers.

## Model

| member | source | states |
|---|---|---|
| Articles.FreshIsBlank | websites/ExtractedArticle.py:16-28 | a new record has four empty text fields and five empty entity lists |
| Articles.FreshIsNotPoisonPill | websites/ExtractedArticle.py:18-19 | a new record is not mistaken for the termination marker, because its text is empty |
| Articles.PoisonPill | newsextractor.py:63-77 | the marker record; PoisonPillShape states it is a fresh record whose text is `"EXITCALLED"` |
| Articles.IsPoisonPill | DBWriter/DBWriter.py:665 | the writer's test looks at the text field only; PoisonPillShape, FreshIsNotPoisonPill and BlankIsNotPoisonPill state which records pass it |
| Articles.BlankIsNotPoisonPill | DBWriter/DBWriter.py:665 | any record with empty fields passes the writer's marker test |
| Articles.PoisonPillShape | newsextractor.py:71-77 | the marker built by AddPoisonPill is recognised by the writer; it differs from a fresh record only in its text, so it carries no entities |
| Seqs.Select | DBWriter/DBWriter.py:859-862 | a WHERE filter keeps exactly the rows that pass the test and never more rows than it was given |
| Seqs.SelectAppend | websites/WebsiteBase.py:340-341 | filtering distributes over concatenation |
| Seqs.FlatMapAppend | DBWriter/DBWriter.py:788-838 | a loop that appends per element treats each element on its own |
| Seqs.FlatMapSingle | DBWriter/DBWriter.py:788-838 | one element contributes exactly its own items |
| Seqs.FlatMapAtMostOne | DBWriter/DBWriter.py:793-838 | when each element contributes at most one item, there are at most as many items as elements, and each comes from some element |
| Tables.PerCategory.Set | DBWriter/DBWriter.py:177-302 | writing one category's table leaves the other four unchanged |
| Tables.Unnest | DBWriter/DBWriter.py:898-903 | the UNNEST query yields only rows that have an alias passing the test, one output row per such (row, alias) pair, so its rowcount is HitCount |
| Tables.UnnestComplete | DBWriter/DBWriter.py:898-903 | every row with an alias passing the test appears in the result |
| Tables.SelectCount | DBWriter/DBWriter.py:898-903 | a filter keeps exactly as many elements as pass its test |
| Tables.NameMatches | DBWriter/DBWriter.py:859-860 | `WHERE name = %s`: exactly the rows with that name (Seqs.Select's ensures); stage one of UniqueCommonStageOrder |
| Tables.AliasMatches | DBWriter/DBWriter.py:872-876 | `WHERE aliases @> '{name}'`: exactly the rows listing the name among their aliases; stage two of UniqueCommonStageOrder |
| Tables.SimilarNames | DBWriter/DBWriter.py:886-887 | `WHERE SIMILARITY(name, %s) > 0.5`: exactly the rows whose name passes `sim`; stage three of UniqueCommonStageOrder |
| Tables.SimilarAliases | DBWriter/DBWriter.py:898-903 | the UNNEST query over the aliases, one output row per passing alias, as Tables.Unnest states; stage four of UniqueCommonStageOrder |
| Tables.NameCcMatches | DBWriter/DBWriter.py:692-693 | `WHERE name = %s AND cc2 = %s`: exactly the rows of that name in that country; first stage of CaseTwoStageOrder |
| Tables.SimilarCcMatches | DBWriter/DBWriter.py:712-714 | similar name within the country; third stage of CaseTwoStageOrder |
| Tables.AliasCcMatches | DBWriter/DBWriter.py:723-726 | alias within the country; fourth stage of CaseTwoStageOrder |
| Tables.Populated | DBWriter/DBWriter.py:703-704 | `population IS NOT NULL`: exactly the rows with a population; Highest picks among them |
| Tables.CountryNameMatches | DBWriter/DBWriter.py:790 | countries with that name; first stage of CountryOfStageOrder |
| Tables.CountryAliasMatches | DBWriter/DBWriter.py:802-804 | countries listing the name as an alias; second stage of CountryOfStageOrder |
| Tables.CountrySimilarNames | DBWriter/DBWriter.py:816 | countries whose name passes `sim`; third stage of CountryOfStageOrder |
| Tables.CountrySimilarAliases | DBWriter/DBWriter.py:828-831 | countries with an alias passing `sim`, once per such alias; fourth stage of CountryOfStageOrder |
| Resolution.FirstUnique | DBWriter/DBWriter.py:857-914 | the result exists exactly when some stage yields one row; it is that row of the first such stage, and no earlier stage yielded exactly one |
| Resolution.FirstUniqueOfFour | DBWriter/DBWriter.py:857-914 | over four stages the rule is the if-chain of early returns |
| Resolution.UniqueCommon | DBWriter/DBWriter.py:848-914 | an id other than -1 is the id of a catalog row that matches the name at some stage |
| Resolution.UniqueCommonStageOrder | DBWriter/DBWriter.py:857-914 | exact name, then alias, then similar name, then similar alias; the first stage with exactly one row decides; -1 when none does |
| Resolution.ResolveAfterInsert | DBWriter/DBWriter.py:315-339 | after inserting a row for a name no row carried, the cascade resolves that name to the new row |
| Resolution.CountryOf | DBWriter/DBWriter.py:788-838 | the area found for a location is the (name, cc2) pair of a countries row |
| Resolution.CountryOfStageOrder | DBWriter/DBWriter.py:788-838 | exact name, then alias, then similar name, then similar alias over the countries table, each only when the earlier ones did not yield exactly one row |
| Resolution.AreaOf | DBWriter/DBWriter.py:788-838 | a location adds at most one admin area, taken from the countries table |
| Resolution.AdminAreas | DBWriter/DBWriter.py:777-845 | at most one area per location, each from the countries table |
| Resolution.AdminAreasAppend | DBWriter/DBWriter.py:788-838 | the areas of a concatenation are the areas of each part, in order |
| Resolution.AdminAreasSnoc | DBWriter/DBWriter.py:788-838 | one more location appends its own area, if any |
| Resolution.Highest | DBWriter/DBWriter.py:702-708 | the chosen row is one of the populated rows, and no row has a larger population |
| Resolution.CaseTwoFrom | DBWriter/DBWriter.py:686-740 | a result is the id of a row that matches the location inside the country of some admin area; its order is stated by CaseTwoStageOrder |
| Resolution.CaseTwo | DBWriter/DBWriter.py:682-683 | no result for an empty admin list or an empty location; otherwise a matching row's id |
| Resolution.CaseTwoStageOrder | DBWriter/DBWriter.py:685-740 | in the first admin area: one exact name+cc2 row wins; several are settled by the most populous, and none with a population gives no result; else one similar row; else one alias row; otherwise case two goes on with the remaining areas |
| Resolution.CaseTwoFirstSettled | DBWriter/DBWriter.py:685-740 | areas the stages do not settle are skipped: case two is decided by the first area that is settled |
| Resolution.CaseTwoNoneWhenUnsettled | DBWriter/DBWriter.py:742-743 | no result when no admin area is settled |
| Resolution.SelectPair | DBWriter/DBWriter.py:692-693 | a filter over two rows keeps each one that passes, in order |
| Resolution.ParisCaseOneFails | DBWriter/DBWriter.py:497-500 | two rows named "Paris" without aliases: the common cascade finds no single row, so case one fails |
| Resolution.FranceIsFirstArea | DBWriter/DBWriter.py:777-845 | for an article naming Paris and France, the first admin area found is France/FR |
| Resolution.CaseTwoPrefersNamedCountry | DBWriter/DBWriter.py:691-699 | case two, given a first admin area with cc2 FR, picks the French Paris even when an American Paris is listed first |
| Resolution.CaseTwoAbortsOnUnpopulatedDuplicates | DBWriter/DBWriter.py:700-709 | several exact rows for the first area, none with a population, end case two with no result |
| Resolution.CaseThree | DBWriter/DBWriter.py:754-771 | a result exists exactly when the article id and location are given and at least two rows of that name have a population; it is the most populous of them |
| Pipeline.AddLink | DBWriter/DBWriter.py:185-197 | a link insert touches only the link tables |
| Pipeline.LinkAllowed | DBWriter/DBWriter.py:187-192 | no link for an article id of 0 or -1 or an entity id of 0; AddLinkGrows states the consequence |
| Pipeline.Insert | DBWriter/DBWriter.py:315-339 | the _Insert* statements: -1 and no change for an empty name, else a new row with the next id; InsertAndLinkOutcome states it |
| Pipeline.InsertAndLink | DBWriter/DBWriter.py:468-471 | insert, then link the new id unless the insert returned -1; InsertAndLinkOutcome states it |
| Pipeline.ResolveName | DBWriter/DBWriter.py:462-471 | one turn of a process loop; ResolveNameOutcome, ResolveNameLinksMatchingRow and ResolveNameTwice state it |
| Pipeline.ProcessNames | DBWriter/DBWriter.py:461-471 | the whole process loop; ProcessNamesGrows states it |
| Pipeline.LocateName | DBWriter/DBWriter.py:495-520 | one turn of the location loop; LocateNameOutcome and ParisResolvesToFrance state it |
| Pipeline.LocateAll | DBWriter/DBWriter.py:495-520 | the location loop over a list; LocateAllGrows states it |
| Pipeline.ProcessLocations | DBWriter/DBWriter.py:478-524 | the location loop with the article's admin areas; LocateAllGrows states it |
| Pipeline.LinkEntities | DBWriter/DBWriter.py:632-645 | the five process calls in order; LinkEntitiesGrows and LinkEntitiesBound state it |
| Pipeline.WriteArticle | DBWriter/DBWriter.py:608-650 | WriteEntries; WriteArticleOutcome and WriteArticleWellFormed state it |
| Pipeline.WriteAll | DBWriter/DBWriter.py:653-669 | the run loop; WriteAllOutcome and NothingAfterPill state it |
| Pipeline.PillIndex | DBWriter/DBWriter.py:661-669 | the position of the first marker: no item before it is a marker, and the item there is one |
| Pipeline.GrowsTransitive | DBWriter/DBWriter.py:608-650 | growth by appended rows and links composes |
| Pipeline.GrowsInTransitive | DBWriter/DBWriter.py:461-471 | growth confined to one category composes |
| Pipeline.GrowsWellFormed | DBWriter/DBWriter.py:315-339 | growth keeps every id positive and below the next id |
| Pipeline.AddLinkGrows | DBWriter/DBWriter.py:187-192 | a link is added exactly when the article id is not 0 or -1 and the entity id is not 0, and then it is the only change |
| Pipeline.InsertAndLinkOutcome | DBWriter/DBWriter.py:323-334 | for an empty name nothing changes; otherwise one new row with the next id, linked unless the article id is 0 or -1 |
| Pipeline.ResolveNameOutcome | DBWriter/DBWriter.py:461-471 | a resolved name is linked and nothing is inserted; an unresolved empty name changes nothing; any other unresolved name gets one new row and at most one link |
| Pipeline.ResolveNameLinksMatchingRow | DBWriter/DBWriter.py:461-471 | every link a name creates points at a row the name matches at some stage |
| Pipeline.ResolveNameTwice | DBWriter/DBWriter.py:461-471 | a name inserted for one article resolves to the same row for the next, with no second insert |
| Pipeline.ProcessNamesGrows | DBWriter/DBWriter.py:461-471 | a process loop touches only its category's tables, links only this article, and makes at most one link per name |
| Pipeline.LocateNameOutcome | DBWriter/DBWriter.py:495-520 | the cases apply in order: the row found by case one, two or three is linked (unless the article id is 0 or -1) and nothing is inserted; when all fail, an empty name changes nothing and any other name gets a new row with the next id, linked unless the article id is 0 or -1 |
| Pipeline.ParisResolvesToFrance | DBWriter/DBWriter.py:495-520 | with an American and a French "Paris" row, an article naming Paris and France links the French one, through case one failing, France as first admin area and case two |
| Pipeline.LocateAllGrows | DBWriter/DBWriter.py:478-524 | the location loop touches only the location tables and makes at most one link per location |
| Pipeline.LinkEntitiesGrows | DBWriter/DBWriter.py:632-645 | the five process calls keep the database well formed, only append, and link only this article |
| Pipeline.LinkEntitiesBound | DBWriter/DBWriter.py:632-645 | the five process calls add at most one link per name to each category |
| Pipeline.WriteArticleOutcome | DBWriter/DBWriter.py:608-650 | exactly one article row is appended, with the next id and the article's title, URL, text and site; everything else only grows, and every new link carries that id |
| Pipeline.WriteArticleWellFormed | DBWriter/DBWriter.py:608-650 | writing an article keeps every id positive and below the next id |
| Pipeline.PrefixTransitive | DBWriter/DBWriter.py:661-669 | an extended table stays extended after another write |
| Pipeline.ArticlesForExtend | DBWriter/DBWriter.py:661-669 | one more written item adds its own row after the earlier ones |
| Pipeline.WriteAllOutcome | DBWriter/DBWriter.py:653-669 | one article row per queue item, in queue order, with increasing ids; earlier rows and links are kept |
| Pipeline.WriteAllStep | DBWriter/DBWriter.py:661-669 | one turn of the queue loop keeps the per-item correspondence |
| Pipeline.WriteOneMore | DBWriter/DBWriter.py:661-669 | writing the last item of the queue extends what the earlier items wrote |
| Pipeline.NothingAfterPill | DBWriter/DBWriter.py:661-669 | with the marker after a marker-free prefix, only that prefix is written |
| Writer.DBWriter.constructor | DBWriter/DBWriter.py:23-71 | the tables start as given; `good` is set exactly when the connection can be made |
| Writer.DBWriter.InsertArticleLink | DBWriter/DBWriter.py:177-302 | the five _InsertArticle* methods: the state after is AddLink of the state before, or unchanged when statements fail |
| Writer.DBWriter.InsertEntity | DBWriter/DBWriter.py:315-447 | the five _Insert* methods: -1 and no change for an empty name or a failed statement; otherwise the new row's id |
| Writer.DBWriter.GetUniqueCommon | DBWriter/DBWriter.py:848-914 | returns the cascade's id, or -1 when statements fail; changes nothing |
| Writer.DBWriter.ResolveOne | DBWriter/DBWriter.py:462-471 | one loop turn equals ResolveName |
| Writer.DBWriter.ProcessCommon | DBWriter/DBWriter.py:461-471 | the loop equals ProcessNames over the whole list |
| Writer.DBWriter.ProcessPeople | DBWriter/DBWriter.py:451-475 | ProcessNames for people |
| Writer.DBWriter.ProcessFacilities | DBWriter/DBWriter.py:527-551 | ProcessNames for facilities |
| Writer.DBWriter.ProcessOrganizations | DBWriter/DBWriter.py:554-578 | ProcessNames for organizations |
| Writer.DBWriter.ProcessEvents | DBWriter/DBWriter.py:581-605 | ProcessNames for events |
| Writer.DBWriter.FindCountries | DBWriter/DBWriter.py:777-845 | the returned list equals AdminAreas of the locations; an empty list when statements fail |
| Writer.DBWriter.LocationCaseTwo | DBWriter/DBWriter.py:672-743 | True exactly when CaseTwo finds a row, the link being then the only change; CaseTwo's area and stage order are CaseTwoStageOrder and CaseTwoFirstSettled |
| Writer.DBWriter.LocationCaseThree | DBWriter/DBWriter.py:746-774 | True exactly when CaseThree finds a row; the link is then the only change |
| Writer.DBWriter.LocateOne | DBWriter/DBWriter.py:496-520 | one loop turn equals LocateName with the article's admin areas; the lazily filled admin list stays empty or equal to them |
| Writer.DBWriter.ProcessLocations | DBWriter/DBWriter.py:478-524 | the loop equals Pipeline.ProcessLocations |
| Writer.DBWriter.LinkAll | DBWriter/DBWriter.py:632-645 | the five process calls, in order, equal LinkEntities on the state after the article row |
| Writer.DBWriter.WriteEntries | DBWriter/DBWriter.py:608-650 | the new state is WriteArticle of the old one; `good` is cleared when statements fail |
| Writer.DBWriter.Run | DBWriter/DBWriter.py:653-669 | items are consumed up to and including the first marker; exactly the items before it are written, in order |
| TextFilters.Lower | websites/WebsiteBase.py:398 | lower-casing keeps the length |
| TextFilters.WordLen | websites/WebsiteBase.py:395 | a word runs up to the first whitespace |
| TextFilters.Words | websites/WebsiteBase.py:395 | `split()` yields only non-empty words without whitespace |
| TextFilters.WordsCover | websites/WebsiteBase.py:395 | `split()` loses nothing but whitespace: its words laid end to end are the input's non-whitespace characters, in order |
| TextFilters.SelectKeepsAll | websites/WebsiteBase.py:395 | a filter every character passes keeps the word whole |
| TextFilters.WordsJoin | websites/WebsiteBase.py:395-401 | splitting joined words gives the words back |
| TextFilters.WordThenRest | websites/WebsiteBase.py:395 | a word followed by nothing or by whitespace comes out of `split()` whole, ahead of the words of what follows |
| TextFilters.JoinSingleSpaced | websites/WebsiteBase.py:401 | joined words are separated by single blanks, with none at the ends |
| TextFilters.StripNoEdgeSpace | websites/WebsiteBase.py:401 | the final strip changes nothing on such a string |
| TextFilters.Keep | websites/WebsiteBase.py:392-398 | a word is kept exactly when its lower case is not a stop word |
| TextFilters.RemoveStopWords | websites/WebsiteBase.py:384-401 | the result's words are the input's words minus the stop words, in order, single-spaced |
| TextFilters.IsBadEntity | websites/WebsiteBase.py:493-499 | the two regular-expression tests; IsBadEntityExactly states what they accept |
| TextFilters.IsBadEntityExactly | websites/WebsiteBase.py:493-499 | bad exactly when the text starts with a digit followed by a non-whitespace character; the clock pattern is subsumed |
| TextFilters.DigitsThenNonSpaceStart | websites/WebsiteBase.py:493-494 | a match of the first pattern starts with a digit and a non-whitespace character |
| TextFilters.ClockStart | websites/WebsiteBase.py:496-497 | a clock time starts with a digit followed by a digit or a colon |
| TextFilters.RewriteKeepsAbsent | websites/WebsiteBase.py:413-435 | a rewrite introduces only characters of its input or its replacement |
| TextFilters.ReplaceRemoves | websites/WebsiteBase.py:413-417 | replacing a character by text without it removes it |
| TextFilters.ReplaceMarkAddsSpace | websites/WebsiteBase.py:431-435 | replacing a mark by the mark and a blank leaves every mark followed by a blank |
| TextFilters.FollowedBySpaceConcat | websites/WebsiteBase.py:431-435 | the blank-after-mark property survives concatenation |
| TextFilters.RewriteKeepsSpacing | websites/WebsiteBase.py:431-435 | later rewrites keep marks followed by blanks |
| TextFilters.FixTextNoOddChars | websites/WebsiteBase.py:404-437 | the output contains none of the five typographic characters |
| TextFilters.KeepsAbsentFrom | websites/WebsiteBase.py:413-437 | a typographic character removed by one rewrite is not brought back by later ones |
| TextFilters.NoOddCharsAfterPunctuation | websites/WebsiteBase.py:421-435 | the contraction and spacing rewrites add no typographic character |
| TextFilters.FixTextSpacesAfterMarks | websites/WebsiteBase.py:404-437 | in the output every `?` and `!` is followed by a blank |
| TextFilters.FixText | websites/WebsiteBase.py:404-437 | the rewrites in source order; FixTextNoOddChars and FixTextSpacesAfterMarks state their result |
| TextFilters.CheckSimilarity | websites/WebsiteBase.py:249-262 | the empty-text guard and the score threshold; CheckSimilarityGuard and Entities.DroppedNeedsText state it |
| TextFilters.CheckSimilarityGuard | websites/WebsiteBase.py:249-262 | False for an empty text, without consulting the scorer; otherwise whether the score reaches the ratio |
| Entities.Append | websites/WebsiteBase.py:313 | an append extends one label's list and leaves the others unchanged |
| Entities.Matching | websites/WebsiteBase.py:474-476 | the matched problem entities occur in the text and carry that label |
| Entities.WithProblems | websites/WebsiteBase.py:466-482 | the problem-entity pass as a fold; WithProblemsOutcome states it |
| Entities.WithProblemsOutcome | websites/WebsiteBase.py:466-482 | each label's list gains exactly its problem entities found in the text, in list order, after its existing entries |
| Entities.ProcessProblemEntities | websites/WebsiteBase.py:474-478 | the loop equals the problem-entity fold |
| Entities.StripCleaned | websites/WebsiteBase.py:313 | the stored text is the text the duplicate check looked at |
| Entities.AddEntity | websites/WebsiteBase.py:287-313 | one turn of the filter loop; AdmitsStep and DistinctStep state it |
| Entities.AddAll | websites/WebsiteBase.py:287-313 | the filter loop as a fold; AddAllGrows, AddAllAdmits, AddAllDistinct and AddAllComplete state it |
| Entities.AppearsGrows | websites/WebsiteBase.py:305-308 | a listed text stays listed as lists grow |
| Entities.AddedAppend | websites/WebsiteBase.py:313 | entries added after an append are the earlier additions plus the appended ones |
| Entities.AddAllGrows | websites/WebsiteBase.py:287-313 | the filter loop only appends, and only under the six kept labels |
| Entities.AddAllAdmits | websites/WebsiteBase.py:287-313 | every added entry is the non-empty, not-bad, stop-word-stripped text of a span with that label, and was listed under no label before |
| Entities.AdmitsStep | websites/WebsiteBase.py:287-313 | one loop turn keeps AddAllAdmits |
| Entities.AddAllDistinct | websites/WebsiteBase.py:304-313 | no text is added twice, under one label or under two |
| Entities.DistinctStep | websites/WebsiteBase.py:304-313 | appending a text listed nowhere keeps the additions distinct |
| Entities.AddAllComplete | websites/WebsiteBase.py:287-313 | every span with a kept label whose stripped text is non-empty and not bad ends up listed |
| Entities.AlreadyListed | websites/WebsiteBase.py:305-308 | True exactly when the text is listed under some label |
| Entities.AddNlpEntities | websites/WebsiteBase.py:287-313 | the loop equals the filter fold |
| Entities.BlankStep | websites/WebsiteBase.py:330-337 | a justified blank keeps the invariants of the collapse pass |
| Entities.DroppedNeedsText | websites/WebsiteBase.py:323-337 | a blank entry is never dropped, and every drop is justified by a non-blank entry with another text that is at least as long |
| Entities.Collapse | websites/WebsiteBase.py:316-337 | every entry is kept or blanked because a different, similar entry is at least as long; no two surviving different entries are similar; a list with entries keeps one |
| Entities.CollapseFrom | websites/WebsiteBase.py:322-337 | after scanning from an entry, it is blank or similar to no surviving different entry |
| Entities.CompareAt | websites/WebsiteBase.py:323-337 | one comparison blanks at most one entry, justified, and stops the scan only when the scanning entry was blanked |
| Entities.Compact | websites/WebsiteBase.py:340-341 | compaction keeps exactly the non-empty entries |
| Entities.CompactOfBlanked | websites/WebsiteBase.py:316-341 | after the collapse and compaction, a list is an order-preserving subsequence of its list before them |
| Entities.CollapseList | websites/WebsiteBase.py:316-341 | no empty entries; a subsequence of the list before; no similar pair of different entries; every entry that vanished was dropped for a similar, at least as long entry; a non-empty list stays non-empty |
| Entities.CollapseAll | websites/WebsiteBase.py:316-341 | every label is collapsed and compacted, and no label is added or removed |
| Entities.GetEntities | websites/WebsiteBase.py:265-343 | empty text gives an empty dictionary; otherwise the labels of the filtered dictionary, each list collapsed as in CollapseList |
| Entities.Populate | websites/WebsiteBase.py:370-375 | each entity list keeps its entries and is followed by the dictionary's: GPE for locations, FACILITY then FAC for facilities, PERSON, ORG and EVENT, in order and with repetitions; membership in either direction; text fields unchanged |
| Entities.PopulateKeepsMarker | websites/WebsiteBase.py:370-375 | filling in entities never makes an article look like the marker |

## Left out

- Connection handling is not modelled:
  - `__del__`, `_ResetSQLConnection`, `_CreateDBObjects`, `_ReadConfiguration` and the configuration file are left out;
  - a failure is one flag, `serverUp`. When it is false every statement fails, so every method leaves the tables unchanged and WriteEntries clears `good`;
  - a failure of one statement while others succeed is not modelled.
- SQL text, parameter escaping and the `print` tracing are left out. The statements are modelled by the rows they select or append.
- Tables.AliasMatches, Tables.AliasCcMatches and Tables.CountryAliasMatches test whether the whole name is one of the aliases. The source builds the array literal `'{name}'` by hand (DBWriter/DBWriter.py:724, 803, 875): a name containing a comma becomes several array elements, and an empty name gives the empty array `'{}'`, which every non-null aliases array contains. Neither case is modelled.
- The database is modelled with one id counter shared by all tables, where PostgreSQL keeps one sequence per table. Ids are only compared for equality and for being fresh.
- The trigram `SIMILARITY` and `fuzz.partial_ratio` are parameters and are not computed.
- spaCy is not modelled; its spans are an input.
- Pattern matching is ASCII only:
  - `str.split`, `str.lower`, `\d` and `\S` are modelled for ASCII whitespace and digits;
  - Unicode whitespace, case folding and digits are not.
- `ORDER BY population DESC LIMIT 1` is modelled by Resolution.Highest, which takes the first row among equal populations. The database leaves that tie unspecified.
- The queue is modelled as a finite sequence. A blocking `get()` on an empty queue is the end of Run's loop.
- The multiprocessing start-up is left out, as is the driver in newsextractor.py apart from the marker.
- These parts of WebsiteBase.py are left out because they do I/O:
  - `_GetFeedItems` reads feeds and checks the database;
  - `_ParseArticle` and `_GetProblemEntities` read their inputs from outside;
  - the rest of `ProcessFeed` (network and queue puts).
- `websites/BBCWebsite.py` and `WebsiteFactory` are left out.
- Writer.DBWriter.ResolveOne, Writer.DBWriter.LocateOne, Writer.DBWriter.LinkAll, Entities.CollapseFrom and Entities.CompareAt are loop bodies or runs of statements split into methods. The source has them inline.
- Entities.GetEntities: the dictionary's key order is not modelled. Labels are collapsed independently, so the order does not affect the result.
