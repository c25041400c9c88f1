/** The article record handed from the site scrapers to the database writer
    (websites/ExtractedArticle.py), and the termination marker the driver
    puts on the queue to stop the writer. */
module Articles {

  /** An extracted article: four text fields and five entity-name lists. */
  datatype ExtractedArticle = ExtractedArticle(
    articleTitle: string,
    articleText: string,
    articleURL: string,
    website: string,
    locations: seq<string>,
    facilities: seq<string>,
    people: seq<string>,
    organizations: seq<string>,
    events: seq<string>)

  /** The text that marks the end of the queue. */
  const ExitMarker: string := "EXITCALLED"

  /** A record as the constructor leaves it: every field empty. */
  function Fresh(): ExtractedArticle {
    ExtractedArticle("", "", "", "", [], [], [], [], [])
  }

  /** The marker record: a fresh record whose text is the exit marker. */
  function PoisonPill(): ExtractedArticle {
    Fresh().(articleText := ExitMarker)
  }

  /** What the writer's loop tests each item for. */
  predicate IsPoisonPill(a: ExtractedArticle) {
    a.articleText == ExitMarker
  }

  /** A record with empty text fields and no entities. */
  predicate IsBlank(a: ExtractedArticle) {
    a.articleTitle == "" && a.articleText == "" && a.articleURL == "" && a.website == ""
    && a.locations == [] && a.facilities == [] && a.people == [] && a.organizations == [] && a.events == []
  }

  /** A fresh record has empty text fields and five empty entity lists. */
  lemma FreshIsBlank()
    ensures IsBlank(Fresh())
  {
  }

  /** A fresh record never stops the writer: its text is empty. */
  lemma FreshIsNotPoisonPill()
    ensures !IsPoisonPill(Fresh())
  {
  }

  /** Every blank record, not only the one Fresh builds, passes the test. */
  lemma BlankIsNotPoisonPill(a: ExtractedArticle)
    requires IsBlank(a)
    ensures !IsPoisonPill(a)
  {
  }

  /** The marker is recognised, and it differs from a fresh record only in
      its text, so it carries no entity names. */
  lemma PoisonPillShape()
    ensures IsPoisonPill(PoisonPill())
    ensures PoisonPill().locations == [] && PoisonPill().facilities == [] && PoisonPill().people == []
            && PoisonPill().organizations == [] && PoisonPill().events == []
    ensures PoisonPill().(articleText := "") == Fresh()
  {
  }
}
