/** The `Paper` class of arxivnews.py (lines 5-51): a record whose
    attributes start as `None` and are filled in from a feed entry by
    `init_from_feed`, and the text `display` prints for it. */
module Papers {
  import opened Options
  import opened StructTimes
  import opened Feed
  import opened PyStrings
  import opened Layout

  /** The `(tm_year, tm_mon, tm_mday)` tuple stored in `Paper.date`. */
  datatype Date = Date(year: int, month: int, day: int)

  /** `[a.name for a in authors]` */
  function AuthorNames(authors: seq<Author>): (names: seq<string>)
    ensures |names| == |authors|
    ensures forall k :: 0 <= k < |authors| ==> names[k] == authors[k].name
  {
    if authors == [] then []
    else AuthorNames(authors[..|authors| - 1]) + [authors[|authors| - 1].name]
  }

  /** `[t.term for t in tags]` */
  function TagTerms(tags: seq<Tag>): (terms: seq<string>)
    ensures |terms| == |tags|
    ensures forall k :: 0 <= k < |tags| ==> terms[k] == tags[k].term
  {
    if tags == [] then []
    else TagTerms(tags[..|tags| - 1]) + [tags[|tags| - 1].term]
  }

  /** The calendar day of a timestamp: the first three fields of its tuple. */
  function DateOf(t: StructTime): (d: Date)
    ensures [d.year, d.month, d.day] == Fields(t)[..3]
  {
    Date(t.tm_year, t.tm_mon, t.tm_mday)
  }

  /** The `published == updated` test behind `Paper.new`: `struct_time`
      equality, which compares every field of the tuple. */
  function IsNew(published: StructTime, updated: StructTime): (r: bool)
    ensures r <==> Fields(published) == Fields(updated)
  {
    FieldsInjective(published, updated);
    published == updated
  }

  /** Being on the same calendar day is not enough to be new: a paper
      updated later on the day it was published is reported as revised. */
  lemma SameDayLaterIsNotNew(p: StructTime, u: StructTime)
    requires DateOf(p) == DateOf(u) && Before(p, u)
    ensures !IsNew(p, u)
  {
  }

  /** The attribute values of a `Paper` once `init_from_feed` has run. */
  datatype PaperRecord = PaperRecord(
    title: string,
    authors: seq<string>,
    abstractText: string,
    published: StructTime,
    updated: StructTime,
    date: Date,
    tags: seq<string>,
    isNew: bool,
    id: string)

  /** The values `init_from_feed(e)` gives the attributes: title, summary
      and id copied, authors and tags projected, in feed order, to their
      names and terms, `new` by equality of the whole timestamps, `date` the
      day of `published`. */
  function FromFeed(e: ApiEntry): (r: PaperRecord)
    ensures r.title == e.title && r.abstractText == e.summary && r.id == e.id
    ensures |r.authors| == |e.authors| &&
            forall k :: 0 <= k < |e.authors| ==> r.authors[k] == e.authors[k].name
    ensures |r.tags| == |e.tags| &&
            forall k :: 0 <= k < |e.tags| ==> r.tags[k] == e.tags[k].term
    ensures r.published == e.publishedParsed && r.updated == e.updatedParsed
    ensures r.isNew <==> Fields(e.publishedParsed) == Fields(e.updatedParsed)
    ensures [r.date.year, r.date.month, r.date.day] == Fields(e.publishedParsed)[..3]
  {
    PaperRecord(e.title, AuthorNames(e.authors), e.summary, e.publishedParsed,
                e.updatedParsed, DateOf(e.publishedParsed), TagTerms(e.tags),
                IsNew(e.publishedParsed, e.updatedParsed), e.id)
  }

  /** What `display()` prints for a paper, one string per `print` call:
      seven strings, the first `NEW` exactly when the paper is new and
      `REVISED` otherwise, then the title, four tab-indented detail lines
      (authors, date, tags, id) and the abstract. */
  function DisplayLines(r: PaperRecord): (lines: seq<string>)
    ensures |lines| == 7
    ensures lines[0] == "\nNEW\n" <==> r.isNew
    ensures lines[0] == "\nREVISED\n" <==> !r.isNew
    ensures lines[1] == r.title && lines[6] == r.abstractText
    ensures forall k :: 2 <= k < 6 ==> |lines[k]| >= 1 && lines[k][0] == '\t'
    ensures lines[2][1..] == Join(", ", r.authors)
    ensures lines[3][1..] == DateText(r.date.year, r.date.month, r.date.day)
    ensures lines[4][1..] == Join(" ", r.tags)
    ensures lines[5][1..] == r.id
  {
    [if r.isNew then "\nNEW\n" else "\nREVISED\n",
     r.title,
     "\t" + Join(", ", r.authors),
     "\t" + DateText(r.date.year, r.date.month, r.date.day),
     "\t" + Join(" ", r.tags),
     "\t" + r.id,
     r.abstractText]
  }

  /** The display of a paper built from `e` shows `e`'s own data: the NEW
      marker exactly when the two timestamps are equal (REVISED otherwise),
      the title, the date of `published` (`YYYY-MM-DD` for four-digit
      years), the id and the summary, unchanged. */
  lemma DisplayShowsEntry(e: ApiEntry)
    ensures var lines := DisplayLines(FromFeed(e));
            |lines| == 7 &&
            (lines[0] == "\nNEW\n" <==> e.publishedParsed == e.updatedParsed) &&
            (lines[0] == "\nREVISED\n" <==> e.publishedParsed != e.updatedParsed) &&
            lines[1] == e.title && lines[5] == "\t" + e.id && lines[6] == e.summary &&
            lines[3] == "\t" + DateText(e.publishedParsed.tm_year, e.publishedParsed.tm_mon,
                                        e.publishedParsed.tm_mday)
  {
    FieldsInjective(e.publishedParsed, e.updatedParsed);
  }

  /** The authors line holds the paper's authors: splitting it on commas
      gives the first name, then every later name behind one space, in feed
      order, when no name contains a comma. */
  lemma DisplayShowsAuthors(e: ApiEntry)
    requires |e.authors| >= 1 && forall k :: 0 <= k < |e.authors| ==> ',' !in e.authors[k].name
    ensures var line := DisplayLines(FromFeed(e))[2];
            var r := SplitOn(line[1..], ',');
            |line| >= 1 && line[0] == '\t' && |r| == |e.authors| && r[0] == e.authors[0].name &&
            forall k :: 1 <= k < |e.authors| ==> r[k] == " " + e.authors[k].name
  {
    var names := AuthorNames(e.authors);
    SplitCommaSpace(names);
  }

  /** The tag line holds the paper's tag codes: splitting it on spaces gives
      them back, in feed order, when no code contains a space. */
  lemma DisplayShowsTags(e: ApiEntry)
    requires |e.tags| >= 1 && forall k :: 0 <= k < |e.tags| ==> ' ' !in e.tags[k].term
    ensures var line := DisplayLines(FromFeed(e))[4];
            |line| >= 1 && line[0] == '\t' && SplitOn(line[1..], ' ') == TagTerms(e.tags)
  {
    var terms := TagTerms(e.tags);
    var line := DisplayLines(FromFeed(e))[4];
    assert line == "\t" + Join(" ", terms);
    assert line[1..] == Join([' '], terms);
    SplitJoin(terms, ' ');
  }

  class Paper {
    var title: Option<string>
    var authors: Option<seq<string>>
    var abstractText: Option<string>
    var published: Option<StructTime>
    var updated: Option<StructTime>
    var date: Option<Date>
    var tags: Option<seq<string>>
    var isNew: Option<bool>
    var id: Option<string>

    /** `Paper()`: every attribute is `None`. */
    constructor ()
      ensures title == None && authors == None && abstractText == None
      ensures published == None && updated == None && date == None
      ensures tags == None && isNew == None && id == None
    {
      title := None;
      authors := None;
      abstractText := None;
      published := None;
      updated := None;
      date := None;
      tags := None;
      isNew := None;
      id := None;
    }

    /** Every attribute has been given a value. */
    predicate Initialized()
      reads this
    {
      title.Some? && authors.Some? && abstractText.Some? && published.Some? &&
      updated.Some? && date.Some? && tags.Some? && isNew.Some? && id.Some?
    }

    /** The attribute values, once they are all set. */
    function Record(): PaperRecord
      reads this
      requires Initialized()
    {
      PaperRecord(title.value, authors.value, abstractText.value, published.value,
                  updated.value, date.value, tags.value, isNew.value, id.value)
    }

    /** `init_from_feed(p)`: the attributes become those `FromFeed(p)`
        describes. */
    method InitFromFeed(p: ApiEntry)
      modifies this
      ensures Initialized() && Record() == FromFeed(p)
    {
      title := Some(p.title);
      authors := Some(AuthorNames(p.authors));
      abstractText := Some(p.summary);
      tags := Some(TagTerms(p.tags));
      id := Some(p.id);

      published := Some(p.publishedParsed);
      updated := Some(p.updatedParsed);
      if published == updated {
        isNew := Some(true);
      } else {
        isNew := Some(false);
      }

      date := Some(Date(published.value.tm_year, published.value.tm_mon,
                        published.value.tm_mday));
    }

    /** `display()`, as the strings it prints: the NEW or REVISED marker
        from `new`, then the paper's own title, id and abstract. */
    function Display(): (lines: seq<string>)
      reads this
      requires Initialized()
      ensures lines == DisplayLines(Record())
      ensures |lines| == 7
      ensures lines[0] == "\nNEW\n" <==> isNew.value
      ensures lines[1] == title.value && lines[6] == abstractText.value
      ensures lines[5] == "\t" + id.value
    {
      DisplayLines(Record())
    }
  }
}
