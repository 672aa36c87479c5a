/** The deterministic core of arxivnews.py: reading the subscription list
    (`get_categories`), turning RSS links into arXiv ids (`get_id_list`),
    building the API query URL, building and sorting a category's papers,
    and the screens `news()` shows, in order. `feedparser.parse` on a URL
    is a parameter of the model (`rssFeed`, `apiFeed`): the network and the
    parser are outside it. */
module ArxivNews {
  import opened Options
  import opened StructTimes
  import opened Feed
  import opened PyStrings
  import opened Layout
  import opened Papers
  import opened StableOrder

  // ---------------------------------------------------------------------
  // get_categories (arxivnews.py:67-77)

  /** `cat.strip().rstrip(',')` for one line of the subscriptions file: a
      prefix of the stripped line that neither starts with whitespace nor
      ends with a comma, empty for a blank line. */
  function NormalizeLine(line: string): (cat: string)
    ensures cat <= Strip(line) && |cat| <= |line|
    ensures cat == "" || (cat[|cat| - 1] != ',' && !IsSpace(cat[0]))
    ensures (forall k :: 0 <= k < |line| ==> IsSpace(line[k])) ==> cat == ""
  {
    RStripChar(Strip(line), ',')
  }

  /** The category is the stripped line without its trailing commas: only
      commas were cut from the end, none is left there, it does not start
      with whitespace, and a blank line gives the empty string. */
  lemma NormalizeLineSpec(line: string)
    ensures var cat := NormalizeLine(line);
            |cat| <= |Strip(line)| &&
            Strip(line) == cat + Repeat(',', |Strip(line)| - |cat|) &&
            (cat == "" || (cat[|cat| - 1] != ',' && !IsSpace(cat[0])))
    ensures (forall k :: 0 <= k < |line| ==> IsSpace(line[k])) ==> NormalizeLine(line) == ""
  {
    var s := Strip(line);
    var cat := NormalizeLine(line);
    StripIsTrimmedSlice(line);
    assert s == cat + s[|cat|..];
    assert s[|cat|..] == Repeat(',', |s| - |cat|);
    if cat != "" {
      assert cat[0] == s[0];
    }
  }

  /** `get_categories()` over the lines of the file: one category per line,
      in file order, blank lines included as `""`. */
  method GetCategories(lines: seq<string>) returns (categories: seq<string>)
    ensures |categories| == |lines|
    ensures forall k :: 0 <= k < |lines| ==> categories[k] == NormalizeLine(lines[k])
  {
    categories := [];
    for k := 0 to |lines|
      invariant |categories| == k
      invariant forall j :: 0 <= j < k ==> categories[j] == NormalizeLine(lines[j])
    {
      categories := categories + [NormalizeLine(lines[k])];
    }
  }

  // ---------------------------------------------------------------------
  // get_id_list (arxivnews.py:79-93)

  const RssBase: string := "http://export.arxiv.org/rss/"

  /** The URL of a category's RSS listing: the category follows the fixed
      base, so it can be read back from the URL. */
  function RssUrl(cat: string): (url: string)
    ensures RssBase <= url && url[|RssBase|..] == cat
  {
    RssBase + cat
  }

  /** `link[link.rfind('/') + 1:]`: the longest end of the link without a
      `/`, so the part after the last `/`, or the whole link when it has
      none. */
  function IdFromLink(link: string): (id: string)
    ensures '/' !in id
    ensures |id| <= |link| && id == link[|link| - |id|..]
    ensures |id| < |link| ==> link[|link| - |id| - 1] == '/'
  {
    var i := RFind(link, '/');
    link[i + 1..]
  }

  /** The two cases of the id: a link with a `/` is some prefix, the last
      `/`, then the id; a link without one is its own id. */
  lemma IdFromLinkCases(link: string)
    ensures '/' in link ==> exists prefix :: link == prefix + "/" + IdFromLink(link)
    ensures '/' !in link ==> IdFromLink(link) == link
  {
    var id := IdFromLink(link);
    if |id| < |link| {
      var prefix := link[..|link| - |id| - 1];
      assert link == prefix + "/" + id;
    } else {
      assert id == link;
    }
  }

  /** `ids` holds the id of every entry's link, one per entry, in feed order. */
  ghost predicate IdsOfEntries(ids: seq<string>, entries: seq<RssEntry>)
  {
    |ids| == |entries| &&
    forall k :: 0 <= k < |entries| ==> ids[k] == IdFromLink(entries[k].link)
  }

  /** The loop of `get_id_list(cat)` over the parsed RSS entries. */
  method GetIdList(entries: seq<RssEntry>) returns (ids: seq<string>)
    ensures IdsOfEntries(ids, entries)
    ensures forall k :: 0 <= k < |ids| ==> '/' !in ids[k]
  {
    ids := [];
    for k := 0 to |entries|
      invariant |ids| == k
      invariant forall j :: 0 <= j < k ==> ids[j] == IdFromLink(entries[j].link)
    {
      ids := ids + [IdFromLink(entries[k].link)];
    }
  }

  // ---------------------------------------------------------------------
  // The API query URL (arxivnews.py:105-107)

  const QueryBase: string := "http://export.arxiv.org/api/query?id_list="

  /** The value of the `id_list` parameter: what follows the base, up to
      the last `&`. */
  function IdListOf(url: string): Option<string>
  {
    var j := RFind(url, '&');
    if QueryBase <= url && |QueryBase| <= j then Some(url[|QueryBase|..j]) else None
  }

  const MaxResultsKey: string := "max_results="

  /** The value of the `max_results` parameter: the last parameter of the
      URL must be named `max_results`, and its value must be the decimal
      text of a number as `str` writes it: at least one digit, and no
      leading zero unless it is `0` itself. */
  function MaxResultsOf(url: string): Option<nat>
  {
    var j := RFind(url, '&');
    var v := url[j + 1..];
    if 0 <= j && MaxResultsKey <= v && |v| > |MaxResultsKey| &&
       (v[|MaxResultsKey|] == '0' ==> |v| == |MaxResultsKey| + 1) &&
       AllDigits(v[|MaxResultsKey|..])
    then Some(ParseDecimal(v[|MaxResultsKey|..]))
    else None
  }

  /** The last parameter of a query URL is `max_results`, and its value
      reads back as the count the URL was built with. */
  lemma MaxResultsReadBack(joined: string, n: nat)
    ensures MaxResultsOf(QueryBase + joined + "&max_results=" + Decimal(n)) == Some(n)
  {
    var digits := Decimal(n);
    var back := MaxResultsKey + digits;
    var front := QueryBase + joined;
    var url := QueryBase + joined + "&max_results=" + digits;
    assert url == front + ['&'] + back;
    assert '&' !in back by {
      assert forall k :: 0 <= k < |digits| ==> IsDigit(digits[k]);
    }
    SplitAtLast(front, '&', back);
    assert url[|front| + 1..] == back;
    assert back[|MaxResultsKey|..] == digits;
    ParseDecimalRoundTrip(n);
  }

  /** The `id_list` of a query URL reads back as the text it was built
      with, whatever that text contains. */
  lemma IdListReadBack(joined: string, n: nat)
    ensures IdListOf(QueryBase + joined + "&max_results=" + Decimal(n)) == Some(joined)
  {
    var digits := Decimal(n);
    var back := "max_results=" + digits;
    var front := QueryBase + joined;
    var url := QueryBase + joined + "&max_results=" + digits;
    assert url == front + ['&'] + back;
    assert '&' !in back by {
      assert forall k :: 0 <= k < |digits| ==> IsDigit(digits[k]);
    }
    SplitAtLast(front, '&', back);
    assert url[..|front|] == front;
    assert QueryBase <= url by {
      assert url[..|QueryBase|] == front[..|QueryBase|] == QueryBase;
    }
    assert url[|QueryBase|..|front|] == front[|QueryBase|..] == joined;
  }

  /** The URL `news()` builds for a list of ids. Its `id_list` parameter is
      the comma join of the ids, whatever they contain, and its
      `max_results` is the number of ids. */
  function QueryUrl(ids: seq<string>): (url: string)
    ensures IdListOf(url) == Some(Join(",", ids))
    ensures MaxResultsOf(url) == Some(|ids|)
  {
    IdListReadBack(Join(",", ids), |ids|);
    MaxResultsReadBack(Join(",", ids), |ids|);
    QueryBase + Join(",", ids) + "&max_results=" + Decimal(|ids|)
  }

  /** When no id contains a comma, splitting `id_list` on commas gives the
      ids back, one per entry and in order, and `max_results` is one more
      than the number of commas in `id_list`. */
  lemma QueryUrlIds(ids: seq<string>)
    requires |ids| >= 1
    requires forall k :: 0 <= k < |ids| ==> ',' !in ids[k]
    ensures IdListOf(QueryUrl(ids)).Some? && MaxResultsOf(QueryUrl(ids)).Some?
    ensures SplitOn(IdListOf(QueryUrl(ids)).value, ',') == ids
    ensures MaxResultsOf(QueryUrl(ids)).value == Count(IdListOf(QueryUrl(ids)).value, ',') + 1
  {
    SplitJoin(ids, ',');
    JoinCount(ids, ',');
  }

  // ---------------------------------------------------------------------
  // Building and sorting a category's papers (arxivnews.py:108-114)

  /** Every paper has its `published` attribute set. */
  predicate AllPublished(papers: seq<Paper>)
    reads papers
  {
    forall k :: 0 <= k < |papers| ==> papers[k].published.Some?
  }

  /** The sort keys of a list of papers: their `published` values. */
  function PublishedKeys(papers: seq<Paper>): (keys: seq<StructTime>)
    reads papers
    requires AllPublished(papers)
    ensures |keys| == |papers|
    ensures forall k :: 0 <= k < |papers| ==> keys[k] == papers[k].published.value
  {
    if papers == [] then []
    else PublishedKeys(papers[..|papers| - 1]) + [papers[|papers| - 1].published.value]
  }

  /** The `published_parsed` timestamps of a list of entries. */
  function EntryKeys(entries: seq<ApiEntry>): (keys: seq<StructTime>)
    ensures |keys| == |entries|
    ensures forall k :: 0 <= k < |entries| ==> keys[k] == entries[k].publishedParsed
  {
    if entries == [] then []
    else EntryKeys(entries[..|entries| - 1]) + [entries[|entries| - 1].publishedParsed]
  }

  /** `sorted` is `papers` rearranged by `perm`. */
  ghost predicate Arranges(papers: seq<Paper>, sorted: seq<Paper>, perm: seq<int>)
  {
    |sorted| == |papers| && Shuffle(perm, |papers|) &&
    (forall k :: 0 <= k < |papers| ==> sorted[k] == papers[perm[k]]) &&
    multiset(sorted) == multiset(papers)
  }

  /** Exchanging two neighbours in both the list and the order keeps the
      list arranged by the order. */
  lemma SwapKeepsArranges(papers: seq<Paper>, sorted: seq<Paper>, perm: seq<int>, j: int)
    requires Arranges(papers, sorted, perm) && 0 < j < |papers|
    ensures Arranges(papers, Swap(sorted, j), Swap(perm, j))
  {
    SwapKeepsShuffle(perm, |papers|, j);
  }

  /** One pass of the insertion sort: the paper at position `i` moves left
      past every paper whose key is strictly before its own. The keys are
      those of the papers in their original positions, computed once, as
      Python's sort does. */
  method InsertPaper(keys: seq<StructTime>, papers: seq<Paper>, sorted: seq<Paper>, perm: seq<int>, i: int)
    returns (sorted': seq<Paper>, perm': seq<int>)
    requires |keys| == |papers| && Arranges(papers, sorted, perm) && 0 <= i < |papers|
    requires forall k :: i <= k < |papers| ==> perm[k] == k
    requires forall k :: 0 <= k < i ==> perm[k] < i
    requires PrefixInOrder(keys, perm, i)
    ensures Arranges(papers, sorted', perm')
    ensures forall k :: i < k < |papers| ==> perm'[k] == k
    ensures forall k :: 0 <= k <= i ==> perm'[k] <= i
    ensures PrefixInOrder(keys, perm', i + 1)
  {
    var j := i;
    sorted', perm' := sorted, perm;
    InsertStart(keys, perm, i);
    while 0 < j && Before(keys[perm'[j - 1]], keys[perm'[j]])
      invariant Arranges(papers, sorted', perm') && Inserting(keys, perm', i, j)
      invariant forall k :: i < k < |papers| ==> perm'[k] == k
    {
      InsertStep(keys, perm', i, j);
      SwapKeepsArranges(papers, sorted', perm', j);
      sorted', perm' := Swap(sorted', j), Swap(perm', j);
      j := j - 1;
    }
    InsertDone(keys, perm', i, j);
  }

  /** `papers.sort(key=lambda p: p.published, reverse=True)`, by insertion
      sort over the keys computed up front: a paper moves left past every
      paper published strictly before it, never past one with an equal
      timestamp, so the sort is stable. */
  method SortByPublished(papers: seq<Paper>) returns (sorted: seq<Paper>, ghost perm: seq<int>)
    requires AllPublished(papers)
    ensures |sorted| == |papers|
    ensures StableDescending(PublishedKeys(papers), perm)
    ensures forall k :: 0 <= k < |sorted| ==> sorted[k] == papers[perm[k]]
    ensures multiset(sorted) == multiset(papers)
  {
    var keys := PublishedKeys(papers);
    var n := |papers|;
    var order := Iota(n);
    sorted := papers;
    var i := 0;
    while i < n
      invariant 0 <= i <= n && Arranges(papers, sorted, order)
      invariant forall k :: i <= k < n ==> order[k] == k
      invariant forall k :: 0 <= k < i ==> order[k] < i
      invariant PrefixInOrder(keys, order, i)
    {
      sorted, order := InsertPaper(keys, papers, sorted, order, i);
      i := i + 1;
    }
    ShuffleIsPermutation(order, n);
    perm := order;
  }

  /** What the sort leaves, for two positions `k <= l` of the sorted list:
      the paper at `k` was not published before the one at `l`, and when
      both were published at the same time they are in their original
      relative order. */
  lemma SortedByPublishedDescends(papers: seq<Paper>, sorted: seq<Paper>, perm: seq<int>, k: int, l: int)
    requires AllPublished(papers) && |sorted| == |papers|
    requires StableDescending(PublishedKeys(papers), perm)
    requires forall i :: 0 <= i < |sorted| ==> sorted[i] == papers[perm[i]]
    requires 0 <= k <= l < |sorted|
    ensures sorted[k].published.Some? && sorted[l].published.Some?
    ensures !Before(sorted[k].published.value, sorted[l].published.value)
    ensures k < l && sorted[k].published == sorted[l].published ==> perm[k] < perm[l]
  {
    var keys := PublishedKeys(papers);
    assert sorted[k].published.value == keys[perm[k]];
    assert sorted[l].published.value == keys[perm[l]];
    StableDescendingIsSorted(keys, perm, k, l);
    if k < l {
      assert InOrder(keys, perm[k], perm[l]);
    }
  }

  /** Paper `k` holds what `init_from_feed(entries[k])` gives it. */
  ghost predicate BuiltFrom(papers: seq<Paper>, entries: seq<ApiEntry>)
    reads papers
  {
    |papers| == |entries| &&
    forall k :: 0 <= k < |papers| ==>
      papers[k].Initialized() && papers[k].Record() == FromFeed(entries[k])
  }

  /** Papers built from entries are sorted by the entries' timestamps. */
  lemma BuiltKeys(papers: seq<Paper>, entries: seq<ApiEntry>)
    requires BuiltFrom(papers, entries)
    ensures AllPublished(papers) && PublishedKeys(papers) == EntryKeys(entries)
  {
    assert AllPublished(papers);
    var keys, ekeys := PublishedKeys(papers), EntryKeys(entries);
    forall k | 0 <= k < |papers|
      ensures keys[k] == ekeys[k]
    {
      assert papers[k].Record().published == FromFeed(entries[k]).published;
    }
  }

  /** Lines 109-112 of `news()`: a `Paper` per API entry, initialised from
      it and appended in feed order. */
  method BuildPapers(entries: seq<ApiEntry>) returns (papers: seq<Paper>)
    ensures BuiltFrom(papers, entries)
  {
    papers := [];
    for i := 0 to |entries|
      invariant |papers| == i
      invariant forall k :: 0 <= k < i ==>
                  papers[k].Initialized() && papers[k].Record() == FromFeed(entries[k])
    {
      var paper := new Paper();
      paper.InitFromFeed(entries[i]);
      papers := papers + [paper];
    }
  }

  /** Lines 109-114 of `news()`: the papers built from the entries, then
      sorted. Paper `k` of the result is the one built from entry `perm[k]`,
      and `perm` is the stable descending order of the entries' `published`
      timestamps. */
  method LoadPapers(entries: seq<ApiEntry>) returns (papers: seq<Paper>, ghost perm: seq<int>)
    ensures |papers| == |entries|
    ensures StableDescending(EntryKeys(entries), perm)
    ensures forall k :: 0 <= k < |papers| ==>
              papers[k].Initialized() && papers[k].Record() == FromFeed(entries[perm[k]])
  {
    var built := BuildPapers(entries);
    BuiltKeys(built, entries);
    papers, perm := SortByPublished(built);
    forall k | 0 <= k < |papers|
      ensures papers[k].Initialized() && papers[k].Record() == FromFeed(entries[perm[k]])
    {
      assert papers[k] == built[perm[k]];
    }
  }

  // ---------------------------------------------------------------------
  // The screens of a session (arxivnews.py:95-119)

  /** What is on the terminal after `clearscreen()` and the loading message:
      one line, `Loading ` then the category then `...`. */
  function LoadingScreen(cat: string): (screen: seq<string>)
    ensures |screen| == 1 && |screen[0]| == |cat| + 11
    ensures screen[0][..8] == "Loading " && screen[0][|screen[0]| - 3..] == "..."
    ensures screen[0][8..|screen[0]| - 3] == cat
  {
    ["Loading " + cat + "..."]
  }

  /** The screen of one paper: the boxed category name over the paper's
      display. */
  function PaperScreen(cat: string, e: ApiEntry): (screen: seq<string>)
    ensures |screen| == 10 && screen[..3] == Boxed(cat)
    ensures var middle := screen[1]; middle[4..|middle| - 4] == cat
    ensures screen[3] == "\nNEW\n" <==> e.publishedParsed == e.updatedParsed
    ensures screen[4] == e.title && screen[8] == "\t" + e.id && screen[9] == e.summary
    ensures screen[3..] == DisplayLines(FromFeed(e))
  {
    BoxedKeepsTitle(cat);
    DisplayShowsEntry(e);
    Boxed(cat) + DisplayLines(FromFeed(e))
  }

  /** The screens shown for one category: the loading message, then one
      screen per paper, in the sorted order `perm`. */
  function CategoryScreens(cat: string, entries: seq<ApiEntry>, perm: seq<int>): (screens: seq<seq<string>>)
    requires IsPermutation(perm, |entries|)
    ensures |screens| == |entries| + 1
    ensures screens[0] == LoadingScreen(cat)
    ensures forall k :: 0 <= k < |entries| ==> screens[k + 1] == PaperScreen(cat, entries[perm[k]])
  {
    [LoadingScreen(cat)] + seq(|perm|, k requires 0 <= k < |perm| => PaperScreen(cat, entries[perm[k]]))
  }

  /** The screens of a category are the loading message followed by the
      screens of its entries in the order `perm`. */
  lemma CategoryScreensAre(cat: string, entries: seq<ApiEntry>, perm: seq<int>, shown: seq<seq<string>>)
    requires IsPermutation(perm, |entries|) && |shown| == |entries|
    requires forall k :: 0 <= k < |entries| ==> shown[k] == PaperScreen(cat, entries[perm[k]])
    ensures CategoryScreens(cat, entries, perm) == [LoadingScreen(cat)] + shown
  {
  }

  /** The blocks of screens one after the other. */
  function Flatten(blocks: seq<seq<seq<string>>>): seq<seq<string>>
  {
    if blocks == [] then [] else Flatten(blocks[..|blocks| - 1]) + blocks[|blocks| - 1]
  }

  /** The inner loop of `news()`: one screen per paper, in list order, the
      boxed category name over what `display()` prints. */
  method ShowPapers(cat: string, papers: seq<Paper>) returns (shown: seq<seq<string>>)
    requires forall k :: 0 <= k < |papers| ==> papers[k].Initialized()
    ensures |shown| == |papers|
    ensures forall k :: 0 <= k < |papers| ==> shown[k] == Boxed(cat) + DisplayLines(papers[k].Record())
  {
    shown := [];
    for k := 0 to |papers|
      invariant |shown| == k
      invariant forall j :: 0 <= j < k ==> shown[j] == Boxed(cat) + DisplayLines(papers[j].Record())
    {
      shown := shown + [Boxed(cat) + papers[k].Display()];
    }
  }

  /** What `news()` does for the category `cat`: the ids are read from its
      RSS feed, the entries fetched with the query for them, and the screens
      show those entries in the stable descending order `perm`. */
  ghost predicate CategoryRun(cat: string, rssFeed: string -> seq<RssEntry>,
                              apiFeed: string -> seq<ApiEntry>,
                              ids: seq<string>, perm: seq<int>, block: seq<seq<string>>)
  {
    IdsOfEntries(ids, rssFeed(RssUrl(cat))) &&
    StableDescending(EntryKeys(apiFeed(QueryUrl(ids))), perm) &&
    block == CategoryScreens(cat, apiFeed(QueryUrl(ids)), perm)
  }

  /** One pass of the loop of `news()` over the categories: the loading
      message, the ids from the RSS feed, the API query for them, and the
      screens of the papers, sorted. */
  method ShowCategory(cat: string, rssFeed: string -> seq<RssEntry>, apiFeed: string -> seq<ApiEntry>)
    returns (block: seq<seq<string>>, ghost ids: seq<string>, ghost perm: seq<int>)
    ensures CategoryRun(cat, rssFeed, apiFeed, ids, perm, block)
  {
    var idList := GetIdList(rssFeed(RssUrl(cat)));
    ids := idList;
    var entries := apiFeed(QueryUrl(idList));
    var papers;
    papers, perm := LoadPapers(entries);
    var shown := ShowPapers(cat, papers);
    block := [LoadingScreen(cat)] + shown;
    forall k | 0 <= k < |entries|
      ensures shown[k] == PaperScreen(cat, entries[perm[k]])
    {
      assert papers[k].Record() == FromFeed(entries[perm[k]]);
    }
    CategoryScreensAre(cat, entries, perm, shown);
  }

  /** `news()` with the feeds as parameters, as the sequence of screens it
      shows, one per `clearscreen()`: for every category, in subscription
      order, the loading message and then each of its papers, most recently
      published first, ties in feed order. */
  method News(subscriptionLines: seq<string>,
              rssFeed: string -> seq<RssEntry>,
              apiFeed: string -> seq<ApiEntry>)
    returns (screens: seq<seq<string>>,
             ghost categories: seq<string>,
             ghost idLists: seq<seq<string>>,
             ghost perms: seq<seq<int>>,
             ghost blocks: seq<seq<seq<string>>>)
    ensures |categories| == |subscriptionLines|
    ensures forall c :: 0 <= c < |categories| ==> categories[c] == NormalizeLine(subscriptionLines[c])
    ensures |idLists| == |perms| == |blocks| == |categories|
    ensures forall c :: 0 <= c < |categories| ==>
              CategoryRun(categories[c], rssFeed, apiFeed, idLists[c], perms[c], blocks[c])
    ensures screens == Flatten(blocks)
  {
    var cats := GetCategories(subscriptionLines);
    categories := cats;
    idLists, perms, blocks := [], [], [];
    screens := [];
    for c := 0 to |cats|
      invariant |idLists| == |perms| == |blocks| == c
      invariant forall d :: 0 <= d < c ==>
                  CategoryRun(categories[d], rssFeed, apiFeed, idLists[d], perms[d], blocks[d])
      invariant screens == Flatten(blocks)
    {
      var block, ids, perm := ShowCategory(cats[c], rssFeed, apiFeed);
      screens := screens + block;
      assert (blocks + [block])[..c] == blocks;
      ghost var idLists0, perms0, blocks0 := idLists, perms, blocks;
      idLists, perms, blocks := idLists + [ids], perms + [perm], blocks + [block];
      forall d | 0 <= d < c + 1
        ensures CategoryRun(categories[d], rssFeed, apiFeed, idLists[d], perms[d], blocks[d])
      {
        if d < c {
          assert idLists[d] == idLists0[d] && perms[d] == perms0[d] && blocks[d] == blocks0[d];
        }
      }
    }
  }
}
