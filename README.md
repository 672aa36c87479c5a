# arxivnews in Dafny

arxivnews.py is a terminal script. It reads a list of subscribed arXiv categories from a file. For each category it:

- fetches the category's RSS listing of new articles;
- turns the listing's links into arXiv ids;
- asks the arXiv API for the metadata of those ids in one query;
- builds a `Paper` for every returned entry;
- sorts the papers by publication time, most recent first;
- shows them one screen at a time: a box with the category name over the paper's title, authors, date, tags, id and abstract.

This project models the deterministic part of that script and proves what it does:

- `time.dfy` (module `StructTimes`): Python's `time.struct_time` as the tuple of its nine fields. It has Python's tuple `==` and `<`, and proves that `<` is a strict total order, which is what the sort relies on.
- `text.dfy` (module `PyStrings`): the Python string operations the script uses. These are `*` on a one-character string, `join`, `rfind`, `strip()`, `rstrip(',')`, `str(n)` and the `%d` / `%0Nd` conversions. The script never calls `split`; `SplitOn` (Python's `split` on one character) is there only so that lemmas can read a `join` back.
- `feed.dfy` (modules `Options`, `Feed`): `None`-or-value, and the attributes of parsed feed entries that the script reads.
- `paper.dfy` (module `Papers`): the `Paper` class.
  - Its constructor sets every attribute to `None`.
  - `init_from_feed` assigns the attributes one by one. `PaperRecord` and `FromFeed` are the values the method gives them.
  - `display` is modelled as the strings it prints.
- `layout.dfy` (module `Layout`): `boxed` and the `%4d-%02d-%02d` date line.
- `order.dfy` (module `StableOrder`): what a stable sort by `published` with `reverse=True` must leave, described by a permutation of the positions. It proves that only one order qualifies, so an insertion sort and Python's Timsort leave the list in the same order. It also holds the steps of the insertion sort, stated on the permutation.
- `news.dfy` (module `ArxivNews`): the rest of the script.
  - `get_categories` over the file's lines, and `get_id_list` over the parsed RSS entries.
  - The API query URL.
  - Building the paper list, and the sort. The sort computes the keys once, as Python's keyed sort does, then inserts each paper behind the papers published no earlier.
  - `news()`, as the sequence of screens it shows, one screen per `clearscreen()`.

`feedparser.parse` is a parameter of `ArxivNews.News`: `rssFeed` maps an RSS URL to its entries, and `apiFeed` maps a query URL to its entries. The file's lines are a parameter too.

The model follows the code: a plain loop over the categories and over the sorted papers of each.

## Model

| member | source | states |
|---|---|---|
| StructTimes.LexLess | arxivnews.py:114 | Python's `<` on tuples of ints: a proper prefix is smaller than the longer tuple, and no tuple is smaller than itself or one of its own prefixes; `LexLessWitness` and `LexLessTotal` give the rest |
| StructTimes.Before | arxivnews.py:114 | `<` on two `struct_time` values: it never holds between equal values, an earlier year makes it hold, and a later year rules it out |
| StructTimes.FieldsInjective | arxivnews.py:30 | two `struct_time` values are `==` exactly when their nine-field tuples are equal |
| StructTimes.LexLessWitness | arxivnews.py:114 | tuple `<` holds only at a first position where the tuples differ with the left one smaller, or when the left tuple is a proper prefix |
| StructTimes.LexLessTotal | arxivnews.py:114 | any two different tuples are ordered by `<` one way or the other |
| StructTimes.BeforeIrreflexive | arxivnews.py:114 | no timestamp is `<` itself |
| StructTimes.BeforeAsymmetric | arxivnews.py:114 | `a < b` excludes both `b < a` and `a == b` |
| StructTimes.BeforeTransitive | arxivnews.py:114 | `<` on timestamps is transitive |
| StructTimes.BeforeTotal | arxivnews.py:114 | two different timestamps are comparable |
| StructTimes.NotBeforeTransitive | arxivnews.py:114 | `>=` on timestamps is transitive, so a descending sorted prefix can be extended |
| Papers.AuthorNames | arxivnews.py:23 | one name per author, in feed order, each the author's `.name` |
| Papers.TagTerms | arxivnews.py:25 | one term per tag, in feed order, each the tag's `.term` |
| Papers.DateOf | arxivnews.py:35-36 | the date triple is the first three fields of the timestamp |
| Papers.IsNew | arxivnews.py:30-33 | a paper is new exactly when all nine fields of `published` and `updated` agree |
| Papers.SameDayLaterIsNotNew | arxivnews.py:30-36 | for every pair of timestamps on the same calendar day with `updated` later than `published`, the paper is not new, although its `date` is the day of both |
| Papers.FromFeed | arxivnews.py:17-36 | title, abstract and id are copied; authors and tags are projected pointwise with the same length and order; `new` holds iff the timestamps are equal; `date` is the day of `published` |
| Papers.Paper.constructor | arxivnews.py:6-15 | every attribute starts as `None` |
| Papers.Paper.InitFromFeed | arxivnews.py:17-36 | afterwards every attribute is set, and the attributes are those `FromFeed` gives for the entry |
| Papers.DisplayLines | arxivnews.py:38-51 | `display` prints seven strings: `NEW` exactly when the paper is new and `REVISED` exactly when it is not, then the title, then four lines that each start with a tab, followed by the `", "` join of the author names, the date text of `date`, the `" "` join of the tags and the id, then the abstract |
| Papers.Paper.Display | arxivnews.py:38-51 | on an initialised paper, the strings are exactly `DisplayLines` of its attribute values: the marker chosen by its `new` attribute, its own title, authors, date, tags, id and abstract |
| Papers.DisplayShowsEntry | arxivnews.py:42-51 | `display` prints seven strings: `NEW` exactly when `published == updated` and `REVISED` otherwise, then the title, the date of `published`, the id and the abstract, unchanged |
| Papers.DisplayShowsAuthors | arxivnews.py:47 | for a paper with at least one author, no name containing a comma, the authors line starts with a tab and splits on commas into the first name, then every later name behind one space, in feed order |
| Papers.DisplayShowsTags | arxivnews.py:49 | for a paper with at least one tag, none containing a space, the tag line splits on spaces back into the tag terms, in order |
| Layout.Boxed | arxivnews.py:59-65 | three lines of width `len(title) + 8`, top equal to bottom, middle line the title between a bar and three spaces on each side, `*` corners and `-` in between |
| Layout.BoxedKeepsTitle | arxivnews.py:64 | dropping the four border characters on each side of the middle line gives the title back |
| Layout.BoxedInjective | arxivnews.py:59-65 | different titles give different boxes |
| Layout.DateText | arxivnews.py:48 | the date text is at least ten characters for any ints, and for a year below 10000 and a month and day below 100 it is ten characters with dashes at 4 and 7; `DateTextLayout` states the fields |
| Layout.TwoDigitField | arxivnews.py:48 | `%02d` of a number below 100 is two digits that read back as the number |
| Layout.YearField | arxivnews.py:48 | `%4d` of a number below 10000 is four characters, the digits right-aligned after spaces, and a year of four digits reads back |
| Layout.DateTextLayout | arxivnews.py:48 | for year, month and day in range, the date is ten characters with dashes at 4 and 7, the year right-aligned after spaces in four columns and four digits that read back from 1000 on, and the month and day two digits each that read back as their numbers |
| PyStrings.Join | arxivnews.py:106 | `sep.join(parts)`, used at arxivnews.py:47, 49 and 106; it carries no contract itself, and `SplitJoin` (read back by splitting) and `JoinCount` (number of separators) state what it produces |
| PyStrings.Strip | arxivnews.py:76 | `strip()` gives a text no longer than the line, neither starting nor ending with whitespace, empty exactly when the line is all whitespace |
| PyStrings.RStripChar | arxivnews.py:76 | `rstrip(c)` keeps a prefix of the text that does not end with `c`, and every character it cut was `c` |
| PyStrings.JoinCommaSpace | arxivnews.py:47 | joining with `", "` is the same as joining with `,` the first part and every later part behind one space |
| PyStrings.SplitCommaSpace | arxivnews.py:47 | for at least one part, none containing a comma, splitting the `", "` join on commas gives the first part, then each later part behind one space |
| PyStrings.RFind | arxivnews.py:91 | `rfind` gives -1 or a position holding the character, and no later position holds it |
| PyStrings.SplitAtLast | arxivnews.py:91-92 | the last occurrence of `c` in `front + c + back`, with `back` free of `c`, is at `len(front)`, and slicing there gives `front` and `back` back |
| PyStrings.StripIsTrimmedSlice | arxivnews.py:76 | `strip()` keeps a slice with only whitespace around it, that slice starts and ends with a non-space character, and it is empty exactly when the line is all whitespace |
| PyStrings.SplitJoin | arxivnews.py:106 | for at least one piece, joining pieces free of `c` with `c` and splitting on `c` gives the pieces back |
| PyStrings.JoinCount | arxivnews.py:106 | joining `n >= 1` pieces free of `c` with `c` puts exactly `n - 1` copies of `c` in the text |
| PyStrings.Decimal | arxivnews.py:107 | `str(n)` is a non-empty run of digits, and it starts with `0` only when it is exactly `"0"` |
| PyStrings.ParseDecimalRoundTrip | arxivnews.py:107 | the decimal text of `n` reads back as `n` |
| PyStrings.ParseDecimalZeros | arxivnews.py:48 | leading zeros do not change the value read |
| PyStrings.FormatInt | arxivnews.py:48 | `%Nd` / `%0Nd` never truncate: the text is at least N wide and at least as wide as the sign and digits, and it is exactly one of the two |
| PyStrings.FormatIntNonNegative | arxivnews.py:48 | `%Nd` / `%0Nd` of a non-negative number are its digits padded on the left to width N, and the zero-padded form reads back as the number |
| PyStrings.FormatIntNegative | arxivnews.py:48 | `%0Nd` of a negative number starts with `-`, and the rest reads back as its absolute value |
| ArxivNews.NormalizeLine | arxivnews.py:76 | the category is a prefix of the stripped line that neither starts with whitespace nor ends with a comma, and a blank line gives `""` |
| ArxivNews.NormalizeLineSpec | arxivnews.py:76 | the category is the stripped line minus its trailing commas: only commas were removed, none is left at the end, it does not start with whitespace, and an all-whitespace line gives `""` |
| ArxivNews.GetCategories | arxivnews.py:73-77 | one category per line, in file order, each the normalised line, blank lines included |
| ArxivNews.RssUrl | arxivnews.py:86 | the RSS URL is the fixed base followed by the category, which reads back from the URL |
| ArxivNews.IdFromLink | arxivnews.py:90-92 | the id is the longest end of the link without a `/`: it contains no `/`, and the character just before it, if any, is `/` |
| ArxivNews.IdFromLinkCases | arxivnews.py:90-92 | a link with a `/` is a prefix, `/`, then the id; a link without one is its own id |
| ArxivNews.GetIdList | arxivnews.py:88-93 | exactly one id per RSS entry, in feed order, each the id of the entry's link, none containing `/` |
| ArxivNews.QueryUrl | arxivnews.py:105-107 | for every list of ids, the query's `id_list` parameter reads back as the comma join of the ids, whatever they contain, and its last parameter is named `max_results` and holds the decimal text of the number of ids, non-empty and without a leading zero (`max_results=0` for no ids) |
| ArxivNews.MaxResultsReadBack | arxivnews.py:107 | the text after the last `&` of the query is `max_results=` followed by at least one digit, with no leading zero unless the count is 0, and the digits read back as the count the query was built with |
| ArxivNews.IdListReadBack | arxivnews.py:105-107 | the text between the base and the last `&` of the query is exactly the joined ids it was built with |
| ArxivNews.QueryUrlIds | arxivnews.py:105-107 | for at least one id, none containing a comma, `id_list` splits back into the ids, and `max_results` is one more than the number of commas in it |
| StableOrder.StableDescendingIsSorted | arxivnews.py:114 | in a stable descending order the keys never increase |
| StableOrder.StableDescendingUnique | arxivnews.py:114 | there is only one stable descending order of a list of keys |
| StableOrder.SwapKeepsShuffle | arxivnews.py:114 | exchanging two neighbours keeps a permutation a permutation |
| StableOrder.ShuffleIsPermutation | arxivnews.py:114 | a sequence of distinct positions with the multiset of `0..n-1` lists every position |
| StableOrder.InsertStep | arxivnews.py:114 | moving a paper left past a neighbour published strictly earlier keeps the insertion invariant |
| StableOrder.InsertDone | arxivnews.py:114 | once the paper stops at the front or behind one published no earlier, the prefix it joined is in stable descending order |
| ArxivNews.InsertPaper | arxivnews.py:114 | one insertion pass keeps the list a rearrangement of the original and extends the stably sorted prefix by one |
| ArxivNews.SortByPublished | arxivnews.py:114 | the sorted list is the original rearranged by a permutation (same multiset), in the stable descending order of `published` |
| ArxivNews.SortedByPublishedDescends | arxivnews.py:114 | after the sort, `published` never increases along the list, and papers with equal `published` keep their feed order |
| ArxivNews.BuiltKeys | arxivnews.py:110-114 | the papers built from entries have the entries' `published_parsed` values as sort keys |
| ArxivNews.BuildPapers | arxivnews.py:109-113 | one `Paper` per API entry, in feed order, each initialised from its entry |
| ArxivNews.LoadPapers | arxivnews.py:109-114 | paper `k` of the sorted list is the one built from entry `perm[k]`, where `perm` is the stable descending order of the entries' timestamps |
| ArxivNews.LoadingScreen | arxivnews.py:102-103 | after `clearscreen()` the terminal holds one line, `Loading ` then the category then `...`, from which the category reads back |
| ArxivNews.PaperScreen | arxivnews.py:116-118 | a paper's screen is ten lines: the box whose middle line holds the category, then exactly the display of the paper built from the entry, with `NEW` exactly when `published == updated`, the entry's title, its id after a tab and its summary |
| ArxivNews.CategoryScreens | arxivnews.py:101-119 | a category shows the loading screen, then one screen per entry in the sorted order, each the box over the paper's display |
| ArxivNews.ShowPapers | arxivnews.py:115-118 | one screen per paper, in list order, each the boxed category name over the paper's display |
| ArxivNews.ShowCategory | arxivnews.py:101-119 | for a category, the ids come from its RSS feed, the entries from the query for those ids, and the screens show them in stable descending order of `published` |
| ArxivNews.News | arxivnews.py:95-119 | for every line of the subscription file, in order, the normalised category's screens, one block after the other; the ghost ids and orders it names are fixed by the inputs (`GetIdList`, `StableOrder.StableDescendingUnique`), so the screens are too |

## Left out

- `feedparser.parse` and the network (arxivnews.py:2, 87, 108) are foreign code and I/O. The parsed entries come from the parameters `rssFeed` and `apiFeed`.
- `rssFeed` and `apiFeed` are fixed functions of the URL. A category listed twice in the subscriptions file gets the same entries both times in the model. The script fetches the feed again for each listing, after the user has paged through the earlier block, and the feed may have changed in between.
- An entry missing an attribute, or carrying a `published` of `None`, is not modelled. The parser's errors are outside the model, and every modelled entry has every attribute the script reads.
- `clearscreen` and `os.system` (arxivnews.py:53-57), `print`, and `input()` (arxivnews.py:119) are terminal I/O.
  - Output is modelled as one string per `print` call, without the newline `print` adds.
  - Each screen holds what is printed between two `clearscreen()` calls.
  - Waiting for the user to press Enter is not modelled.
- Reading `argv[1]` and opening the file (arxivnews.py:74) are file I/O. The model takes the file's lines as a sequence of strings. Python's splitting of the file into lines and its newline translation are not modelled.
- The module-level call `news()` (arxivnews.py:122) is not modelled; `ArxivNews.News` is the function it calls.
- ArxivNews.SortByPublished: the sort is an insertion sort, not Python's Timsort. `StableOrder.StableDescendingUnique` shows that any stable sort leaves the same order, so the results agree. The number of comparisons differs, and it is not modelled.
- `struct_time`'s `tm_zone` and `tm_gmtoff` attributes are left out. Python's `==` and `<` on `struct_time` do not look at them.
- Layout.DateTextLayout: the ten-character layout is stated only for years 0 to 9999 and months and days 0 to 99. `Layout.DateText` itself models `%4d` and `%02d` for every int, including wider and negative values.
- `PyStrings.ParseDecimal` reads the empty string as 0, where Python's `int("")` raises. The script never parses text; the model uses `ParseDecimal` only to read back digits, and `ArxivNews.MaxResultsOf` checks for at least one digit first.
- PyStrings.IsSpace: Python's `str.isspace` set is written out for the code points it covers. No Unicode database is consulted.
