/** Python's `None`-or-value, for attributes that start out as `None`. */
module Options {
  datatype Option<T> = None | Some(value: T)
}

/** The parts of a parsed feed that the script reads. The feed parser itself
    (and the network behind it) is outside the model: parsed entries are
    input data. */
module Feed {
  import opened StructTimes

  /** An element of `entry.authors`; only `.name` is read. */
  datatype Author = Author(name: string)

  /** An element of `entry.tags`; only `.term` (a category code) is read. */
  datatype Tag = Tag(term: string)

  /** An entry of the arXiv RSS listing of a category; only `.link` is read. */
  datatype RssEntry = RssEntry(link: string)

  /** An entry of the arXiv API query answer, with the attributes
      `Paper.init_from_feed` reads. */
  datatype ApiEntry = ApiEntry(
    title: string,
    authors: seq<Author>,
    summary: string,
    tags: seq<Tag>,
    id: string,
    publishedParsed: StructTime,
    updatedParsed: StructTime)
}
