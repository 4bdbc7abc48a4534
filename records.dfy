/** The metadata dictionary that the document and web adapters produce and the workflow threads through. */
module Records {
  import opened Wrappers

  /** One optional slot per key the core reads or writes; `None` is "key absent". */
  datatype Metadata = Metadata(
    title: Option<string>,
    author: Option<string>,
    subject: Option<string>,
    pages: Option<nat>,
    source: Option<string>,
    kind: Option<string>,
    description: Option<string>,
    publishedDate: Option<string>)

  /** The empty dictionary `{}`. */
  const EmptyMetadata: Metadata := Metadata(None, None, None, None, None, None, None, None)
}
