/** The document record that flows through loading, splitting, indexing and
    retrieval: page content plus an optional `source` metadata entry. */
module Documents {

  datatype Option<T> = None | Some(value: T)

  /** A loaded file, a PDF page, a chunk or a retrieved chunk. `source` is
      absent when the metadata dictionary has no "source" key. */
  datatype Doc = Doc(source: Option<string>, content: string)

  /** `d.metadata.get("source", default)`. */
  function SourceOr(d: Doc, default: string): string {
    match d.source
    case Some(s) => s
    case None => default
  }
}
