/** The settings the pipelines read: identifiers echoed in their results
    and the retrieval and chunking parameters. Values come from the
    environment at start-up; the defaults are those of the settings object. */
module Config {

  datatype Settings = Settings(
    ollamaBaseUrl: string,
    llmModel: string,
    embedModel: string,
    chromaDir: string,
    codeRoot: string,
    pdfRoot: string,
    topK: int,
    chunkSize: int,
    chunkOverlap: int)

  const DefaultSettings := Settings(
    "http://127.0.0.1:11434", "qwen2.5:3b", "nomic-embed-text", "./chroma_db",
    "./knowledge/code", "./knowledge/pdfs", 4, 1200, 200)

  /** The single collection the vector store is bound to. */
  const CollectionName := "personal_rag"
}
