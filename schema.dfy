/** Values shared by the two writers of the reviews table and the two importers. */
module Schema {
  import opened Wrappers

  /** A java.time.LocalDateTime, kept opaque: only equality and order matter. */
  datatype Timestamp = Timestamp(micros: int)

  /** The natural key (source, external_id), unique in the reviews table. */
  datatype NaturalKey = NaturalKey(source: string, externalId: string)

  /** The reviews.api configuration bean: base URL, API key, and the page
      size the paged importer asks for (null when not configured). */
  datatype AppProperties = AppProperties(url: Option<string>, key: Option<string>, pageSize: Option<int>)
}
