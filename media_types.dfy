/** The register from cache file extensions to media types (MediaTypes.java). */
module MediaTypes {
  import opened Wrappers

  const XLSX_TYPE: string := "application/vnd.openxmlformats-officedocument.spreadsheetml.sheet"

  /** The static table, filled once. */
  const TYPES: map<string, string> := map[
    "csv" := "text/csv",
    "txt" := "text/plain",
    "html" := "text/html",
    "ttl" := "text/turtle",
    "rdf" := "application/rdf+xml",
    "xlsx" := XLSX_TYPE,
    "xls" := "application/vnd.ms-excel"]

  /** getMediaTypeForExtension: the registered type, or None (Java's null) for any other extension. */
  function MediaTypeForExtension(ext: string): (r: Option<string>)
    ensures r.Some? <==> ext in {"csv", "txt", "html", "ttl", "rdf", "xlsx", "xls"}
    ensures r.Some? ==> r.value in TYPES.Values
  {
    if ext in TYPES then Some(TYPES[ext]) else None
  }

  /** The seven registered extensions and what they name. */
  lemma RegisteredTypes()
    ensures MediaTypeForExtension("csv") == Some("text/csv")
    ensures MediaTypeForExtension("txt") == Some("text/plain")
    ensures MediaTypeForExtension("html") == Some("text/html")
    ensures MediaTypeForExtension("ttl") == Some("text/turtle")
    ensures MediaTypeForExtension("rdf") == Some("application/rdf+xml")
    ensures MediaTypeForExtension("xlsx") == Some(XLSX_TYPE)
    ensures MediaTypeForExtension("xls") == Some("application/vnd.ms-excel")
  {
  }

  /** No two extensions share a media type, so a type names its extension. */
  lemma TypesDistinct(e1: string, e2: string)
    requires MediaTypeForExtension(e1).Some? && MediaTypeForExtension(e1) == MediaTypeForExtension(e2)
    ensures e1 == e2
  {
  }

  /** The lookup is case-sensitive: an upper-case extension is not registered. */
  lemma UpperCaseUnregistered()
    ensures MediaTypeForExtension("CSV").None?
  {
  }
}
