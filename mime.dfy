/**
 * The MimeType enumeration, the kind-to-MIME-string table (MimeTypeParser.Parser)
 * and the file-extension table with its Resolve lookup.
 */
module MimeTypes {

  datatype MimeType =
    | Text | HTML | CSS | JavaScript
    | Icon | Gif | Jpeg | Png | Svg | Tiff
    | CSV | JSon
    | MicrosoftWord | MicrosoftWordOpenXML

  /** MimeTypeParser.Parser: the MIME string of every kind. */
  const Parser: map<MimeType, string> := map[
    Text := "text/plain",
    HTML := "text/html",
    CSS := "text/css",
    JavaScript := "text/javascript",
    Icon := "image/vnd.microsoft.icon",
    Gif := "image/gif",
    Jpeg := "image/jpeg",
    Png := "image/png",
    Svg := "image/svg+xml",
    Tiff := "image/tiff",
    CSV := "text/csv",
    JSon := "application/json",
    MicrosoftWord := "application/msword",
    MicrosoftWordOpenXML := "application/vnd.openxmlformats-officedocument.wordprocessingml.document"
  ]

  /** MimeTypeParser.ExtensionMapper: file extension (with its dot) to kind; keys compare ordinally. */
  const ExtensionMapper: map<string, MimeType> := map[
    ".htm" := HTML,
    ".html" := HTML,
    ".css" := CSS,
    ".js" := JavaScript,
    ".mjs" := JavaScript,
    ".ico" := Icon,
    ".gif" := Gif,
    ".jpeg" := Jpeg,
    ".jpg" := Jpeg,
    ".png" := Png,
    ".svg" := Svg,
    ".tif" := Tiff,
    ".tiff" := Tiff,
    ".csv" := CSV,
    ".json" := JSon,
    ".doc" := MicrosoftWord,
    ".docx" := MicrosoftWordOpenXML
  ]

  /** Indexing Parser never fails: every kind has an entry. */
  lemma ParserTotal(t: MimeType)
    ensures t in Parser
  {
    match t
    case Text =>
    case HTML =>
    case CSS =>
    case JavaScript =>
    case Icon =>
    case Gif =>
    case Jpeg =>
    case Png =>
    case Svg =>
    case Tiff =>
    case CSV =>
    case JSon =>
    case MicrosoftWord =>
    case MicrosoftWordOpenXML =>
  }

  /** The MIME string of a kind, as Parser[t] reads it. */
  function MimeString(t: MimeType): (r: string)
    ensures t in Parser && r == Parser[t]
  {
    ParserTotal(t);
    Parser[t]
  }

  lemma ParserEntries()
    ensures MimeString(JSon) == "application/json"
    ensures MimeString(Text) == "text/plain"
    ensures MimeString(HTML) == "text/html"
  {
  }

  /** MimeTypeParser.Resolve: the kind mapped to the extension, Text for anything else. */
  function Resolve(extension: string): (r: MimeType)
    ensures r == Text <==> extension !in ExtensionMapper
    ensures extension in ExtensionMapper ==> r == ExtensionMapper[extension]
  {
    assert Text !in ExtensionMapper.Values;
    if extension in ExtensionMapper then ExtensionMapper[extension] else Text
  }

  /** Both HTML extensions resolve to HTML; the lookup is case-sensitive. */
  lemma ResolveExamples()
    ensures Resolve(".htm") == HTML && Resolve(".html") == HTML
    ensures Resolve(".HTML") == Text && Resolve(".Json") == Text
    ensures Resolve("") == Text
  {
  }
}
