/**
 * The values the GESTIS extractor reads and produces: the provider's raw
 * article response (chapters of subchapters of markup text), the parser's
 * error type, the record it assembles, and the outcome of a Rust call that
 * may abort on an `unwrap()` of a missing value.
 */
module GestisTypes {

  import opened Outcomes
  import opened XmlTree

  datatype Subchapter = Subchapter(drNumber: string, text: Option<string>)

  datatype Chapter = Chapter(drNumber: string, subchapters: seq<Subchapter>)

  datatype Alias = Alias(name: string)

  /** The article document the provider returns for one substance. */
  datatype GestisResponse = GestisResponse(name: string, aliases: seq<Alias>, chapters: seq<Chapter>)

  /** `roxmltree::Document::parse`, taken as an input: the root element of the fragment, or a parse failure. */
  type XmlParser = string -> Option<Node>

  datatype Image = Image(url: string, alt: string)

  /** A hazard or precautionary statement, as (code, description). */
  type Phrase = (string, string)

  datatype ParseError =
    | NoXml                   // the addressed chapter/subchapter is absent
    | XmlError                // the fragment did not parse
    | MissingInfo(what: string)
    | Empty                   // the explicit "not hazardous" answer (and the hazard-block sentinel)
    | Multiple(value: string) // a second lethal-dose label; carries the value found first

  /** The `unwrap()` (or index) that aborts the call. */
  datatype PanicSite =
    | SubchapterWithoutText   // get_xml: the subchapter's text is absent
    | TableWithoutClass       // tables: a direct `table` child has no `class`
    | NoNonEmptyCell          // skip loops: every block cell is childless
    | FormulaWithoutChild     // the `summenformel` element is empty
    | FormulaWithoutText      // its first child has no text
    | LabelCellMissing        // get_mp_bp: the label tables hold no cell
    | ValueCellMissing        // get_mp_bp: no cell after the matching label
    | HazardClassWithoutText  // get_whc: the value cell has no text
    | PhraseRowEmpty          // H/P statements: the row after the heading has no cell
    | ImageAttributeMissing   // symbols: `src` or `alt` is missing
    | SignalValueMissing      // signal word: no cell after the label
    | SignalValueWithoutText  // signal word: the value cell has no text

  /** A Rust call either returns a value or panics at one site. */
  datatype Run<T> = Returns(value: T) | Panics(site: PanicSite)

  /** What `parse_response` assembles; every field but the formula may be absent. */
  datatype Data = Data(
    molecularFormula: string,
    meltingPoint: Option<string>,
    boilingPoint: Option<string>,
    waterHazardClass: Option<string>,
    hPhrases: Option<seq<Phrase>>,
    pPhrases: Option<seq<Phrase>>,
    signalWord: Option<string>,
    symbols: Option<seq<Image>>,
    lethalDose: Option<string>)

  /** One diagnostic line: the field and the error it was reported with. */
  datatype Report = Report(field: string, error: ParseError)
}
