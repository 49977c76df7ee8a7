/**
 * The chapter index and the fragment locator: which chapter and subchapter
 * hold each field, and how the markup text of one subchapter is cut out of
 * the article and wrapped in a single root element.
 */
module GestisLocate {

  import opened Outcomes
  import opened XmlTree
  import opened GestisTypes

  /** `CHAPTER_MAPPING`: field name to (chapter id, subchapter id). */
  const ChapterMapping: map<string, (string, string)> := map[
    "melting_point" := ("0600", "0602"),
    "boiling_point" := ("0600", "0603"),
    "molecular_formula" := ("0400", "0400"),
    "water_hazard_class" := ("1100", "1106"),
    "h_p_signal_symbols" := ("1100", "1303"),
    "lethal_dose" := ("0500", "0501")
  ]

  /** The fields the index knows, each at its own address. */
  lemma ChapterMappingIsInjective()
    ensures ChapterMapping.Keys == {"melting_point", "boiling_point", "molecular_formula",
      "water_hazard_class", "h_p_signal_symbols", "lethal_dose"}
    ensures forall a, b :: a in ChapterMapping && b in ChapterMapping && a != b ==> ChapterMapping[a] != ChapterMapping[b]
  {
  }

  /** The index of the first chapter whose id is `id`. */
  function FindChapter(cs: seq<Chapter>, id: string): (r: Option<nat>)
    ensures r.None? <==> forall i :: 0 <= i < |cs| ==> cs[i].drNumber != id
    ensures r.Some? ==> (r.value < |cs| && cs[r.value].drNumber == id
      && forall i :: 0 <= i < r.value ==> cs[i].drNumber != id)
  {
    if cs == [] then None
    else if cs[0].drNumber == id then Some(0)
    else match FindChapter(cs[1..], id)
      case None => None
      case Some(k) => Some(k + 1)
  }

  /** The index of the first subchapter whose id is `id`. */
  function FindSubchapter(ss: seq<Subchapter>, id: string): (r: Option<nat>)
    ensures r.None? <==> forall i :: 0 <= i < |ss| ==> ss[i].drNumber != id
    ensures r.Some? ==> (r.value < |ss| && ss[r.value].drNumber == id
      && forall i :: 0 <= i < r.value ==> ss[i].drNumber != id)
  {
    if ss == [] then None
    else if ss[0].drNumber == id then Some(0)
    else match FindSubchapter(ss[1..], id)
      case None => None
      case Some(k) => Some(k + 1)
  }

  /** The markup the tree parser is given for a subchapter's text. */
  function Wrap(text: string): string {
    "<div>\n" + text + "</div>\n"
  }

  /** `get_xml`. */
  function GetXml(json: GestisResponse, chapter: string, subchapter: string): (r: Run<Result<string, ParseError>>)
    ensures r.Panics? ==> r.site == SubchapterWithoutText
    ensures r.Returns? && r.value.Err? ==> r.value.error == NoXml
    ensures r.Returns? && r.value.Ok? ==> exists t :: r.value.value == Wrap(t)
  {
    match FindChapter(json.chapters, chapter)
    case None => Returns(Err(NoXml))
    case Some(i) =>
      match FindSubchapter(json.chapters[i].subchapters, subchapter)
      case None => Returns(Err(NoXml))
      case Some(j) =>
        var sub := json.chapters[i].subchapters[j];
        if sub.text.None? then Panics(SubchapterWithoutText) else Returns(Ok(Wrap(sub.text.value)))
  }

  /** `i` is the first chapter of `json` with id `chapter`. */
  predicate FirstChapterAt(json: GestisResponse, chapter: string, i: nat) {
    i < |json.chapters| && json.chapters[i].drNumber == chapter
    && forall k :: 0 <= k < i ==> json.chapters[k].drNumber != chapter
  }

  /** `j` is the first subchapter of chapter `i` with id `subchapter`. */
  predicate FirstSubchapterAt(json: GestisResponse, i: nat, subchapter: string, j: nat)
    requires i < |json.chapters|
  {
    var ss := json.chapters[i].subchapters;
    j < |ss| && ss[j].drNumber == subchapter && forall k :: 0 <= k < j ==> ss[k].drNumber != subchapter
  }

  /** The first matching chapter and its first matching subchapter give that subchapter's text, wrapped. */
  lemma GetXmlFound(json: GestisResponse, chapter: string, subchapter: string, i: nat, j: nat, text: string)
    requires FirstChapterAt(json, chapter, i) && FirstSubchapterAt(json, i, subchapter, j)
    requires json.chapters[i].subchapters[j].text == Some(text)
    ensures GetXml(json, chapter, subchapter) == Returns(Ok("<div>\n" + text + "</div>\n"))
  {
  }

  /**
   * Only the first chapter with the id is searched: when it lacks the
   * subchapter the answer is `NoXml`, whatever later chapters hold.
   */
  lemma GetXmlShadowed(json: GestisResponse, chapter: string, subchapter: string, i: nat)
    requires FirstChapterAt(json, chapter, i)
    requires forall k :: 0 <= k < |json.chapters[i].subchapters| ==> json.chapters[i].subchapters[k].drNumber != subchapter
    ensures GetXml(json, chapter, subchapter) == Returns(Err(NoXml))
  {
  }

  /** No chapter with the id: `NoXml`. */
  lemma GetXmlNoChapter(json: GestisResponse, chapter: string, subchapter: string)
    requires forall k :: 0 <= k < |json.chapters| ==> json.chapters[k].drNumber != chapter
    ensures GetXml(json, chapter, subchapter) == Returns(Err(NoXml))
  {
  }

  /** The addressed subchapter exists but has no text: the `unwrap` aborts. */
  lemma GetXmlPanics(json: GestisResponse, chapter: string, subchapter: string, i: nat, j: nat)
    requires FirstChapterAt(json, chapter, i) && FirstSubchapterAt(json, i, subchapter, j)
    requires json.chapters[i].subchapters[j].text.None?
    ensures GetXml(json, chapter, subchapter) == Panics(SubchapterWithoutText)
  {
  }

  /**
   * The fragment of one field, parsed: the locator's failure, a parse failure
   * (`XmlError`), or the root element of the wrapped text.
   */
  function Fragment(json: GestisResponse, field: string, parse: XmlParser): (r: Run<Result<Node, ParseError>>)
    requires field in ChapterMapping
    ensures r.Returns? && r.value.Err? ==> r.value.error == NoXml || r.value.error == XmlError
    ensures r.Panics? ==> r.site == SubchapterWithoutText
  {
    var (chapter, subchapter) := ChapterMapping[field];
    match GetXml(json, chapter, subchapter)
    case Panics(p) => Panics(p)
    case Returns(Err(e)) => Returns(Err(e))
    case Returns(Ok(xml)) =>
      match parse(xml)
      case None => Returns(Err(XmlError))
      case Some(root) => Returns(Ok(root))
  }
}
