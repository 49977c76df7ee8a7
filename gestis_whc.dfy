/**
 * `get_whc`: the water hazard class is the text of the cell right after the
 * first block cell that has any child.
 */
module GestisWhc {

  import opened Outcomes
  import opened XmlTree
  import opened RustStr
  import opened GestisTypes
  import opened GestisLocate
  import opened GestisTables

  /** The answer meaning "not hazardous to water". */
  const Keyword := "Nicht wassergef\U{00E4}hrdender Stoff"

  /** How the value text is turned into the result. */
  function ClassOfText(text: string): (r: Result<string, ParseError>)
    ensures r.Err? <==> text == Keyword
    ensures r.Err? ==> r.error == Empty
    ensures r.Ok? ==> '-' !in r.value
    ensures r.Ok? ==> r.value == Trim(BeforeFirst(text, '-')) && Trim(r.value) == r.value
  {
    var before := BeforeFirst(text, '-');
    TrimIdempotent(before);
    TrimKeepsOut(before, '-');
    if text == Keyword then Err(Empty) else Ok(Trim(before))
  }

  /** The class read from the flattened block cells. */
  function WhcOfCells(cells: seq<Node>): (r: Run<Result<string, ParseError>>)
    ensures r.Returns? && r.value.Ok? ==> '-' !in r.value.value && Trim(r.value.value) == r.value.value
  {
    match FirstNonEmpty(cells)
    case None => Panics(NoNonEmptyCell)
    case Some(k) =>
      if k + 1 < |cells| then
        match NodeText(cells[k + 1])
        case None => Panics(HazardClassWithoutText)
        case Some(text) => Returns(ClassOfText(text))
      else Returns(Err(MissingInfo("water hazard class")))
  }

  /** The specification of `GetWhc`. */
  function Whc(json: GestisResponse, parse: XmlParser): (r: Run<Result<string, ParseError>>)
    ensures r.Returns? && r.value.Ok? ==> '-' !in r.value.value && Trim(r.value.value) == r.value.value
    ensures r.Returns? && r.value.Err? ==>
      r.value.error in {NoXml, XmlError, Empty, MissingInfo("water hazard class")}
  {
    match Fragment(json, "water_hazard_class", parse)
    case Panics(p) => Panics(p)
    case Returns(Err(e)) => Returns(Err(e))
    case Returns(Ok(root)) =>
      match Tables(root, "block")
      case Panics(p) => Panics(p)
      case Returns(ts) => WhcOfCells(Flatten(ts))
  }

  /** `get_whc`. */
  method GetWhc(json: GestisResponse, parse: XmlParser) returns (r: Run<Result<string, ParseError>>)
    ensures r == Whc(json, parse)
  {
    var frag := Fragment(json, "water_hazard_class", parse);
    if frag.Panics? {
      return Panics(frag.site);
    }
    if frag.value.Err? {
      return Returns(Err(frag.value.error));
    }
    var ts := Tables(frag.value.value, "block");
    if ts.Panics? {
      return Panics(ts.site);
    }
    var cells := Flatten(ts.value);
    // kill empty tables at the beginning
    var k := SkipEmpty(cells);
    if k.None? {
      return Panics(NoNonEmptyCell);
    }
    assert Whc(json, parse) == WhcOfCells(cells);
    if k.value + 1 < |cells| {
      var text := NodeText(cells[k.value + 1]);
      if text.None? {
        return Panics(HazardClassWithoutText);
      }
      assert WhcOfCells(cells) == Returns(ClassOfText(text.value));
      if text.value == Keyword {
        return Returns(Err(Empty));
      }
      return Returns(Ok(Trim(BeforeFirst(text.value, '-'))));
    }
    return Returns(Err(MissingInfo("water hazard class")));
  }

  /**
   * The cell right after the first cell with a child is read: the keyword
   * gives `Empty`, any other text its trimmed part before the first `-`.
   */
  lemma WhcReadsCellAfterFirstNonEmpty(cells: seq<Node>, k: nat, text: string)
    requires k + 1 < |cells| && Children(cells[k]) != [] && forall j :: 0 <= j < k ==> Children(cells[j]) == []
    requires NodeText(cells[k + 1]) == Some(text)
    ensures text == Keyword ==> WhcOfCells(cells) == Returns(Err(Empty))
    ensures text != Keyword ==> WhcOfCells(cells) == Returns(Ok(Trim(BeforeFirst(text, '-'))))
  {
    FirstNonEmptyAt(cells, k);
    assert WhcOfCells(cells) == Returns(ClassOfText(text));
  }

  /** The first cell with a child is the last cell: `MissingInfo`. */
  lemma WhcNoValueCell(cells: seq<Node>)
    requires cells != [] && Children(cells[|cells| - 1]) != []
    requires forall j :: 0 <= j < |cells| - 1 ==> Children(cells[j]) == []
    ensures WhcOfCells(cells) == Returns(Err(MissingInfo("water hazard class")))
  {
  }
}
