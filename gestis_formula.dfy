/**
 * `get_molecular_formula`: the first block cell that has any child holds the
 * formula in its `summenformel` child.
 */
module GestisFormula {

  import opened Outcomes
  import opened XmlTree
  import opened GestisTypes
  import opened GestisLocate
  import opened GestisTables

  /** What the first non-empty cell gives. */
  function FormulaOfCell(cell: Node): Run<Result<string, ParseError>> {
    match FindChildTagged(Children(cell), "summenformel")
    case None => Returns(Err(MissingInfo("molecular formula")))
    case Some(mf) =>
      match FirstChild(mf)
      case None => Panics(FormulaWithoutChild)
      case Some(f) =>
        match NodeText(f)
        case None => Panics(FormulaWithoutText)
        case Some(t) => Returns(Ok(t))
  }

  /** The formula read from the flattened block cells. */
  function FormulaOfCells(cells: seq<Node>): Run<Result<string, ParseError>> {
    match FirstNonEmpty(cells)
    case None => Panics(NoNonEmptyCell)
    case Some(k) => FormulaOfCell(cells[k])
  }

  /** The molecular formula of an article: the specification of `GetMolecularFormula`. */
  function MolecularFormula(json: GestisResponse, parse: XmlParser): Run<Result<string, ParseError>> {
    match Fragment(json, "molecular_formula", parse)
    case Panics(p) => Panics(p)
    case Returns(Err(e)) => Returns(Err(e))
    case Returns(Ok(root)) =>
      match Tables(root, "block")
      case Panics(p) => Panics(p)
      case Returns(ts) => FormulaOfCells(Flatten(ts))
  }

  /** `get_molecular_formula`. */
  method GetMolecularFormula(json: GestisResponse, parse: XmlParser) returns (r: Run<Result<string, ParseError>>)
    ensures r == MolecularFormula(json, parse)
  {
    var frag := Fragment(json, "molecular_formula", parse);
    if frag.Panics? {
      return Panics(frag.site);
    }
    if frag.value.Err? {
      return Returns(Err(frag.value.error));
    }
    var ts := Tables(frag.value.value, "block");
    if ts.Panics? {
      return Panics(ts.site);
    }
    var cells := Flatten(ts.value);
    // kill empty tables at the beginning
    var k := SkipEmpty(cells);
    if k.None? {
      return Panics(NoNonEmptyCell);
    }
    var data := cells[k.value];
    var mf := FindChildTagged(Children(data), "summenformel");
    if mf.None? {
      return Returns(Err(MissingInfo("molecular formula")));
    }
    var first := FirstChild(mf.value);
    if first.None? {
      return Panics(FormulaWithoutChild);
    }
    var text := NodeText(first.value);
    if text.None? {
      return Panics(FormulaWithoutText);
    }
    return Returns(Ok(text.value));
  }

  /**
   * Leading childless cells are skipped; the first cell with a child decides:
   * the text of the first child of its first `summenformel` child.
   */
  lemma FormulaFromFirstNonEmptyCell(cells: seq<Node>, k: nat, m: nat, t: string)
    requires k < |cells| && Children(cells[k]) != [] && forall j :: 0 <= j < k ==> Children(cells[j]) == []
    requires FirstTaggedAt(Children(cells[k]), "summenformel", m)
    requires Children(Children(cells[k])[m]) != [] && NodeText(Children(Children(cells[k])[m])[0]) == Some(t)
    ensures FormulaOfCells(cells) == Returns(Ok(t))
  {
    var f := FindChildTagged(Children(cells[k]), "summenformel");
    assert f == Some(Children(cells[k])[m]) by {
      var cs := Children(cells[k]);
      var i :| FirstTaggedAt(cs, "summenformel", i) && cs[i] == f.value;
      assert !(i < m) && !(m < i);
    }
  }

  /** The first cell with a child has no `summenformel` child: `MissingInfo`, whatever later cells hold. */
  lemma FormulaMissing(cells: seq<Node>, k: nat)
    requires k < |cells| && Children(cells[k]) != [] && forall j :: 0 <= j < k ==> Children(cells[j]) == []
    requires forall j :: 0 <= j < |Children(cells[k])| ==> !HasTagName(Children(cells[k])[j], "summenformel")
    ensures FormulaOfCells(cells) == Returns(Err(MissingInfo("molecular formula")))
  {
  }

  /** Running out of cells in the skip loop aborts. */
  lemma FormulaAllCellsEmpty(cells: seq<Node>)
    requires forall j :: 0 <= j < |cells| ==> Children(cells[j]) == []
    ensures FormulaOfCells(cells) == Panics(NoNonEmptyCell)
  {
  }

  /** Without a panic the extractor fails in three ways only: no fragment, a fragment that does not parse, or no formula. */
  lemma MolecularFormulaErrors(json: GestisResponse, parse: XmlParser)
    ensures MolecularFormula(json, parse).Returns? && MolecularFormula(json, parse).value.Err? ==>
      MolecularFormula(json, parse).value.error in {NoXml, XmlError, MissingInfo("molecular formula")}
  {
  }
}
