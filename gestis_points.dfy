/**
 * `get_mp_bp` and its two wrappers: every block cell that holds a
 * `feldmitlabel` table whose first cell reads exactly the label sets the
 * point to the text of the next cell; the last such cell decides.
 */
module GestisPoints {

  import opened Outcomes
  import opened XmlTree
  import opened RustStr
  import opened GestisTypes
  import opened GestisLocate
  import opened GestisTables

  const MeltingLabel := "Schmelzpunkt:"
  const BoilingLabel := "Siedepunkt:"

  /** One turn of the loop: the point after looking at `cell`. */
  function PointStep(point: Option<string>, cell: Node, labelText: string): Run<Option<string>> {
    match Tables(cell, "feldmitlabel")
    case Panics(p) => Panics(p)
    case Returns(inner) =>
      if inner == [] then Returns(point)
      else
        var ids := Flatten(inner);
        if ids == [] then Panics(LabelCellMissing)
        else if NodeText(ids[0]) == Some(labelText) then
          if |ids| < 2 then Panics(ValueCellMissing) else Returns(NodeText(ids[1]))
        else Returns(point)
  }

  /** The point after the loop has seen `cells`, or the first abort. */
  function PointScan(cells: seq<Node>, labelText: string): Run<Option<string>>
    decreases |cells|
  {
    if cells == [] then Returns(None)
    else
      match PointScan(cells[..|cells| - 1], labelText)
      case Panics(p) => Panics(p)
      case Returns(point) => PointStep(point, cells[|cells| - 1], labelText)
  }

  /** The specification of `GetMpBp`. */
  function MpBp(json: GestisResponse, name: string, labelText: string, parse: XmlParser): Run<Result<string, ParseError>>
    requires name in ChapterMapping
  {
    match Fragment(json, name, parse)
    case Panics(p) => Panics(p)
    case Returns(Err(e)) => Returns(Err(e))
    case Returns(Ok(root)) =>
      match Tables(root, "block")
      case Panics(p) => Panics(p)
      case Returns(ts) =>
        match PointScan(Flatten(ts), labelText)
        case Panics(p) => Panics(p)
        case Returns(Some(mp)) => Returns(Ok(Trim(mp)))
        case Returns(None) => Returns(Err(MissingInfo(name)))
  }

  /** Once the loop has aborted on a prefix, the whole scan has. */
  lemma {:induction false} PointScanAbortsEarly(cells: seq<Node>, i: nat, labelText: string)
    requires i <= |cells| && PointScan(cells[..i], labelText).Panics?
    ensures PointScan(cells, labelText) == PointScan(cells[..i], labelText)
    decreases |cells| - i
  {
    if i < |cells| {
      assert cells[..i + 1][..i] == cells[..i];
      PointScanAbortsEarly(cells, i + 1, labelText);
    } else {
      assert cells[..i] == cells;
    }
  }

  /** The body of the loop in `get_mp_bp`, for one block cell. */
  method ScanCell(point: Option<string>, data: Node, labelText: string) returns (r: Run<Option<string>>)
    ensures r == PointStep(point, data, labelText)
  {
    var inner := Tables(data, "feldmitlabel");
    if inner.Panics? {
      return Panics(inner.site);
    }
    if inner.value == [] {
      return Returns(point);
    }
    var ids := Flatten(inner.value);
    if ids == [] {
      return Panics(LabelCellMissing);
    }
    var text := NodeText(ids[0]);
    if text.Some? && text.value == labelText {
      if |ids| < 2 {
        return Panics(ValueCellMissing);
      }
      return Returns(NodeText(ids[1]));
    }
    return Returns(point);
  }

  /** The loop of `get_mp_bp` over the block cells. */
  method ScanCells(cells: seq<Node>, labelText: string) returns (r: Run<Option<string>>)
    ensures r == PointScan(cells, labelText)
  {
    var point: Option<string> := None;
    for i := 0 to |cells|
      invariant PointScan(cells[..i], labelText) == Returns(point)
    {
      assert cells[..i + 1][..i] == cells[..i];
      var step := ScanCell(point, cells[i], labelText);
      if step.Panics? {
        PointScanAbortsEarly(cells, i + 1, labelText);
        return step;
      }
      point := step.value;
    }
    assert cells[..|cells|] == cells;
    return Returns(point);
  }

  /** `get_mp_bp`. */
  method GetMpBp(json: GestisResponse, name: string, labelText: string, parse: XmlParser) returns (r: Run<Result<string, ParseError>>)
    requires name in ChapterMapping
    ensures r == MpBp(json, name, labelText, parse)
  {
    var frag := Fragment(json, name, parse);
    if frag.Panics? {
      return Panics(frag.site);
    }
    if frag.value.Err? {
      return Returns(Err(frag.value.error));
    }
    var ts := Tables(frag.value.value, "block");
    if ts.Panics? {
      return Panics(ts.site);
    }
    var point := ScanCells(Flatten(ts.value), labelText);
    if point.Panics? {
      return Panics(point.site);
    }
    match point.value
    case Some(mp) => return Returns(Ok(Trim(mp)));
    case None => return Returns(Err(MissingInfo(name)));
  }

  /** `get_melting_point`. */
  method GetMeltingPoint(json: GestisResponse, parse: XmlParser) returns (r: Run<Result<string, ParseError>>)
    ensures r == MpBp(json, "melting_point", MeltingLabel, parse)
  {
    r := GetMpBp(json, "melting_point", MeltingLabel, parse);
  }

  /** `get_boiling_point`. */
  method GetBoilingPoint(json: GestisResponse, parse: XmlParser) returns (r: Run<Result<string, ParseError>>)
    ensures r == MpBp(json, "boiling_point", BoilingLabel, parse)
  {
    r := GetMpBp(json, "boiling_point", BoilingLabel, parse);
  }

  /** `cell` holds a `feldmitlabel` table whose first cell reads exactly the label, and a cell after it. */
  predicate LabelMatches(cell: Node, labelText: string) {
    var t := Tables(cell, "feldmitlabel");
    t.Returns? && t.value != [] && |Flatten(t.value)| >= 2 && NodeText(Flatten(t.value)[0]) == Some(labelText)
  }

  /** The text of the cell after the label cell, in a matching cell. */
  function ValueText(cell: Node, labelText: string): Option<string>
    requires LabelMatches(cell, labelText)
  {
    NodeText(Flatten(Tables(cell, "feldmitlabel").value)[1])
  }

  /** A cell on which the loop aborts, whatever the point so far. */
  predicate StepAborts(cell: Node, labelText: string) {
    PointStep(None, cell, labelText).Panics?
  }

  /** Whether a step aborts does not depend on the point so far. */
  lemma PointStepAborts(point: Option<string>, cell: Node, labelText: string)
    ensures PointStep(point, cell, labelText).Panics? == StepAborts(cell, labelText)
  {
  }

  /** A step over a cell that does not abort: a match sets the point, anything else keeps it. */
  lemma PointStepEffect(point: Option<string>, cell: Node, labelText: string)
    requires !StepAborts(cell, labelText)
    ensures PointStep(point, cell, labelText) ==
      Returns(if LabelMatches(cell, labelText) then ValueText(cell, labelText) else point)
  {
  }

  /**
   * The last matching cell decides the point, even when its value cell has
   * no text (the point is then reset to nothing).
   */
  lemma {:induction false} LastMatchDecides(cells: seq<Node>, labelText: string, i: nat)
    requires NoCellAborts(cells, labelText)
    requires i < |cells| && LabelMatches(cells[i], labelText)
    requires forall j :: i < j < |cells| ==> !LabelMatches(cells[j], labelText)
    ensures PointScan(cells, labelText) == Returns(ValueText(cells[i], labelText))
    decreases |cells|
  {
    var front := cells[..|cells| - 1];
    var last := cells[|cells| - 1];
    assert forall j :: 0 <= j < |front| ==> front[j] == cells[j];
    NoCellAbortsSnoc(cells, labelText);
    PointScanReturns(front, labelText);
    var point := PointScan(front, labelText).value;
    assert PointScan(cells, labelText) == PointStep(point, last, labelText);
    PointStepEffect(point, last, labelText);
    if i < |cells| - 1 {
      LastMatchDecides(front, labelText, i);
      assert point == ValueText(cells[i], labelText);
    }
  }

  /** With no matching cell, the point stays unset. */
  lemma {:induction false} NoMatchNoPoint(cells: seq<Node>, labelText: string)
    requires forall j :: 0 <= j < |cells| ==> !StepAborts(cells[j], labelText)
    requires forall j :: 0 <= j < |cells| ==> !LabelMatches(cells[j], labelText)
    ensures PointScan(cells, labelText) == Returns(None)
    decreases |cells|
  {
    if cells != [] {
      var front := cells[..|cells| - 1];
      NoMatchNoPoint(front, labelText);
      PointStepEffect(None, cells[|cells| - 1], labelText);
    }
  }

  /** No cell of `cells` makes the loop abort. */
  predicate NoCellAborts(cells: seq<Node>, labelText: string) {
    forall j :: 0 <= j < |cells| ==> !StepAborts(cells[j], labelText)
  }

  lemma NoCellAbortsSnoc(cells: seq<Node>, labelText: string)
    requires cells != []
    ensures NoCellAborts(cells, labelText) <==>
      NoCellAborts(cells[..|cells| - 1], labelText) && !StepAborts(cells[|cells| - 1], labelText)
  {
    var front := cells[..|cells| - 1];
    assert forall j :: 0 <= j < |front| ==> front[j] == cells[j];
  }

  /** The loop aborts exactly when some cell makes it abort. */
  lemma {:induction false} PointScanReturns(cells: seq<Node>, labelText: string)
    ensures PointScan(cells, labelText).Returns? <==> NoCellAborts(cells, labelText)
    decreases |cells|
  {
    if cells != [] {
      var front := cells[..|cells| - 1];
      var last := cells[|cells| - 1];
      PointScanReturns(front, labelText);
      NoCellAbortsSnoc(cells, labelText);
      var prev := PointScan(front, labelText);
      if prev.Returns? {
        assert PointScan(cells, labelText) == PointStep(prev.value, last, labelText);
        PointStepAborts(prev.value, last, labelText);
      } else {
        assert PointScan(cells, labelText).Panics?;
      }
    }
  }

  /** A found point is trimmed; a missing one names the field. */
  lemma MpBpResult(json: GestisResponse, name: string, labelText: string, parse: XmlParser)
    requires name in ChapterMapping
    ensures var r := MpBp(json, name, labelText, parse);
      r.Returns? && r.value.Ok? ==> r.value.value == Trim(r.value.value)
    ensures var r := MpBp(json, name, labelText, parse);
      r.Returns? && r.value.Err? ==> r.value.error in {NoXml, XmlError, MissingInfo(name)}
  {
    var frag := Fragment(json, name, parse);
    if frag.Returns? && frag.value.Ok? {
      var ts := Tables(frag.value.value, "block");
      if ts.Returns? {
        var scan := PointScan(Flatten(ts.value), labelText);
        if scan.Returns? && scan.value.Some? {
          assert MpBp(json, name, labelText, parse) == Returns(Ok(Trim(scan.value.value)));
          TrimIdempotent(scan.value.value);
        }
      }
    }
  }
}
