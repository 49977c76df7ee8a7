/**
 * `get_lethal_dose`: the oral LD50 for rats is the value cell of the table
 * that follows a block table headed "LD50 oral Ratte"; a second such heading
 * after a value was found is reported as `Multiple`.
 */
module GestisLethal {

  import opened Outcomes
  import opened XmlTree
  import opened GestisTypes
  import opened GestisLocate
  import opened GestisTables
  import opened GestisHazard

  const LethalHeading := "LD50 oral Ratte"
  const ValueLabel := "Wert:"

  /**
   * What the table after a heading yields: the text of the second cell of its
   * first row, when the first cell's first child reads "Wert:".
   */
  function ValueOf(table: Table): (r: Option<string>)
    ensures r.Some? ==> table != [] && |table[0]| > 1 && NodeText(table[0][1]) == r
    ensures r.Some? ==> FirstChild(table[0][0]).Some? && NodeText(FirstChild(table[0][0]).value) == Some(ValueLabel)
    ensures (table != [] && |table[0]| > 1 && FirstChild(table[0][0]).Some?
             && NodeText(FirstChild(table[0][0]).value) == Some(ValueLabel)) ==> r == NodeText(table[0][1])
  {
    if table == [] || table[0] == [] then None
    else
      var row := table[0];
      match FirstChild(row[0])
      case None => None
      case Some(t) => if NodeText(t) == Some(ValueLabel) && |row| > 1 then NodeText(row[1]) else None
  }

  /** The loop's final `match ld50`. */
  function Finish(ld: Option<string>): (r: Result<Option<string>, ParseError>)
    ensures r.Ok? <==> ld.Some?
    ensures r.Ok? ==> r.value == ld
    ensures r.Err? ==> r.error == MissingInfo("lethal dose")
  {
    match ld
    case Some(v) => Ok(Some(v))
    case None => Err(MissingInfo("lethal dose"))
  }

  /**
   * The rest of the walk over the block tables `ts`, with `ld` found so far.
   * A heading consumes the table after it, which is therefore never looked
   * at as a heading itself.
   */
  function LethalScan(ts: seq<Table>, ld: Option<string>): (r: Result<Option<string>, ParseError>)
    ensures r.Ok? ==> r.value.Some?
    ensures r.Err? ==> r.error == MissingInfo("lethal dose") || r.error.Multiple?
    decreases |ts|
  {
    if ts == [] then Finish(ld)
    else if HeadedBy(ts[0], LethalHeading) then
      if ld.Some? then Err(Multiple(ld.value))
      else if |ts| > 1 then LethalScan(ts[2..], ValueOf(ts[1]))
      else LethalScan(ts[1..], ld)
    else LethalScan(ts[1..], ld)
  }

  /** The specification of `GetLethalDose`. */
  function LethalDose(json: GestisResponse, parse: XmlParser): (r: Run<Result<Option<string>, ParseError>>)
    ensures r.Returns? && r.value.Ok? ==> r.value.value.Some?
    ensures r.Returns? && r.value.Err? ==>
      r.value.error in {NoXml, XmlError, MissingInfo("lethal dose")} || r.value.error.Multiple?
  {
    match Fragment(json, "lethal_dose", parse)
    case Panics(p) => Panics(p)
    case Returns(Err(e)) => Returns(Err(e))
    case Returns(Ok(root)) =>
      match Tables(root, "block")
      case Panics(p) => Panics(p)
      case Returns(ts) => Returns(LethalScan(ts, None))
  }

  /** The cells inspected in the table after a heading. */
  method ReadValue(next: Table) returns (v: Option<string>)
    ensures v == ValueOf(next)
  {
    v := None;
    if next != [] && next[0] != [] {
      var row := next[0];
      var first := FirstChild(row[0]);
      if first.Some? && NodeText(first.value) == Some(ValueLabel) && |row| > 1 {
        v := NodeText(row[1]);
      }
    }
  }

  /** The `while let` loop of `get_lethal_dose` over the block tables. */
  method ScanBlocks(ts: seq<Table>) returns (r: Result<Option<string>, ParseError>)
    ensures r == LethalScan(ts, None)
  {
    var ld50: Option<string> := None;
    var i := 0;
    while i < |ts|
      invariant i <= |ts|
      invariant LethalScan(ts[i..], ld50) == LethalScan(ts, None)
      decreases |ts| - i
    {
      var table := ts[i];
      assert ts[i..][1..] == ts[i + 1..];
      i := i + 1;
      if table != [] && table[0] != [] {
        var inner := FirstElementChild(table[0][0]);
        if inner.Some? && HasTagName(inner.value, "b") && NodeText(inner.value) == Some(LethalHeading) {
          if ld50.Some? {
            return Err(Multiple(ld50.value));
          }
          if i < |ts| {
            assert ts[i - 1..][2..] == ts[i + 1..];
            ld50 := ReadValue(ts[i]);
            i := i + 1;
          }
        }
      }
    }
    assert ts[i..] == [];
    return Finish(ld50);
  }

  /** `get_lethal_dose`. */
  method GetLethalDose(json: GestisResponse, parse: XmlParser) returns (r: Run<Result<Option<string>, ParseError>>)
    ensures r == LethalDose(json, parse)
  {
    var frag := Fragment(json, "lethal_dose", parse);
    if frag.Panics? {
      return Panics(frag.site);
    }
    if frag.value.Err? {
      return Returns(Err(frag.value.error));
    }
    var blocks := Tables(frag.value.value, "block");
    if blocks.Panics? {
      return Panics(blocks.site);
    }
    var found := ScanBlocks(blocks.value);
    return Returns(found);
  }

  /** Tables before the first heading are passed over. */
  lemma {:induction false} LethalSkip(ts: seq<Table>, k: nat, ld: Option<string>)
    requires k <= |ts|
    requires forall j :: 0 <= j < k ==> !HeadedBy(ts[j], LethalHeading)
    ensures LethalScan(ts, ld) == LethalScan(ts[k..], ld)
    decreases k
  {
    if k > 0 {
      assert ts[1..][k - 1..] == ts[k..];
      LethalSkip(ts[1..], k - 1, ld);
    }
  }

  /** No heading anywhere: the dose is missing. */
  lemma NoHeadingNoDose(ts: seq<Table>)
    requires forall j :: 0 <= j < |ts| ==> !HeadedBy(ts[j], LethalHeading)
    ensures LethalScan(ts, None) == Err(MissingInfo("lethal dose"))
  {
    LethalSkip(ts, |ts|, None);
  }

  /**
   * One heading, followed by a table: the result is what that table yields,
   * whatever the tables after it hold (if they hold no further heading).
   */
  lemma SingleHeading(ts: seq<Table>, k: nat)
    requires k + 1 < |ts| && HeadedBy(ts[k], LethalHeading)
    requires forall j :: 0 <= j < |ts| && j != k ==> !HeadedBy(ts[j], LethalHeading)
    ensures LethalScan(ts, None) == Finish(ValueOf(ts[k + 1]))
  {
    LethalSkip(ts, k, None);
    var rest := ts[k + 2..];
    assert forall j :: 0 <= j < |rest| ==> rest[j] == ts[k + 2 + j];
    LethalSkip(rest, |rest|, ValueOf(ts[k + 1]));
  }

  /**
   * A heading whose value was found, and a later heading (not the table
   * right after the first): `Multiple`, carrying the first value.
   */
  lemma SecondHeadingIsMultiple(ts: seq<Table>, k1: nat, k2: nat, v: string)
    requires k1 + 1 < k2 < |ts|
    requires HeadedBy(ts[k1], LethalHeading) && HeadedBy(ts[k2], LethalHeading)
    requires forall j :: 0 <= j < k2 && j != k1 && j != k1 + 1 ==> !HeadedBy(ts[j], LethalHeading)
    requires ValueOf(ts[k1 + 1]) == Some(v)
    ensures LethalScan(ts, None) == Err(Multiple(v))
  {
    LethalSkip(ts, k1, None);
    var rest := ts[k1 + 2..];
    assert forall j :: 0 <= j < |rest| ==> rest[j] == ts[k1 + 2 + j];
    LethalSkip(rest, k2 - k1 - 2, Some(v));
    assert rest[k2 - k1 - 2..][0] == ts[k2];
  }

  /**
   * A heading whose next table yields no value records nothing: the walk
   * goes on after that table as if it had never started.
   */
  lemma ValuelessHeadingRestarts(ts: seq<Table>, k: nat)
    requires k + 1 < |ts| && HeadedBy(ts[k], LethalHeading)
    requires forall j :: 0 <= j < k ==> !HeadedBy(ts[j], LethalHeading)
    requires ValueOf(ts[k + 1]) == None
    ensures LethalScan(ts, None) == LethalScan(ts[k + 2..], None)
  {
    LethalSkip(ts, k, None);
    assert ts[k..][2..] == ts[k + 2..];
  }

  /**
   * `Multiple` is only reported with a value that was recorded: the one found
   * before the walk, or the value of a table that follows a heading.
   */
  lemma {:induction false} MultipleCarriesFoundValue(ts: seq<Table>, ld: Option<string>, v: string)
    requires LethalScan(ts, ld) == Err(Multiple(v))
    ensures ld == Some(v) || exists k :: 1 <= k < |ts| && HeadedBy(ts[k - 1], LethalHeading) && ValueOf(ts[k]) == Some(v)
    decreases |ts|
  {
    if ts == [] {
      assert false;
    } else if HeadedBy(ts[0], LethalHeading) {
      if ld.None? && |ts| > 1 {
        var rest := ts[2..];
        MultipleCarriesFoundValue(rest, ValueOf(ts[1]), v);
        if ValueOf(ts[1]) != Some(v) {
          var k :| 1 <= k < |rest| && HeadedBy(rest[k - 1], LethalHeading) && ValueOf(rest[k]) == Some(v);
          assert ts[k + 1] == rest[k - 1] && ts[k + 2] == rest[k];
        }
      } else if ld.None? {
        assert false;
      }
    } else {
      var rest := ts[1..];
      MultipleCarriesFoundValue(rest, ld, v);
      if ld != Some(v) {
        var k :| 1 <= k < |rest| && HeadedBy(rest[k - 1], LethalHeading) && ValueOf(rest[k]) == Some(v);
        assert ts[k] == rest[k - 1] && ts[k + 1] == rest[k];
      }
    }
  }
}
