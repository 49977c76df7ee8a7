/**
 * `get_h_p_signal_symbols`: one walk over the block tables fills four slots,
 * the hazard statements (H), the precautionary statements (P), the signal
 * word and the hazard symbols.  Each slot starts as `MissingInfo` and is
 * overwritten only by a table carrying its own marker.
 */
module GestisHazard {

  import opened Outcomes
  import opened XmlTree
  import opened RustStr
  import opened GestisTypes
  import opened GestisLocate
  import opened GestisTables

  const HeadingH := "Gefahrenhinweise - H-S\U{00E4}tze:"
  const HeadingP := "Sicherheitshinweise - P-S\U{00E4}tze:"
  const SignalLabel := "Signalwort:"

  datatype Slots = Slots(
    hPhrases: Result<seq<Phrase>, ParseError>,
    pPhrases: Result<seq<Phrase>, ParseError>,
    signalWord: Result<string, ParseError>,
    symbols: Result<seq<Image>, ParseError>)

  const InitialSlots := Slots(
    Err(MissingInfo("h phrases")), Err(MissingInfo("p phrases")),
    Err(MissingInfo("signal word")), Err(MissingInfo("symbols")))

  /* ---------- extract_h_p ---------- */

  /** One statement text: split at the first `:`, both sides trimmed; none without a `:`. */
  function PhraseOf(text: string): (r: Option<Phrase>)
    ensures r.None? <==> ':' !in text
    ensures r.Some? ==> exists k :: FirstColonAt(text, k) && r.value == (Trim(text[..k]), Trim(text[k + 1..]))
  {
    var parts := SplitOnce(text, ':');
    if |parts| > 1 then
      assert FirstColonAt(text, |parts[0]|) by {
        assert text[..|parts[0]|] == parts[0];
      }
      assert text[|parts[0]| + 1..] == parts[1];
      Some((Trim(parts[0]), Trim(parts[1])))
    else None
  }

  /** `k` is the position of the first `:` of `text`. */
  predicate FirstColonAt(text: string, k: int) {
    0 <= k < |text| && text[k] == ':' && ':' !in text[..k]
  }

  /** The statements of the text children among `cs`, in order. */
  function PhrasesOf(cs: seq<Node>): (r: seq<Phrase>)
    ensures |r| <= |cs|
  {
    if cs == [] then [] else PhraseOfChild(cs[0]) + PhrasesOf(cs[1..])
  }

  /** What one child contributes: the statement of a text node that has a `:`, and nothing else. */
  function PhraseOfChild(c: Node): (r: seq<Phrase>)
    ensures |r| <= 1
  {
    if c.Text? && PhraseOf(c.content).Some? then [PhraseOf(c.content).value] else []
  }

  /**
   * Each statement comes from a text child that has a `:`, and every such
   * child gives one; element children and texts without `:` give nothing.
   */
  lemma {:induction false} PhrasesOfMembers(cs: seq<Node>, p: Phrase)
    ensures p in PhrasesOf(cs) <==> exists i :: 0 <= i < |cs| && cs[i].Text? && PhraseOf(cs[i].content) == Some(p)
  {
    if cs != [] {
      PhrasesOfMembers(cs[1..], p);
      if exists i :: 0 <= i < |cs[1..]| && cs[1..][i].Text? && PhraseOf(cs[1..][i].content) == Some(p) {
        var i :| 0 <= i < |cs[1..]| && cs[1..][i].Text? && PhraseOf(cs[1..][i].content) == Some(p);
        assert cs[i + 1] == cs[1..][i];
      }
      if exists i :: 0 <= i < |cs| && cs[i].Text? && PhraseOf(cs[i].content) == Some(p) {
        var i :| 0 <= i < |cs| && cs[i].Text? && PhraseOf(cs[i].content) == Some(p);
        if i > 0 {
          assert cs[1..][i - 1] == cs[i];
        }
      }
    }
  }

  /** The statements keep the order of the text children. */
  lemma {:induction false} PhrasesOfAppend(a: seq<Node>, b: seq<Node>)
    ensures PhrasesOf(a + b) == PhrasesOf(a) + PhrasesOf(b)
  {
    if a == [] {
      assert a + b == b;
    } else {
      assert (a + b)[0] == a[0] && (a + b)[1..] == a[1..] + b;
      PhrasesOfAppend(a[1..], b);
    }
  }

  /** `extract_h_p`: the statements listed in one cell, one per text child that has a `:`. */
  function ExtractHP(cell: Node): (r: seq<Phrase>)
    ensures forall p :: p in r <==>
      exists i :: 0 <= i < |Children(cell)| && Children(cell)[i].Text? && PhraseOf(Children(cell)[i].content) == Some(p)
  {
    PhrasesOfMembersAll(Children(cell));
    PhrasesOf(Children(cell))
  }

  lemma PhrasesOfMembersAll(cs: seq<Node>)
    ensures forall p :: p in PhrasesOf(cs) <==> exists i :: 0 <= i < |cs| && cs[i].Text? && PhraseOf(cs[i].content) == Some(p)
  {
    forall p
      ensures p in PhrasesOf(cs) <==> exists i :: 0 <= i < |cs| && cs[i].Text? && PhraseOf(cs[i].content) == Some(p)
    {
      PhrasesOfMembers(cs, p);
    }
  }

  /* ---------- the symbol row ---------- */

  /**
   * One image per cell of the row whose first element child exists, taken
   * from that element's `src` and `alt`; a missing attribute aborts.
   */
  function Symbols(row: Row): (r: Run<seq<Image>>)
    ensures r.Panics? ==> r.site == ImageAttributeMissing
    ensures r.Returns? ==> |r.value| == CellsWithElement(row)
  {
    if row == [] then Returns([])
    else
      match FirstElementChild(row[0])
      case None => Symbols(row[1..])
      case Some(e) =>
        match (Attribute(e, "src"), Attribute(e, "alt"))
        case (Some(url), Some(alt)) =>
          (match Symbols(row[1..])
           case Panics(p) => Panics(p)
           case Returns(rest) => Returns([Image(url, alt)] + rest))
        case _ => Panics(ImageAttributeMissing)
  }

  /** How many cells of the row have an element child. */
  function CellsWithElement(row: Row): nat {
    if row == [] then 0 else (if FirstElementChild(row[0]).Some? then 1 else 0) + CellsWithElement(row[1..])
  }

  /** The images keep the order of the cells: the row's images are its parts' images, concatenated. */
  lemma {:induction false} SymbolsAppend(a: Row, b: Row)
    requires Symbols(a).Returns? && Symbols(b).Returns?
    ensures Symbols(a + b) == Returns(Symbols(a).value + Symbols(b).value)
  {
    if a == [] {
      assert a + b == b;
      assert Symbols(a).value + Symbols(b).value == Symbols(b).value;
    } else {
      var ab := a + b;
      assert ab[0] == a[0] && ab[1..] == a[1..] + b;
      var rest := Symbols(a[1..]);
      assert rest.Returns?;
      SymbolsAppend(a[1..], b);
      match FirstElementChild(a[0])
      case None =>
        assert Symbols(ab) == Symbols(ab[1..]);
      case Some(e) =>
        var img := Image(Attribute(e, "src").value, Attribute(e, "alt").value);
        assert Symbols(a) == Returns([img] + rest.value);
        assert Symbols(ab) == Returns([img] + (rest.value + Symbols(b).value));
        ConsAssoc(img, rest.value, Symbols(b).value);
    }
  }

  lemma ConsAssoc<T>(x: T, p: seq<T>, q: seq<T>)
    ensures [x] + (p + q) == [x] + p + q
  {
  }

  /**
   * One cell: no image without an element child, otherwise the image made of
   * that element's `src` and `alt`, or the abort when either is missing.
   */
  lemma SymbolsOfOneCell(c: Node)
    ensures FirstElementChild(c).None? ==> Symbols([c]) == Returns([])
    ensures FirstElementChild(c).Some? ==>
      var e := FirstElementChild(c).value;
      Symbols([c]) == if Attribute(e, "src").Some? && Attribute(e, "alt").Some?
                    then Returns([Image(Attribute(e, "src").value, Attribute(e, "alt").value)])
                    else Panics(ImageAttributeMissing)
  {
    assert [c][1..] == [];
    assert Symbols([c][1..]) == Returns([]);
    if FirstElementChild(c).Some? {
      var e := FirstElementChild(c).value;
      if Attribute(e, "src").Some? && Attribute(e, "alt").Some? {
        var img := Image(Attribute(e, "src").value, Attribute(e, "alt").value);
        assert [img] + [] == [img];
      }
    }
  }

  /** The cell the marker was peeked from is not skipped: its image comes first. */
  lemma SymbolsStartWithFirstCell(row: Row, e: Node)
    requires row != [] && FirstElementChild(row[0]) == Some(e)
    requires Symbols(row).Returns?
    ensures Attribute(e, "src").Some? && Attribute(e, "alt").Some?
    ensures Symbols(row).value != []
    ensures Symbols(row).value[0] == Image(Attribute(e, "src").value, Attribute(e, "alt").value)
  {
  }

  /* ---------- one table ---------- */

  /** The first element child of the first cell of the first row: the marker the table is judged by. */
  function Marker(table: Table): Option<Node> {
    if table == [] || table[0] == [] then None else FirstElementChild(table[0][0])
  }

  /** The table is headed by a bold element reading `text`. */
  predicate HeadedBy(table: Table, text: string) {
    var m := Marker(table);
    m.Some? && HasTagName(m.value, "b") && NodeText(m.value) == Some(text)
  }

  predicate MarkedBy(table: Table, tag: string) {
    var m := Marker(table);
    m.Some? && HasTagName(m.value, tag)
  }

  /** The signal-word sub-table of a cell: it can set the signal word and nothing else. */
  function SignalStep(s: Slots, data: Node): (r: Run<Slots>)
    ensures r.Panics? ==> r.site in {TableWithoutClass, SignalValueMissing, SignalValueWithoutText}
    ensures r.Returns? ==> r.value.hPhrases == s.hPhrases && r.value.pPhrases == s.pPhrases && r.value.symbols == s.symbols
    ensures r.Returns? && r.value.signalWord != s.signalWord ==> r.value.signalWord.Ok?
  {
    match Tables(data, "feldmitlabel")
    case Panics(p) => Panics(p)
    case Returns(ts) =>
      var ids := Flatten(ts);
      if ids == [] then Returns(s)
      else
        match FirstElementChild(ids[0])
        case None => Returns(s)
        case Some(b) =>
          if HasTagName(b, "b") && NodeText(b) == Some(SignalLabel) then
            if |ids| < 2 then Panics(SignalValueMissing)
            else
              match NodeText(ids[1])
              case None => Panics(SignalValueWithoutText)
              case Some(t) => Returns(s.(signalWord := Ok(TrimMatches(t, '"'))))
          else Returns(s)
  }

  /** One turn of the loop: the slots after looking at `table`. */
  function HazardStep(s: Slots, table: Table): Run<Slots> {
    var m := Marker(table);
    if m.None? then Returns(s)
    else if HasTagName(m.value, "b") then
      if NodeText(m.value) == Some(HeadingH) then
        if |table| > 1 then
          if table[1] == [] then Panics(PhraseRowEmpty) else Returns(s.(hPhrases := Ok(ExtractHP(table[1][0]))))
        else Returns(s)
      else if NodeText(m.value) == Some(HeadingP) then
        if |table| > 1 then
          if table[1] == [] then Panics(PhraseRowEmpty) else Returns(s.(pPhrases := Ok(ExtractHP(table[1][0]))))
        else Returns(s)
      else Returns(s)
    else if HasTagName(m.value, "img") then
      match Symbols(table[0])
      case Panics(p) => Panics(p)
      case Returns(images) => Returns(s.(symbols := Ok(images)))
    else if HasTagName(m.value, "table") then SignalStep(s, table[0][0])
    else Returns(s)
  }

  /** The slots after the loop has seen `ts`, or the first abort. */
  function HazardScan(ts: seq<Table>): Run<Slots>
    decreases |ts|
  {
    if ts == [] then Returns(InitialSlots)
    else
      match HazardScan(ts[..|ts| - 1])
      case Panics(p) => Panics(p)
      case Returns(s) => HazardStep(s, ts[|ts| - 1])
  }

  /** The specification of `GetHPSignalSymbols`. */
  function HPSignalSymbols(json: GestisResponse, parse: XmlParser): Run<Result<Slots, ParseError>> {
    match Fragment(json, "h_p_signal_symbols", parse)
    case Panics(p) => Panics(p)
    case Returns(Err(e)) => Returns(Err(e))
    case Returns(Ok(root)) =>
      match Tables(root, "block")
      case Panics(p) => Panics(p)
      case Returns(ts) =>
        match HazardScan(ts)
        case Panics(p) => Panics(p)
        case Returns(s) => Returns(Ok(s))
  }

  /** Once the loop has aborted on a prefix, the whole walk has. */
  lemma {:induction false} HazardScanAbortsEarly(ts: seq<Table>, i: nat)
    requires i <= |ts| && HazardScan(ts[..i]).Panics?
    ensures HazardScan(ts) == HazardScan(ts[..i])
    decreases |ts| - i
  {
    if i < |ts| {
      assert ts[..i + 1][..i] == ts[..i];
      HazardScanAbortsEarly(ts, i + 1);
    } else {
      assert ts[..i] == ts;
    }
  }

  /** The body of the loop in `get_h_p_signal_symbols`: one table of the block. */
  method ScanTable(s: Slots, table: Table) returns (r: Run<Slots>)
    ensures r == HazardStep(s, table)
  {
    r := Returns(s);
    if table == [] || table[0] == [] {
      return;
    }
    var row := table[0];
    var data := row[0];
    var inner := FirstElementChild(data);
    if inner.None? {
      return;
    }
    if HasTagName(inner.value, "b") {
      if NodeText(inner.value) == Some(HeadingH) && |table| > 1 {
        if table[1] == [] {
          return Panics(PhraseRowEmpty);
        }
        r := Returns(s.(hPhrases := Ok(ExtractHP(table[1][0]))));
      } else if NodeText(inner.value) == Some(HeadingP) && |table| > 1 {
        if table[1] == [] {
          return Panics(PhraseRowEmpty);
        }
        r := Returns(s.(pPhrases := Ok(ExtractHP(table[1][0]))));
      }
    } else if HasTagName(inner.value, "img") {
      var images := Symbols(row);
      if images.Panics? {
        return Panics(images.site);
      }
      r := Returns(s.(symbols := Ok(images.value)));
    } else if HasTagName(inner.value, "table") {
      var labelled := Tables(data, "feldmitlabel");
      if labelled.Panics? {
        return Panics(labelled.site);
      }
      var ids := Flatten(labelled.value);
      if ids == [] {
        return;
      }
      var b := FirstElementChild(ids[0]);
      if b.Some? && HasTagName(b.value, "b") && NodeText(b.value) == Some(SignalLabel) {
        if |ids| < 2 {
          return Panics(SignalValueMissing);
        }
        var text := NodeText(ids[1]);
        if text.None? {
          return Panics(SignalValueWithoutText);
        }
        r := Returns(s.(signalWord := Ok(TrimMatches(text.value, '"'))));
      }
    }
  }

  /** `get_h_p_signal_symbols`. */
  method GetHPSignalSymbols(json: GestisResponse, parse: XmlParser) returns (r: Run<Result<Slots, ParseError>>)
    ensures r == HPSignalSymbols(json, parse)
  {
    var frag := Fragment(json, "h_p_signal_symbols", parse);
    if frag.Panics? {
      return Panics(frag.site);
    }
    if frag.value.Err? {
      return Returns(Err(frag.value.error));
    }
    var blocks := Tables(frag.value.value, "block");
    if blocks.Panics? {
      return Panics(blocks.site);
    }
    var scan := ScanTables(blocks.value);
    if scan.Panics? {
      return Panics(scan.site);
    }
    return Returns(Ok(scan.value));
  }

  /** The loop of `get_h_p_signal_symbols` over the block tables. */
  method ScanTables(ts: seq<Table>) returns (r: Run<Slots>)
    ensures r == HazardScan(ts)
  {
    var slots := InitialSlots;
    for i := 0 to |ts|
      invariant HazardScan(ts[..i]) == Returns(slots)
    {
      assert ts[..i + 1][..i] == ts[..i];
      var next := ScanTable(slots, ts[i]);
      if next.Panics? {
        HazardScanAbortsEarly(ts, i + 1);
        return next;
      }
      slots := next.value;
    }
    assert ts[..|ts|] == ts;
    return Returns(slots);
  }

  /**
   * A table changes a slot only when it carries that slot's marker, and a
   * marker sets its slot.
   */
  lemma HazardStepFrame(s: Slots, t: Table, s': Slots)
    requires HazardStep(s, t) == Returns(s')
    ensures s'.hPhrases != s.hPhrases ==> HeadedBy(t, HeadingH)
    ensures s'.pPhrases != s.pPhrases ==> HeadedBy(t, HeadingP)
    ensures s'.symbols != s.symbols ==> MarkedBy(t, "img")
    ensures s'.signalWord != s.signalWord ==> MarkedBy(t, "table")
    ensures HeadedBy(t, HeadingH) && |t| > 1 ==> t[1] != [] && s'.hPhrases == Ok(ExtractHP(t[1][0]))
    ensures HeadedBy(t, HeadingP) && |t| > 1 ==> t[1] != [] && s'.pPhrases == Ok(ExtractHP(t[1][0]))
    ensures MarkedBy(t, "img") ==> Symbols(t[0]).Returns? && s'.symbols == Ok(Symbols(t[0]).value)
    ensures s'.signalWord != s.signalWord ==>
              s'.signalWord.Ok? && s'.signalWord.value == TrimMatches(s'.signalWord.value, '"')
  {
    if s'.signalWord != s.signalWord {
      var w := s'.signalWord.value;
      assert w != [] ==> w[0] != '"' && w[|w| - 1] != '"';
      TrimMatchesFixed(w, '"');
    }
  }

  /**
   * A `Signalwort:` label in the first cell of a signal-word table sets the
   * word to the text of the cell after it, with the quotes at either end removed.
   */
  lemma SignalLabelSetsWord(s: Slots, t: Table, s': Slots, ids: seq<Node>, b: Node)
    requires HazardStep(s, t) == Returns(s') && MarkedBy(t, "table")
    requires Tables(t[0][0], "feldmitlabel").Returns? && Flatten(Tables(t[0][0], "feldmitlabel").value) == ids
    requires ids != [] && FirstElementChild(ids[0]) == Some(b) && HasTagName(b, "b") && NodeText(b) == Some(SignalLabel)
    ensures |ids| > 1 && NodeText(ids[1]).Some?
    ensures s'.signalWord == Ok(TrimMatches(NodeText(ids[1]).value, '"'))
  {
  }

  /** A slot whose marker appears in no table keeps its initial `MissingInfo`. */
  lemma {:induction false} HazardScanUntouched(ts: seq<Table>, s: Slots)
    requires HazardScan(ts) == Returns(s)
    ensures (forall j :: 0 <= j < |ts| ==> !HeadedBy(ts[j], HeadingH)) ==> s.hPhrases == Err(MissingInfo("h phrases"))
    ensures (forall j :: 0 <= j < |ts| ==> !HeadedBy(ts[j], HeadingP)) ==> s.pPhrases == Err(MissingInfo("p phrases"))
    ensures (forall j :: 0 <= j < |ts| ==> !MarkedBy(ts[j], "table")) ==> s.signalWord == Err(MissingInfo("signal word"))
    ensures (forall j :: 0 <= j < |ts| ==> !MarkedBy(ts[j], "img")) ==> s.symbols == Err(MissingInfo("symbols"))
    decreases |ts|
  {
    if ts != [] {
      var front := ts[..|ts| - 1];
      assert forall j :: 0 <= j < |front| ==> front[j] == ts[j];
      var s0 := HazardScan(front).value;
      HazardScanUntouched(front, s0);
      HazardStepFrame(s0, ts[|ts| - 1], s);
    }
  }
}
