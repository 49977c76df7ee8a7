/**
 * `parse_response`: runs every extractor and assembles the record. Only a
 * missing molecular formula fails the whole call; every other failure leaves
 * its field absent and is reported as a diagnostic line.
 */
module GestisAssemble {

  import opened Outcomes
  import opened GestisTypes
  import opened GestisHazard
  import opened GestisFormula
  import opened GestisPoints
  import opened GestisWhc
  import opened GestisLethal

  /** The result of the call together with the diagnostics it writes, in order. */
  datatype Outcome = Outcome(result: Result<Data, ParseError>, reports: seq<Report>)

  function OkOrNone<T>(r: Result<T, ParseError>): (o: Option<T>)
    ensures o.Some? <==> r.Ok?
    ensures o.Some? ==> o.value == r.value
  {
    if r.Ok? then Some(r.value) else None
  }

  /** A diagnostic for a field whose extractor failed. */
  function ReportOf<T>(field: string, r: Result<T, ParseError>): seq<Report> {
    if r.Ok? then [] else [Report(field, r.error)]
  }

  /** The error reported for a hazard slot: the shared one when the whole extractor failed. */
  function SlotReport<T>(field: string, own: Result<T, ParseError>, shared: Option<ParseError>): seq<Report> {
    if own.Ok? then [] else [Report(field, if shared.Some? then shared.value else own.error)]
  }

  /** The four slots, with the `Empty` sentinel in each when the hazard extractor failed. */
  function HazardFields(hp: Result<Slots, ParseError>): Slots {
    if hp.Ok? then hp.value else Slots(Err(Empty), Err(Empty), Err(Empty), Err(Empty))
  }

  /** The lethal dose kept: a found value, or the first value of a `Multiple`. */
  function LethalField(ld: Result<Option<string>, ParseError>): (o: Option<string>)
    ensures ld.Err? && ld.error.Multiple? ==> o == Some(ld.error.value)
    ensures ld.Ok? ==> o == ld.value
    ensures ld.Err? && !ld.error.Multiple? ==> o.None?
  {
    match ld
    case Ok(v) => v
    case Err(Multiple(v)) => Some(v)
    case Err(_) => None
  }

  /** The record and the diagnostics, once the formula was found. */
  function Collect(hp: Result<Slots, ParseError>, formula: string,
                   mp: Result<string, ParseError>, bp: Result<string, ParseError>,
                   whc: Result<string, ParseError>, ld: Result<Option<string>, ParseError>): Outcome
  {
    var s := HazardFields(hp);
    var shared := if hp.Err? then Some(hp.error) else None;
    var data := Data(formula, OkOrNone(mp), OkOrNone(bp), OkOrNone(whc),
                     OkOrNone(s.hPhrases), OkOrNone(s.pPhrases), OkOrNone(s.signalWord), OkOrNone(s.symbols),
                     LethalField(ld));
    var reports := ReportOf("melting_point", mp) + ReportOf("boiling_point", bp)
      + ReportOf("water_hazard_class", whc)
      + SlotReport("h_phrases", s.hPhrases, shared) + SlotReport("p_phrases", s.pPhrases, shared)
      + SlotReport("signal_word", s.signalWord, shared) + SlotReport("symbols", s.symbols, shared)
      + ReportOf("lethal_dose", ld);
    Outcome(Ok(data), reports)
  }

  /** The specification of `ParseResponse`, in the source's order of evaluation. */
  function Assembled(json: GestisResponse, parse: XmlParser): Run<Outcome> {
    match HPSignalSymbols(json, parse)
    case Panics(p) => Panics(p)
    case Returns(hp) =>
      match MolecularFormula(json, parse)
      case Panics(p) => Panics(p)
      case Returns(Err(e)) => Returns(Outcome(Err(e), [Report("molecular_formula", e)]))
      case Returns(Ok(formula)) =>
        match MpBp(json, "melting_point", MeltingLabel, parse)
        case Panics(p) => Panics(p)
        case Returns(mp) =>
          match MpBp(json, "boiling_point", BoilingLabel, parse)
          case Panics(p) => Panics(p)
          case Returns(bp) =>
            match Whc(json, parse)
            case Panics(p) => Panics(p)
            case Returns(whc) =>
              match LethalDose(json, parse)
              case Panics(p) => Panics(p)
              case Returns(ld) => Returns(Collect(hp, formula, mp, bp, whc, ld))
  }

  /** `parse_response`. */
  method ParseResponse(json: GestisResponse, parse: XmlParser) returns (r: Run<Outcome>)
    ensures r == Assembled(json, parse)
  {
    var hp := GetHPSignalSymbols(json, parse);
    if hp.Panics? {
      return Panics(hp.site);
    }
    var formula := GetMolecularFormula(json, parse);
    if formula.Panics? {
      return Panics(formula.site);
    }
    if formula.value.Err? {
      var e := formula.value.error;
      return Returns(Outcome(Err(e), [Report("molecular_formula", e)]));
    }
    var mp := GetMeltingPoint(json, parse);
    if mp.Panics? {
      return Panics(mp.site);
    }
    var bp := GetBoilingPoint(json, parse);
    if bp.Panics? {
      return Panics(bp.site);
    }
    var whc := GetWhc(json, parse);
    if whc.Panics? {
      return Panics(whc.site);
    }
    var ld := GetLethalDose(json, parse);
    if ld.Panics? {
      return Panics(ld.site);
    }
    return Returns(Collect(hp.value, formula.value.value, mp.value, bp.value, whc.value, ld.value));
  }

  function IfAbsent<T>(name: string, v: Option<T>): seq<string> {
    if v.None? then [name] else []
  }

  /** The names of the optional fields the record leaves absent, in declaration order. */
  function AbsentFields(d: Data): seq<string> {
    IfAbsent("melting_point", d.meltingPoint) + IfAbsent("boiling_point", d.boilingPoint)
    + IfAbsent("water_hazard_class", d.waterHazardClass)
    + IfAbsent("h_phrases", d.hPhrases) + IfAbsent("p_phrases", d.pPhrases)
    + IfAbsent("signal_word", d.signalWord) + IfAbsent("symbols", d.symbols)
    + IfAbsent("lethal_dose", d.lethalDose)
  }

  function FieldsOf(reports: seq<Report>): (r: seq<string>)
    ensures |r| == |reports|
  {
    if reports == [] then [] else [reports[0].field] + FieldsOf(reports[1..])
  }

  lemma {:induction false} FieldsOfAppend(a: seq<Report>, b: seq<Report>)
    ensures FieldsOf(a + b) == FieldsOf(a) + FieldsOf(b)
  {
    if a == [] {
      assert a + b == b;
    } else {
      assert (a + b)[1..] == a[1..] + b;
      FieldsOfAppend(a[1..], b);
    }
  }

  lemma ReportFields<T>(field: string, r: Result<T, ParseError>)
    ensures FieldsOf(ReportOf(field, r)) == IfAbsent(field, OkOrNone(r))
  {
  }

  lemma SlotFields<T>(field: string, r: Result<T, ParseError>, shared: Option<ParseError>)
    ensures FieldsOf(SlotReport(field, r, shared)) == IfAbsent(field, OkOrNone(r))
  {
  }

  /** The field names of the diagnostics, report by report. */
  lemma CollectReportFields(hp: Result<Slots, ParseError>, formula: string,
                            mp: Result<string, ParseError>, bp: Result<string, ParseError>,
                            whc: Result<string, ParseError>, ld: Result<Option<string>, ParseError>)
    ensures var s := HazardFields(hp);
      FieldsOf(Collect(hp, formula, mp, bp, whc, ld).reports)
        == IfAbsent("melting_point", OkOrNone(mp)) + IfAbsent("boiling_point", OkOrNone(bp))
         + IfAbsent("water_hazard_class", OkOrNone(whc))
         + IfAbsent("h_phrases", OkOrNone(s.hPhrases)) + IfAbsent("p_phrases", OkOrNone(s.pPhrases))
         + IfAbsent("signal_word", OkOrNone(s.signalWord)) + IfAbsent("symbols", OkOrNone(s.symbols))
         + FieldsOf(ReportOf("lethal_dose", ld))
  {
    var s := HazardFields(hp);
    var shared := if hp.Err? then Some(hp.error) else None;
    var r1 := ReportOf("melting_point", mp);
    var r2 := ReportOf("boiling_point", bp);
    var r3 := ReportOf("water_hazard_class", whc);
    var r4 := SlotReport("h_phrases", s.hPhrases, shared);
    var r5 := SlotReport("p_phrases", s.pPhrases, shared);
    var r6 := SlotReport("signal_word", s.signalWord, shared);
    var r7 := SlotReport("symbols", s.symbols, shared);
    var r8 := ReportOf("lethal_dose", ld);
    ReportFields("melting_point", mp);
    ReportFields("boiling_point", bp);
    ReportFields("water_hazard_class", whc);
    SlotFields("h_phrases", s.hPhrases, shared);
    SlotFields("p_phrases", s.pPhrases, shared);
    SlotFields("signal_word", s.signalWord, shared);
    SlotFields("symbols", s.symbols, shared);
    assert Collect(hp, formula, mp, bp, whc, ld).reports == r1 + r2 + r3 + r4 + r5 + r6 + r7 + r8;
    FieldsOfConcat(r1, r2, r3, r4, r5, r6, r7, r8);
  }

  /**
   * One diagnostic per absent field, in field order; a `Multiple` lethal dose
   * is kept and still reported.
   */
  lemma ReportsNameAbsentFields(hp: Result<Slots, ParseError>, formula: string,
                                mp: Result<string, ParseError>, bp: Result<string, ParseError>,
                                whc: Result<string, ParseError>, ld: Result<Option<string>, ParseError>)
    requires ld.Ok? ==> ld.value.Some?
    ensures var o := Collect(hp, formula, mp, bp, whc, ld);
      o.result.Ok? && FieldsOf(o.reports)
        == AbsentFields(o.result.value) + (if ld.Err? && ld.error.Multiple? then ["lethal_dose"] else [])
  {
    var s := HazardFields(hp);
    var d := Collect(hp, formula, mp, bp, whc, ld).result.value;
    assert d == Data(formula, OkOrNone(mp), OkOrNone(bp), OkOrNone(whc),
                     OkOrNone(s.hPhrases), OkOrNone(s.pPhrases), OkOrNone(s.signalWord), OkOrNone(s.symbols),
                     LethalField(ld));
    var extra := if ld.Err? && ld.error.Multiple? then ["lethal_dose"] else [];
    var a := IfAbsent("melting_point", d.meltingPoint) + IfAbsent("boiling_point", d.boilingPoint)
      + IfAbsent("water_hazard_class", d.waterHazardClass)
      + IfAbsent("h_phrases", d.hPhrases) + IfAbsent("p_phrases", d.pPhrases)
      + IfAbsent("signal_word", d.signalWord) + IfAbsent("symbols", d.symbols);
    assert FieldsOf(ReportOf("lethal_dose", ld)) == IfAbsent("lethal_dose", d.lethalDose) + extra;
    CollectReportFields(hp, formula, mp, bp, whc, ld);
    assert FieldsOf(Collect(hp, formula, mp, bp, whc, ld).reports)
      == a + (IfAbsent("lethal_dose", d.lethalDose) + extra);
    assert AbsentFields(d) == a + IfAbsent("lethal_dose", d.lethalDose);
  }

  lemma FieldsOfConcat(r1: seq<Report>, r2: seq<Report>, r3: seq<Report>, r4: seq<Report>,
                       r5: seq<Report>, r6: seq<Report>, r7: seq<Report>, r8: seq<Report>)
    ensures FieldsOf(r1 + r2 + r3 + r4 + r5 + r6 + r7 + r8)
      == FieldsOf(r1) + FieldsOf(r2) + FieldsOf(r3) + FieldsOf(r4)
       + FieldsOf(r5) + FieldsOf(r6) + FieldsOf(r7) + FieldsOf(r8)
  {
    FieldsOfAppend(r1, r2);
    FieldsOfAppend(r1 + r2, r3);
    FieldsOfAppend(r1 + r2 + r3, r4);
    FieldsOfAppend(r1 + r2 + r3 + r4, r5);
    FieldsOfAppend(r1 + r2 + r3 + r4 + r5, r6);
    FieldsOfAppend(r1 + r2 + r3 + r4 + r5 + r6, r7);
    FieldsOfAppend(r1 + r2 + r3 + r4 + r5 + r6 + r7, r8);
  }

  /** The call fails exactly when the molecular formula is missing, with its error. */
  lemma FormulaDecidesFailure(json: GestisResponse, parse: XmlParser)
    requires Assembled(json, parse).Returns?
    ensures MolecularFormula(json, parse).Returns?
    ensures Assembled(json, parse).value.result.Err? <==> MolecularFormula(json, parse).value.Err?
    ensures Assembled(json, parse).value.result.Err? ==>
      Assembled(json, parse).value.result.error == MolecularFormula(json, parse).value.error
      && Assembled(json, parse).value.reports == [Report("molecular_formula", MolecularFormula(json, parse).value.error)]
  {
  }

  /** A panic in the first extractor aborts the whole call at the same site. */
  lemma HazardPanicAborts(json: GestisResponse, parse: XmlParser)
    requires HPSignalSymbols(json, parse).Panics?
    ensures Assembled(json, parse) == Panics(HPSignalSymbols(json, parse).site)
  {
  }

  /** The call returns only when no extractor it reached panicked, and then it collects their results. */
  lemma ReturnsWithoutPanics(json: GestisResponse, parse: XmlParser)
    requires Assembled(json, parse).Returns? && Assembled(json, parse).value.result.Ok?
    ensures HPSignalSymbols(json, parse).Returns? && MolecularFormula(json, parse).Returns?
    ensures MolecularFormula(json, parse).value.Ok?
    ensures MpBp(json, "melting_point", MeltingLabel, parse).Returns?
    ensures MpBp(json, "boiling_point", BoilingLabel, parse).Returns?
    ensures Whc(json, parse).Returns? && LethalDose(json, parse).Returns?
    ensures Assembled(json, parse) == Returns(Collect(HPSignalSymbols(json, parse).value,
      MolecularFormula(json, parse).value.value,
      MpBp(json, "melting_point", MeltingLabel, parse).value, MpBp(json, "boiling_point", BoilingLabel, parse).value,
      Whc(json, parse).value, LethalDose(json, parse).value))
  {
  }

  /** A returned record holds exactly what the extractors found. */
  lemma RecordFields(json: GestisResponse, parse: XmlParser)
    requires Assembled(json, parse).Returns? && Assembled(json, parse).value.result.Ok?
    ensures var d := Assembled(json, parse).value.result.value;
      MolecularFormula(json, parse) == Returns(Ok(d.molecularFormula))
      && d.meltingPoint == OkOrNone(MpBp(json, "melting_point", MeltingLabel, parse).value)
      && d.boilingPoint == OkOrNone(MpBp(json, "boiling_point", BoilingLabel, parse).value)
      && d.waterHazardClass == OkOrNone(Whc(json, parse).value)
      && d.lethalDose == LethalField(LethalDose(json, parse).value)
  {
    ReturnsWithoutPanics(json, parse);
  }

  /** A failed hazard extractor leaves its four fields absent, each reported with its error. */
  lemma CollectSharedError(e: ParseError, formula: string,
                           mp: Result<string, ParseError>, bp: Result<string, ParseError>,
                           whc: Result<string, ParseError>, ld: Result<Option<string>, ParseError>)
    ensures var o := Collect(Err(e), formula, mp, bp, whc, ld);
      o.result.value.hPhrases.None? && o.result.value.pPhrases.None?
      && o.result.value.signalWord.None? && o.result.value.symbols.None?
      && Report("h_phrases", e) in o.reports && Report("p_phrases", e) in o.reports
      && Report("signal_word", e) in o.reports && Report("symbols", e) in o.reports
  {
    var o := Collect(Err(e), formula, mp, bp, whc, ld);
    var head := ReportOf("melting_point", mp) + ReportOf("boiling_point", bp) + ReportOf("water_hazard_class", whc);
    var slots := [Report("h_phrases", e), Report("p_phrases", e), Report("signal_word", e), Report("symbols", e)];
    assert o.reports == head + slots + ReportOf("lethal_dose", ld);
    assert slots[0] in o.reports && slots[1] in o.reports && slots[2] in o.reports && slots[3] in o.reports;
  }

  /**
   * When the hazard extractor fails as a whole, its four fields are absent
   * and each is reported with that one error.
   */
  lemma SharedHazardError(json: GestisResponse, parse: XmlParser, e: ParseError)
    requires HPSignalSymbols(json, parse) == Returns(Err(e))
    requires Assembled(json, parse).Returns? && Assembled(json, parse).value.result.Ok?
    ensures var o := Assembled(json, parse).value;
      o.result.value.hPhrases.None? && o.result.value.pPhrases.None?
      && o.result.value.signalWord.None? && o.result.value.symbols.None?
      && Report("h_phrases", e) in o.reports && Report("p_phrases", e) in o.reports
      && Report("signal_word", e) in o.reports && Report("symbols", e) in o.reports
  {
    ReturnsWithoutPanics(json, parse);
    CollectSharedError(e, MolecularFormula(json, parse).value.value,
      MpBp(json, "melting_point", MeltingLabel, parse).value, MpBp(json, "boiling_point", BoilingLabel, parse).value,
      Whc(json, parse).value, LethalDose(json, parse).value);
  }

  /** A successful hazard extractor passes each slot through, a miss reported with its own error. */
  lemma CollectSlots(s: Slots, formula: string,
                     mp: Result<string, ParseError>, bp: Result<string, ParseError>,
                     whc: Result<string, ParseError>, ld: Result<Option<string>, ParseError>)
    ensures var o := Collect(Ok(s), formula, mp, bp, whc, ld);
      o.result.value.hPhrases == OkOrNone(s.hPhrases) && o.result.value.pPhrases == OkOrNone(s.pPhrases)
      && o.result.value.signalWord == OkOrNone(s.signalWord) && o.result.value.symbols == OkOrNone(s.symbols)
    ensures s.hPhrases.Err? ==> Report("h_phrases", s.hPhrases.error) in Collect(Ok(s), formula, mp, bp, whc, ld).reports
    ensures s.pPhrases.Err? ==> Report("p_phrases", s.pPhrases.error) in Collect(Ok(s), formula, mp, bp, whc, ld).reports
    ensures s.signalWord.Err? ==> Report("signal_word", s.signalWord.error) in Collect(Ok(s), formula, mp, bp, whc, ld).reports
    ensures s.symbols.Err? ==> Report("symbols", s.symbols.error) in Collect(Ok(s), formula, mp, bp, whc, ld).reports
  {
    var o := Collect(Ok(s), formula, mp, bp, whc, ld);
    var head := ReportOf("melting_point", mp) + ReportOf("boiling_point", bp) + ReportOf("water_hazard_class", whc);
    var r4 := SlotReport("h_phrases", s.hPhrases, None);
    var r5 := SlotReport("p_phrases", s.pPhrases, None);
    var r6 := SlotReport("signal_word", s.signalWord, None);
    var r7 := SlotReport("symbols", s.symbols, None);
    assert o.reports == head + r4 + r5 + r6 + r7 + ReportOf("lethal_dose", ld);
    if s.hPhrases.Err? {
      assert r4[0] in o.reports;
    }
    if s.pPhrases.Err? {
      assert r5[0] in o.reports;
    }
    if s.signalWord.Err? {
      assert r6[0] in o.reports;
    }
    if s.symbols.Err? {
      assert r7[0] in o.reports;
    }
  }

  /** When it succeeds, each slot passes through: found values kept, misses reported with their own error. */
  lemma HazardSlotsPassThrough(json: GestisResponse, parse: XmlParser, s: Slots)
    requires HPSignalSymbols(json, parse) == Returns(Ok(s))
    requires Assembled(json, parse).Returns? && Assembled(json, parse).value.result.Ok?
    ensures var o := Assembled(json, parse).value;
      o.result.value.hPhrases == OkOrNone(s.hPhrases) && o.result.value.pPhrases == OkOrNone(s.pPhrases)
      && o.result.value.signalWord == OkOrNone(s.signalWord) && o.result.value.symbols == OkOrNone(s.symbols)
    ensures s.hPhrases.Err? ==> Report("h_phrases", s.hPhrases.error) in Assembled(json, parse).value.reports
    ensures s.pPhrases.Err? ==> Report("p_phrases", s.pPhrases.error) in Assembled(json, parse).value.reports
    ensures s.signalWord.Err? ==> Report("signal_word", s.signalWord.error) in Assembled(json, parse).value.reports
    ensures s.symbols.Err? ==> Report("symbols", s.symbols.error) in Assembled(json, parse).value.reports
  {
    ReturnsWithoutPanics(json, parse);
    CollectSlots(s, MolecularFormula(json, parse).value.value,
      MpBp(json, "melting_point", MeltingLabel, parse).value, MpBp(json, "boiling_point", BoilingLabel, parse).value,
      Whc(json, parse).value, LethalDose(json, parse).value);
  }
}
