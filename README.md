# CaBr2 GESTIS core, modelled in Dafny

CaBr2 builds safety data sheets for chemical substances. This project models these parts of it:

- **The GESTIS extractor.** It reads the provider's article document, a list of chapters. Each chapter holds subchapters, and each subchapter holds an optional markup fragment. The extractor picks out these fields:
  - the molecular formula;
  - the melting and boiling points;
  - the water hazard class;
  - the H and P statements, the signal word and the hazard symbols;
  - the oral LD50 for rats.

  Only a missing molecular formula makes the extraction fail. Every other miss leaves its field absent and is reported as a diagnostic.
- **The GESTIS provider, without the network:**
  - the request URLs;
  - how a failed request is classified;
  - the search-type query keys;
  - how an extracted article becomes a substance record.
- **The document load/save dispatcher.** Saving gives the file name the requested extension, keeping any other extension it already had. It refuses to overwrite an existing file under a changed name, and then hands the document to the saver registered for the type. Loading dispatches on the extension. The available types are the keys of the two registries.
- **The molecular-formula display pipe.** It wraps every maximal run of ASCII digits in `<sub>`…`</sub>`.

How the model is built:

- **Parsed markup** is a tree datatype (`XmlTree.Node`). The navigation methods the extractor calls are functions over that tree.
- **`Document::parse`** is an input function from text to an optional root element.
- **A Rust `unwrap()` or index that can abort** is an explicit outcome, `Run<T> = Returns(value) | Panics(site)`, never a precondition. A panic is never turned into an error, so a panic anywhere in `parse_response` ends the call.
- **The step-by-step extractors** are methods with loops. These are the skip loops, the `for` loop over point cells, the loop with four result slots and the `while let` over a shared table iterator. Each method is proved equal to a recursive specification function, and lemmas state what that function means.
- **`parse_response`** is a method over those methods, proved equal to `GestisAssemble.Assembled`. Its diagnostics are returned alongside the result, as (field, error) pairs in the order they are written.
- **The provider's HTTP call** is an input function from URL to transport outcome. The clock is a number passed in.
- **In the dispatcher**, `Path::exists` is an input predicate, and the registries are maps from type names to opaque handlers.

## Model

| member | source | states |
|---|---|---|
| GestisLocate.ChapterMappingIsInjective | src-tauri/src/parsers/gestis/xml_parser.rs:21-33 | the mapping has exactly the six field names as keys, and no two fields share a (chapter, subchapter) pair |
| GestisLocate.FindChapter | src-tauri/src/parsers/gestis/xml_parser.rs:147 | the index of the first chapter with the id; none exactly when no chapter has it |
| GestisLocate.FindSubchapter | src-tauri/src/parsers/gestis/xml_parser.rs:148-151 | the index of the first subchapter with the id; none exactly when no subchapter has it |
| GestisLocate.GetXml | src-tauri/src/parsers/gestis/xml_parser.rs:146-156 | an abort is only the missing subchapter text, and the only error is `NoXml`; a found fragment is a wrapped text |
| GestisLocate.GetXmlFound | src-tauri/src/parsers/gestis/xml_parser.rs:146-153 | when the first chapter with the id has a matching subchapter with text, the fragment is `<div>\n` + text + `</div>\n` |
| GestisLocate.GetXmlShadowed | src-tauri/src/parsers/gestis/xml_parser.rs:147-156 | when the first chapter with the id lacks the subchapter, the result is `NoXml`, whatever later chapters with the same id hold |
| GestisLocate.GetXmlNoChapter | src-tauri/src/parsers/gestis/xml_parser.rs:147-156 | no chapter with the id gives `NoXml` |
| GestisLocate.GetXmlPanics | src-tauri/src/parsers/gestis/xml_parser.rs:153 | a matching subchapter without text aborts the call |
| GestisLocate.Fragment | src-tauri/src/parsers/gestis/xml_parser.rs:187-189 | locating and parsing a field's fragment fails only with `NoXml` or `XmlError`, and panics only on a subchapter without text |
| XmlTree.NodeText | src-tauri/src/parsers/gestis/xml_parser.rs:255 | a text node's content, or an element's first child when that child is text; nothing otherwise |
| XmlTree.FirstElement | src-tauri/src/parsers/gestis/xml_parser.rs:348 | the first element among the children, passing over text nodes; none exactly when there is no element |
| XmlTree.FindChildTagged | src-tauri/src/parsers/gestis/xml_parser.rs:210 | the first child with the tag name |
| GestisTables.ChildrenTagged | src-tauri/src/parsers/gestis/xml_parser.rs:170 | exactly the children with the tag name, no more of them than there are children |
| GestisTables.ChildrenTaggedAppend | src-tauri/src/parsers/gestis/xml_parser.rs:169-170 | filtering by tag keeps document order: it distributes over concatenation |
| GestisTables.Cells | src-tauri/src/parsers/gestis/xml_parser.rs:172-175 | a row's cells are exactly its direct `td` children |
| GestisTables.Rows | src-tauri/src/parsers/gestis/xml_parser.rs:169-177 | one row per direct `tr` child, in order, each holding that child's cells |
| GestisTables.TablesInMembers | src-tauri/src/parsers/gestis/xml_parser.rs:163-167 | a table is in the result exactly when it comes from a direct `table` child whose class equals the argument |
| GestisTables.TablesInAppend | src-tauri/src/parsers/gestis/xml_parser.rs:161-179 | the tables come in document order: the selection distributes over concatenation |
| GestisTables.Tables | src-tauri/src/parsers/gestis/xml_parser.rs:160-180 | aborts exactly when some direct `table` child has no `class`; otherwise the tables of the class |
| GestisTables.FlattenMembers | src-tauri/src/parsers/gestis/xml_parser.rs:195-197 | a cell is in the flattened list exactly when it is in some row of some table |
| GestisTables.FlattenAppend | src-tauri/src/parsers/gestis/xml_parser.rs:195-197 | flattening keeps table order |
| GestisTables.Flatten | src-tauri/src/parsers/gestis/xml_parser.rs:195-197 | the flattened list holds exactly as many cells as the rows of the tables (`CellCount`); `FlattenMembers` and `FlattenAppend` state which cells and in which order |
| GestisTables.FirstNonEmpty | src-tauri/src/parsers/gestis/xml_parser.rs:201-208 | the first cell with a child; none exactly when every cell is childless |
| GestisTables.SkipEmpty | src-tauri/src/parsers/gestis/xml_parser.rs:201-208 | the skip loop stops at the first cell with a child |
| GestisFormula.GetMolecularFormula | src-tauri/src/parsers/gestis/xml_parser.rs:186-215 | the extractor's loop computes `MolecularFormula` |
| GestisFormula.FormulaFromFirstNonEmptyCell | src-tauri/src/parsers/gestis/xml_parser.rs:199-212 | leading childless cells are skipped; the first cell with a child yields the text of the first child of its first `summenformel` child |
| GestisFormula.FormulaMissing | src-tauri/src/parsers/gestis/xml_parser.rs:210-214 | that cell has no `summenformel` child: `MissingInfo("molecular formula")`, whatever later cells hold |
| GestisFormula.FormulaAllCellsEmpty | src-tauri/src/parsers/gestis/xml_parser.rs:202-204 | all cells childless: the skip loop aborts |
| GestisFormula.MolecularFormulaErrors | src-tauri/src/parsers/gestis/xml_parser.rs:186-215 | without a panic the only errors are `NoXml`, `XmlError` and `MissingInfo("molecular formula")` |
| GestisPoints.ScanCell | src-tauri/src/parsers/gestis/xml_parser.rs:241-260 | the loop body computes `PointStep` for one block cell |
| GestisPoints.ScanCells | src-tauri/src/parsers/gestis/xml_parser.rs:233-261 | the `for` loop over the block cells computes `PointScan` |
| GestisPoints.GetMpBp | src-tauri/src/parsers/gestis/xml_parser.rs:226-267 | the whole function computes `MpBp` |
| GestisPoints.GetMeltingPoint | src-tauri/src/parsers/gestis/xml_parser.rs:217-219 | the melting point reads field `melting_point` with label "Schmelzpunkt:" |
| GestisPoints.GetBoilingPoint | src-tauri/src/parsers/gestis/xml_parser.rs:221-223 | the boiling point reads field `boiling_point` with label "Siedepunkt:" |
| GestisPoints.PointStepAborts | src-tauri/src/parsers/gestis/xml_parser.rs:254-257 | whether a cell aborts the loop does not depend on the value found so far |
| GestisPoints.PointStepEffect | src-tauri/src/parsers/gestis/xml_parser.rs:241-260 | a cell whose first label cell reads exactly the label sets the value to the next cell's text; any other cell keeps it |
| GestisPoints.LastMatchDecides | src-tauri/src/parsers/gestis/xml_parser.rs:240-261 | the last matching cell decides the value, and a value cell without text resets it |
| GestisPoints.NoMatchNoPoint | src-tauri/src/parsers/gestis/xml_parser.rs:240-261 | with no matching cell the value stays unset |
| GestisPoints.PointScanReturns | src-tauri/src/parsers/gestis/xml_parser.rs:240-261 | the loop aborts exactly when some cell makes it abort |
| GestisPoints.MpBpResult | src-tauri/src/parsers/gestis/xml_parser.rs:263-266 | a found value is trimmed; errors are only `NoXml`, `XmlError` and `MissingInfo(name)` |
| GestisWhc.ClassOfText | src-tauri/src/parsers/gestis/xml_parser.rs:297-302 | `Empty` exactly for the "not hazardous" keyword; otherwise the trimmed text before the first `-`, which holds no `-` |
| GestisWhc.WhcOfCells | src-tauri/src/parsers/gestis/xml_parser.rs:284-305 | a returned class holds no `-` and is already trimmed |
| GestisWhc.Whc | src-tauri/src/parsers/gestis/xml_parser.rs:269-306 | errors are only `NoXml`, `XmlError`, `Empty` and `MissingInfo("water hazard class")` |
| GestisWhc.GetWhc | src-tauri/src/parsers/gestis/xml_parser.rs:269-306 | the extractor's loop computes `Whc` |
| GestisWhc.WhcReadsCellAfterFirstNonEmpty | src-tauri/src/parsers/gestis/xml_parser.rs:295-302 | the cell right after the first cell with a child is read: the keyword gives `Empty`, other text its trimmed part before the first `-` |
| GestisWhc.WhcNoValueCell | src-tauri/src/parsers/gestis/xml_parser.rs:295-305 | no cell after the first cell with a child gives `MissingInfo("water hazard class")` |
| GestisHazard.PhraseOf | src-tauri/src/parsers/gestis/xml_parser.rs:323-325 | a text without `:` gives no statement; otherwise code and description are the trimmed sides of the first `:` |
| GestisHazard.ExtractHP | src-tauri/src/parsers/gestis/xml_parser.rs:316-327 | `extract_h_p`: a statement is in the result exactly when some text child of the cell splits into it |
| GestisHazard.PhrasesOfMembers | src-tauri/src/parsers/gestis/xml_parser.rs:319-326 | a statement is extracted exactly when some text child splits into it |
| GestisHazard.PhrasesOfAppend | src-tauri/src/parsers/gestis/xml_parser.rs:319-326 | statements come in document order |
| GestisHazard.Symbols | src-tauri/src/parsers/gestis/xml_parser.rs:360-371 | one image per cell of the row that has an element child |
| GestisHazard.SymbolsOfOneCell | src-tauri/src/parsers/gestis/xml_parser.rs:360-371 | a cell yields nothing without an element child, one image with its `src` and `alt` otherwise, and aborts when either attribute is missing |
| GestisHazard.SymbolsAppend | src-tauri/src/parsers/gestis/xml_parser.rs:360-371 | the images of two runs of cells are the images of the first run followed by those of the second |
| GestisHazard.SymbolsStartWithFirstCell | src-tauri/src/parsers/gestis/xml_parser.rs:347-371 | the peeked first cell is not skipped: its image comes first |
| GestisHazard.ScanTable | src-tauri/src/parsers/gestis/xml_parser.rs:339-397 | the loop body computes `HazardStep` for one table |
| GestisHazard.ScanTables | src-tauri/src/parsers/gestis/xml_parser.rs:333-398 | the loop over the block tables computes `HazardScan` |
| GestisHazard.GetHPSignalSymbols | src-tauri/src/parsers/gestis/xml_parser.rs:315-400 | the loop with four result slots computes `HPSignalSymbols` |
| GestisHazard.HazardStepFrame | src-tauri/src/parsers/gestis/xml_parser.rs:347-394 | a table changes a slot only when it carries that slot's marker, a marker sets its slot, and a signal word has no `"` at either end |
| GestisHazard.SignalStep | src-tauri/src/parsers/gestis/xml_parser.rs:373-391 | a `feldmitlabel` table aborts only on a missing class, a missing value cell or a value without text; it never touches the statement or symbol slots, and a changed signal word is a success |
| GestisHazard.SignalLabelSetsWord | src-tauri/src/parsers/gestis/xml_parser.rs:379-389 | a first cell whose first element is `b` "Signalwort:" sets the signal word to the next cell's text with `"` trimmed from both ends |
| GestisHazard.HazardScanUntouched | src-tauri/src/parsers/gestis/xml_parser.rs:333-336 | a slot whose marker no table carries keeps its initial `MissingInfo` |
| GestisLethal.Finish | src-tauri/src/parsers/gestis/xml_parser.rs:451-454 | a found dose is returned; none gives `MissingInfo("lethal dose")` |
| GestisLethal.LethalScan | src-tauri/src/parsers/gestis/xml_parser.rs:410-449 | a success always carries a dose; errors are `MissingInfo` or `Multiple` |
| GestisLethal.LethalDose | src-tauri/src/parsers/gestis/xml_parser.rs:403-454 | the extractor's errors are `NoXml`, `XmlError`, `MissingInfo("lethal dose")` or `Multiple` |
| GestisLethal.ReadValue | src-tauri/src/parsers/gestis/xml_parser.rs:428-439 | reading the table after a heading computes `ValueOf` |
| GestisLethal.ScanBlocks | src-tauri/src/parsers/gestis/xml_parser.rs:410-449 | the `while let` loop, which advances the table iterator inside its body, computes `LethalScan` from no dose |
| GestisLethal.GetLethalDose | src-tauri/src/parsers/gestis/xml_parser.rs:403-454 | the whole extractor computes `LethalDose` |
| GestisLethal.NoHeadingNoDose | src-tauri/src/parsers/gestis/xml_parser.rs:451-454 | no "LD50 oral Ratte" heading gives `MissingInfo` |
| GestisLethal.SingleHeading | src-tauri/src/parsers/gestis/xml_parser.rs:418-437 | the table after the heading is consumed, and the value is taken only when its first cell's first child reads "Wert:" |
| GestisLethal.SecondHeadingIsMultiple | src-tauri/src/parsers/gestis/xml_parser.rs:420-426 | a later heading after a recorded value gives `Multiple(first value)` |
| GestisLethal.ValueOf | src-tauri/src/parsers/gestis/xml_parser.rs:428-439 | the value cell's text exactly when the first cell's first child reads "Wert:" and a second cell follows |
| GestisLethal.ValuelessHeadingRestarts | src-tauri/src/parsers/gestis/xml_parser.rs:418-439 | a heading whose next table carries no value leaves the dose unset and the scan goes on after that table |
| GestisLethal.MultipleCarriesFoundValue | src-tauri/src/parsers/gestis/xml_parser.rs:418-426 | `Multiple(v)` carries a value that was found: either the dose going in or the value of a table after a heading |
| GestisAssemble.OkOrNone | src-tauri/src/parsers/gestis/xml_parser.rs:66-80 | a field is present exactly when its extractor succeeded, with that value |
| GestisAssemble.LethalField | src-tauri/src/parsers/gestis/xml_parser.rs:131-139 | `Multiple(v)` is kept as `v`, and any other error is dropped |
| GestisAssemble.ParseResponse | src-tauri/src/parsers/gestis/xml_parser.rs:35-141 | running the extractors in the source's order computes `Assembled` |
| GestisAssemble.FormulaDecidesFailure | src-tauri/src/parsers/gestis/xml_parser.rs:56-64 | the call fails exactly when the formula extractor fails, with the same error and that one diagnostic |
| GestisAssemble.HazardPanicAborts | src-tauri/src/parsers/gestis/xml_parser.rs:38 | a panic in the hazard extractor, which runs first, aborts the call at the same site |
| GestisAssemble.ReturnsWithoutPanics | src-tauri/src/parsers/gestis/xml_parser.rs:35-141 | a returned record means no extractor panicked and the formula was found, and the outcome is `Collect` of their results |
| GestisAssemble.RecordFields | src-tauri/src/parsers/gestis/xml_parser.rs:56-140 | the record holds the formula, the points and the class when found, and the kept lethal dose |
| GestisAssemble.SharedHazardError | src-tauri/src/parsers/gestis/xml_parser.rs:38-53 | when the hazard extractor fails as a whole, its four fields are absent and each is reported with that one error |
| GestisAssemble.CollectSharedError | src-tauri/src/parsers/gestis/xml_parser.rs:38-53 | collecting a failed hazard result leaves its four fields absent and reports each with the shared error |
| GestisAssemble.CollectSlots | src-tauri/src/parsers/gestis/xml_parser.rs:84-127 | collecting a successful hazard result keeps each slot's value, and each of the four slots (statements H and P, signal word, symbols) that missed is reported with its own error |
| GestisAssemble.HazardSlotsPassThrough | src-tauri/src/parsers/gestis/xml_parser.rs:84-127 | otherwise each of the four slots passes through, and each missed slot (statements H and P, signal word, symbols) is reported with its own error |
| GestisAssemble.CollectReportFields | src-tauri/src/parsers/gestis/xml_parser.rs:66-140 | the diagnostics name, in field order, each field whose extractor failed |
| GestisAssemble.ReportsNameAbsentFields | src-tauri/src/parsers/gestis/xml_parser.rs:66-140 | exactly one diagnostic per absent field, in field order, plus one for a kept `Multiple` lethal dose |
| GestisProvider.AsStr | src-tauri/cabr2_search/src/gestis/mod.rs:145-152 | each search type's query key is one of the four keys |
| GestisProvider.AsStrRoundTrip | src-tauri/cabr2_search/src/gestis/mod.rs:145-152 | the key reads back as its search type |
| GestisProvider.AsStrInjective | src-tauri/cabr2_search/src/gestis/mod.rs:145-152 | no two search types share a key |
| GestisProvider.ArticleUrlIdentifier | src-tauri/cabr2_search/src/gestis/mod.rs:29 | the article URL is the fixed article prefix followed by the identifier |
| GestisProvider.ArticleUrlInjective | src-tauri/cabr2_search/src/gestis/mod.rs:29 | different identifiers give different article URLs |
| GestisProvider.SuggestionsUrlParts | src-tauri/cabr2_search/src/gestis/mod.rs:69-75 | after the suggestions prefix come the search type's key, `=` and the pattern |
| GestisProvider.Queries | src-tauri/cabr2_search/src/gestis/mod.rs:82-86 | one `key=pattern` per argument, in input order |
| GestisProvider.SearchUrl | src-tauri/cabr2_search/src/gestis/mod.rs:88-94 | the search URL starts with the fixed search prefix, and the rest is exactly the query in `SearchQuery` (whose split `SearchQuerySplits` states) |
| GestisProvider.SearchQuerySplits | src-tauri/cabr2_search/src/gestis/mod.rs:82-94 | splitting the query at `&` gives the arguments' pairs in order, then `exact=true` or `exact=false` |
| GestisProvider.SearchUrlSplits | src-tauri/cabr2_search/src/gestis/mod.rs:82-94 | the full URL is the search prefix, and what follows splits at `&` into the arguments' pairs and the `exact` flag |
| GestisProvider.MakeRequest | src-tauri/cabr2_search/src/gestis/mod.rs:35-60 | a delivered response passes; status 429 is `RateLimit`, any other status `RequestError(code)`, and any other failure `Logged` |
| GestisProvider.Fetch | src-tauri/cabr2_search/src/gestis/mod.rs:30-32 | the request followed by JSON decoding fails only with a request error or a decoding error |
| GestisProvider.GetArticle | src-tauri/cabr2_search/src/gestis/mod.rs:28-33 | succeeds exactly when the article URL delivers a decodable body, then with that body and the very URL it was fetched from; a failure is the fetch's own error |
| GestisProvider.GetQuickSearchSuggestions | src-tauri/cabr2_search/src/gestis/mod.rs:68-79 | succeeds exactly when the suggestions URL delivers a decodable body, and returns that body |
| GestisProvider.GetSearchResults | src-tauri/cabr2_search/src/gestis/mod.rs:81-98 | succeeds exactly when the search URL delivers a decodable body, and returns that body |
| GestisProvider.AliasNames | src-tauri/cabr2_search/src/gestis/mod.rs:107 | the alias names, in order |
| GestisProvider.OrEmpty | src-tauri/cabr2_search/src/gestis/mod.rs:118-129 | an absent list becomes the empty list |
| GestisProvider.RequestFailurePropagates | src-tauri/cabr2_search/src/gestis/mod.rs:101 | a failed article request ends the call with its error |
| GestisProvider.ParseFailurePropagates | src-tauri/cabr2_search/src/gestis/mod.rs:103 | a failed extraction ends the call with its error, and no record is built |
| GestisProvider.RecordOfSuccess | src-tauri/cabr2_search/src/gestis/mod.rs:100-140 | a record has name and aliases from the article, absent lists as empty lists, no amount, `checked` false, provider "gestis", the article URL as its source, and the extracted points, class, dose, signal word and molar mass as fresh values |
| GestisProvider.GetSubstanceData | src-tauri/cabr2_search/src/gestis/mod.rs:100-140 | an article failure is passed on; a success is the record built from the article (`SuccessFrom`); an extraction failure happens only after the article was fetched |
| LoadSaveHandler.Extension | src-tauri/cabr2_load_save/src/handler.rs:28 | the text after the last dot of a file name, unless that dot comes first; none for a name without an inner dot |
| LoadSaveHandler.SetExtension | src-tauri/cabr2_load_save/src/handler.rs:36-39 | `Path::set_extension` on a name without extension: the directory is kept, no file name or an empty type leaves the path as it is, otherwise the name gets `.` + type and a plain type becomes the extension |
| LoadSaveHandler.SaveDocument | src-tauri/cabr2_load_save/src/handler.rs:21-53 | the method with its mutable path and flag computes `Save` |
| LoadSaveHandler.OtherExtensionKept | src-tauri/cabr2_load_save/src/handler.rs:28-35 | a different extension is kept and `.` + type is appended to the full name |
| LoadSaveHandler.MissingExtensionSet | src-tauri/cabr2_load_save/src/handler.rs:36-39 | a name without extension gets the type as extension |
| LoadSaveHandler.SameExtensionUnchanged | src-tauri/cabr2_load_save/src/handler.rs:28-41 | the same extension keeps the path, and existence is never consulted |
| LoadSaveHandler.TargetHasExtension | src-tauri/cabr2_load_save/src/handler.rs:28-39 | for a named file and a plain, non-empty type, the target's extension is the type |
| LoadSaveHandler.ExistingFileRefused | src-tauri/cabr2_load_save/src/handler.rs:41-46 | a changed name that exists gives `FileExists(name)` before any saver lookup |
| LoadSaveHandler.SaverDecides | src-tauri/cabr2_load_save/src/handler.rs:48-52 | otherwise the call goes to the registered saver with the target, or gives `UnknownFileType` |
| LoadSaveHandler.LoadDocument | src-tauri/cabr2_load_save/src/handler.rs:55-66 | dispatches to the loader for the extension; a missing or unregistered extension gives `UnknownFileType` |
| LoadSaveHandler.LoadTypesAreLoadable | src-tauri/cabr2_load_save/src/handler.rs:68-75 | an extension is among the advertised load types exactly when loading dispatches for it |
| LoadSaveHandler.SaveTypesAreSavable | src-tauri/cabr2_load_save/src/handler.rs:76-81 | a type is among the advertised save types exactly when saving dispatches for it |
| LoadSaveHandler.GetAvailableDocumentTypes | src-tauri/cabr2_load_save/src/handler.rs:68-83 | always succeeds; the load types are exactly the registered loaders' keys and the save types exactly the savers' keys |
| FormulaPipe.StripTransform | src/app/@core/pipes/molecularformula.pipe.ts:6 | deleting the inserted tags gives back the input |
| FormulaPipe.NoDigitsUnchanged | src/app/@core/pipes/molecularformula.pipe.ts:6 | a string without digits is returned unchanged |
| FormulaPipe.OneOpenPerRun | src/app/@core/pipes/molecularformula.pipe.ts:6 | there are as many `<sub>` tags as maximal digit runs in the input |
| FormulaPipe.MaximalRunWrapped | src/app/@core/pipes/molecularformula.pipe.ts:6 | a maximal digit run is replaced by `<sub>` run `</sub>`, and the text around it is transformed on its own |
| FormulaPipe.Transform | src/app/@core/pipes/molecularformula.pipe.ts:6 | the replacement never shortens the text and leaves only the empty text empty |
| RustStr.SkipWhitespace | src-tauri/src/parsers/gestis/xml_parser.rs:264 | the white space run from a position ends at the first non-space or at the end |
| RustStr.SkipWhitespaceBack | src-tauri/src/parsers/gestis/xml_parser.rs:264 | the white space run ending at a position starts right after a non-space or at the bound |
| RustStr.Trim | src-tauri/src/parsers/gestis/xml_parser.rs:264 | `str::trim`: the input minus its leading and trailing white space, which is then neither first nor last |
| RustStr.TrimIdempotent | src-tauri/src/parsers/gestis/xml_parser.rs:264 | trimming twice is trimming once |
| RustStr.TrimKeepsOut | src-tauri/src/parsers/gestis/xml_parser.rs:301 | trimming brings in no character the input lacks |
| RustStr.TrimMatches | src-tauri/src/parsers/gestis/xml_parser.rs:388 | `trim_matches('"')`: the input minus the quotes at either end, which then neither starts nor ends with one |
| RustStr.TrimMatchesFixed | src-tauri/src/parsers/gestis/xml_parser.rs:388 | a text that neither starts nor ends with the character is left as it is |
| RustStr.SplitOnce | src-tauri/src/parsers/gestis/xml_parser.rs:323 | `splitn(2, ':')`: one part without `:`, or the text before and after the first `:` |
| RustStr.BeforeFirst | src-tauri/src/parsers/gestis/xml_parser.rs:301 | `split('-').next()`: the prefix before the first `-`, which holds none |
| RustStr.SplitJoin | src-tauri/cabr2_search/src/gestis/mod.rs:92 | splitting a join gives back the parts when none holds the separator |

## Left out

- Comments, processing instructions and namespaces in the markup are not modelled. Tag names are compared by local name only.
- `Document::parse` is an input function. Its own error detail collapses to `XmlError`.
- The provider uses a crate-local `xml_parser` that is not part of this model. Its `cas`, `molar_mass` and `mak` come in as an input (`Extras`), and everything else comes from the extractor modelled here.
- The crate's `error.rs` is not part of this model. The names `JsonFailed` and `ParseFailed` for the decoding and extraction errors are this model's own.
- The network is left out: the `ureq` agent, the bearer header, and JSON decoding beyond "body decoded or not". The call is an input from URL to outcome.
- `chrono::Utc::now()` is left out: the time is a number passed in.
- `Data::new` is taken to set the original value and leave the modified value empty, following the record's field shape in `substances.model.ts`.
- The live provider tests depend on the external API and are left out.
- All log output is left out: `println!`, `log::debug!` and `log::error!`. `eprintln!` diagnostics are kept as (field, error) pairs, without their text.
- The `lazy_static`, `Arc` and `Mutex` around the registries, and a poisoned lock, are not modelled. The registries are plain maps.
- `HashMap` key order is not modelled: `get_available_document_types` returns sets.
- The savers' and loaders' own work is not modelled: the call ends in `Delegated`.
- `Path` is modelled as a directory part plus the last component. `.` components and non-UTF-8 names are not modelled.
- StripTransform: stated only for inputs without `<`. A molecular formula holds no `<`, and an input that already holds `<sub>` or `</sub>` cannot be told apart from the inserted tags, so deleting them would not give it back.
- OneOpenPerRun: stated only for inputs without `<`, for the same reason: an input that already holds `<sub>` would count tags that were not inserted.
- The PDF module, the wasm glue and the TypeScript services are not part of this model. They are threads and channels, foreign libraries, and IPC or UI wrappers.
