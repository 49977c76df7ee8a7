/**
 * Saving and loading documents by file type: the file name is given the
 * requested extension (keeping any other extension it had), an existing file
 * is never overwritten under a changed name, and the registered saver or
 * loader for the type does the rest.
 */
module LoadSaveHandler {

  import opened Outcomes
  import opened RustStr

  /**
   * A path as the directory part (up to and including the last separator)
   * and the last component. A last component that is empty or `..` is no
   * file name.
   */
  datatype FilePath = FilePath(dir: string, name: string)

  /** `Path::file_name`. */
  function FileName(p: FilePath): Option<string> {
    if p.name == "" || p.name == ".." then None else Some(p.name)
  }

  /** `Path::to_string_lossy`. */
  function Display(p: FilePath): string {
    p.dir + p.name
  }

  /**
   * `Path::extension`: the text after the last `.` of the file name, unless
   * that dot is the name's first character.
   */
  function Extension(p: FilePath): (r: Option<string>)
    ensures r.Some? ==> FileName(p).Some? && '.' !in r.value
    ensures r.Some? ==> exists k :: StemAt(p.name, k, r.value)
    ensures r.None? <==> FileName(p).None? || NoInnerDot(p.name)
  {
    match FileName(p)
    case None => None
    case Some(n) =>
      match LastIndexOf(n, '.')
      case None => None
      case Some(k) => if k == 0 then None else (assert StemAt(n, k, n[k + 1..]); Some(n[k + 1..]))
  }

  /** `name` is a non-empty stem, then `.`, then `ext`. */
  predicate StemAt(name: string, k: int, ext: string) {
    0 < k < |name| && name == name[..k] + "." + ext
  }

  /** A name with no dot, or whose only dot comes first. */
  predicate NoInnerDot(name: string) {
    '.' !in name || (name[0] == '.' && '.' !in name[1..])
  }

  /** `Path::set_extension`, used here only on a path without an extension. */
  function SetExtension(p: FilePath, ext: string): (r: FilePath)
    requires Extension(p).None?
    ensures r.dir == p.dir
    ensures FileName(p).None? || ext == "" ==> r == p
    ensures FileName(p).Some? && ext != "" ==> r.name == p.name + "." + ext
    ensures FileName(p).Some? && ext != "" && '.' !in ext ==> Extension(r) == Some(ext)
  {
    if FileName(p).None? then p
    else if ext == "" then p
    else if '.' !in ext then
      NameWithExtension(p.dir, p.name, ext);
      FilePath(p.dir, p.name + "." + ext)
    else FilePath(p.dir, p.name + "." + ext)
  }

  datatype LoadSaveError = UnknownFileType | FileExists(path: string)

  /** The name `save_document` writes to, and whether it differs from the one given. */
  function SaveTarget(fileType: string, filename: FilePath): (FilePath, bool) {
    match Extension(filename)
    case Some(ext) =>
      if ext != fileType then (FilePath(filename.dir, filename.name + "." + fileType), true)
      else (filename, false)
    case None => (SetExtension(filename, fileType), true)
  }

  /** What the call ends in: handed to a registered saver or loader, or an error of its own. */
  datatype Dispatch<H, D> = Delegated(handler: H, path: FilePath, document: Option<D>) | Failed(error: LoadSaveError)

  /** The specification of `SaveDocument`. */
  function Save<S, D>(fileType: string, filename: FilePath, document: D,
                      exists_: FilePath -> bool, savers: map<string, S>): Dispatch<S, D>
  {
    var (target, changed) := SaveTarget(fileType, filename);
    if changed && exists_(target) then Failed(FileExists(Display(target)))
    else if fileType in savers then Delegated(savers[fileType], target, Some(document))
    else Failed(UnknownFileType)
  }

  /**
   * `save_document`. `exists_` stands for `Path::exists`, `savers` for the
   * saver registry.
   */
  method SaveDocument<S, D>(fileType: string, filename: FilePath, document: D,
                            exists_: FilePath -> bool, savers: map<string, S>) returns (r: Dispatch<S, D>)
    ensures r == Save(fileType, filename, document, exists_, savers)
  {
    var path := filename;
    var changed := false;
    var ext := Extension(path);
    if ext.Some? {
      if ext.value != fileType {
        var name := FileName(path).value;
        name := name + ".";
        name := name + fileType;
        path := FilePath(path.dir, name);
        changed := true;
      }
    } else {
      path := SetExtension(path, fileType);
      changed := true;
    }
    if changed {
      if exists_(path) {
        return Failed(FileExists(Display(path)));
      }
    }
    if fileType in savers {
      return Delegated(savers[fileType], path, Some(document));
    }
    return Failed(UnknownFileType);
  }

  /**
   * `load_document`: the loader registered for the file's extension, which
   * produces the document.
   */
  function LoadDocument<L>(filename: FilePath, loaders: map<string, L>): (r: Dispatch<L, ()>)
    ensures r.Delegated? <==> Extension(filename).Some? && Extension(filename).value in loaders
    ensures r.Delegated? ==> r.handler == loaders[Extension(filename).value] && r.path == filename
    ensures r.Failed? ==> r.error == UnknownFileType
  {
    match Extension(filename)
    case Some(ext) => if ext in loaders then Delegated(loaders[ext], filename, None) else Failed(UnknownFileType)
    case None => Failed(UnknownFileType)
  }

  datatype DocumentTypes = DocumentTypes(load: set<string>, save: set<string>)

  /** `get_available_document_types`; the key order of the registries is not modelled. */
  function GetAvailableDocumentTypes<L, S>(loaders: map<string, L>, savers: map<string, S>): (r: Result<DocumentTypes, LoadSaveError>)
    ensures r.Ok?
    ensures forall t :: t in r.value.load <==> t in loaders
    ensures forall t :: t in r.value.save <==> t in savers
  {
    Ok(DocumentTypes(loaders.Keys, savers.Keys))
  }

  /* ---------- properties ---------- */

  /** A different extension is kept, and the requested one is appended after it. */
  lemma OtherExtensionKept(fileType: string, filename: FilePath, ext: string)
    requires Extension(filename) == Some(ext) && ext != fileType
    ensures SaveTarget(fileType, filename) == (FilePath(filename.dir, filename.name + "." + fileType), true)
  {
  }

  /** Without an extension the requested one is set. */
  lemma MissingExtensionSet(fileType: string, filename: FilePath)
    requires Extension(filename).None? && FileName(filename).Some? && fileType != ""
    ensures SaveTarget(fileType, filename) == (FilePath(filename.dir, filename.name + "." + fileType), true)
  {
  }

  /** The same extension: the path is kept and existence is never consulted. */
  lemma SameExtensionUnchanged<S, D>(fileType: string, filename: FilePath, document: D,
                                     e1: FilePath -> bool, e2: FilePath -> bool, savers: map<string, S>)
    requires Extension(filename) == Some(fileType)
    ensures SaveTarget(fileType, filename) == (filename, false)
    ensures Save(fileType, filename, document, e1, savers) == Save(fileType, filename, document, e2, savers)
  {
  }

  lemma NameWithExtension(dir: string, name: string, fileType: string)
    requires name != "" && fileType != "" && '.' !in fileType
    ensures Extension(FilePath(dir, name + "." + fileType)) == Some(fileType)
  {
    var n := name + "." + fileType;
    assert n[|name|] == '.';
    assert n[|name| + 1..] == fileType;
    assert LastIndexOf(n, '.') == Some(|name|);
    assert n[..|name|] == name;
  }

  /**
   * For a file with a name and a plain, non-empty type, the target always
   * carries that type as its extension.
   */
  lemma TargetHasExtension(fileType: string, filename: FilePath)
    requires FileName(filename).Some? && fileType != "" && '.' !in fileType
    ensures Extension(SaveTarget(fileType, filename).0) == Some(fileType)
  {
    if Extension(filename) != Some(fileType) {
      NameWithExtension(filename.dir, filename.name, fileType);
    }
  }

  /** A changed name that exists wins over everything else, the saver registry included. */
  lemma ExistingFileRefused<S, D>(fileType: string, filename: FilePath, document: D,
                                  exists_: FilePath -> bool, savers: map<string, S>)
    requires SaveTarget(fileType, filename).1 && exists_(SaveTarget(fileType, filename).0)
    ensures Save(fileType, filename, document, exists_, savers) == Failed(FileExists(Display(SaveTarget(fileType, filename).0)))
  {
  }

  /** Otherwise the call is delegated exactly when a saver is registered under the type. */
  lemma SaverDecides<S, D>(fileType: string, filename: FilePath, document: D,
                           exists_: FilePath -> bool, savers: map<string, S>)
    requires !(SaveTarget(fileType, filename).1 && exists_(SaveTarget(fileType, filename).0))
    ensures var r := Save(fileType, filename, document, exists_, savers);
      (r.Delegated? <==> fileType in savers)
      && (r.Delegated? ==> r.handler == savers[fileType] && r.path == SaveTarget(fileType, filename).0)
      && (r.Failed? ==> r.error == UnknownFileType)
  {
  }

  /** The advertised load types are exactly the extensions a load is delegated for. */
  lemma LoadTypesAreLoadable<L, S>(loaders: map<string, L>, savers: map<string, S>, filename: FilePath)
    requires Extension(filename).Some?
    ensures var types := GetAvailableDocumentTypes(loaders, savers).value;
      Extension(filename).value in types.load <==> LoadDocument(filename, loaders).Delegated?
  {
  }

  /** The advertised save types are exactly the types a save is delegated for, when nothing is in the way. */
  lemma SaveTypesAreSavable<L, S, D>(loaders: map<string, L>, savers: map<string, S>,
                                     fileType: string, filename: FilePath, document: D)
    ensures var types := GetAvailableDocumentTypes(loaders, savers).value;
      fileType in types.save <==> Save(fileType, filename, document, (_: FilePath) => false, savers).Delegated?
  {
  }
}
