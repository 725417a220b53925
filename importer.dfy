/**
 * `BrainfuckImporter` and the functions that put it into, and take it out
 * of, the ordered list of finders the host consults on every import.
 */
module Importer {
  import opened Wrappers
  import opened Syntax
  import opened Parser

  /** A file system path, one string per component (`os.path.join` of them). */
  type Path = seq<string>

  /** The file system: the files that exist, with their contents. */
  type FileSystem = map<Path, string>

  /** The three wrappers the `module_factory` argument can name. */
  datatype Factory = FunctionFactory | ProcedureFactory | ModuleFactory

  /** The fields `BrainfuckImporter.__init__` sets. */
  datatype BrainfuckImporter = BrainfuckImporter(fileExtensions: seq<string>, moduleFactory: Factory)

  const DefaultExtensions: seq<string> := ["bf", "b"]

  /** `BrainfuckImporter(file_extensions, module_factory)`: the factory argument is not stored. */
  function NewImporter(fileExtensions: seq<string>, moduleFactory: Factory): (imp: BrainfuckImporter)
    ensures imp.fileExtensions == fileExtensions
    ensures imp.moduleFactory == FunctionFactory
  {
    BrainfuckImporter(fileExtensions, FunctionFactory)
  }

  /** The parts joined back together with `sep` between them. */
  function Join(parts: seq<string>, sep: char): string
    requires parts != []
  {
    if |parts| == 1 then parts[0] else parts[0] + [sep] + Join(parts[1..], sep)
  }

  /** `s.split(sep)`: the maximal runs between separators, empty ones included. */
  function Split(s: string, sep: char): (parts: seq<string>)
    ensures parts != []
    ensures Join(parts, sep) == s
    ensures forall k :: 0 <= k < |parts| ==> sep !in parts[k]
  {
    if s == [] then [""]
    else
      var rest := Split(s[1..], sep);
      if s[0] == sep then [""] + rest
      else [[s[0]] + rest[0]] + rest[1..]
  }

  /** The path tried for one search-path entry and one extension. */
  function Candidate(basePath: string, parts: seq<string>, extension: string): (path: Path)
    requires parts != []
    ensures |path| == (if basePath == "" then 0 else 1) + |parts|
    ensures path[|path| - 1] == parts[|parts| - 1] + "." + extension
  {
    (if basePath == "" then [] else [basePath]) + parts[..|parts| - 1] + [parts[|parts| - 1] + "." + extension]
  }

  /** Search-path entry `i` with extension `j` comes before entry `i0` with extension `j0`. */
  predicate TriedBefore(i: int, j: int, i0: int, j0: int) {
    i < i0 || (i == i0 && j < j0)
  }

  /** None of the candidates tried before (`i0`, `j0`) exists. */
  ghost predicate NoneBefore(sysPath: seq<string>, exts: seq<string>, parts: seq<string>, fs: FileSystem, i0: int, j0: int)
    requires parts != []
  {
    forall i, j :: 0 <= i < |sysPath| && 0 <= j < |exts| && TriedBefore(i, j, i0, j0) ==>
      Candidate(sysPath[i], parts, exts[j]) !in fs
  }

  /**
   * `_find_module_path`: every search-path entry in order, every extension in
   * order, and the first candidate that exists.
   */
  method FindModulePath(imp: BrainfuckImporter, fullname: string, sysPath: seq<string>, fs: FileSystem)
    returns (r: Option<Path>)
    ensures var parts := Split(fullname, '.');
      r.None? <==> NoneBefore(sysPath, imp.fileExtensions, parts, fs, |sysPath|, 0)
    ensures var parts := Split(fullname, '.');
      r.Some? ==> (r.value in fs &&
        exists i, j :: 0 <= i < |sysPath| && 0 <= j < |imp.fileExtensions| &&
          r.value == Candidate(sysPath[i], parts, imp.fileExtensions[j]) &&
          NoneBefore(sysPath, imp.fileExtensions, parts, fs, i, j))
  {
    var parts := Split(fullname, '.');
    var exts := imp.fileExtensions;
    for i := 0 to |sysPath|
      invariant NoneBefore(sysPath, exts, parts, fs, i, 0)
    {
      for j := 0 to |exts|
        invariant NoneBefore(sysPath, exts, parts, fs, i, j)
      {
        var fullPath := Candidate(sysPath[i], parts, exts[j]);
        if fullPath in fs {
          return Some(fullPath);
        }
      }
    }
    return None;
  }

  /** `find_module`: whether this importer can load `fullname` at all. */
  method FindModule(imp: BrainfuckImporter, fullname: string, sysPath: seq<string>, fs: FileSystem)
    returns (found: bool)
    ensures found <==> !NoneBefore(sysPath, imp.fileExtensions, Split(fullname, '.'), fs, |sysPath|, 0)
  {
    var path := FindModulePath(imp, fullname, sysPath, fs);
    found := path.Some?;
  }

  /** Why `load_module` fails. */
  datatype LoadError = ImportError | ParseFailed(error: ParseError)

  /** What `module_factory(code)` builds: the chosen wrapper around the parsed program. */
  datatype LoadedModule = LoadedModule(factory: Factory, program: Program)

  /** The first existing candidate is unique: no two (entry, extension) pairs can both be it. */
  lemma FirstCandidateUnique(sysPath: seq<string>, exts: seq<string>, parts: seq<string>, fs: FileSystem,
                             i1: int, j1: int, i2: int, j2: int)
    requires parts != []
    requires 0 <= i1 < |sysPath| && 0 <= j1 < |exts| && 0 <= i2 < |sysPath| && 0 <= j2 < |exts|
    requires Candidate(sysPath[i1], parts, exts[j1]) in fs && NoneBefore(sysPath, exts, parts, fs, i1, j1)
    requires Candidate(sysPath[i2], parts, exts[j2]) in fs && NoneBefore(sysPath, exts, parts, fs, i2, j2)
    ensures i1 == i2 && j1 == j2
  {
    if TriedBefore(i1, j1, i2, j2) || TriedBefore(i2, j2, i1, j1) {
      // The earlier of the two would have to be missing from `fs`.
      assert false;
    }
  }

  /**
   * `load_module`: the first candidate that exists, read and handed to the
   * importer's factory; `ImportError` when no candidate exists.
   */
  method LoadModule(imp: BrainfuckImporter, fullname: string, sysPath: seq<string>, fs: FileSystem)
    returns (r: Result<LoadedModule, LoadError>)
    ensures r == Failure(ImportError) <==> NoneBefore(sysPath, imp.fileExtensions, Split(fullname, '.'), fs, |sysPath|, 0)
    ensures var parts := Split(fullname, '.');
      r != Failure(ImportError) ==>
        exists i, j :: 0 <= i < |sysPath| && 0 <= j < |imp.fileExtensions| &&
          Candidate(sysPath[i], parts, imp.fileExtensions[j]) in fs &&
          NoneBefore(sysPath, imp.fileExtensions, parts, fs, i, j) &&
          (Parse(fs[Candidate(sysPath[i], parts, imp.fileExtensions[j])]).Success? ==>
             r == Success(LoadedModule(imp.moduleFactory, Parse(fs[Candidate(sysPath[i], parts, imp.fileExtensions[j])]).value))) &&
          (Parse(fs[Candidate(sysPath[i], parts, imp.fileExtensions[j])]).Failure? ==>
             r == Failure(ParseFailed(Parse(fs[Candidate(sysPath[i], parts, imp.fileExtensions[j])]).error)))
  {
    var path := FindModulePath(imp, fullname, sysPath, fs);
    if path.None? {
      return Failure(ImportError);
    }
    var code := fs[path.value];
    var parsed := ParseAst(code);
    match parsed
    case Failure(e) =>
      r := Failure(ParseFailed(e));
    case Success(program) =>
      r := Success(LoadedModule(imp.moduleFactory, program));
  }

  /** An entry of `sys.meta_path`: a brainfuck importer (or subclass) or some other finder. */
  datatype Finder = BrainfuckFinder(importer: BrainfuckImporter) | Other(id: nat)

  /** The index of the first brainfuck importer in `entries`, if there is one. */
  function FirstBrainfuck(entries: seq<Finder>): (r: Option<nat>)
    ensures r.Some? ==> (r.value < |entries| && entries[r.value].BrainfuckFinder? &&
      forall k :: 0 <= k < r.value ==> entries[k].Other?)
    ensures r.None? ==> forall k :: 0 <= k < |entries| ==> entries[k].Other?
  {
    if entries == [] then None
    else if entries[0].BrainfuckFinder? then Some(0)
    else
      match FirstBrainfuck(entries[1..])
      case None => None
      case Some(k) => Some(k + 1)
  }

  /** The first brainfuck importer is the one with only other finders before it. */
  lemma FirstBrainfuckAt(entries: seq<Finder>, i: nat)
    requires i < |entries| && entries[i].BrainfuckFinder?
    requires forall k :: 0 <= k < i ==> entries[k].Other?
    ensures FirstBrainfuck(entries) == Some(i)
  {
    var r := FirstBrainfuck(entries);
    assert r.Some?;
    assert !(r.value < i) && !(i < r.value);
  }

  /** The list after `install_import_hook(f)`. */
  function Installed(entries: seq<Finder>, f: Finder): (r: seq<Finder>)
    ensures f in r
    ensures |r| == |entries| || |r| == |entries| + 1
    ensures forall k :: 0 <= k < |entries| && entries[k].Other? ==> r[k] == entries[k]
    ensures FirstBrainfuck(entries).None? ==> r == entries + [f]
  {
    match FirstBrainfuck(entries)
    case Some(k) => assert entries[k := f][k] == f; entries[k := f]
    case None => entries + [f]
  }

  /** The list after `remove_import_hook()`. */
  function Removed(entries: seq<Finder>): (r: seq<Finder>)
    ensures r == entries || |r| + 1 == |entries|
    ensures forall x :: x in r ==> x in entries
    ensures forall x :: x in entries && x.Other? ==> x in r
  {
    match FirstBrainfuck(entries)
    case Some(k) => entries[..k] + entries[k + 1..]
    case None => entries
  }

  /** How many brainfuck importers `entries` holds. */
  function CountBrainfuck(entries: seq<Finder>): nat {
    if entries == [] then 0
    else (if entries[0].BrainfuckFinder? then 1 else 0) + CountBrainfuck(entries[1..])
  }

  lemma {:induction false} CountAppend(a: seq<Finder>, b: seq<Finder>)
    ensures CountBrainfuck(a + b) == CountBrainfuck(a) + CountBrainfuck(b)
  {
    if a == [] {
      assert a + b == b;
    } else {
      assert (a + b)[1..] == a[1..] + b;
      CountAppend(a[1..], b);
    }
  }

  /** A list has no brainfuck importer exactly when the search finds none. */
  lemma {:induction false} CountZeroIffNone(entries: seq<Finder>)
    ensures CountBrainfuck(entries) == 0 <==> FirstBrainfuck(entries).None?
  {
    if entries != [] {
      CountZeroIffNone(entries[1..]);
    }
  }

  /** Splitting a list at `k` around its element there. */
  lemma CountAround(entries: seq<Finder>, k: nat)
    requires k < |entries|
    ensures CountBrainfuck(entries) ==
      CountBrainfuck(entries[..k]) + (if entries[k].BrainfuckFinder? then 1 else 0) + CountBrainfuck(entries[k + 1..])
  {
    assert entries == entries[..k] + [entries[k]] + entries[k + 1..];
    CountAppend(entries[..k] + [entries[k]], entries[k + 1..]);
    CountAppend(entries[..k], [entries[k]]);
  }

  /**
   * Installing a brainfuck importer leaves exactly one when there was none
   * and never adds one when there was one already.
   */
  lemma InstalledCount(entries: seq<Finder>, f: Finder)
    requires f.BrainfuckFinder?
    ensures CountBrainfuck(Installed(entries, f)) ==
      if CountBrainfuck(entries) == 0 then 1 else CountBrainfuck(entries)
    ensures |Installed(entries, f)| == if CountBrainfuck(entries) == 0 then |entries| + 1 else |entries|
  {
    CountZeroIffNone(entries);
    match FirstBrainfuck(entries)
    case None =>
      CountAppend(entries, [f]);
    case Some(k) =>
      var r := entries[k := f];
      CountAround(entries, k);
      CountAround(r, k);
      assert r[..k] == entries[..k] && r[k + 1..] == entries[k + 1..];
  }

  /** Replacing in place changes only the entry at the replaced index. */
  lemma InstalledKeepsOthers(entries: seq<Finder>, f: Finder)
    requires FirstBrainfuck(entries).Some?
    ensures var k := FirstBrainfuck(entries).value;
      |Installed(entries, f)| == |entries| && Installed(entries, f)[k] == f &&
      forall m :: 0 <= m < |entries| && m != k ==> Installed(entries, f)[m] == entries[m]
  {
  }

  /** Removing deletes the first brainfuck importer and keeps every other entry in order. */
  lemma RemovedKeepsOthers(entries: seq<Finder>)
    requires FirstBrainfuck(entries).Some?
    ensures var k := FirstBrainfuck(entries).value;
      |Removed(entries)| == |entries| - 1 &&
      (forall m :: 0 <= m < k ==> Removed(entries)[m] == entries[m]) &&
      (forall m :: k < m < |entries| ==> Removed(entries)[m - 1] == entries[m])
  {
    var k := FirstBrainfuck(entries).value;
    var before, after := entries[..k], entries[k + 1..];
    assert Removed(entries) == before + after;
    forall m | 0 <= m < k
      ensures (before + after)[m] == entries[m]
    {
      assert (before + after)[m] == before[m];
    }
    forall m | k < m < |entries|
      ensures (before + after)[m - 1] == entries[m]
    {
      assert (before + after)[m - 1] == after[m - 1 - k];
    }
  }

  /** A second install finds the first one's importer and replaces it. */
  lemma InstallTwice(entries: seq<Finder>, f: Finder, g: Finder)
    requires f.BrainfuckFinder? && g.BrainfuckFinder? && CountBrainfuck(entries) == 0
    ensures FirstBrainfuck(Installed(entries, f)).Some?
    ensures CountBrainfuck(Installed(Installed(entries, f), g)) == 1
  {
    InstalledCount(entries, f);
    InstalledCount(Installed(entries, f), g);
    CountZeroIffNone(Installed(entries, f));
  }

  /** Removing takes away exactly one brainfuck importer when there is one. */
  lemma RemovedCount(entries: seq<Finder>)
    ensures CountBrainfuck(Removed(entries)) == if CountBrainfuck(entries) == 0 then 0 else CountBrainfuck(entries) - 1
    ensures |Removed(entries)| == if CountBrainfuck(entries) == 0 then |entries| else |entries| - 1
  {
    CountZeroIffNone(entries);
    match FirstBrainfuck(entries)
    case None =>
    case Some(k) =>
      CountAround(entries, k);
      CountAppend(entries[..k], entries[k + 1..]);
  }

  /** The search on a list with one more entry at the end. */
  lemma {:induction false} FirstBrainfuckAppend(entries: seq<Finder>, f: Finder)
    requires FirstBrainfuck(entries).None? && f.BrainfuckFinder?
    ensures FirstBrainfuck(entries + [f]) == Some(|entries|)
  {
    if entries != [] {
      assert (entries + [f])[1..] == entries[1..] + [f];
      FirstBrainfuckAppend(entries[1..], f);
    }
  }

  /** On a list without one, installing and then removing an importer restores the list. */
  lemma RemoveUndoesInstall(entries: seq<Finder>, f: Finder)
    requires FirstBrainfuck(entries).None? && f.BrainfuckFinder?
    ensures Removed(Installed(entries, f)) == entries
    ensures FirstBrainfuck(Removed(Installed(entries, f))).None?
  {
    FirstBrainfuckAppend(entries, f);
    assert (entries + [f])[..|entries|] == entries;
  }

  /** `sys.meta_path`, the process-wide ordered list of finders. */
  class MetaPath {
    var entries: seq<Finder>

    constructor (entries: seq<Finder>)
      ensures this.entries == entries
    {
      this.entries := entries;
    }

    /**
     * `install_import_hook(importer, file_extensions=...)`: a new default
     * importer unless one is given; it takes the place of the first brainfuck
     * importer, or is appended when there is none.
     */
    method InstallImportHook(importer: Option<Finder>, fileExtensions: Option<seq<string>>)
      returns (appended: bool)
      modifies this
      ensures var f := if importer.Some? then importer.value
                       else BrainfuckFinder(NewImporter(if fileExtensions.Some? then fileExtensions.value else DefaultExtensions, FunctionFactory));
        entries == Installed(old(entries), f)
      ensures appended <==> FirstBrainfuck(old(entries)).None?
    {
      var f: Finder;
      if importer.None? {
        var exts := if fileExtensions.Some? then fileExtensions.value else DefaultExtensions;
        f := BrainfuckFinder(NewImporter(exts, FunctionFactory));
      } else {
        f := importer.value;
      }
      var i := 0;
      while i < |entries|
        invariant 0 <= i <= |entries| && entries == old(entries)
        invariant forall k :: 0 <= k < i ==> entries[k].Other?
      {
        if entries[i].BrainfuckFinder? {
          FirstBrainfuckAt(entries, i);
          entries := entries[i := f];
          return false;
        }
        i := i + 1;
      }
      entries := entries + [f];
      return true;
    }

    /** `remove_import_hook()`: deletes the first brainfuck importer, if any. */
    method RemoveImportHook() returns (removed: bool)
      modifies this
      ensures entries == Removed(old(entries))
      ensures removed <==> FirstBrainfuck(old(entries)).Some?
    {
      var i := 0;
      while i < |entries|
        invariant 0 <= i <= |entries| && entries == old(entries)
        invariant forall k :: 0 <= k < i ==> entries[k].Other?
      {
        if entries[i].BrainfuckFinder? {
          FirstBrainfuckAt(entries, i);
          entries := entries[..i] + entries[i + 1..];
          return true;
        }
        i := i + 1;
      }
      return false;
    }
  }
}
