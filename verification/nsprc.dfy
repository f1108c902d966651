/**
 * src/utils/nsprc.ts: choosing how to load the exception configuration
 * from the configuration path's extension, and the two loaders.
 */
module Nsprc {
  import opened Wrappers
  import opened Types
  import opened JsString
  import opened FileUtils

  /**
   * A user configuration module after `import`: its `requestNsprcFile`
   * export is either not a function (`NotAFunction`) or a function whose
   * awaited call yields a configuration or rejects (`Function(outcome)`).
   */
  datatype RequestNsprcFile = NotAFunction | Function(outcome: Result<NsprcFileOrBool, Error>)
  datatype ConfigFile = ConfigFile(requestNsprcFile: RequestNsprcFile)

  /**
   * The process the loaders run in: the file system, `process.cwd()` and
   * dynamic `import`, which may fail (missing file, load-time error).
   */
  datatype Host = Host(
    fs: FileSystem,
    cwd: string,
    importModule: string -> Result<ConfigFile, Error>)

  /** The two configuration strategies `nsprcReader` can hand back. */
  datatype Strategy = FromNsprcFile | FromConfigFile

  /** `fromNsprcFile(filePath)`: the file read as JSON; never throws. */
  function ReadNsprcFile(host: Host, filePath: string): (r: NsprcFileOrBool)
    ensures r == ReadFile(host.fs, filePath)
  {
    ReadFile(host.fs, filePath)
  }

  /**
   * The specifier `fromConfigFile` imports: `${process.cwd()}/${filePath}`,
   * the configuration path taken relative to the working directory.
   */
  function ModuleSpecifier(cwd: string, filePath: string): (spec: string)
    ensures |spec| == |cwd| + 1 + |filePath|
    ensures spec[..|cwd|] == cwd && spec[|cwd|] == '/' && spec[|cwd| + 1..] == filePath
  {
    cwd + "/" + filePath
  }

  /**
   * `fromConfigFile(filePath)`: import the module; a failed import
   * propagates; a module without a `requestNsprcFile` function gives
   * `false`; otherwise the awaited result of calling it.
   */
  function ReadConfigFile(host: Host, filePath: string): (r: Result<NsprcFileOrBool, Error>)
    ensures host.importModule(ModuleSpecifier(host.cwd, filePath)).Err? ==>
      r == Err(host.importModule(ModuleSpecifier(host.cwd, filePath)).error)
    ensures host.importModule(ModuleSpecifier(host.cwd, filePath)).Ok? ==>
      match host.importModule(ModuleSpecifier(host.cwd, filePath)).value.requestNsprcFile
      case NotAFunction => r == Ok(NoConfig)
      case Function(outcome) => r == outcome
  {
    match host.importModule(ModuleSpecifier(host.cwd, filePath))
    case Err(e) => Err(e)
    case Ok(configFileModule) =>
      match configFileModule.requestNsprcFile
      case NotAFunction => Ok(NoConfig)
      case Function(outcome) => outcome
  }

  /**
   * `nsprcReaderContext(strategy, filePath)`: run the chosen strategy on
   * the path. The file strategy never fails.
   */
  function NsprcReaderContext(strategy: Strategy, host: Host, filePath: string): (r: Result<NsprcFileOrBool, Error>)
    ensures strategy == FromNsprcFile ==> r == Ok(ReadNsprcFile(host, filePath))
    ensures strategy == FromConfigFile ==> r == ReadConfigFile(host, filePath)
  {
    match strategy
    case FromNsprcFile => Ok(ReadNsprcFile(host, filePath))
    case FromConfigFile => ReadConfigFile(host, filePath)
  }

  /**
   * `filePath.split('.').pop()`: the text after the last `.`, or the whole
   * path when it has no `.`.
   */
  function Extension(filePath: string): (ext: string)
    ensures '.' !in ext
    ensures |ext| <= |filePath| && filePath[|filePath| - |ext|..] == ext
    ensures |ext| < |filePath| ==> filePath[|filePath| - |ext| - 1] == '.'
  {
    var pieces := Split(filePath, '.');
    var ext := pieces[|pieces| - 1];
    assert ext in pieces;
    assert filePath[|filePath| - |ext|..] == ext && (|ext| < |filePath| ==> filePath[|filePath| - |ext| - 1] == '.') by {
      if |pieces| >= 2 {
        JoinLast(pieces, '.');
        var init := Join(pieces[..|pieces| - 1], '.');
        assert filePath == init + ['.'] + ext;
      }
    }
    ext
  }

  /**
   * The extension is exactly what follows the last dot: for every stem and
   * every dot-free `ext`, the extension of `stem.ext` is `ext`.
   */
  lemma ExtensionAfterLastDot(stem: string, ext: string)
    requires '.' !in ext
    ensures Extension(stem + "." + ext) == ext
  {
    var path := stem + "." + ext;
    var e := Extension(path);
    assert path[|path| - |ext| - 1] == '.';
    assert path[|path| - |ext|..] == ext;
  }

  /** A path without a dot is its own extension. */
  lemma ExtensionWithoutDot(filePath: string)
    requires '.' !in filePath
    ensures Extension(filePath) == filePath
  {
    var e := Extension(filePath);
  }

  /**
   * `nsprcReader(filePath)`: the file strategy for extension `nsprc`, the
   * module strategy for `js` and `ts`, and 'Unsupported file type' for
   * every other extension. The comparison is case-sensitive.
   */
  function NsprcReader(filePath: string): (r: Result<Strategy, Error>)
    ensures r == Ok(FromNsprcFile) <==> Extension(filePath) == "nsprc"
    ensures r == Ok(FromConfigFile) <==> Extension(filePath) == "js" || Extension(filePath) == "ts"
    ensures r.Err? <==> Extension(filePath) !in {"nsprc", "js", "ts"}
    ensures r.Err? ==> r.error == UnsupportedFileType
  {
    var ext := Extension(filePath);
    if ext == "nsprc" then Ok(FromNsprcFile)
    else if ext == "js" || ext == "ts" then Ok(FromConfigFile)
    else Err(UnsupportedFileType)
  }

  /**
   * An `.nsprc` path is always loadable: the reader picks the file
   * strategy and running it gives the file's content or `false`, never an
   * error, so a missing configuration file never aborts.
   */
  lemma NsprcPathNeverFails(host: Host, stem: string)
    ensures NsprcReader(stem + ".nsprc") == Ok(FromNsprcFile)
    ensures NsprcReaderContext(FromNsprcFile, host, stem + ".nsprc") == Ok(ReadFile(host.fs, stem + ".nsprc"))
  {
    assert stem + ".nsprc" == stem + "." + "nsprc";
    ExtensionAfterLastDot(stem, "nsprc");
  }

  /** `.nsprc` paths, with or without directories, select the file strategy. */
  lemma NsprcExamples()
    ensures NsprcReader(".nsprc") == Ok(FromNsprcFile)
    ensures NsprcReader("path/to/.nsprc") == Ok(FromNsprcFile)
  {
    NsprcPathNeverFails(Host(FileSystem(_ => None, _ => false, _ => None), "", _ => Err(Error(""))), "");
    NsprcPathNeverFails(Host(FileSystem(_ => None, _ => false, _ => None), "", _ => Err(Error(""))), "path/to/");
  }

  /** `.ts` paths select the module strategy. */
  lemma ModuleExamples()
    ensures NsprcReader("test/__mocks__/configFile.ts") == Ok(FromConfigFile)
    ensures NsprcReader("path/to/config.ts") == Ok(FromConfigFile)
  {
    ExtensionAfterLastDot("test/__mocks__/configFile", "ts");
    assert "test/__mocks__/configFile" + "." + "ts" == "test/__mocks__/configFile.ts";
    ExtensionAfterLastDot("path/to/config", "ts");
    assert "path/to/config" + "." + "ts" == "path/to/config.ts";
  }

  /** A `.txt` path is unsupported. */
  lemma UnsupportedExamples()
    ensures NsprcReader("path/to/config.txt") == Err(UnsupportedFileType)
  {
    ExtensionAfterLastDot("path/to/config", "txt");
    assert "path/to/config" + "." + "txt" == "path/to/config.txt";
  }

  /**
   * The extension comparison is case-sensitive: `.TS`, `.JS` and `.NSPRC`
   * are unsupported.
   */
  lemma CaseSensitiveExamples(stem: string)
    ensures NsprcReader(stem + ".TS") == Err(UnsupportedFileType)
    ensures NsprcReader(stem + ".JS") == Err(UnsupportedFileType)
    ensures NsprcReader(stem + ".NSPRC") == Err(UnsupportedFileType)
  {
    ExtensionAfterLastDot(stem, "TS");
    assert stem + "." + "TS" == stem + ".TS";
    ExtensionAfterLastDot(stem, "JS");
    assert stem + "." + "JS" == stem + ".JS";
    ExtensionAfterLastDot(stem, "NSPRC");
    assert stem + "." + "NSPRC" == stem + ".NSPRC";
  }
}
