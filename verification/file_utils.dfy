/**
 * src/utils/file.ts: reading the exception file, and finding the project
 * root by climbing towards the file-system root.
 */
module FileUtils {
  import opened Wrappers
  import opened Types

  /**
   * What `readFile` observes of the outside world. `readFileSync` gives
   * `None` when reading throws (missing file, no permission, ...), and
   * `jsonParse` gives `None` when `JSON.parse` throws.
   */
  datatype FileSystem = FileSystem(
    readFileSync: string -> Option<string>,
    isJsonString: string -> bool,
    jsonParse: string -> Option<NsprcFileOrBool>)

  /**
   * `readFile(path)`: the parsed content of the file, or `false` when the
   * file cannot be read, is not a JSON string, or does not parse. It never
   * throws: every failure becomes `false`.
   */
  function ReadFile(fs: FileSystem, path: string): (r: NsprcFileOrBool)
    ensures fs.readFileSync(path).None? ==> r == NoConfig
    ensures fs.readFileSync(path).Some? && !fs.isJsonString(fs.readFileSync(path).value) ==> r == NoConfig
    ensures fs.readFileSync(path).Some? && fs.isJsonString(fs.readFileSync(path).value) ==>
      r == fs.jsonParse(fs.readFileSync(path).value).GetOr(NoConfig)
    ensures r != NoConfig ==>
      fs.readFileSync(path).Some? &&
      fs.isJsonString(fs.readFileSync(path).value) &&
      fs.jsonParse(fs.readFileSync(path).value) == Some(r)
  {
    match fs.readFileSync(path)
    case None => NoConfig
    case Some(data) =>
      if !fs.isJsonString(data) then NoConfig
      else fs.jsonParse(data).GetOr(NoConfig)
  }

  /**
   * A directory, as its segments below the root (`/` for an absolute path,
   * `.` for a relative one); the root itself is the empty sequence.
   */
  type Path = seq<string>

  /** `path.dirname(p)`: drop the last segment; the root is its own parent. */
  function Dirname(p: Path): (r: Path)
    ensures p == [] ==> r == []
    ensures p != [] ==> |r| == |p| - 1 && r == p[..|r|]
  {
    if p == [] then [] else p[..|p| - 1]
  }

  /** `path.join(dir, 'package.json')`: a file named `package.json` directly inside `dir`. */
  function PackageJsonPath(dir: Path): (p: Path)
    ensures |p| == |dir| + 1 && p[..|dir|] == dir && p[|dir|] == "package.json"
  {
    dir + ["package.json"]
  }

  /** `fs.existsSync(path.join(dir, 'package.json'))`. */
  predicate HoldsPackageJson(existsSync: Path -> bool, dir: Path) {
    existsSync(PackageJsonPath(dir))
  }

  /**
   * `getProjectRoot(currentDir)`: the nearest of `currentDir` and its
   * ancestors that holds a `package.json`; throws when none of them does.
   * Ancestors of `start` are its prefixes `start[..k]`.
   */
  method GetProjectRoot(start: Path, existsSync: Path -> bool) returns (r: Result<Path, Error>)
    ensures r.Ok? ==> HoldsPackageJson(existsSync, r.value)
    ensures r.Ok? ==> |r.value| <= |start| && r.value == start[..|r.value|]
    ensures r.Ok? ==> forall k :: |r.value| < k <= |start| ==> !HoldsPackageJson(existsSync, start[..k])
    ensures r.Err? <==> forall k :: 0 <= k <= |start| ==> !HoldsPackageJson(existsSync, start[..k])
    ensures r.Err? ==> r.error == ProjectRootNotFound
  {
    var currentDir := start;
    while !HoldsPackageJson(existsSync, currentDir)
      invariant |currentDir| <= |start| && currentDir == start[..|currentDir|]
      invariant forall k :: |currentDir| < k <= |start| ==> !HoldsPackageJson(existsSync, start[..k])
      decreases |currentDir|
    {
      var parentDir := Dirname(currentDir);
      if parentDir == currentDir {
        assert currentDir == start[..0];
        return Err(ProjectRootNotFound);
      }
      currentDir := parentDir;
    }
    assert currentDir == start[..|currentDir|];
    return Ok(currentDir);
  }
}
