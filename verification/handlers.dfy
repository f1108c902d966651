/**
 * src/handlers/handleInput.ts: turn the command options, the audit-level
 * environment variable and the exception configuration into the five
 * values handed to the audit runner.
 */
module Handlers {
  import opened Wrappers
  import opened Types
  import opened JsString
  import opened FileUtils
  import opened Nsprc

  /** `CommandOptions`: every flag is optional (`None` is `undefined`). */
  datatype CommandOptions = CommandOptions(
    production: Option<bool>,
    registry: Option<string>,
    level: Option<string>,
    configFile: Option<string>,
    exclude: Option<string>,
    moduleIgnore: Option<string>,
    includeColumns: Option<string>)

  const NoOptions: CommandOptions := CommandOptions(None, None, None, None, None, None, None)

  /**
   * The arguments `handleInput` passes to its callback `fn`, in order:
   * audit command, audit level, exception ids, modules to ignore, columns
   * to include.
   */
  datatype Resolved = Resolved(
    auditCommand: string,
    auditLevel: string,
    exceptionIds: seq<string>,
    moduleIgnore: seq<string>,
    includeColumns: seq<string>)

  /**
   * lodash `get(options, key, default)` on a top-level key: the field when
   * it is present, and the default only when it is absent (a present empty
   * string is kept).
   */
  function Get<T>(field: Option<T>, default: Option<T>): (r: Option<T>)
    ensures field.Some? ==> r == field
    ensures field.None? ==> r == default
  {
    if field.Some? then field else default
  }

  /** JavaScript truthiness of an optional string: present and non-empty. */
  predicate Truthy(v: Option<string>) {
    v.Some? && v.value != ""
  }

  /**
   * `getProductionOnlyOption()`, with the npm version test as a flag: npm up
   * to 8.13.2 takes `--production`, later versions `--omit=dev`.
   */
  function ProductionOnlyOption(npmAtMost8132: bool): (flag: string)
    ensures flag == "--production" || flag == "--omit=dev"
    ensures flag == "--production" <==> npmAtMost8132
  {
    if npmAtMost8132 then "--production" else "--omit=dev"
  }

  /**
   * The command tokens before `filter(Boolean).join(' ')`: the base
   * command, then a production flag that is present exactly when
   * `production` is set, then a registry flag present exactly when a
   * registry is given.
   */
  function CommandTokens(options: CommandOptions, npmAtMost8132: bool): (tokens: seq<string>)
    ensures |tokens| == 3 && tokens[0] == "npm audit"
    ensures tokens[1] != "" <==> options.production == Some(true)
    ensures tokens[1] != "" ==> tokens[1] == ProductionOnlyOption(npmAtMost8132)
    ensures tokens[2] != "" <==> Truthy(options.registry)
    ensures tokens[2] != "" ==> tokens[2] == "--registry=" + options.registry.value
  {
    [
      "npm audit",
      if options.production == Some(true) then ProductionOnlyOption(npmAtMost8132) else "",
      if Truthy(options.registry) then "--registry=" + options.registry.value else ""
    ]
  }

  /**
   * The `npm audit` command: the base command, then the production-only
   * flag when `production` is set, then `--registry=<url>` when a registry
   * is given, one space between neighbours and no empty token.
   */
  function AuditCommand(options: CommandOptions, npmAtMost8132: bool): (cmd: string)
    ensures var production := options.production == Some(true);
      var flag := ProductionOnlyOption(npmAtMost8132);
      var registry := "--registry=" + options.registry.GetOr("");
      cmd == (if production && Truthy(options.registry) then "npm audit " + flag + " " + registry
              else if production then "npm audit " + flag
              else if Truthy(options.registry) then "npm audit " + registry
              else "npm audit")
  {
    var tokens := CommandTokens(options, npmAtMost8132);
    JoinNonEmpty(tokens[0], tokens[1], tokens[2]);
    assert tokens == [tokens[0], tokens[1], tokens[2]];
    Join(DropEmpty(tokens), ' ')
  }

  /** `[first, x, y].filter(Boolean).join(' ')` for a non-empty `first`. */
  lemma JoinNonEmpty(first: string, x: string, y: string)
    requires first != ""
    ensures Join(DropEmpty([first, x, y]), ' ') ==
      if x != "" && y != "" then first + " " + x + " " + y
      else if x != "" then first + " " + x
      else if y != "" then first + " " + y
      else first
  {
    assert [first, x, y] == [first] + [x] + [y];
    DropEmptyAppend([first] + [x], [y]);
    DropEmptyAppend([first], [x]);
    assert DropEmpty([first]) == [first];
    var kept := DropEmpty([first, x, y]);
    if x != "" && y != "" {
      assert kept == [first, x, y];
      assert kept[1..] == [x, y];
      assert kept[1..][1..] == [y];
      assert Join(kept[1..], ' ') == x + " " + y;
      assert Join(kept, ' ') == first + " " + (x + " " + y);
    } else if x != "" {
      assert kept == [first, x];
      assert kept[1..] == [x];
    } else if y != "" {
      assert kept == [first, y];
      assert kept[1..] == [y];
    } else {
      assert kept == [first];
    }
  }

  /**
   * `get(options, 'level', envVar) || 'info'`: the `level` option when
   * present (an empty one falls back to `info`, not to the environment),
   * else the environment variable when set and non-empty, else `info`.
   */
  function AuditLevel(options: CommandOptions, envAuditLevel: Option<string>): (level: string)
    ensures level != ""
    ensures options.level.Some? ==> level == (if options.level.value != "" then options.level.value else "info")
    ensures options.level.None? ==> level == (if Truthy(envAuditLevel) then envAuditLevel.value else "info")
  {
    var chosen := Get(options.level, envAuditLevel);
    if Truthy(chosen) then chosen.value else "info"
  }

  /** The configuration path: `configFile` when non-empty, else `.nsprc`. */
  function InputFilePath(options: CommandOptions): (path: string)
    ensures Truthy(options.configFile) ==> path == options.configFile.value
    ensures !Truthy(options.configFile) ==> path == ".nsprc"
  {
    if Truthy(options.configFile) then options.configFile.value else ".nsprc"
  }

  /**
   * The exclude flag's ids: its comma-separated items, trimmed, the empty
   * ones dropped, in input order; an absent flag gives none.
   */
  function CmdExceptions(options: CommandOptions): (ids: seq<string>)
    ensures ids == DropEmpty(TrimAll(Split(options.exclude.GetOr(""), ','), IsWhitespace))
    ensures forall id :: id in ids ==> id != "" && IsTrimmed(id, IsWhitespace) && ',' !in id
    ensures options.exclude.None? ==> ids == []
  {
    SplitTrimmedEmpty(',', IsWhitespace);
    SplitTrimmed(Get(options.exclude, Some("")).value, ',', IsWhitespace)
  }

  /**
   * The modules to ignore: the raw comma split of the flag, neither
   * trimmed nor filtered, so joining them with commas gives the flag back;
   * an absent flag gives `['']`.
   */
  function CmdModuleIgnore(options: CommandOptions): (modules: seq<string>)
    ensures |modules| >= 1
    ensures Join(modules, ',') == options.moduleIgnore.GetOr("")
    ensures forall m :: m in modules ==> ',' !in m
    ensures options.moduleIgnore.None? ==> modules == [""]
  {
    var flag := Get(options.moduleIgnore, Some("")).value;
    assert flag == "" ==> Split(flag, ',') == [""];
    Split(flag, ',')
  }

  /**
   * The columns to include: the comma-separated items of the flag,
   * trimmed, the empty ones dropped; an absent flag gives none.
   */
  function CmdIncludeColumns(options: CommandOptions): (columns: seq<string>)
    ensures columns == DropEmpty(TrimAll(Split(options.includeColumns.GetOr(""), ','), IsWhitespace))
    ensures forall c :: c in columns ==> c != "" && IsTrimmed(c, IsWhitespace) && ',' !in c
    ensures options.includeColumns.None? ==> columns == []
  {
    SplitTrimmedEmpty(',', IsWhitespace);
    SplitTrimmed(Get(options.includeColumns, Some("")).value, ',', IsWhitespace)
  }

  /**
   * `handleInput(options, fn)`. The exception lookup of the configuration
   * (`getExceptionsIds`, which this model does not define) is the
   * parameter `getExceptionsIds`. `Ok(values)` is the single call
   * `fn(...values)`; `Err(e)` is a throw before `fn` is reached: an
   * unsupported configuration extension, or a configuration module that
   * fails to load.
   */
  function HandleInput(
    options: CommandOptions,
    envAuditLevel: Option<string>,
    npmAtMost8132: bool,
    host: Host,
    getExceptionsIds: (NsprcFileOrBool, seq<string>) -> seq<string>): (r: Result<Resolved, Error>)
    ensures var ext := Extension(InputFilePath(options));
      r.Err? <==> ext !in {"nsprc", "js", "ts"} || (ext in {"js", "ts"} && ReadConfigFile(host, InputFilePath(options)).Err?)
    ensures NsprcReader(InputFilePath(options)).Err? ==> r == Err(UnsupportedFileType)
    ensures Extension(InputFilePath(options)) == "nsprc" ==>
      r.Ok? && r.value.exceptionIds == getExceptionsIds(ReadFile(host.fs, InputFilePath(options)), CmdExceptions(options))
    ensures var p := InputFilePath(options);
      Extension(p) in {"js", "ts"} && ReadConfigFile(host, p).Ok? ==>
        r.Ok? && r.value.exceptionIds == getExceptionsIds(ReadConfigFile(host, p).value, CmdExceptions(options))
    ensures var p := InputFilePath(options);
      Extension(p) in {"js", "ts"} && ReadConfigFile(host, p).Err? ==> r == Err(ReadConfigFile(host, p).error)
    ensures var p := InputFilePath(options);
      r.Ok? ==>
        (NsprcReader(p).Ok? && NsprcReaderContext(NsprcReader(p).value, host, p).Ok? &&
         r.value.exceptionIds == getExceptionsIds(NsprcReaderContext(NsprcReader(p).value, host, p).value, CmdExceptions(options)))
    ensures r.Ok? ==>
      (r.value.auditCommand == AuditCommand(options, npmAtMost8132) &&
       r.value.auditLevel == AuditLevel(options, envAuditLevel) &&
       r.value.moduleIgnore == CmdModuleIgnore(options) &&
       r.value.includeColumns == CmdIncludeColumns(options))
  {
    var auditCommand := AuditCommand(options, npmAtMost8132);
    var auditLevel := AuditLevel(options, envAuditLevel);
    var inputFilePath := InputFilePath(options);
    match NsprcReader(inputFilePath)
    case Err(e) => Err(e)
    case Ok(nspStrategy) =>
      match NsprcReaderContext(nspStrategy, host, inputFilePath)
      case Err(e) => Err(e)
      case Ok(nsprc) =>
        var cmdExceptions := CmdExceptions(options);
        var exceptionIds := getExceptionsIds(nsprc, cmdExceptions);
        Ok(Resolved(auditCommand, auditLevel, exceptionIds, CmdModuleIgnore(options), CmdIncludeColumns(options)))
  }

  /**
   * With no options and no environment variable, `fn` receives
   * `npm audit`, `info`, the ids of the `.nsprc` configuration, `['']` and
   * no columns; with no configured ids that is the default call.
   */
  lemma DefaultInvocation(npmAtMost8132: bool, host: Host, getExceptionsIds: (NsprcFileOrBool, seq<string>) -> seq<string>)
    requires getExceptionsIds(ReadFile(host.fs, ".nsprc"), []) == []
    ensures HandleInput(NoOptions, None, npmAtMost8132, host, getExceptionsIds) == Ok(Resolved("npm audit", "info", [], [""], []))
  {
    assert "" + ".nsprc" == ".nsprc";
    NsprcPathNeverFails(host, "");
    assert InputFilePath(NoOptions) == ".nsprc";
    assert AuditCommand(NoOptions, npmAtMost8132) == "npm audit";
    assert AuditLevel(NoOptions, None) == "info";
    assert CmdExceptions(NoOptions) == [];
    assert CmdModuleIgnore(NoOptions) == [""];
    assert CmdIncludeColumns(NoOptions) == [];
  }

  /** The exclude flag `1567, 1902`: the space after the comma is trimmed away. */
  lemma ExcludeExample()
    ensures CmdExceptions(NoOptions.(exclude := Some("1567, 1902"))) == ["1567", "1902"]
  {
    var a, b := "1567", "1902";
    assert a + ", " + b == "1567, 1902";
    assert IsTrimmed(a, IsWhitespace) && IsTrimmed(b, IsWhitespace) by {
      AlphanumericNotWhitespace('1');
      AlphanumericNotWhitespace('2');
      AlphanumericNotWhitespace('7');
    }
    SpaceIsWhitespace();
    SpacedPair(a, b, IsWhitespace);
  }

  /**
   * `a, b` (one space after the comma) gives `a` and `b` under any
   * whitespace test that removes the space, the one `trim()` uses included.
   */
  lemma SpacedPair(a: string, b: string, ws: char -> bool)
    requires ws(' ')
    requires a != "" && b != "" && IsTrimmed(a, ws) && IsTrimmed(b, ws)
    requires ',' !in a && ',' !in b
    ensures SplitTrimmed(a + ", " + b, ',', ws) == [a, b]
  {
    var spaced := " " + b;
    var items := [a, spaced];
    assert DropEmpty([a, b]) == [a, b];
    assert Join(items, ',') == a + ", " + b by {
      assert Join(items, ',') == a + [','] + spaced;
    }
    assert TrimAll(items, ws) == [a, b] by {
      TrimTrimmed(a, ws);
      TrimLeadingSpace(b, ws);
    }
    assert ',' !in spaced;
    SplitTrimmedJoin(items, ',', ws);
  }

  /** The module-ignore flag `lodash, moment`: the space is kept. */
  lemma ModuleIgnoreExample()
    ensures CmdModuleIgnore(NoOptions.(moduleIgnore := Some("lodash, moment"))) == ["lodash", " moment"]
  {
    assert Join(["lodash", " moment"], ',') == "lodash, moment";
    SplitJoin(["lodash", " moment"], ',');
  }

  /** The module-ignore flags `lodash,undefined,moment` and `lodash,null,moment` keep the middle item. */
  lemma ModuleIgnoreKeepsItems()
    ensures CmdModuleIgnore(NoOptions.(moduleIgnore := Some("lodash,undefined,moment"))) == ["lodash", "undefined", "moment"]
    ensures CmdModuleIgnore(NoOptions.(moduleIgnore := Some("lodash,null,moment"))) == ["lodash", "null", "moment"]
  {
    assert "lodash" + "," + "undefined" + "," + "moment" == "lodash,undefined,moment";
    assert "lodash" + "," + "null" + "," + "moment" == "lodash,null,moment";
    SplitThree("lodash", "undefined", "moment");
    SplitThree("lodash", "null", "moment");
  }

  /** The include-columns flags `ID,undefined,Module` and `ID,null,Module` keep the middle item. */
  lemma IncludeColumnsKeepsItems()
    ensures CmdIncludeColumns(NoOptions.(includeColumns := Some("ID,undefined,Module"))) == ["ID", "undefined", "Module"]
    ensures CmdIncludeColumns(NoOptions.(includeColumns := Some("ID,null,Module"))) == ["ID", "null", "Module"]
  {
    assert "ID" + "," + "undefined" + "," + "Module" == "ID,undefined,Module";
    assert "ID" + "," + "null" + "," + "Module" == "ID,null,Module";
    PlainItemsRoundTrip("ID", "undefined", "Module");
    PlainItemsRoundTrip("ID", "null", "Module");
  }

  /**
   * Three comma-free items that begin and end with a letter or digit come
   * back unchanged from the split-trim-filter of their comma join.
   */
  lemma PlainItemsRoundTrip(a: string, b: string, c: string)
    requires a != "" && b != "" && c != ""
    requires ',' !in a && ',' !in b && ',' !in c
    requires IsAlphanumeric(a[0]) && IsAlphanumeric(a[|a| - 1])
    requires IsAlphanumeric(b[0]) && IsAlphanumeric(b[|b| - 1])
    requires IsAlphanumeric(c[0]) && IsAlphanumeric(c[|c| - 1])
    ensures SplitTrimmed(a + "," + b + "," + c, ',', IsWhitespace) == [a, b, c]
  {
    JoinThree(a, b, c);
    AlphanumericNotWhitespace(a[0]);
    AlphanumericNotWhitespace(a[|a| - 1]);
    AlphanumericNotWhitespace(b[0]);
    AlphanumericNotWhitespace(b[|b| - 1]);
    AlphanumericNotWhitespace(c[0]);
    AlphanumericNotWhitespace(c[|c| - 1]);
    SplitTrimmedRoundTrip([a, b, c], ',', IsWhitespace);
  }

  /** Splitting `a,b,c` at the commas gives the three comma-free items back. */
  lemma SplitThree(a: string, b: string, c: string)
    requires ',' !in a && ',' !in b && ',' !in c
    ensures Split(a + "," + b + "," + c, ',') == [a, b, c]
  {
    JoinThree(a, b, c);
    SplitJoin([a, b, c], ',');
  }

  lemma JoinThree(a: string, b: string, c: string)
    ensures Join([a, b, c], ',') == a + "," + b + "," + c
  {
    assert [a, b, c][1..] == [b, c];
    assert [b, c][1..] == [c];
    assert Join([b, c], ',') == b + [','] + c;
    assert a + [','] + (b + [','] + c) == a + "," + b + "," + c;
  }
}
