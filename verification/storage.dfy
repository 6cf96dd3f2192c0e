/**
 The YAML storage service (`YamlStorage`): `load` and `save` check their
 conditions in a fixed order, hand the content to the validator, and report
 every failure through the single funnel `fail`, which records the error
 code and text, logs once, and shows the message to the user when asked to.

 The host file system is a `FileSystem` oracle; the logger and the
 messenger are an event trace; translation is the identity, with each
 `%filename` placeholder replaced by the plain file name.
 */
module Storage {
  import opened Php
  import Normalize
  import Validator

  const ErrorSuccess := 0
  const ErrorEmptyPath := 1
  const ErrorFileNotFound := 2
  const ErrorFileNotReadable := 3
  const ErrorFileNotWritable := 4
  const ErrorReadFailed := 5
  const ErrorEmptyFile := 6
  const ErrorNoYamlData := 7
  const ErrorWriteFailed := 8
  const ErrorNoData := 9

  /**
   The host file system. `resolve` is the whole of `prepareFilePath`'s path
   resolution (stream-wrapper scheme, realpath); `read` is `file_get_contents`
   (None for false); `write(path, content)` is whether `saveData` succeeded.
   */
  datatype FileSystem = FileSystem(
    resolve: string -> string,
    basename: string -> string,
    fileExists: string -> bool,
    isReadable: string -> bool,
    isWritable: string -> bool,
    read: string -> Option<string>,
    write: (string, string) -> bool)

  datatype Stage = LoadStage | SaveStage

  /** What `resetState` records for the operation in progress. */
  datatype Context = Context(channel: string, verbose: bool, stage: Stage)

  /** `getInfo()`: the outcome of the last operation. */
  datatype OperationInfo = OperationInfo(errorCode: int, errorText: string)

  /**
   The service's fields. `info` is None for the empty array `resetState`
   leaves; `context` is None before the first operation.
   */
  datatype YamlStorage = YamlStorage(
    absolutePath: string,
    filename: string,
    info: Option<OperationInfo>,
    context: Option<Context>)

  const Initial := YamlStorage("", "", None, None)

  /** Observable effects: messenger errors, logger errors and write attempts. */
  datatype Event =
    | UserError(message: string)
    | LogError(channel: string, message: string)
    | WriteAttempt(path: string, content: string)

  /** A call returns a value, or a TypeError from the validator escapes it. */
  datatype Exit<T> = Returned(value: T) | TypeErrorRaised

  datatype Run<T> = Run(exit: Exit<T>, storage: YamlStorage, events: seq<Event>)

  // ---------------------------------------------------------------------
  // Helpers

  /** `resetState`: clears the info and records the operation; the path and file name stay. */
  function ResetState(st: YamlStorage, channel: string, verbose: bool, stage: Stage): (r: YamlStorage)
    ensures r.info.None?
    ensures r.context == Some(Context(channel, verbose, stage))
    ensures r.absolutePath == st.absolutePath && r.filename == st.filename
  {
    st.(info := None, context := Some(Context(channel, verbose, stage)))
  }

  /** `prepareFilePath`: records the resolved path and its base name; info and operation stay. */
  function PrepareFilePath(st: YamlStorage, fs: FileSystem, filePath: string): (r: YamlStorage)
    ensures r.absolutePath == fs.resolve(filePath) && r.filename == fs.basename(r.absolutePath)
    ensures r.info == st.info && r.context == st.context
  {
    var absolutePath := fs.resolve(filePath);
    st.(absolutePath := absolutePath, filename := fs.basename(absolutePath))
  }

  /** `sendLogError`: the messenger only when verbose, then the logger with the path appended. */
  function SendLogError(st: YamlStorage, message: string): seq<Event>
    requires st.context.Some?
  {
    (if st.context.value.verbose then [UserError(message)] else [])
    + [LogError(st.context.value.channel, message + "\n\tFile: " + st.absolutePath)]
  }

  /**
   `fail`: records {code, message}, logs the message once, shows it to the
   user exactly when the operation is verbose, and returns the operation's
   false value.
   */
  function Fail<T>(st: YamlStorage, code: int, message: string, no: T): (r: Run<T>)
    requires st.context.Some?
    ensures r.exit == Returned(no)
    ensures r.storage.info == Some(OperationInfo(code, message))
    ensures r.storage.absolutePath == st.absolutePath && r.storage.filename == st.filename
    ensures r.storage.context == st.context
    ensures |r.events| == if st.context.value.verbose then 2 else 1
    ensures r.events[|r.events| - 1] == LogError(st.context.value.channel, message + "\n\tFile: " + st.absolutePath)
    ensures UserError(message) in r.events <==> st.context.value.verbose
  {
    Run(Returned(no), st.(info := Some(OperationInfo(code, message))), SendLogError(st, message))
  }

  /** `isEmptyData`: null, "", "\n", an empty array, or a string that trims to "". */
  predicate IsEmptyData(data: Value) {
    || data == Null
    || data == Str("")
    || data == Str("\n")
    || (data.Array? && |data.entries| == 0)
    || (data.Str? && Trim(data.s) == "")
  }

  /** A line feed becomes an HTML line break. */
  function Breaks(s: string): string {
    ReplaceAll(s, "\n", "<br>")
  }

  function StageAction(stage: Stage): string {
    match stage
    case LoadStage => "Loading"
    case SaveStage => "Saving"
  }

  /**
   `formatValidationError`: the validator's error, the stage line and the
   description, separated by `<br>`, with every line feed turned into `<br>`.
   */
  function FormatValidationError(st: YamlStorage, details: Validator.ValidationResult): (r: string)
    requires st.context.Some?
    ensures '\n' !in r
    ensures r == Breaks(details.error) + "<br>"
                 + Breaks(StageAction(st.context.value.stage) + " the file: " + st.filename) + "<br>"
                 + Breaks(details.errorDescription)
  {
    var stageLine := StageAction(st.context.value.stage) + " the file: " + st.filename;
    var message := details.error + "<br>" + stageLine + "<br>" + details.errorDescription;
    ReplaceCharRemoves(message, '\n', "<br>");
    ReplaceCharDistributes(details.error + "<br>" + stageLine + "<br>", details.errorDescription, '\n', "<br>");
    ReplaceCharDistributes(details.error + "<br>" + stageLine, "<br>", '\n', "<br>");
    ReplaceCharDistributes(details.error + "<br>", stageLine, '\n', "<br>");
    ReplaceCharDistributes(details.error, "<br>", '\n', "<br>");
    BreakHasNoLineFeed();
    ReplaceAll(message, "\n", "<br>")
  }

  lemma BreakHasNoLineFeed()
    ensures Breaks("<br>") == "<br>"
  {
    var s := "<br>";
    forall i | 0 <= i <= |s| ensures !MatchAt(s, "\n", i) {
      if i + 1 <= |s| {
        assert s[i..i + 1] == [s[i]];
      }
    }
    ReplaceAllAbsent(s, "\n", "<br>");
  }

  // ---------------------------------------------------------------------
  // Outcomes

  /** A failure reported through `fail`: false, its info, and exactly the events of one `fail` call. */
  predicate Reported<T(==)>(r: Run<T>, no: T, code: int) {
    && r.exit == Returned(no)
    && r.storage.info.Some?
    && r.storage.info.value.errorCode == code
    && r.storage.context.Some?
    && r.events == SendLogError(r.storage, r.storage.info.value.errorText)
  }

  /** A validator failure passed on unchanged: its code, and the composed message as the info text. */
  predicate ReportedValidation<T(==)>(r: Run<T>, no: T, details: Validator.ValidationResult) {
    && Reported(r, no, details.errorCode)
    && r.storage.info.value.errorText == FormatValidationError(r.storage, details)
  }

  /** What follows the validator's verdict inside `load` (None: a TypeError escaped). */
  predicate LoadFollowsValidator(r: Run<Option<Value>>, v: Option<Validator.ValidationResult>) {
    && (v.None? ==> r.exit == TypeErrorRaised && r.storage.info.None? && r.events == [])
    && (v.Some? && !v.value.pass ==> ReportedValidation(r, None, v.value))
    && (v.Some? && v.value.pass ==>
          && r.exit == Returned(Some(v.value.parsed))
          && r.events == []
          && r.storage.info == Some(OperationInfo(ErrorSuccess, "YAML validation passed.")))
  }

  // ---------------------------------------------------------------------
  // load

  /**
   `checkYamlSyntax`: None stands for FALSE; Some(details) for TRUE, with
   the validator's result that `getResult()` then returns.
   */
  function CheckYamlSyntax(st: YamlStorage, codec: Validator.Codec, data: string): (r: Run<Option<Validator.ValidationResult>>)
    requires st.context.Some?
    ensures r.storage.absolutePath == st.absolutePath && r.storage.filename == st.filename
    ensures r.storage.context == st.context
    ensures EmptyString(data) ==> Reported(r, None, ErrorNoYamlData)
    ensures !EmptyString(data) ==>
      var v := Validator.Validate(codec, Str(data));
      && (v.None? ==> r.exit == TypeErrorRaised && r.storage.info == st.info && r.events == [])
      && (v.Some? && !v.value.pass ==> ReportedValidation(r, None, v.value))
      && (v.Some? && v.value.pass ==>
            && r.exit == Returned(Some(v.value))
            && r.events == []
            && r.storage.info == Some(OperationInfo(ErrorSuccess, "YAML validation passed.")))
  {
    if EmptyString(data) then
      Fail(st, ErrorNoYamlData, "File " + st.filename + " has no YAML data", None)
    else
      match Validator.Validate(codec, Str(data))
      case None => Run(TypeErrorRaised, st, [])
      case Some(details) =>
        if !details.pass then
          Fail(st, details.errorCode, FormatValidationError(st, details), None)
        else
          Run(Returned(Some(details)), st.(info := Some(OperationInfo(ErrorSuccess, "YAML validation passed."))), [])
  }

  /** The content `load` hands to the validator: the file text, normalised. */
  function LoadPayload(content: string): Value {
    Str(Normalize.NormalizeYamlString(content))
  }

  /**
   `parseYamlFile`: read, reject blank content, normalise, validate, return
   `parsed`. The NO_YAML_DATA guard of `checkYamlSyntax` never fires here.
   */
  function ParseYamlFile(st: YamlStorage, fs: FileSystem, codec: Validator.Codec): (r: Run<Option<Value>>)
    requires st.context.Some? && st.info.None?
    ensures r.storage.absolutePath == st.absolutePath && r.storage.filename == st.filename
    ensures r.storage.context == st.context
    ensures fs.read(st.absolutePath).None? ==> Reported(r, None, ErrorReadFailed)
    ensures fs.read(st.absolutePath).Some? && EmptyString(Trim(fs.read(st.absolutePath).value)) ==>
      Reported(r, None, ErrorEmptyFile)
    ensures fs.read(st.absolutePath).Some? && !EmptyString(Trim(fs.read(st.absolutePath).value)) ==>
      LoadFollowsValidator(r, Validator.Validate(codec, LoadPayload(fs.read(st.absolutePath).value)))
  {
    match fs.read(st.absolutePath)
    case None => Fail(st, ErrorReadFailed, "The file " + st.filename + " could not be read", None)
    case Some(content) =>
      if EmptyString(Trim(content)) then
        Fail(st, ErrorEmptyFile, "The file " + st.filename + " is empty", None)
      else
        var normalized := Normalize.NormalizeYamlString(content);
        Normalize.NormalizeKeepsEmptiness(content);
        assert !EmptyString(normalized) by {
          assert Trim("") == "";
          assert Trim("0") == "0" by { assert "0"[1..] == ""; }
        }
        var syntax := CheckYamlSyntax(st, codec, normalized);
        match syntax.exit
        case TypeErrorRaised => Run(TypeErrorRaised, syntax.storage, syntax.events)
        case Returned(details) =>
          Run(Returned(match details case Some(d) => Some(d.parsed) case None => None), syntax.storage, syntax.events)
  }

  /**
   `load(filePath, loggerChannel, verbose)`: the checks in order, each
   failure reported once through `fail`; on success the validator's
   `parsed` value is returned and the info says code 0. An empty path
   leaves the previous operation's path and file name in place.
   */
  function Load(st: YamlStorage, fs: FileSystem, codec: Validator.Codec, filePath: string,
                channel: string, verbose: bool): (r: Run<Option<Value>>)
    ensures r.storage.context == Some(Context(channel, verbose, LoadStage))
    ensures EmptyString(filePath) ==>
      && Reported(r, None, ErrorEmptyPath)
      && r.storage.absolutePath == st.absolutePath && r.storage.filename == st.filename
    ensures !EmptyString(filePath) ==>
      r.storage.absolutePath == fs.resolve(filePath) && r.storage.filename == fs.basename(fs.resolve(filePath))
    ensures var t := fs.resolve(filePath);
      !EmptyString(filePath) && !fs.fileExists(t) ==> Reported(r, None, ErrorFileNotFound)
    ensures var t := fs.resolve(filePath);
      !EmptyString(filePath) && fs.fileExists(t) && !fs.isReadable(t) ==> Reported(r, None, ErrorFileNotReadable)
    ensures var t := fs.resolve(filePath);
      !EmptyString(filePath) && fs.fileExists(t) && fs.isReadable(t) && fs.read(t).None? ==>
        Reported(r, None, ErrorReadFailed)
    ensures var t := fs.resolve(filePath);
      !EmptyString(filePath) && fs.fileExists(t) && fs.isReadable(t) && fs.read(t).Some?
      && EmptyString(Trim(fs.read(t).value)) ==>
        Reported(r, None, ErrorEmptyFile)
    ensures var t := fs.resolve(filePath);
      !EmptyString(filePath) && fs.fileExists(t) && fs.isReadable(t) && fs.read(t).Some?
      && !EmptyString(Trim(fs.read(t).value)) ==>
        LoadFollowsValidator(r, Validator.Validate(codec, LoadPayload(fs.read(t).value)))
  {
    var s0 := ResetState(st, channel, verbose, LoadStage);
    if EmptyString(filePath) then
      Fail(s0, ErrorEmptyPath, "Empty file path provided", None)
    else
      var s1 := PrepareFilePath(s0, fs, filePath);
      if !fs.fileExists(s1.absolutePath) then
        Fail(s1, ErrorFileNotFound, "File " + s1.filename + " not found", None)
      else if !fs.isReadable(s1.absolutePath) then
        Fail(s1, ErrorFileNotReadable, "File " + s1.filename + " is not readable", None)
      else
        ParseYamlFile(s1, fs, codec)
  }

  // ---------------------------------------------------------------------
  // save

  /** `writeYamlFile`: one write attempt; a failed write is reported through `fail`. */
  function WriteYamlFile(st: YamlStorage, fs: FileSystem, yamlContent: string): (r: Run<bool>)
    requires st.context.Some?
    ensures r.storage.absolutePath == st.absolutePath && r.storage.filename == st.filename
    ensures r.storage.context == st.context
    ensures |r.events| > 0 && r.events[0] == WriteAttempt(st.absolutePath, yamlContent)
    ensures !fs.write(st.absolutePath, yamlContent) ==>
      Reported(Run(r.exit, r.storage, r.events[1..]), false, ErrorWriteFailed)
    ensures fs.write(st.absolutePath, yamlContent) ==>
      && r.exit == Returned(true)
      && r.events == [WriteAttempt(st.absolutePath, yamlContent)]
      && r.storage.info == Some(OperationInfo(ErrorSuccess, "File saved successfully."))
  {
    var attempt := [WriteAttempt(st.absolutePath, yamlContent)];
    if !fs.write(st.absolutePath, yamlContent) then
      var failed := Fail(st, ErrorWriteFailed, "The file " + st.filename + " cannot be written.", false);
      assert (attempt + failed.events)[1..] == failed.events;
      Run(failed.exit, failed.storage, attempt + failed.events)
    else
      Run(Returned(true), st.(info := Some(OperationInfo(ErrorSuccess, "File saved successfully."))), attempt)
  }

  /** The value `save` hands to the validator: strings are normalised first. */
  function SavePayload(data: Value): Value {
    if data.Str? then Str(Normalize.NormalizeYamlString(data.s)) else data
  }

  /** No event of the trace writes to the file system. */
  predicate NoWrite(events: seq<Event>) {
    forall k :: 0 <= k < |events| ==> !events[k].WriteAttempt?
  }

  /** What follows the validator's verdict inside `save`, for the target file `t`. */
  predicate SaveFollowsValidator(r: Run<bool>, fs: FileSystem, t: string, v: Option<Validator.ValidationResult>) {
    && (v.None? ==> r.exit == TypeErrorRaised && r.storage.info.None? && r.events == [])
    && (v.Some? && !v.value.pass ==> ReportedValidation(r, false, v.value) && NoWrite(r.events))
    && (v.Some? && v.value.pass ==>
          && v.value.yaml.Some?
          && |r.events| > 0 && r.events[0] == WriteAttempt(t, v.value.yaml.value)
          && (!fs.write(t, v.value.yaml.value) ==>
                Reported(Run(r.exit, r.storage, r.events[1..]), false, ErrorWriteFailed))
          && (fs.write(t, v.value.yaml.value) ==>
                && r.exit == Returned(true)
                && r.events == [WriteAttempt(t, v.value.yaml.value)]
                && r.storage.info == Some(OperationInfo(ErrorSuccess, "File saved successfully."))))
  }

  /**
   `save(filePath, data, loggerChannel, verbose)`: the path and the data
   are checked before the file system is consulted; the file must already
   exist and be writable; only the validator's YAML text is ever written,
   and only when validation passed.
   */
  function Save(st: YamlStorage, fs: FileSystem, codec: Validator.Codec, filePath: string, data: Value,
                channel: string, verbose: bool): (r: Run<bool>)
    ensures r.storage.context == Some(Context(channel, verbose, SaveStage))
    ensures EmptyString(filePath) ==>
      && Reported(r, false, ErrorEmptyPath)
      && r.storage.absolutePath == st.absolutePath && r.storage.filename == st.filename
    ensures !EmptyString(filePath) && IsEmptyData(data) ==>
      && Reported(r, false, ErrorNoData)
      && r.storage.absolutePath == st.absolutePath && r.storage.filename == st.filename
    ensures !EmptyString(filePath) && !IsEmptyData(data) ==>
      r.storage.absolutePath == fs.resolve(filePath) && r.storage.filename == fs.basename(fs.resolve(filePath))
    ensures var t := fs.resolve(filePath);
      !EmptyString(filePath) && !IsEmptyData(data) && !fs.fileExists(t) ==> Reported(r, false, ErrorFileNotFound)
    ensures var t := fs.resolve(filePath);
      !EmptyString(filePath) && !IsEmptyData(data) && fs.fileExists(t) && !fs.isWritable(t) ==>
        Reported(r, false, ErrorFileNotWritable)
    ensures var t := fs.resolve(filePath);
      !EmptyString(filePath) && !IsEmptyData(data) && fs.fileExists(t) && fs.isWritable(t) ==>
        SaveFollowsValidator(r, fs, t, Validator.Validate(codec, SavePayload(data)))
  {
    var s0 := ResetState(st, channel, verbose, SaveStage);
    if EmptyString(filePath) then
      Fail(s0, ErrorEmptyPath, "Empty file path provided", false)
    else if IsEmptyData(data) then
      Fail(s0, ErrorNoData, "No data provided", false)
    else
      var s1 := PrepareFilePath(s0, fs, filePath);
      if !fs.fileExists(s1.absolutePath) then
        Fail(s1, ErrorFileNotFound, "File " + s1.filename + " not found", false)
      else if !fs.isWritable(s1.absolutePath) then
        Fail(s1, ErrorFileNotWritable, "File " + s1.filename + " is not writable", false)
      else
        match Validator.Validate(codec, SavePayload(data))
        case None => Run(TypeErrorRaised, s1, [])
        case Some(details) =>
          if details.pass then WriteYamlFile(s1, fs, details.yaml.value)
          else Fail(s1, details.errorCode, FormatValidationError(s1, details), false)
  }
}
