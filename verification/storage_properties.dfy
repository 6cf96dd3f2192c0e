/**
 What `load` and `save` promise across all inputs: which error codes they
 can report, that every failure is logged exactly once, that only the
 validator's YAML text is ever written, and how the checks that come
 before the file system decide on their own.
 */
module StorageProperties {
  import opened Php
  import Normalize
  import Validator
  import opened Storage

  /** The number of logger entries in a trace. */
  function LogCount(events: seq<Event>): nat
    decreases |events|
  {
    if |events| == 0 then 0
    else (if events[0].LogError? then 1 else 0) + LogCount(events[1..])
  }

  /** The number of write attempts in a trace. */
  function WriteCount(events: seq<Event>): nat
    decreases |events|
  {
    if |events| == 0 then 0
    else (if events[0].WriteAttempt? then 1 else 0) + WriteCount(events[1..])
  }

  /** A trace writes nothing exactly when it counts no write attempts. */
  lemma {:induction false} NoWriteCountsZero(events: seq<Event>)
    ensures NoWrite(events) <==> WriteCount(events) == 0
    decreases |events|
  {
    if |events| > 0 {
      NoWriteCountsZero(events[1..]);
      assert NoWrite(events) <==> !events[0].WriteAttempt? && NoWrite(events[1..]) by {
        if !events[0].WriteAttempt? && NoWrite(events[1..]) {
          forall k | 0 <= k < |events| ensures !events[k].WriteAttempt? {
            if k > 0 {
              assert events[k] == events[1..][k - 1];
            }
          }
        }
      }
    }
  }

  /** `sendLogError` makes exactly one logger entry and never writes. */
  lemma SendLogErrorLogsOnce(st: YamlStorage, message: string)
    requires st.context.Some?
    ensures LogCount(SendLogError(st, message)) == 1
    ensures NoWrite(SendLogError(st, message))
    ensures UserError(message) in SendLogError(st, message) <==> st.context.value.verbose
  {
    var events := SendLogError(st, message);
    var last := [events[|events| - 1]];
    assert last[1..] == [];
    assert last[0] == LogError(st.context.value.channel, message + "\n\tFile: " + st.absolutePath);
    assert LogCount(last) == 1;
    if st.context.value.verbose {
      assert events[0].UserError? && events[1..] == last;
      assert LogCount(events) == LogCount(events[1..]);
    } else {
      assert events == last;
    }
  }

  /** A `fail` report logs once, writes nothing, and shows its text exactly when verbose. */
  lemma ReportedLogsOnce<T>(r: Run<T>, no: T, code: int)
    requires Reported(r, no, code)
    ensures LogCount(r.events) == 1 && NoWrite(r.events)
    ensures UserError(r.storage.info.value.errorText) in r.events <==> r.storage.context.value.verbose
  {
    SendLogErrorLogsOnce(r.storage, r.storage.info.value.errorText);
  }

  /** The codes `load` can leave in its info. */
  predicate LoadCode(code: int) {
    code in {ErrorSuccess, ErrorEmptyPath, ErrorFileNotFound, ErrorFileNotReadable, ErrorReadFailed,
             ErrorEmptyFile, Validator.ErrorValidationFailed, Validator.ErrorScalarValue,
             Validator.ErrorParseFailed, Validator.ErrorNoData}
  }

  /** The codes `save` can leave in its info. */
  predicate SaveCode(code: int) {
    code in {ErrorSuccess, ErrorEmptyPath, ErrorFileNotFound, ErrorFileNotWritable, ErrorWriteFailed,
             ErrorNoData, Validator.ErrorValidationFailed, Validator.ErrorScalarValue,
             Validator.ErrorParseFailed, Validator.ErrorNoData}
  }

  /**
   `load` returns the parsed array exactly when its info says code 0, and
   false exactly when the info carries a non-zero code; the info is missing
   only when a TypeError escaped. A failure is logged once and shown to
   the user exactly when verbose; a success logs nothing. NO_YAML_DATA (7),
   FILE_NOT_WRITABLE, WRITE_FAILED and NO_DATA never come out of `load`,
   and `load` never writes.
   */
  lemma LoadOutcomes(st: YamlStorage, fs: FileSystem, codec: Validator.Codec, filePath: string,
                     channel: string, verbose: bool)
    ensures var r := Load(st, fs, codec, filePath, channel, verbose);
      r.exit == TypeErrorRaised <==> r.storage.info.None?
    ensures var r := Load(st, fs, codec, filePath, channel, verbose);
      r.exit.Returned? && r.exit.value.Some? <==>
        r.storage.info == Some(OperationInfo(ErrorSuccess, "YAML validation passed."))
    ensures var r := Load(st, fs, codec, filePath, channel, verbose);
      r.exit == Returned(None) <==> r.storage.info.Some? && r.storage.info.value.errorCode != ErrorSuccess
    ensures var r := Load(st, fs, codec, filePath, channel, verbose);
      r.storage.info.Some? ==> LoadCode(r.storage.info.value.errorCode)
    ensures var r := Load(st, fs, codec, filePath, channel, verbose);
      r.exit == Returned(None) ==>
        && LogCount(r.events) == 1
        && r.storage.info.Some? && (UserError(r.storage.info.value.errorText) in r.events <==> verbose)
    ensures var r := Load(st, fs, codec, filePath, channel, verbose);
      r.exit != Returned(None) ==> r.events == []
    ensures NoWrite(Load(st, fs, codec, filePath, channel, verbose).events)
  {
    var r := Load(st, fs, codec, filePath, channel, verbose);
    var t := fs.resolve(filePath);
    if EmptyString(filePath) || !fs.fileExists(t) || !fs.isReadable(t) || fs.read(t).None?
       || EmptyString(Trim(fs.read(t).value)) {
      ReportedLogsOnce(r, None, r.storage.info.value.errorCode);
    } else {
      var v := Validator.Validate(codec, LoadPayload(fs.read(t).value));
      assert LoadFollowsValidator(r, v);
      if v.Some? && !v.value.pass {
        ReportedLogsOnce(r, None, v.value.errorCode);
      }
    }
  }

  /**
   `save` returns true exactly when its info says the file was saved, and
   false exactly when the info carries a non-zero code; the info is missing
   only when a TypeError escaped. A failure is logged once and shown to the
   user exactly when verbose; a success logs nothing. READ_FAILED,
   EMPTY_FILE, NO_YAML_DATA and FILE_NOT_READABLE never come out of `save`.
   */
  lemma SaveOutcomes(st: YamlStorage, fs: FileSystem, codec: Validator.Codec, filePath: string, data: Value,
                     channel: string, verbose: bool)
    ensures var r := Save(st, fs, codec, filePath, data, channel, verbose);
      r.exit == TypeErrorRaised <==> r.storage.info.None?
    ensures var r := Save(st, fs, codec, filePath, data, channel, verbose);
      r.exit == Returned(true) <==> r.storage.info == Some(OperationInfo(ErrorSuccess, "File saved successfully."))
    ensures var r := Save(st, fs, codec, filePath, data, channel, verbose);
      r.exit == Returned(false) <==> r.storage.info.Some? && r.storage.info.value.errorCode != ErrorSuccess
    ensures var r := Save(st, fs, codec, filePath, data, channel, verbose);
      r.storage.info.Some? ==> SaveCode(r.storage.info.value.errorCode)
    ensures var r := Save(st, fs, codec, filePath, data, channel, verbose);
      r.exit == Returned(false) ==>
        && LogCount(r.events) == 1
        && r.storage.info.Some? && (UserError(r.storage.info.value.errorText) in r.events <==> verbose)
    ensures var r := Save(st, fs, codec, filePath, data, channel, verbose);
      r.exit != Returned(false) ==> LogCount(r.events) == 0
  {
    var r := Save(st, fs, codec, filePath, data, channel, verbose);
    var t := fs.resolve(filePath);
    if EmptyString(filePath) || IsEmptyData(data) || !fs.fileExists(t) || !fs.isWritable(t) {
      ReportedLogsOnce(r, false, r.storage.info.value.errorCode);
      NoWriteCountsZero(r.events);
    } else {
      var v := Validator.Validate(codec, SavePayload(data));
      assert SaveFollowsValidator(r, fs, t, v);
      if v.Some? && !v.value.pass {
        ReportedLogsOnce(r, false, v.value.errorCode);
        NoWriteCountsZero(r.events);
      } else if v.Some? {
        var yaml := v.value.yaml.value;
        if !fs.write(t, yaml) {
          var rest := Run(r.exit, r.storage, r.events[1..]);
          ReportedLogsOnce(rest, false, ErrorWriteFailed);
          NoWriteCountsZero(rest.events);
          assert r.events == [r.events[0]] + r.events[1..];
        }
      }
    }
  }

  /**
   The only content `save` ever writes is the YAML text of a validation
   that passed, written once, to the resolved target, and only after the
   path, the data and the file have been accepted; `save` reports success
   only when that write succeeded.
   */
  lemma SaveWritesOnlyValidatedYaml(st: YamlStorage, fs: FileSystem, codec: Validator.Codec, filePath: string,
                                    data: Value, channel: string, verbose: bool)
    ensures var r := Save(st, fs, codec, filePath, data, channel, verbose);
      WriteCount(r.events) <= 1
    ensures var r := Save(st, fs, codec, filePath, data, channel, verbose);
      var t := fs.resolve(filePath);
      var v := Validator.Validate(codec, SavePayload(data));
      !NoWrite(r.events) ==>
        && !EmptyString(filePath) && !IsEmptyData(data) && fs.fileExists(t) && fs.isWritable(t)
        && v.Some? && v.value.pass
        && r.events[0] == WriteAttempt(t, v.value.yaml.value)
    ensures var r := Save(st, fs, codec, filePath, data, channel, verbose);
      var t := fs.resolve(filePath);
      var v := Validator.Validate(codec, SavePayload(data));
      r.exit == Returned(true) ==>
        && v.Some? && v.value.pass
        && r.events == [WriteAttempt(t, v.value.yaml.value)]
        && fs.write(t, v.value.yaml.value)
  {
    var r := Save(st, fs, codec, filePath, data, channel, verbose);
    var t := fs.resolve(filePath);
    if EmptyString(filePath) || IsEmptyData(data) || !fs.fileExists(t) || !fs.isWritable(t) {
      ReportedLogsOnce(r, false, r.storage.info.value.errorCode);
      NoWriteCountsZero(r.events);
    } else {
      var v := Validator.Validate(codec, SavePayload(data));
      assert SaveFollowsValidator(r, fs, t, v);
      if v.Some? && !v.value.pass {
        ReportedLogsOnce(r, false, v.value.errorCode);
        NoWriteCountsZero(r.events);
      } else if v.Some? {
        var yaml := v.value.yaml.value;
        if !fs.write(t, yaml) {
          var rest := Run(r.exit, r.storage, r.events[1..]);
          ReportedLogsOnce(rest, false, ErrorWriteFailed);
          NoWriteCountsZero(rest.events);
          assert r.events == [r.events[0]] + r.events[1..];
        }
      }
    }
  }

  /**
   An empty path, or empty data for `save`, is decided before the file
   system and the YAML library are consulted: any two of each give the
   same run.
   */
  lemma EarlyChecksIgnoreFileSystem(st: YamlStorage, fs1: FileSystem, fs2: FileSystem,
                                    codec1: Validator.Codec, codec2: Validator.Codec,
                                    filePath: string, data: Value, channel: string, verbose: bool)
    requires EmptyString(filePath) || IsEmptyData(data)
    ensures Save(st, fs1, codec1, filePath, data, channel, verbose) == Save(st, fs2, codec2, filePath, data, channel, verbose)
    ensures EmptyString(filePath) ==>
      Load(st, fs1, codec1, filePath, channel, verbose) == Load(st, fs2, codec2, filePath, channel, verbose)
  {
  }

  /**
   `isEmptyData` accepts exactly the inputs the validator treats as empty:
   its `"\n"` case is already covered by the trim case.
   */
  lemma EmptyDataMatchesValidator(data: Value)
    ensures IsEmptyData(data) <==> Validator.IsEmptyInput(data)
  {
    if data == Str("\n") {
      assert Blank("\n");
    }
  }

  /** PHP-empty "0" is not empty data; neither are integers and booleans. */
  lemma ZeroNotEmptyData()
    ensures EmptyString("0") && !IsEmptyData(Str("0"))
    ensures !IsEmptyData(Int(0)) && !IsEmptyData(Bool(false))
  {
    assert !Blank("0") by { assert !IsTrimChar("0"[0]); }
  }

  /**
   The text "0" is PHP-empty, yet `save` treats it as data and hands it to
   the validator, as it does every integer and boolean.
   */
  lemma ZeroIsData(st: YamlStorage, fs: FileSystem, codec: Validator.Codec, filePath: string,
                   channel: string, verbose: bool)
    requires !EmptyString(filePath)
    ensures EmptyString("0") && !IsEmptyData(Str("0"))
    ensures var r := Save(st, fs, codec, filePath, Str("0"), channel, verbose);
      r.storage.info.Some? ==> r.storage.info.value.errorCode != ErrorNoData
  {
    ZeroNotEmptyData();
    var r := Save(st, fs, codec, filePath, Str("0"), channel, verbose);
    var t := fs.resolve(filePath);
    if fs.fileExists(t) && fs.isWritable(t) {
      var v := Validator.Validate(codec, SavePayload(Str("0")));
      assert SaveFollowsValidator(r, fs, t, v);
      if v.Some? && v.value.pass && !fs.write(t, v.value.yaml.value) {
        assert Reported(Run(r.exit, r.storage, r.events[1..]), false, ErrorWriteFailed);
      }
    }
  }

  lemma TrimZero()
    ensures EmptyString(Trim("0"))
  {
    assert !IsTrimChar("0"[0]);
    assert "0"[1..] == "";
    assert Trim("0") == "0";
  }

  /** A file whose whole content is "0" is reported as empty by `load`. */
  lemma LoadZeroFileIsEmpty(st: YamlStorage, fs: FileSystem, codec: Validator.Codec, filePath: string,
                            channel: string, verbose: bool)
    requires !EmptyString(filePath)
    requires fs.fileExists(fs.resolve(filePath)) && fs.isReadable(fs.resolve(filePath))
    requires fs.read(fs.resolve(filePath)) == Some("0")
    ensures var r := Load(st, fs, codec, filePath, channel, verbose);
      r.exit == Returned(None) && r.storage.info.Some? && r.storage.info.value.errorCode == ErrorEmptyFile
  {
    var content := fs.read(fs.resolve(filePath)).value;
    TrimZero();
    assert EmptyString(Trim(content));
  }

  /**
   The two characters backslash and n: not blank, not empty data, and
   normalised to a line feed, which the validator rejects as empty.
   */
  lemma EscapedLineFeedFacts(codec: Validator.Codec)
    ensures !EmptyString(Trim("\\n")) && !IsEmptyData(Str("\\n"))
    ensures Normalize.NormalizeYamlString("\\n") == "\n"
    ensures Validator.Validate(codec, Str("\n")) == Some(Validator.NoDataResult)
  {
    var s := "\\n";
    assert !IsTrimChar(s[0]) && !IsTrimChar(s[1]);
    assert !Blank(s);
    assert TrimStart(s) == s;
    assert TrimEnd(s) == s;
    Normalize.NormalizeIsUnescape(s);
    assert s[2..] == "";
    assert Blank("\n");
  }

  /**
   A file holding the two characters backslash and n passes the empty-file
   check, is normalised to a single line feed, and is then rejected by the
   validator with its NO_DATA code (14).
   */
  lemma LoadEscapedLineFeedReportsNoData(st: YamlStorage, fs: FileSystem, codec: Validator.Codec,
                                         filePath: string, channel: string, verbose: bool)
    requires !EmptyString(filePath)
    requires fs.fileExists(fs.resolve(filePath)) && fs.isReadable(fs.resolve(filePath))
    requires fs.read(fs.resolve(filePath)) == Some("\\n")
    ensures var r := Load(st, fs, codec, filePath, channel, verbose);
      r.exit == Returned(None) && r.storage.info.Some? && r.storage.info.value.errorCode == Validator.ErrorNoData
  {
    var r := Load(st, fs, codec, filePath, channel, verbose);
    var content := fs.read(fs.resolve(filePath)).value;
    EscapedLineFeedFacts(codec);
    assert !EmptyString(Trim(content));
    assert LoadPayload(content) == Str("\n");
    assert LoadFollowsValidator(r, Some(Validator.NoDataResult));
  }

  /**
   The string data backslash-n is not empty data, so `save` passes the
   NO_DATA check (9); once normalised it is a single line feed, and the
   validator reports its own NO_DATA (14) and nothing is written.
   */
  lemma SaveEscapedLineFeedReportsNoData(st: YamlStorage, fs: FileSystem, codec: Validator.Codec,
                                         filePath: string, channel: string, verbose: bool)
    requires !EmptyString(filePath)
    requires fs.fileExists(fs.resolve(filePath)) && fs.isWritable(fs.resolve(filePath))
    ensures !IsEmptyData(Str("\\n"))
    ensures var r := Save(st, fs, codec, filePath, Str("\\n"), channel, verbose);
      && r.exit == Returned(false)
      && r.storage.info.Some? && r.storage.info.value.errorCode == Validator.ErrorNoData
      && NoWrite(r.events)
  {
    var r := Save(st, fs, codec, filePath, Str("\\n"), channel, verbose);
    EscapedLineFeedFacts(codec);
    assert SavePayload(Str("\\n")) == Str("\n");
    assert SaveFollowsValidator(r, fs, fs.resolve(filePath), Some(Validator.NoDataResult));
  }

  /** `save` normalises string data exactly as the single-pass unescape does. */
  lemma SavePayloadUnescapes(s: string)
    ensures SavePayload(Str(s)) == Str(Normalize.Unescape(s))
    ensures !Normalize.NoEscapes(s) || SavePayload(Str(s)) == Str(s)
  {
    Normalize.NormalizeIsUnescape(s);
    if Normalize.NoEscapes(s) {
      Normalize.UnescapeFixesClean(s);
    }
  }
}
