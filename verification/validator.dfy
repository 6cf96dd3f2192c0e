/**
 The YAML validator service (`YamlValidator`). Its entry point `checkYaml`
 sorts an input into one of five branches (empty input, array of snippets,
 structured array, scalar, parse failure) and builds a result record of fixed
 shape for each.

 The YAML library is a `Codec` parameter: `parse` returns a decoded value or
 the message of a `ParseException`, `dump` is total, and `json` stands for
 `json_encode` (None for its `false`).
 */
module Validator {
  import opened Php
  import Normalize

  const ErrorSuccess := 0
  const ErrorValidationFailed := 10
  const ErrorScalarValue := 11
  const ErrorParseFailed := 12
  const ErrorUnsupportedType := 13
  const ErrorNoData := 14

  const MismatchMessage := "Dumped YAML does not match the original array"

  /** The description of the scalar branch, with the stray characters the source text carries between its words. */
  const ScalarDescription := "Scalar values \U{E2}\U{20AC}\U{2039}\U{E2}\U{20AC}\U{2039}are not evaluated"

  datatype Parsed = Decoded(value: Value) | ParseException(message: string)

  /** `Yaml::parse`, `Yaml::dump` (fixed inline level, indent and literal blocks) and `json_encode`. */
  datatype Codec = Codec(parse: string -> Parsed, dump: Value -> string, json: Value -> Option<string>)

  /** The branch tag carried in `validation_type`. */
  datatype Branch = EmptyInput | ArrayOfStrings | StructuredArray | Scalar | WithoutValidation

  /** The record `getResult()` returns (the `debug` entry is not modelled). */
  datatype ValidationResult = ValidationResult(
    pass: bool,
    validationType: Branch,
    errorCode: int,
    error: string,
    errorDescription: string,
    parsed: Value,
    yaml: Option<string>)

  /** What `checkYamlString` reports for one snippet. */
  datatype SnippetInfo = SnippetInfo(index: nat, valid: bool, yaml: string, parsed: Value, error: Option<string>)

  /** What `checkStringArray` reports for a list. */
  datatype ListInfo = ListInfo(pass: bool, parsed: Value, yaml: string, items: seq<SnippetInfo>)

  /** What `checkStructuredArray` reports for an associative array. */
  datatype StructuredInfo = StructuredInfo(pass: bool, yaml: Option<string>, parsed: Value, error: Option<string>)

  /** The validator object: the last result, absent (`[]`) before the first call. */
  datatype YamlValidator = YamlValidator(result: Option<ValidationResult>)

  /**
   A call of `checkYaml` either returns its boolean, having replaced the
   result, or lets a PHP TypeError escape (a list item that cannot be passed
   as a `string`), leaving the previous result in place.
   */
  datatype CheckOutcome = Returned(pass: bool, validator: YamlValidator) | TypeErrorRaised(validator: YamlValidator)

  // ---------------------------------------------------------------------
  // Empty input

  /** null, '', a string that trims to '', or an empty array. */
  predicate IsEmptyInput(v: Value) {
    v == Null || v == Str("") || (v.Str? && Trim(v.s) == "") || (v.Array? && |v.entries| == 0)
  }

  const NoDataResult := ValidationResult(
    false, EmptyInput, ErrorNoData, "No data to validate",
    "YAML Validator received empty or null data", Null, None)

  // ---------------------------------------------------------------------
  // Array of snippets

  /** Parse one snippet; a ParseException is caught and reported. */
  function CheckYamlString(codec: Codec, snippet: string, index: nat): (r: SnippetInfo)
    ensures r.index == index && r.yaml == snippet
    ensures r.valid <==> r.error.None?
    ensures r.valid <==> codec.parse(snippet).Decoded?
  {
    match codec.parse(snippet)
    case Decoded(v) => SnippetInfo(index, true, snippet, v, None)
    case ParseException(m) => SnippetInfo(index, false, snippet, Null, Some(m))
  }

  /** The snippet reports for `texts`, numbered from `from`. */
  function CheckAll(codec: Codec, texts: seq<string>, from: nat): (items: seq<SnippetInfo>)
    ensures |items| == |texts|
    ensures forall k :: 0 <= k < |texts| ==> items[k] == CheckYamlString(codec, texts[k], from + k)
    decreases |texts|
  {
    if |texts| == 0 then []
    else [CheckYamlString(codec, texts[0], from)] + CheckAll(codec, texts[1..], from + 1)
  }

  /** The snippet texts of a list: each item passed to a `string` parameter. */
  function SnippetTexts(items: seq<Value>): (r: Option<seq<string>>)
    ensures r.Some? <==> forall k :: 0 <= k < |items| ==> WeakString(items[k]).Some?
    ensures r.Some? ==> |r.value| == |items|
    ensures r.Some? ==> forall k :: 0 <= k < |items| ==> WeakString(items[k]) == Some(r.value[k])
  {
    if forall k :: 0 <= k < |items| ==> WeakString(items[k]).Some? then
      Some(seq(|items|, k requires 0 <= k < |items| => WeakString(items[k]).value))
    else
      None
  }

  /** PHP's `if ($item['error'])`: the message is present and truthy (neither "" nor "0"). */
  predicate ErrorIsTruthy(item: SnippetInfo) {
    item.error.Some? && !EmptyString(item.error.value)
  }

  /**
   The foreach of `checkStringArray`: the pass flag drops on a truthy error
   and every snippet is appended to the text after a line feed.
   */
  function Accumulate(items: seq<SnippetInfo>, pass: bool, yaml: string): (bool, string)
    decreases |items|
  {
    if |items| == 0 then (pass, yaml)
    else
      var pass' := if ErrorIsTruthy(items[0]) then false else pass;
      Accumulate(items[1..], pass', yaml + "\n" + items[0].yaml)
  }

  /**
   `checkStringArray`: None when a list item is null or an array (the
   TypeError of `checkYamlString`'s `string` parameter).
   */
  function CheckStringArray(codec: Codec, list: Value): Option<ListInfo>
    requires list.Array?
  {
    match SnippetTexts(Values(list.entries))
    case None => None
    case Some(texts) =>
      var items := CheckAll(codec, texts, 0);
      var (pass, concatenated) := Accumulate(items, true, "");
      if pass then Some(ListInfo(true, list, codec.dump(list), items))
      else Some(ListInfo(false, Null, concatenated, items))
  }

  /** The messages of the invalid items, in order (`array_filter` then `array_column`). */
  function FailureMessages(items: seq<SnippetInfo>): seq<string>
    decreases |items|
  {
    if |items| == 0 then []
    else
      var head := if items[0].valid then [] else [match items[0].error case Some(m) => m case None => ""];
      head + FailureMessages(items[1..])
  }

  /** `packArrayListErrors`. */
  function PackArrayListErrors(items: seq<SnippetInfo>): string {
    Join("\n", FailureMessages(items))
  }

  function ListResult(info: ListInfo): ValidationResult {
    ValidationResult(
      info.pass, ArrayOfStrings,
      if info.pass then ErrorSuccess else ErrorValidationFailed,
      if info.pass then "YAML validation passed" else "YAML validation failed",
      if info.pass then "" else PackArrayListErrors(info.items),
      info.parsed, Some(info.yaml))
  }

  // ---------------------------------------------------------------------
  // Structured array

  /** `checkStructuredArray`: dump, parse the dump again, compare the JSON encodings. */
  function CheckStructuredArray(codec: Codec, data: Value): StructuredInfo {
    var yaml := codec.dump(data);
    match codec.parse(yaml)
    case ParseException(m) => StructuredInfo(false, None, Null, Some(m))
    case Decoded(p) =>
      var isValid := codec.json(p) == codec.json(data);
      StructuredInfo(isValid, Some(yaml), p, if isValid then None else Some(MismatchMessage))
  }

  function StructuredResult(info: StructuredInfo): ValidationResult {
    ValidationResult(
      info.pass, StructuredArray,
      if info.pass then ErrorSuccess else ErrorValidationFailed,
      if info.pass then "YAML validation passed" else "YAML validation failed",
      if info.pass then "" else match info.error case Some(m) => m case None => "",
      info.parsed, info.yaml)
  }

  // ---------------------------------------------------------------------
  // checkYaml

  /** A decoded or given array: a list goes to the snippet check, anything else to the round trip. */
  function CheckArray(codec: Codec, data: Value): (r: Option<ValidationResult>)
    requires data.Array?
    ensures r.None? <==> IsList(data.entries) && SnippetTexts(Values(data.entries)).None?
    ensures r.Some? ==> (r.value.pass <==> r.value.errorCode == ErrorSuccess)
    ensures r.Some? ==> r.value.errorCode in {ErrorSuccess, ErrorValidationFailed}
    ensures r.Some? && r.value.pass ==> r.value.yaml.Some?
    ensures r.Some? ==> (r.value.validationType == ArrayOfStrings <==> IsList(data.entries))
  {
    if IsList(data.entries) then
      match CheckStringArray(codec, data)
      case None => None
      case Some(info) => Some(ListResult(info))
    else
      Some(StructuredResult(CheckStructuredArray(codec, data)))
  }

  /**
   The text handed to `Yaml::parse` for a non-array input: a string after
   its backslash-n escapes are rewritten, an integer or boolean converted
   as PHP does for a `string` parameter.
   */
  function ParseText(content: Value): string
    requires content.Str? || content.Int? || content.Bool?
  {
    if content.Str? then Normalize.UnescapeNewlines(content.s) else WeakString(content).value
  }

  /**
   `checkYaml` followed by `getResult()`; None when a TypeError escapes.
   Every result that is returned satisfies pass <==> error_code == 0, never
   carries UNSUPPORTED_TYPE (13), and carries NO_DATA (14) exactly for the
   empty inputs; a passing result always has its YAML text.
   */
  function Validate(codec: Codec, content: Value): (r: Option<ValidationResult>)
    ensures r.Some? ==> (r.value.pass <==> r.value.errorCode == ErrorSuccess)
    ensures r.Some? ==> r.value.errorCode in {ErrorSuccess, ErrorValidationFailed, ErrorScalarValue, ErrorParseFailed, ErrorNoData}
    ensures r.Some? ==> r.value.errorCode != ErrorUnsupportedType
    ensures (r.Some? && r.value.errorCode == ErrorNoData) <==> IsEmptyInput(content)
    ensures r.Some? && r.value.pass ==> r.value.yaml.Some?
    ensures r.None? ==> !IsEmptyInput(content)
  {
    if IsEmptyInput(content) then Some(NoDataResult)
    else if content.Array? then CheckArray(codec, content)
    else
      match codec.parse(ParseText(content))
      case ParseException(m) =>
        Some(ValidationResult(false, WithoutValidation, ErrorParseFailed, "Conversion to yaml failed", m, Null, None))
      case Decoded(data) =>
        if data.Array? then CheckArray(codec, data)
        else Some(ValidationResult(false, Scalar, ErrorScalarValue, "Scalar value",
                                   ScalarDescription, Null, Some(codec.dump(data))))
  }

  /** `checkYaml` on the validator object: the returned flag is the new result's `pass`. */
  function CheckYaml(codec: Codec, validator: YamlValidator, content: Value): (out: CheckOutcome)
    ensures out.Returned? ==> out.validator.result.Some? && out.pass == out.validator.result.value.pass
    ensures out.Returned? ==> (out.pass <==> out.validator.result.value.errorCode == ErrorSuccess)
    ensures out.TypeErrorRaised? ==> out.validator == validator
  {
    match Validate(codec, content)
    case Some(result) => Returned(result.pass, YamlValidator(Some(result)))
    case None => TypeErrorRaised(validator)
  }
}
