# yaml_toolkit: the validator and the storage service in Dafny

This project models the two services at the centre of the Drupal module
`yaml_toolkit`:

- `YamlValidator::checkYaml` sorts any PHP value into one of five branches:
  empty input, list of snippets, structured array, scalar, or parse failure.
  For each branch it builds a result record of fixed shape (`pass`,
  `validation_type`, `error_code`, `error`, `error_description`, `parsed`,
  `yaml`).
- `YamlStorage::load` and `YamlStorage::save` check their conditions in a
  fixed order. They hand the content to the validator and report every
  failure through the single funnel `fail`.

The Symfony YAML library is a `Codec` parameter. `parse` returns a decoded
value or the message of a `ParseException`, `dump` is total, and `json`
stands for `json_encode`. The host file system is a `FileSystem` oracle. The
logger and the messenger are an event trace.

Modules, one per component:

- `Php`: the PHP values and built-ins the services rely on. These are
  `trim`, `empty()` on strings, `str_replace`, `implode`, `array_is_list`,
  and the weak-mode conversion of a scalar to a `string` parameter.
- `Normalize`: the escaped-newline rewrites. The validator rewrites only
  backslash-n. The storage service rewrites backslash-n, then
  backslash-r-backslash-n, then backslash-r. `Unescape` is a single-pass
  reference that the storage rewrite is proved equal to.
- `Validator` and `ValidatorProperties`: `checkYaml` with its helpers, and
  what each branch promises.
- `Storage` and `StorageProperties`: `load`, `save`, `fail` and the helpers,
  and what the two operations promise over all inputs.

The model follows the code as written. The points where it differs from a
casual reading:

- `checkStringArray` drops its flag on `if ($item['error'])`, which is PHP
  truthiness. A parse message of `""` or `"0"` would therefore not fail the
  list. `StringArrayPassesIffAllParse` states the reading "passes exactly
  when every snippet parses" under the hypothesis that messages are truthy.
- `checkYamlString` takes a `string` in weak mode. An integer or boolean list
  item is converted. A null or array item raises a TypeError that escapes
  `checkYaml`, `load` and `save`. The model returns `None` (validator) or
  `TypeErrorRaised` (storage) for it, and the validator keeps its previous
  result.
- A raw string that decodes to an empty array reaches the list branch and
  passes. It is not reported as empty input.
- The storage rewrite turns a literal backslash-r-backslash-n into two line
  feeds. The backslash-n pass runs first, so the backslash-r-backslash-n
  pass never fires.
- The text backslash-n passes every emptiness check of `load` and `save`.
  It is then normalised to a single line feed, which the validator rejects
  with its own NO_DATA code 14.
- PHP's `empty()` treats `"0"` as empty. A file holding `0` is therefore
  reported as empty by `load`, while `save` hands the data `"0"` to the
  validator.
- `resetState` keeps the previous operation's path and file name. A failure
  on an empty path logs that stale path.
- The scalar branch's description carries the stray characters
  U+00E2 U+20AC U+2039, twice, between "values" and "are". They are kept
  as they appear in the source.

## Model

| member | source | states |
|---|---|---|
| `Php.Trim` | src/Service/YamlStorage.php:216 | `trim` returns the slice of its input left between a blank prefix and a blank suffix, where blank means made of " \t\n\r\0\x0B"; the result is empty exactly when the whole input is blank, and otherwise starts and ends with a character outside that set |
| `Php.TrimRemovesPadding` | src/Service/YamlStorage.php:216 | for every text that neither starts nor ends with a trim character, `trim` of that text with any blank padding on either side returns exactly the text |
| `Php.WeakString` | src/Service/YamlValidator.php:242 | a value can be passed to the `string` parameter exactly when it is a string, an integer or a boolean; a string passes unchanged, true becomes "1", false becomes "", and an integer becomes a text that reads back as that integer |
| `Php.NatTextDigits` | src/Service/YamlValidator.php:242 | the decimal text PHP gives a natural number is a non-empty run of digits, without a leading zero unless the number is 0, whose value read left to right is the number |
| `Php.IntTextRoundTrip` | src/Service/YamlValidator.php:77 | the text an integer input reaches `Yaml::parse` as (a minus sign before the digits of a negative number) reads back as that integer, for every integer |
| `Php.ReplaceAll` | src/Service/YamlValidator.php:70 | `str_replace` with a replacement no longer than the search string never lengthens the text |
| `Php.ReplaceAllAbsent` | src/Service/YamlStorage.php:310 | `str_replace` leaves a text in which the search string never occurs unchanged |
| `Php.ReplaceCharDistributes` | src/Service/YamlStorage.php:324 | replacing one character distributes over concatenation |
| `Php.ReplaceCharRemoves` | src/Service/YamlStorage.php:324 | replacing a character by a text that lacks it leaves no occurrence of that character |
| `Normalize.UnescapeNewlines` | src/Service/YamlValidator.php:69-71 | the validator's rewrite never lengthens its input and leaves no backslash-n behind |
| `Normalize.NormalizeYamlString` | src/Service/YamlStorage.php:309-311 | the storage rewrite is never longer than its input |
| `Normalize.EscapedNGone` | src/Service/YamlStorage.php:310 | after the backslash-n pass no backslash-n is left, even where a backslash precedes an escape |
| `Normalize.CrLfPassNeverFires` | src/Service/YamlStorage.php:310 | the backslash-r-backslash-n replacement changes nothing once backslash-n has been replaced |
| `Normalize.TwoPassesAreOne` | src/Service/YamlStorage.php:310 | the backslash-n pass followed by the backslash-r pass equals the single left-to-right unescape |
| `Normalize.NormalizeIsUnescape` | src/Service/YamlStorage.php:309-311 | the three sequential replacements equal the single-pass reference `Unescape` |
| `Normalize.UnescapeNoEscapes` | src/Service/YamlStorage.php:309-311 | the single-pass reference leaves no backslash followed by n or r |
| `Normalize.NormalizeLeavesNoEscapes` | src/Service/YamlStorage.php:309-311 | the normalised text contains neither backslash-n nor backslash-r |
| `Normalize.NormalizeIdempotent` | src/Service/YamlStorage.php:309-311 | normalising twice gives the same text as normalising once |
| `Normalize.NormalizeCrLfGivesTwoLineFeeds` | src/Service/YamlStorage.php:310 | a literal backslash-r-backslash-n becomes two line feeds, not one |
| `Normalize.NormalizeKeepsEmptiness` | src/Service/YamlStorage.php:216-234 | the rewrite yields "" or "0" exactly from "" or "0", which the empty-file check has already rejected |
| `Validator.CheckYamlString` | src/Service/YamlValidator.php:242-262 | a snippet report keeps its index and text, is valid exactly when the parse succeeds, and carries an error exactly when invalid |
| `Validator.CheckAll` | src/Service/YamlValidator.php:216-217 | one report per snippet, in input order, numbered by position |
| `Validator.SnippetTexts` | src/Service/YamlValidator.php:217 | the snippet texts exist exactly when every list item can be passed as a string, and each is PHP's conversion of its item |
| `Validator.CheckArray` | src/Service/YamlValidator.php:83-116 | an array goes to the list branch exactly when it is a list; a TypeError arises exactly for a list with an item that cannot be a string; pass holds iff the code is 0, the code is 0 or 10, and a pass has its YAML text |
| `Validator.Validate` | src/Service/YamlValidator.php:49-158 | pass holds iff error_code is 0; the code is one of 0, 10, 11, 12, 14 and never 13; 14 comes exactly from the empty inputs; a passing result has its YAML text; a TypeError comes only from non-empty input |
| `Validator.CheckYaml` | src/Service/YamlValidator.php:56-157 | the returned flag is the new result's `pass`, which holds iff its code is 0; a TypeError leaves the previous result in place |
| `ValidatorProperties.AccumulateFlag` | src/Service/YamlValidator.php:216-220 | the snippet loop keeps its flag exactly when no item has a truthy error |
| `ValidatorProperties.AccumulateText` | src/Service/YamlValidator.php:216-223 | the snippet loop appends every snippet, in order, each after a line feed |
| `ValidatorProperties.FailureMessagesAreParseFailures` | src/Service/YamlValidator.php:192-201 | the messages `packArrayListErrors` joins are exactly the parse failures of the snippets, in input order |
| `ValidatorProperties.SnippetsPassIffNoneRejected` | src/Service/YamlValidator.php:216-224 | the list flag stays true exactly when no snippet's parse throws with a truthy message |
| `ValidatorProperties.StringArrayOutcome` | src/Service/YamlValidator.php:85-100 | list branch: passes iff no snippet is rejected; on success parsed is the list itself, yaml its dump and code 0; on failure code 10, parsed null, yaml the line-feed-prefixed snippets, and the description the failures joined by line feeds |
| `ValidatorProperties.StringArrayTypeError` | src/Service/YamlValidator.php:242 | a null or array item in a list makes `checkYaml` raise a TypeError |
| `ValidatorProperties.StringArrayPassesIffAllParse` | src/Service/YamlValidator.php:212-229 | when no parse message is "" or "0", a list passes exactly when every snippet parses |
| `ValidatorProperties.StructuredOutcome` | src/Service/YamlValidator.php:103-116 | structured branch: a re-parse failure gives code 10 (never 12) with the exception message and null parsed and yaml; after a re-parse it passes iff the JSON encodings agree, parsed and yaml stay the re-parsed value and the dump, and a mismatch reports the mismatch message |
| `ValidatorProperties.StructuredRoundTrip` | src/Service/YamlValidator.php:273-285 | an associative array that the codec round-trips passes and is returned as parsed |
| `ValidatorProperties.EmptyInputRejected` | src/Service/YamlValidator.php:51-67 | empty input fails with code 14 and null parsed and yaml, whatever the codec |
| `ValidatorProperties.ArrayInputDispatch` | src/Service/YamlValidator.php:76-85 | a non-empty array is not parsed but goes straight to the list or structured branch |
| `ValidatorProperties.ParseFailureOutcome` | src/Service/YamlValidator.php:132-144 | a string, integer or boolean whose parse throws gives code 12 with the exception message as description and null parsed and yaml |
| `ValidatorProperties.ScalarOutcome` | src/Service/YamlValidator.php:118-130 | a string, integer or boolean that decodes to a scalar gives code 11, null parsed, and the dump of the decoded value as yaml |
| `ValidatorProperties.DecodedArrayOutcome` | src/Service/YamlValidator.php:76-85 | a string, integer or boolean that decodes to a non-empty array is validated exactly as if that array had been given |
| `ValidatorProperties.DecodedEmptyArrayPasses` | src/Service/YamlValidator.php:83-100 | a string that decodes to the empty array is not reported as empty input: it takes the list branch and passes with the empty array as parsed |
| `Normalize.EscapedRSurvives` | src/Service/YamlValidator.php:69-71 | for every text and every position holding backslash-r, the validator's backslash-n rewrite leaves a backslash-r in the result |
| `ValidatorProperties.ValidatorKeepsEscapedR` | src/Service/YamlValidator.php:69-77 | any string content that holds a backslash-r still holds one when it reaches `Yaml::parse` |
| `ValidatorProperties.CheckYamlForgetsHistory` | src/Service/YamlValidator.php:49-157 | every returned call replaces the whole result; the previous result has no influence on the outcome |
| `Storage.ResetState` | src/Service/YamlStorage.php:156-161 | starting an operation clears the info and records the logger channel, the verbosity and the stage; the path and file name of the previous operation stay, which is what `Load` and `Save` keep on an empty path |
| `Storage.PrepareFilePath` | src/Service/YamlStorage.php:166-174 | the recorded path is the resolved form of the argument and the file name is that path's base name; info and operation stay, so `LoadOutcomes` and `SaveOutcomes` see the codes of the later steps only |
| `Storage.Fail` | src/Service/YamlStorage.php:276-293 | `fail` returns false, sets info to the code and message, keeps path, file name and operation, logs the message with the path once, and shows it to the user exactly when verbose |
| `Storage.FormatValidationError` | src/Service/YamlStorage.php:316-325 | the message has no line feed and is the error, the stage line and the description, each with line feeds turned into `<br>`, joined by `<br>` |
| `Storage.CheckYamlSyntax` | src/Service/YamlStorage.php:232-249 | PHP-empty data fails with code 7; otherwise a validator failure is passed on with its code and the composed message, and a pass sets code 0 with "YAML validation passed." |
| `Storage.ParseYamlFile` | src/Service/YamlStorage.php:209-227 | a failed read gives 5, content that trims to "" or "0" gives 6, otherwise the normalised content goes to the validator and a pass returns its parsed value |
| `Storage.Load` | src/Service/YamlStorage.php:103-117 | the checks run in order: empty path 1 (path and file name of the previous operation kept), not found 2, not readable 3, read failure 5, empty file 6, then the validator's verdict |
| `Storage.WriteYamlFile` | src/Service/YamlStorage.php:262-271 | exactly one write of the given content to the path; a failed write gives code 8, a successful one code 0 with "File saved successfully." |
| `Storage.Save` | src/Service/YamlStorage.php:122-151 | the checks run in order: empty path 1, empty data 9, not found 2, not writable 4; a validator failure passes its code on and writes nothing; a pass writes the validator's YAML |
| `StorageProperties.SendLogErrorLogsOnce` | src/Service/YamlStorage.php:286-293 | one logger entry, no write, and a user message exactly when verbose |
| `StorageProperties.ReportedLogsOnce` | src/Service/YamlStorage.php:276-281 | a failure reported through `fail` logs once, writes nothing, and is shown exactly when verbose |
| `StorageProperties.LoadOutcomes` | src/Service/YamlStorage.php:103-117 | `load` returns the parsed array iff info says code 0 and false iff the code is non-zero; the code is one of 0, 1, 2, 3, 5, 6, 10, 11, 12, 14 (never 7); each failure is logged exactly once; `load` never writes |
| `StorageProperties.SaveOutcomes` | src/Service/YamlStorage.php:122-151 | `save` returns true iff info says the file was saved and false iff the code is non-zero; the code is one of 0, 1, 2, 4, 8, 9, 10, 11, 12, 14; each failure is logged exactly once and a success logs nothing |
| `StorageProperties.SaveWritesOnlyValidatedYaml` | src/Service/YamlStorage.php:139-146 | at most one write, only after every check passed, and only of the YAML text of a passing validation, to the resolved target; success implies that write succeeded |
| `StorageProperties.EarlyChecksIgnoreFileSystem` | src/Service/YamlStorage.php:123-131 | an empty path, or empty data for `save`, decides the run independently of the file system and the codec |
| `StorageProperties.EmptyDataMatchesValidator` | src/Service/YamlStorage.php:298-304 | `isEmptyData` holds exactly for the inputs the validator treats as empty |
| `StorageProperties.ZeroNotEmptyData` | src/Service/YamlStorage.php:298-304 | "0" is PHP-empty but is not empty data, and neither are the integer 0 and false |
| `StorageProperties.ZeroIsData` | src/Service/YamlStorage.php:125-130 | `save` never reports NO_DATA (9) for the data "0" |
| `StorageProperties.EscapedLineFeedFacts` | src/Service/YamlStorage.php:216-220 | the text backslash-n is neither blank nor empty data, normalises to a line feed, and that line feed is empty input to the validator |
| `StorageProperties.LoadZeroFileIsEmpty` | src/Service/YamlStorage.php:216-218 | a file holding "0" is reported as an empty file (6) |
| `StorageProperties.LoadEscapedLineFeedReportsNoData` | src/Service/YamlStorage.php:216-241 | a file holding backslash-n passes the empty-file check and fails in the validator with code 14 |
| `StorageProperties.SaveEscapedLineFeedReportsNoData` | src/Service/YamlStorage.php:129-149 | the data backslash-n passes the empty-data check, fails in the validator with code 14, and nothing is written |
| `StorageProperties.SavePayloadUnescapes` | src/Service/YamlStorage.php:139-141 | `save` hands the validator string data rewritten by the single-pass unescape, and unchanged when it holds no escapes |

## Left out

- The Symfony YAML library and `json_encode` are parameters: no YAML grammar is modelled. The dump flags (inline level 2, indent 2, literal blocks) are folded into `dump`. A `DumpException` thrown by `Yaml::dump` is not modelled.
- Host I/O is an oracle. `prepareFilePath`'s stream-wrapper scheme check, `realpath` and `file_exists` are one `resolve` function. `basename`, `is_readable`, `is_writable`, `file_get_contents` and `saveData` (with its replace mode and atomicity) are oracle fields.
- The logger and the messenger are an event trace. The logger channel is assumed always present, so the `if ($this->logger)` guard is always taken.
- Translation by `t()` is the identity. Each `%filename` placeholder becomes the plain file name, without the emphasis markup Drupal adds. Translatable markup objects are plain strings.
- Floats and objects are not PHP values of this model, nor is PHP's conversion of a float to a string.
- PHP strings are byte strings; the model uses sequences of characters. Every trim character and every search pattern is ASCII and the YAML codec is a parameter, so no operation of the model depends on the difference.
- PHP's array key rules are not enforced on `Value`: a numeric string key that PHP would store as an integer, and repeated keys, can be written. Arrays come from the codec or from `ListOf`, whose keys are 0, 1, 2, ...; the model never builds keys of its own otherwise.
- The `debug` entry of the validator result is left out. `validation_type` is kept as a branch tag, without its " from input <type>" suffix.
- Storage.Load: PHP's check of the declared `array|false` return type is not modelled; the validator's `parsed` value is returned as it is.
- `getInfo` and `getResult` are the fields `info` and `result` of the state records. The constructor and the dependency injection are left out.
- The interfaces under src/Contract/, src/Helper/StreamWrapperManagerHelper.php, the generated documentation and the module's main page are not part of this model.
