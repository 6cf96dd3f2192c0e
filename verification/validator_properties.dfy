/**
 What `checkYaml` promises, branch by branch, stated against the codec and
 proved about the `Validator` model.
 */
module ValidatorProperties {
  import opened Php
  import Normalize
  import opened Validator

  /** A snippet whose parse throws with a message PHP treats as true. */
  predicate Rejects(codec: Codec, text: string) {
    codec.parse(text).ParseException? && !EmptyString(codec.parse(text).message)
  }

  /** Reference: the exception messages of the snippets that fail to parse, in input order. */
  function ParseFailures(codec: Codec, texts: seq<string>): seq<string>
    decreases |texts|
  {
    if |texts| == 0 then []
    else
      var head := match codec.parse(texts[0]) case ParseException(m) => [m] case Decoded(_) => [];
      head + ParseFailures(codec, texts[1..])
  }

  /** Reference: every text preceded by a line feed. */
  function LineFeedJoined(texts: seq<string>): string {
    if |texts| == 0 then "" else "\n" + Join("\n", texts)
  }

  function Yamls(items: seq<SnippetInfo>): (ys: seq<string>)
    ensures |ys| == |items|
    ensures forall k :: 0 <= k < |items| ==> ys[k] == items[k].yaml
  {
    seq(|items|, k requires 0 <= k < |items| => items[k].yaml)
  }

  lemma LineFeedJoinedCons(texts: seq<string>)
    requires |texts| > 0
    ensures LineFeedJoined(texts) == "\n" + texts[0] + LineFeedJoined(texts[1..])
  {
  }

  /** The foreach of `checkStringArray` keeps its flag exactly when no item has a truthy error. */
  lemma {:induction false} AccumulateFlag(items: seq<SnippetInfo>, pass: bool, yaml: string)
    ensures Accumulate(items, pass, yaml).0 <==> pass && forall k :: 0 <= k < |items| ==> !ErrorIsTruthy(items[k])
    decreases |items|
  {
    if |items| > 0 {
      var pass' := if ErrorIsTruthy(items[0]) then false else pass;
      var rest := items[1..];
      AccumulateFlag(rest, pass', yaml + "\n" + items[0].yaml);
      if pass' && forall k :: 0 <= k < |rest| ==> !ErrorIsTruthy(rest[k]) {
        forall k | 0 <= k < |items| ensures !ErrorIsTruthy(items[k]) {
          if k > 0 {
            assert items[k] == rest[k - 1];
          }
        }
      }
    }
  }

  /** The foreach of `checkStringArray` appends every snippet after a line feed. */
  lemma {:induction false} AccumulateText(items: seq<SnippetInfo>, pass: bool, yaml: string)
    ensures Accumulate(items, pass, yaml).1 == yaml + LineFeedJoined(Yamls(items))
    decreases |items|
  {
    if |items| > 0 {
      var pass' := if ErrorIsTruthy(items[0]) then false else pass;
      var rest := items[1..];
      var head := "\n" + items[0].yaml;
      var tail := LineFeedJoined(Yamls(rest));
      assert yaml + "\n" + items[0].yaml == yaml + head;
      assert Accumulate(items, pass, yaml) == Accumulate(rest, pass', yaml + head);
      AccumulateText(rest, pass', yaml + head);
      assert Yamls(items)[1..] == Yamls(rest);
      LineFeedJoinedCons(Yamls(items));
      assert LineFeedJoined(Yamls(items)) == head + tail;
      assert (yaml + head) + tail == yaml + (head + tail);
    } else {
      assert Yamls(items) == [];
    }
  }

  /** The messages `packArrayListErrors` joins are exactly the parse failures, in order. */
  lemma {:induction false} FailureMessagesAreParseFailures(codec: Codec, texts: seq<string>, from: nat)
    ensures FailureMessages(CheckAll(codec, texts, from)) == ParseFailures(codec, texts)
    decreases |texts|
  {
    if |texts| > 0 {
      var items := CheckAll(codec, texts, from);
      assert items[1..] == CheckAll(codec, texts[1..], from + 1);
      FailureMessagesAreParseFailures(codec, texts[1..], from + 1);
    }
  }

  /**
   The list branch, for any list `checkYaml` hands to `checkStringArray`
   whose items can all be passed as strings: it passes exactly when no
   snippet is rejected; on success `parsed` is the list itself and `yaml`
   its dump; on failure `parsed` is null, `yaml` is the line-feed-prefixed
   snippets and the description joins the failing snippets' messages.
   */
  lemma StringArrayOutcome(codec: Codec, list: Value, texts: seq<string>)
    requires list.Array? && IsList(list.entries)
    requires SnippetTexts(Values(list.entries)) == Some(texts)
    ensures CheckArray(codec, list).Some?
    ensures var r := CheckArray(codec, list).value;
      && r.validationType == ArrayOfStrings
      && (r.pass <==> forall k :: 0 <= k < |texts| ==> !Rejects(codec, texts[k]))
      && (r.pass ==> r.errorCode == ErrorSuccess && r.parsed == list && r.yaml == Some(codec.dump(list))
                     && r.errorDescription == "")
      && (!r.pass ==> r.errorCode == ErrorValidationFailed && r.parsed == Null
                      && r.yaml == Some(LineFeedJoined(texts))
                      && r.errorDescription == Join("\n", ParseFailures(codec, texts)))
  {
    var items := CheckAll(codec, texts, 0);
    var acc := Accumulate(items, true, "");
    SnippetsPassIffNoneRejected(codec, texts);
    AccumulateText(items, true, "");
    FailureMessagesAreParseFailures(codec, texts, 0);
    assert Yamls(items) == texts;
    assert acc.1 == "" + LineFeedJoined(texts) == LineFeedJoined(texts);
    var info := if acc.0 then ListInfo(true, list, codec.dump(list), items) else ListInfo(false, Null, acc.1, items);
    assert CheckStringArray(codec, list) == Some(info);
    assert CheckArray(codec, list) == Some(ListResult(info));
  }

  /** The flag of the snippet loop stays true exactly when no snippet is rejected. */
  lemma SnippetsPassIffNoneRejected(codec: Codec, texts: seq<string>)
    ensures Accumulate(CheckAll(codec, texts, 0), true, "").0 <==> forall k :: 0 <= k < |texts| ==> !Rejects(codec, texts[k])
  {
    var items := CheckAll(codec, texts, 0);
    AccumulateFlag(items, true, "");
    forall k | 0 <= k < |texts| ensures ErrorIsTruthy(items[k]) <==> Rejects(codec, texts[k]) {
      assert items[k] == CheckYamlString(codec, texts[k], k);
    }
  }

  /** A list item that is null or an array makes `checkYaml` raise a TypeError. */
  lemma StringArrayTypeError(codec: Codec, list: Value)
    requires list.Array? && IsList(list.entries)
    requires exists k :: 0 <= k < |list.entries| && WeakString(list.entries[k].1).None?
    ensures CheckArray(codec, list).None?
  {
    var k :| 0 <= k < |list.entries| && WeakString(list.entries[k].1).None?;
    assert Values(list.entries)[k] == list.entries[k].1;
  }

  /**
   When no parse message is "" or "0", the list passes exactly when every
   snippet parses.
   */
  lemma StringArrayPassesIffAllParse(codec: Codec, list: Value, texts: seq<string>)
    requires list.Array? && IsList(list.entries)
    requires SnippetTexts(Values(list.entries)) == Some(texts)
    requires forall k :: 0 <= k < |texts| && codec.parse(texts[k]).ParseException? ==>
               !EmptyString(codec.parse(texts[k]).message)
    ensures CheckArray(codec, list).Some?
    ensures CheckArray(codec, list).value.pass <==> forall k :: 0 <= k < |texts| ==> codec.parse(texts[k]).Decoded?
  {
    StringArrayOutcome(codec, list, texts);
  }

  /**
   The structured branch: the array is dumped and the dump parsed again.
   A parse failure and a mismatch of JSON encodings both give code 10
   (never 12); after a successful re-parse `parsed` is the re-parsed value
   and `yaml` the dump, whether or not they match.
   */
  lemma StructuredOutcome(codec: Codec, data: Value)
    requires data.Array? && !IsList(data.entries)
    ensures CheckArray(codec, data).Some?
    ensures var r := CheckArray(codec, data).value;
            var y := codec.dump(data);
      && r.validationType == StructuredArray
      && r.errorCode != ErrorParseFailed
      && (codec.parse(y).ParseException? ==>
            !r.pass && r.errorCode == ErrorValidationFailed && r.parsed == Null && r.yaml == None
            && r.errorDescription == codec.parse(y).message)
      && (codec.parse(y).Decoded? ==>
            (r.pass <==> codec.json(codec.parse(y).value) == codec.json(data))
            && r.parsed == codec.parse(y).value && r.yaml == Some(y)
            && (!r.pass ==> r.errorCode == ErrorValidationFailed && r.errorDescription == MismatchMessage))
  {
  }

  /** With a codec that round-trips the array, the structured branch passes and returns the array. */
  lemma StructuredRoundTrip(codec: Codec, data: Value)
    requires data.Array? && !IsList(data.entries)
    requires codec.parse(codec.dump(data)) == Decoded(data)
    ensures Validate(codec, data).Some?
    ensures Validate(codec, data).value.pass && Validate(codec, data).value.parsed == data
  {
    StructuredOutcome(codec, data);
    assert !IsEmptyInput(data);
  }

  /**
   Empty inputs are rejected with NO_DATA before any rewriting or parsing:
   the outcome is the same whatever the codec.
   */
  lemma EmptyInputRejected(codec1: Codec, codec2: Codec, content: Value)
    requires IsEmptyInput(content)
    ensures Validate(codec1, content) == Validate(codec2, content)
    ensures var r := Validate(codec1, content);
      r.Some? && !r.value.pass && r.value.errorCode == ErrorNoData && r.value.parsed == Null && r.value.yaml == None
  {
  }

  /** A non-empty array given directly goes to the list or the structured branch. */
  lemma ArrayInputDispatch(codec: Codec, content: Value)
    requires content.Array? && |content.entries| > 0
    ensures Validate(codec, content) == CheckArray(codec, content)
  {
  }

  /** A string, integer or boolean whose parse throws gives PARSE_FAILED with the exception message. */
  lemma ParseFailureOutcome(codec: Codec, content: Value)
    requires content.Str? || content.Int? || content.Bool?
    requires !IsEmptyInput(content)
    requires codec.parse(ParseText(content)).ParseException?
    ensures var r := Validate(codec, content);
      && r.Some? && !r.value.pass && r.value.errorCode == ErrorParseFailed
      && r.value.validationType == WithoutValidation && r.value.parsed == Null && r.value.yaml == None
      && r.value.errorDescription == codec.parse(ParseText(content)).message
  {
    assert !content.Array?;
  }

  /** A string, integer or boolean that decodes to a scalar gives SCALAR_VALUE with the dump as `yaml`. */
  lemma ScalarOutcome(codec: Codec, content: Value)
    requires content.Str? || content.Int? || content.Bool?
    requires !IsEmptyInput(content)
    requires codec.parse(ParseText(content)).Decoded? && !codec.parse(ParseText(content)).value.Array?
    ensures var r := Validate(codec, content);
      && r.Some? && !r.value.pass && r.value.errorCode == ErrorScalarValue
      && r.value.validationType == Scalar && r.value.parsed == Null
      && r.value.yaml == Some(codec.dump(codec.parse(ParseText(content)).value))
  {
    assert !content.Array?;
  }

  /**
   A string, integer or boolean that decodes to a non-empty array is
   validated exactly as if that array had been given directly.
   */
  lemma DecodedArrayOutcome(codec: Codec, content: Value)
    requires content.Str? || content.Int? || content.Bool?
    requires !IsEmptyInput(content)
    requires codec.parse(ParseText(content)).Decoded?
    requires var d := codec.parse(ParseText(content)).value; d.Array? && |d.entries| > 0
    ensures Validate(codec, content) == Validate(codec, codec.parse(ParseText(content)).value)
  {
    assert !content.Array?;
  }

  /**
   A string, integer or boolean that decodes to the empty array is not
   reported as empty input: it reaches the list branch and passes.
   */
  lemma DecodedEmptyArrayPasses(codec: Codec, content: Value)
    requires content.Str? || content.Int? || content.Bool?
    requires !IsEmptyInput(content)
    requires codec.parse(ParseText(content)) == Decoded(Array([]))
    ensures var r := Validate(codec, content);
      && r.Some? && r.value.pass && r.value.errorCode == ErrorSuccess && r.value.validationType == ArrayOfStrings
      && r.value.parsed == Array([]) && r.value.yaml == Some(codec.dump(Array([])))
  {
    assert !content.Array?;
    var d := Array([]);
    assert SnippetTexts(Values(d.entries)) == Some([]);
    StringArrayOutcome(codec, d, []);
  }

  /**
   The validator rewrites only backslash-n: any string content holding a
   backslash-r reaches the parser with a backslash-r still in it.
   */
  lemma ValidatorKeepsEscapedR(s: string, i: int)
    requires MatchAt(s, Normalize.EscapedR, i)
    ensures Occurs(ParseText(Str(s)), Normalize.EscapedR)
  {
    Normalize.EscapedRSurvives(s, i);
  }

  /**
   Every returned call replaces the whole result: the validator's earlier
   state has no influence on the outcome.
   */
  lemma CheckYamlForgetsHistory(codec: Codec, v1: YamlValidator, v2: YamlValidator, content: Value)
    ensures CheckYaml(codec, v1, content).Returned? <==> CheckYaml(codec, v2, content).Returned?
    ensures CheckYaml(codec, v1, content).Returned? ==> CheckYaml(codec, v1, content) == CheckYaml(codec, v2, content)
  {
  }
}
