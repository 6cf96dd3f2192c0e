/**
 The fragment of PHP that the YAML toolkit relies on: its values (null, bool,
 int, string and ordered arrays), the string functions `trim`, `empty`,
 `str_replace` and `implode`, and the weak-mode conversion of a scalar to a
 `string` parameter. Floats and objects are not part of this model.
 */
module Php {

  datatype Option<T> = None | Some(value: T)

  /** A PHP array key: integer or string. */
  datatype Key = IntKey(i: int) | StrKey(s: string)

  /**
   A PHP value. An array is an ordered sequence of key/value entries; PHP's
   key rules (distinct keys, numeric string keys stored as integers) are not
   imposed, since arrays arrive from the codec and are only read.
   */
  datatype Value =
    | Null
    | Bool(b: bool)
    | Int(i: int)
    | Str(s: string)
    | Array(entries: seq<(Key, Value)>)

  /** `array_is_list`: the keys are exactly 0, 1, 2, ... in order (true of the empty array). */
  predicate IsList(entries: seq<(Key, Value)>) {
    forall k :: 0 <= k < |entries| ==> entries[k].0 == IntKey(k)
  }

  /** The values of an array, in order. */
  function Values(entries: seq<(Key, Value)>): (vs: seq<Value>)
    ensures |vs| == |entries|
    ensures forall k :: 0 <= k < |entries| ==> vs[k] == entries[k].1
  {
    seq(|entries|, k requires 0 <= k < |entries| => entries[k].1)
  }

  /** The PHP list `[items[0], items[1], ...]`. */
  function ListOf(items: seq<Value>): (v: Value)
    ensures v.Array? && IsList(v.entries) && Values(v.entries) == items
  {
    Array(seq(|items|, k requires 0 <= k < |items| => (IntKey(k), items[k])))
  }

  // ---------------------------------------------------------------------
  // trim()

  /** The characters PHP's `trim` strips by default: " \t\n\r\0\x0B". */
  predicate IsTrimChar(c: char) {
    c == ' ' || c == '\t' || c == '\n' || c == '\r' || c == '\U{0}' || c == '\U{B}'
  }

  predicate Blank(s: string) {
    forall i :: 0 <= i < |s| ==> IsTrimChar(s[i])
  }

  /** `ltrim`: the longest suffix of `s` that does not start with a trim character. */
  function TrimStart(s: string): (r: string)
    ensures |r| <= |s| && r == s[|s| - |r|..]
    ensures forall i :: 0 <= i < |s| - |r| ==> IsTrimChar(s[i])
    ensures r == [] || !IsTrimChar(r[0])
  {
    if |s| > 0 && IsTrimChar(s[0]) then TrimStart(s[1..]) else s
  }

  /** `rtrim`: the longest prefix of `s` that does not end with a trim character. */
  function TrimEnd(s: string): (r: string)
    ensures |r| <= |s| && r == s[..|r|]
    ensures forall i :: |r| <= i < |s| ==> IsTrimChar(s[i])
    ensures r == [] || !IsTrimChar(r[|r| - 1])
  {
    if |s| > 0 && IsTrimChar(s[|s| - 1]) then TrimEnd(s[..|s| - 1]) else s
  }

  /**
   `trim`: strip trim characters from both ends. The result is the slice of
   `s` left once a blank prefix and a blank suffix are removed, and it
   neither starts nor ends with a trim character.
   */
  function Trim(s: string): (r: string)
    ensures r == [] <==> Blank(s)
    ensures r != [] ==> !IsTrimChar(r[0]) && !IsTrimChar(r[|r| - 1])
    ensures exists a :: 0 <= a <= |s| - |r| && r == s[a..a + |r|] && Blank(s[..a]) && Blank(s[a + |r|..])
  {
    var t := TrimStart(s);
    var r := TrimEnd(t);
    TrimBothEnds(s, t, r, |s| - |t|);
    r
  }

  /** Removing a blank prefix of length `a` and then a blank suffix leaves a slice of `s`. */
  lemma TrimBothEnds(s: string, t: string, r: string, a: int)
    requires 0 <= a <= |s| && t == s[a..]
    requires forall i :: 0 <= i < a ==> IsTrimChar(s[i])
    requires t == [] || !IsTrimChar(t[0])
    requires |r| <= |t| && r == t[..|r|]
    requires forall i :: |r| <= i < |t| ==> IsTrimChar(t[i])
    ensures a <= |s| - |r| && r == s[a..a + |r|] && Blank(s[..a]) && Blank(s[a + |r|..])
    ensures r == [] <==> Blank(s)
  {
  }

  /** `ltrim` removes exactly a blank prefix standing before a non-trim character. */
  lemma {:induction false} TrimStartDropsBlank(p: string, x: string)
    requires Blank(p)
    requires x == [] || !IsTrimChar(x[0])
    ensures TrimStart(p + x) == x
    decreases |p|
  {
    if p != [] {
      assert (p + x)[1..] == p[1..] + x;
      TrimStartDropsBlank(p[1..], x);
    } else {
      assert p + x == x;
    }
  }

  /** `rtrim` removes exactly a blank suffix standing after a non-trim character. */
  lemma {:induction false} TrimEndDropsBlank(x: string, q: string)
    requires Blank(q)
    requires x == [] || !IsTrimChar(x[|x| - 1])
    ensures TrimEnd(x + q) == x
    decreases |q|
  {
    if q != [] {
      assert (x + q)[..|x + q| - 1] == x + q[..|q| - 1];
      TrimEndDropsBlank(x, q[..|q| - 1]);
    } else {
      assert x + q == x;
    }
  }

  /**
   `trim` is determined by its contract: whatever blank padding surrounds a
   text that neither starts nor ends with a trim character, `trim` returns
   that text.
   */
  lemma TrimRemovesPadding(p: string, m: string, q: string)
    requires Blank(p) && Blank(q)
    requires m == [] || (!IsTrimChar(m[0]) && !IsTrimChar(m[|m| - 1]))
    ensures Trim(p + m + q) == m
  {
    if m == [] {
      var s := p + m + q;
      forall i | 0 <= i < |s| ensures IsTrimChar(s[i]) {
        if i < |p| {
          assert s[i] == p[i];
        } else {
          assert s[i] == q[i - |p|];
        }
      }
    } else {
      assert p + m + q == p + (m + q);
      TrimStartDropsBlank(p, m + q);
      TrimEndDropsBlank(m, q);
    }
  }

  /** PHP `empty()` of a string: true only for "" and "0". */
  predicate EmptyString(s: string) {
    s == "" || s == "0"
  }

  // ---------------------------------------------------------------------
  // str_replace() and implode()

  /** `pat` occurs in `s` at position `i`. */
  predicate MatchAt(s: string, pat: string, i: int) {
    0 <= i && i + |pat| <= |s| && s[i..i + |pat|] == pat
  }

  predicate Occurs(s: string, pat: string) {
    exists i :: 0 <= i <= |s| && MatchAt(s, pat, i)
  }

  /** An occurrence in `t` is still an occurrence after a prefix is put before `t`. */
  lemma OccursAfterPrefix(pre: string, t: string, pat: string)
    requires Occurs(t, pat)
    ensures Occurs(pre + t, pat)
  {
    var i :| 0 <= i <= |t| && MatchAt(t, pat, i);
    assert (pre + t)[|pre| + i..|pre| + i + |pat|] == t[i..i + |pat|];
    assert MatchAt(pre + t, pat, |pre| + i);
  }

  /**
   `str_replace(pat, rep, s)` for one search string: scan left to right and
   replace every non-overlapping occurrence of `pat` by `rep`.
   */
  function ReplaceAll(s: string, pat: string, rep: string): (r: string)
    requires |pat| > 0
    ensures |rep| <= |pat| ==> |r| <= |s|
    decreases |s|
  {
    if |s| < |pat| then s
    else if s[..|pat|] == pat then rep + ReplaceAll(s[|pat|..], pat, rep)
    else [s[0]] + ReplaceAll(s[1..], pat, rep)
  }

  /** One step of the scan when `pat` does not start at position 0. */
  lemma ReplaceAllSkip(s: string, pat: string, rep: string)
    requires |pat| > 0 && |s| > 0 && !MatchAt(s, pat, 0)
    ensures ReplaceAll(s, pat, rep) == [s[0]] + ReplaceAll(s[1..], pat, rep)
  {
    if |s| < |pat| {
      assert ReplaceAll(s[1..], pat, rep) == s[1..];
      assert s == [s[0]] + s[1..];
    } else {
      assert s[..|pat|] != pat by { assert s[0..0 + |pat|] == s[..|pat|]; }
    }
  }

  /** The scan when `pat` starts at position 0. */
  lemma ReplaceAllHit(s: string, pat: string, rep: string)
    requires |pat| > 0 && MatchAt(s, pat, 0)
    ensures ReplaceAll(s, pat, rep) == rep + ReplaceAll(s[|pat|..], pat, rep)
  {
    assert s[0..0 + |pat|] == s[..|pat|];
  }

  /** A string in which `pat` never occurs is left unchanged. */
  lemma {:induction false} ReplaceAllAbsent(s: string, pat: string, rep: string)
    requires |pat| > 0 && !Occurs(s, pat)
    ensures ReplaceAll(s, pat, rep) == s
    decreases |s|
  {
    if |s| >= |pat| {
      assert !MatchAt(s, pat, 0);
      ReplaceAllSkip(s, pat, rep);
      assert !Occurs(s[1..], pat) by {
        forall i | MatchAt(s[1..], pat, i) ensures false {
          assert s[i + 1..i + 1 + |pat|] == s[1..][i..i + |pat|];
          assert MatchAt(s, pat, i + 1);
        }
      }
      ReplaceAllAbsent(s[1..], pat, rep);
      assert s == [s[0]] + s[1..];
    }
  }

  /** Replacing a single character distributes over concatenation. */
  lemma {:induction false} ReplaceCharDistributes(a: string, b: string, c: char, rep: string)
    ensures ReplaceAll(a + b, [c], rep) == ReplaceAll(a, [c], rep) + ReplaceAll(b, [c], rep)
    decreases |a|
  {
    if |a| > 0 {
      assert (a + b)[1..] == a[1..] + b;
      assert (a + b)[..1] == a[..1];
      ReplaceCharDistributes(a[1..], b, c, rep);
    } else {
      assert a + b == b;
    }
  }

  /** Replacing character `c` by a text without `c` removes every `c`. */
  lemma {:induction false} ReplaceCharRemoves(s: string, c: char, rep: string)
    requires c !in rep
    ensures c !in ReplaceAll(s, [c], rep)
    decreases |s|
  {
    if |s| > 0 {
      ReplaceCharRemoves(s[1..], c, rep);
      if s[..1] != [c] {
        assert s[0] != c by { assert s[..1] == [s[0]]; }
      }
    }
  }

  /** `implode(sep, parts)`. */
  function Join(sep: string, parts: seq<string>): string {
    if |parts| == 0 then ""
    else if |parts| == 1 then parts[0]
    else parts[0] + sep + Join(sep, parts[1..])
  }

  // ---------------------------------------------------------------------
  // Weak-mode coercion to a `string` parameter

  function DigitChar(d: nat): (c: char)
    requires d < 10
    ensures '0' <= c <= '9' && c as int - '0' as int == d
  {
    "0123456789"[d]
  }

  predicate IsDigit(c: char) {
    '0' <= c <= '9'
  }

  /** Decimal text of a natural number, as PHP writes integers. */
  function NatText(n: nat): string
    decreases n
  {
    if n < 10 then [DigitChar(n)] else NatText(n / 10) + [DigitChar(n % 10)]
  }

  /** Decimal text of an integer: a minus sign before the digits of a negative one. */
  function IntText(i: int): string {
    if i < 0 then "-" + NatText(-i) else NatText(i)
  }

  /** Reference reader: the value of a text of decimal digits, read left to right. */
  function DecimalValue(t: string): int
    decreases |t|
  {
    if |t| == 0 then 0 else 10 * DecimalValue(t[..|t| - 1]) + (t[|t| - 1] as int - '0' as int)
  }

  /** Reference reader of an integer text with an optional leading minus sign. */
  function ReadInt(t: string): int {
    if |t| > 0 && t[0] == '-' then -DecimalValue(t[1..]) else DecimalValue(t)
  }

  /**
   The decimal text of `n` is a non-empty run of digits without a leading
   zero (except "0" itself) that reads back as `n`.
   */
  lemma {:induction false} NatTextDigits(n: nat)
    ensures |NatText(n)| > 0
    ensures forall k :: 0 <= k < |NatText(n)| ==> IsDigit(NatText(n)[k])
    ensures NatText(n)[0] != '0' || n == 0
    ensures DecimalValue(NatText(n)) == n
    decreases n
  {
    if n >= 10 {
      var t := NatText(n);
      var head := NatText(n / 10);
      NatTextDigits(n / 10);
      assert t == head + [DigitChar(n % 10)];
      assert t[..|t| - 1] == head;
      assert t[0] == head[0];
    }
  }

  /** PHP's decimal text of every integer reads back as that integer. */
  lemma IntTextRoundTrip(i: int)
    ensures ReadInt(IntText(i)) == i
  {
    if i < 0 {
      NatTextDigits(-i);
      assert IntText(i)[1..] == NatText(-i);
    } else {
      NatTextDigits(i);
    }
  }

  /**
   The string PHP passes to a `string` parameter without strict types:
   strings as they are, integers in decimal, true as "1" and false as "".
   Null and arrays raise a TypeError instead (None).
   */
  function WeakString(v: Value): (r: Option<string>)
    ensures r.Some? <==> (v.Str? || v.Int? || v.Bool?)
    ensures v.Str? ==> r == Some(v.s)
    ensures v.Bool? ==> r == Some(if v.b then "1" else "")
    ensures v.Int? ==> r.Some? && ReadInt(r.value) == v.i
  {
    match v
    case Str(s) => Some(s)
    case Int(i) => IntTextRoundTrip(i); Some(IntText(i))
    case Bool(b) => Some(if b then "1" else "")
    case Null => None
    case Array(_) => None
  }
}
