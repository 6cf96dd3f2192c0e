/**
 Rewriting of escaped newlines: the two-character texts backslash-n and
 backslash-r (as typed into a text area or stored in serialized form) become
 real line feeds.

 The storage service applies three `str_replace` passes in sequence; the
 validator applies only the first of them. This module defines both as
 written, a single-pass reference `Unescape`, and proves that the three
 passes equal the single pass, from which idempotence, shrinking and the
 absence of leftover escapes follow.
 */
module Normalize {
  import opened Php

  const EscapedN: string := "\\n"
  const EscapedR: string := "\\r"
  const EscapedCrLf: string := "\\r\\n"
  const LineFeed: string := "\n"

  /** The validator's rewrite: only backslash-n becomes a line feed. */
  function UnescapeNewlines(s: string): (r: string)
    ensures |r| <= |s|
    ensures !Occurs(r, EscapedN)
  {
    EscapedNGone(s);
    ReplaceAll(s, EscapedN, LineFeed)
  }

  /**
   The storage service's rewrite: backslash-n, then backslash-r-backslash-n,
   then backslash-r, each replaced everywhere by a line feed.
   */
  function NormalizeYamlString(s: string): (r: string)
    ensures |r| <= |s|
  {
    ReplaceAll(ReplaceAll(ReplaceAll(s, EscapedN, LineFeed), EscapedCrLf, LineFeed), EscapedR, LineFeed)
  }

  /** Reference: one left-to-right pass replacing backslash-n and backslash-r. */
  function Unescape(s: string): string
    decreases |s|
  {
    if |s| == 0 then ""
    else if |s| >= 2 && s[0] == '\\' && (s[1] == 'n' || s[1] == 'r') then "\n" + Unescape(s[2..])
    else [s[0]] + Unescape(s[1..])
  }

  /** No backslash is followed by `n` or `r`. */
  predicate NoEscapes(t: string) {
    forall i :: 0 < i < |t| && t[i - 1] == '\\' ==> t[i] != 'n' && t[i] != 'r'
  }

  lemma PairMatch(t: string, i: int, a: char, b: char)
    requires 0 <= i && i + 2 <= |t|
    ensures MatchAt(t, [a, b], i) <==> t[i] == a && t[i + 1] == b
  {
    assert t[i..i + 2] == [t[i], t[i + 1]];
  }

  /** First character of a replacement scan. */
  lemma ReplaceAllHead(s: string, pat: string, rep: string)
    requires |pat| > 0 && |rep| > 0 && |s| > 0
    ensures |ReplaceAll(s, pat, rep)| > 0
    ensures ReplaceAll(s, pat, rep)[0] == if MatchAt(s, pat, 0) then rep[0] else s[0]
  {
    if MatchAt(s, pat, 0) {
      ReplaceAllHit(s, pat, rep);
    } else {
      ReplaceAllSkip(s, pat, rep);
    }
  }

  /** After the first pass no backslash-n is left. */
  lemma {:induction false} EscapedNGone(s: string)
    ensures !Occurs(ReplaceAll(s, EscapedN, LineFeed), EscapedN)
    decreases |s|
  {
    var r := ReplaceAll(s, EscapedN, LineFeed);
    if |s| > 0 {
      var head: char;
      var rest: string;
      if MatchAt(s, EscapedN, 0) {
        ReplaceAllHit(s, EscapedN, LineFeed);
        head, rest := '\n', ReplaceAll(s[2..], EscapedN, LineFeed);
        EscapedNGone(s[2..]);
      } else {
        ReplaceAllSkip(s, EscapedN, LineFeed);
        head, rest := s[0], ReplaceAll(s[1..], EscapedN, LineFeed);
        EscapedNGone(s[1..]);
        if |s| >= 2 {
          PairMatch(s, 0, '\\', 'n');
          ReplaceAllHead(s[1..], EscapedN, LineFeed);
        }
      }
      assert r == [head] + rest;
      forall i | 0 <= i <= |r| && MatchAt(r, EscapedN, i) ensures false {
        PairMatch(r, i, '\\', 'n');
        if i > 0 {
          PairMatch(rest, i - 1, '\\', 'n');
        }
      }
    }
  }

  /**
   The validator's rewrite leaves every backslash-r in place: wherever the
   input holds one, so does the rewritten text.
   */
  lemma {:induction false} EscapedRSurvives(s: string, i: int)
    requires MatchAt(s, EscapedR, i)
    ensures Occurs(UnescapeNewlines(s), EscapedR)
    decreases |s|
  {
    PairMatch(s, i, '\\', 'r');
    PairMatch(s, 0, '\\', 'n');
    if MatchAt(s, EscapedN, 0) {
      ReplaceAllHit(s, EscapedN, LineFeed);
      PairMatch(s[2..], i - 2, '\\', 'r');
      EscapedRSurvives(s[2..], i - 2);
      OccursAfterPrefix(LineFeed, UnescapeNewlines(s[2..]), EscapedR);
    } else {
      ReplaceAllSkip(s, EscapedN, LineFeed);
      if i == 0 {
        var rest := ReplaceAll(s[1..], EscapedN, LineFeed);
        ReplaceAllHead(s[1..], EscapedN, LineFeed);
        var r := [s[0]] + rest;
        PairMatch(r, 0, '\\', 'r');
        assert MatchAt(r, EscapedR, 0);
      } else {
        PairMatch(s[1..], i - 1, '\\', 'r');
        EscapedRSurvives(s[1..], i - 1);
        OccursAfterPrefix([s[0]], UnescapeNewlines(s[1..]), EscapedR);
      }
    }
  }

  /** Without a backslash-n the backslash-r-backslash-n pass has nothing to match. */
  lemma CrLfAbsent(t: string)
    requires !Occurs(t, EscapedN)
    ensures !Occurs(t, EscapedCrLf)
  {
    forall i | 0 <= i <= |t| && MatchAt(t, EscapedCrLf, i) ensures false {
      assert t[i + 2..i + 4] == t[i..i + 4][2..4];
      assert MatchAt(t, EscapedN, i + 2);
    }
  }

  /**
   The second pass of the storage rewrite never fires: once every
   backslash-n is gone, no backslash-r-backslash-n can remain.
   */
  lemma CrLfPassNeverFires(s: string)
    ensures var t := ReplaceAll(s, EscapedN, LineFeed);
            ReplaceAll(t, EscapedCrLf, LineFeed) == t
  {
    var t := ReplaceAll(s, EscapedN, LineFeed);
    EscapedNGone(s);
    CrLfAbsent(t);
    ReplaceAllAbsent(t, EscapedCrLf, LineFeed);
  }

  /** The backslash-n pass followed by the backslash-r pass is the single pass. */
  lemma {:induction false} TwoPassesAreOne(s: string)
    ensures ReplaceAll(ReplaceAll(s, EscapedN, LineFeed), EscapedR, LineFeed) == Unescape(s)
    decreases |s|
  {
    var a := ReplaceAll(s, EscapedN, LineFeed);
    if |s| == 0 {
    } else if |s| >= 2 && s[0] == '\\' && s[1] == 'n' {
      PairMatch(s, 0, '\\', 'n');
      ReplaceAllHit(s, EscapedN, LineFeed);
      var y := ReplaceAll(s[2..], EscapedN, LineFeed);
      assert a == "\n" + y;
      if |a| >= 2 {
        PairMatch(a, 0, '\\', 'r');
      }
      ReplaceAllSkip(a, EscapedR, LineFeed);
      assert a[1..] == y;
      TwoPassesAreOne(s[2..]);
    } else if |s| >= 2 && s[0] == '\\' && s[1] == 'r' {
      PairMatch(s, 0, '\\', 'n');
      ReplaceAllSkip(s, EscapedN, LineFeed);
      assert !MatchAt(s[1..], EscapedN, 0);
      ReplaceAllSkip(s[1..], EscapedN, LineFeed);
      assert s[1..][1..] == s[2..];
      var y := ReplaceAll(s[2..], EscapedN, LineFeed);
      assert a == "\\r" + y;
      assert MatchAt(a, EscapedR, 0) by { assert a[0..2] == "\\r"; }
      ReplaceAllHit(a, EscapedR, LineFeed);
      assert a[2..] == y;
      TwoPassesAreOne(s[2..]);
    } else {
      if |s| >= 2 {
        PairMatch(s, 0, '\\', 'n');
      }
      ReplaceAllSkip(s, EscapedN, LineFeed);
      var y := ReplaceAll(s[1..], EscapedN, LineFeed);
      assert a == [s[0]] + y;
      if |y| > 0 {
        ReplaceAllHead(s[1..], EscapedN, LineFeed);
        PairMatch(a, 0, '\\', 'r');
      }
      assert !MatchAt(a, EscapedR, 0);
      ReplaceAllSkip(a, EscapedR, LineFeed);
      assert a[1..] == y;
      TwoPassesAreOne(s[1..]);
    }
  }

  /** The three storage passes compute exactly the single-pass rewrite. */
  lemma NormalizeIsUnescape(s: string)
    ensures NormalizeYamlString(s) == Unescape(s)
  {
    CrLfPassNeverFires(s);
    TwoPassesAreOne(s);
  }

  /** First character of the single pass. */
  lemma UnescapeHead(s: string)
    requires |s| > 0
    ensures |Unescape(s)| > 0
    ensures Unescape(s)[0] == '\n' || Unescape(s)[0] == s[0]
  {
  }

  /** The single pass leaves no escape behind. */
  lemma {:induction false} UnescapeNoEscapes(s: string)
    ensures NoEscapes(Unescape(s))
    decreases |s|
  {
    if |s| > 0 {
      var r := Unescape(s);
      var head: char;
      var rest: string;
      if |s| >= 2 && s[0] == '\\' && (s[1] == 'n' || s[1] == 'r') {
        head, rest := '\n', Unescape(s[2..]);
        UnescapeNoEscapes(s[2..]);
      } else {
        head, rest := s[0], Unescape(s[1..]);
        UnescapeNoEscapes(s[1..]);
        if |s| >= 2 {
          UnescapeHead(s[1..]);
        }
      }
      assert r == [head] + rest;
      forall i | 0 < i < |r| && r[i - 1] == '\\' ensures r[i] != 'n' && r[i] != 'r' {
        if i > 1 {
          assert r[i - 1] == rest[i - 2] && r[i] == rest[i - 1];
        }
      }
    }
  }

  /** A text without escapes is its own single-pass rewrite. */
  lemma {:induction false} UnescapeFixesClean(s: string)
    requires NoEscapes(s)
    ensures Unescape(s) == s
    decreases |s|
  {
    if |s| > 0 {
      if |s| >= 2 && s[0] == '\\' {
        assert s[1] != 'n' && s[1] != 'r';
      }
      assert NoEscapes(s[1..]) by {
        forall i | 0 < i < |s[1..]| && s[1..][i - 1] == '\\' ensures s[1..][i] != 'n' && s[1..][i] != 'r' {
          assert s[i] == '\\';
        }
      }
      UnescapeFixesClean(s[1..]);
      assert s == [s[0]] + s[1..];
    }
  }

  /** Escape-free texts contain neither backslash-n nor backslash-r. */
  lemma NoEscapesNoPairs(t: string)
    requires NoEscapes(t)
    ensures !Occurs(t, EscapedN) && !Occurs(t, EscapedR)
  {
    forall i | 0 <= i <= |t| ensures !MatchAt(t, EscapedN, i) && !MatchAt(t, EscapedR, i) {
      if i + 2 <= |t| {
        PairMatch(t, i, '\\', 'n');
        PairMatch(t, i, '\\', 'r');
        var j := i + 1;
        assert t[j - 1] == t[i];
      }
    }
  }

  /** The storage rewrite leaves no backslash-n and no backslash-r behind. */
  lemma NormalizeLeavesNoEscapes(s: string)
    ensures !Occurs(NormalizeYamlString(s), EscapedN)
    ensures !Occurs(NormalizeYamlString(s), EscapedR)
  {
    NormalizeIsUnescape(s);
    UnescapeNoEscapes(s);
    NoEscapesNoPairs(Unescape(s));
  }

  /** Rewriting twice is rewriting once. */
  lemma NormalizeIdempotent(s: string)
    ensures NormalizeYamlString(NormalizeYamlString(s)) == NormalizeYamlString(s)
  {
    NormalizeIsUnescape(s);
    NormalizeIsUnescape(Unescape(s));
    UnescapeNoEscapes(s);
    UnescapeFixesClean(Unescape(s));
  }

  /** A literal backslash-r-backslash-n becomes two line feeds, not one. */
  lemma NormalizeCrLfGivesTwoLineFeeds()
    ensures NormalizeYamlString("\\r\\n") == "\n\n"
  {
    NormalizeIsUnescape("\\r\\n");
    assert "\\r\\n"[2..] == "\\n";
    assert "\\n"[2..] == "";
  }

  /**
   The rewrite yields "" or "0" (the strings PHP's `empty` accepts) only from
   exactly "" or "0".
   */
  lemma NormalizeKeepsEmptiness(s: string)
    ensures NormalizeYamlString(s) == "" <==> s == ""
    ensures NormalizeYamlString(s) == "0" <==> s == "0"
  {
    NormalizeIsUnescape(s);
    if |s| >= 2 {
      UnescapeHead(s[1..]);
      if s[0] == '\\' && (s[1] == 'n' || s[1] == 'r') {
        assert Unescape(s)[0] == '\n';
      } else {
        assert Unescape(s) == [s[0]] + Unescape(s[1..]);
        assert |Unescape(s)| >= 2;
      }
      assert s != "0";
    } else if |s| == 1 {
      assert Unescape(s) == [s[0]] + Unescape(s[1..]);
      assert s[1..] == "";
      assert Unescape(s) == [s[0]];
    }
  }
}
