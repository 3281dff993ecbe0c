/**
 * marshalYaml and the rewrite it applies to the printed YAML: every match of the
 * regular expression `(\s*)resourceVersion: "(\d+)"` is replaced by the empty string,
 * matches being found leftmost-first and without overlap, as Go's
 * `Regexp.ReplaceAllString` does.
 */
module ResourceVersion {
  import opened Wrappers

  /** `\s` of Go's regexp syntax: `[\t\n\f\r ]`. */
  predicate IsSpace(c: char)
  {
    c == ' ' || c == '\t' || c == '\n' || c == '\U{000C}' || c == '\r'
  }

  /** `\d` of Go's regexp syntax: `[0-9]`. */
  predicate IsDigit(c: char)
  {
    '0' <= c <= '9'
  }

  /** The literal part of the pattern between `(\s*)` and `(\d+)`. */
  const Key: string := "resourceVersion: \""

  // ---------------------------------------------------------------------------
  // The pattern as a language: which strings the whole regular expression matches.
  // ---------------------------------------------------------------------------

  /** `(\d+)"`: one or more digits, then a closing quote, and nothing else. */
  predicate DigitsThenQuote(t: string)
  {
    |t| >= 2 && IsDigit(t[0]) && (t[1..] == "\"" || DigitsThenQuote(t[1..]))
  }

  /** `(\s*)resourceVersion: "(\d+)"`: the strings the whole pattern matches. */
  predicate InPattern(t: string)
  {
    (|t| > 0 && IsSpace(t[0]) && InPattern(t[1..]))
    || (Key <= t && DigitsThenQuote(t[|Key|..]))
  }

  // ---------------------------------------------------------------------------
  // The matcher: the length of the match that starts at the front of a string.
  // ---------------------------------------------------------------------------

  /** Length of the longest prefix of `s` made of digits. */
  function DigitRun(s: string): (n: nat)
    ensures n <= |s|
    ensures forall i :: 0 <= i < n ==> IsDigit(s[i])
    ensures n < |s| ==> !IsDigit(s[n])
  {
    if s != [] && IsDigit(s[0]) then 1 + DigitRun(s[1..]) else 0
  }

  /**
   * Length of the match of the pattern that starts at the front of `s`, if any.
   * Leading whitespace is consumed greedily (the key cannot start with whitespace),
   * then the key, then digits greedily up to the closing quote.
   */
  function MatchLen(s: string): (r: Option<nat>)
    ensures r.Some? ==> |Key| + 2 <= r.value <= |s|
  {
    if s != [] && IsSpace(s[0]) then
      match MatchLen(s[1..])
      case Some(n) => Some(n + 1)
      case None => None
    else if Key <= s then
      var d := DigitRun(s[|Key|..]);
      if 0 < d && |Key| + d < |s| && s[|Key| + d] == '"' then Some(|Key| + d + 1) else None
    else
      None
  }

  /** No match of the pattern starts anywhere in `s`. */
  predicate NoMatch(s: string)
  {
    forall i :: 0 <= i < |s| ==> MatchLen(s[i..]).None?
  }

  /**
   * `regex.ReplaceAllString(s, "")`: scanning left to right, a match that starts at
   * the current position is dropped and the scan resumes after it; otherwise the
   * current character is kept.
   */
  function Strip(s: string): (r: string)
    ensures |r| <= |s|
  {
    if s == [] then []
    else
      match MatchLen(s)
      case Some(n) => Strip(s[n..])
      case None => [s[0]] + Strip(s[1..])
  }

  // ---------------------------------------------------------------------------
  // The matcher against the pattern.
  // ---------------------------------------------------------------------------

  /** A prefix of `u` is digits-then-quote exactly when it is the maximal digit run and a quote. */
  lemma {:induction false} DigitsThenQuotePrefix(u: string, m: nat)
    requires m <= |u|
    ensures DigitsThenQuote(u[..m]) <==>
      (var d := DigitRun(u); 0 < d && d < |u| && u[d] == '"' && m == d + 1)
  {
    if m >= 2 && IsDigit(u[0]) {
      assert u[..m][1..] == u[1..][..m - 1];
      DigitsThenQuotePrefix(u[1..], m - 1);
      assert DigitRun(u) == 1 + DigitRun(u[1..]);
      if u[..m][1..] == "\"" {
        assert u[1] == '"';
      }
    }
  }

  /** Leading whitespace can be peeled off the front of a match one character at a time. */
  lemma InPatternSpaceStep(t: string)
    requires |t| > 0 && IsSpace(t[0])
    ensures InPattern(t) <==> InPattern(t[1..])
  {
  }

  /**
   * The matcher is exact: a prefix of `s` of length `n` is matched by the whole pattern
   * if and only if MatchLen reports a match of length `n`. Matches at one position
   * therefore have a single length, so greedy and non-greedy readings agree.
   */
  lemma {:induction false} MatchLenExact(s: string, n: nat)
    requires n <= |s|
    ensures InPattern(s[..n]) <==> MatchLen(s) == Some(n)
  {
    if s != [] && IsSpace(s[0]) {
      if n > 0 {
        InPatternSpaceStep(s[..n]);
        assert s[..n][1..] == s[1..][..n - 1];
        MatchLenExact(s[1..], n - 1);
      } else {
        assert !InPattern(s[..n]);
      }
    } else {
      MatchLenExactNoSpace(s, n);
    }
  }

  lemma MatchLenExactNoSpace(s: string, n: nat)
    requires n <= |s|
    requires |s| == 0 || !IsSpace(s[0])
    ensures InPattern(s[..n]) <==> MatchLen(s) == Some(n)
  {
    var t := s[..n];
    InPatternNoSpace(t);
    if |Key| <= n {
      assert Key <= t <==> Key <= s;
      assert t[|Key|..] == s[|Key|..][..n - |Key|];
      DigitsThenQuotePrefix(s[|Key|..], n - |Key|);
    }
  }

  lemma InPatternNoSpace(t: string)
    requires |t| == 0 || !IsSpace(t[0])
    ensures InPattern(t) <==> |Key| <= |t| && Key <= t && DigitsThenQuote(t[|Key|..])
  {
  }

  /** Whitespace, the key, a non-empty run of digits and a quote: the pattern matches it. */
  lemma {:induction false} FieldInPattern(w: string, d: string)
    requires forall i :: 0 <= i < |w| ==> IsSpace(w[i])
    requires 0 < |d| && forall i :: 0 <= i < |d| ==> IsDigit(d[i])
    ensures InPattern(w + Key + d + "\"")
  {
    if w != [] {
      FieldInPattern(w[1..], d);
      assert (w + Key + d + "\"")[1..] == w[1..] + Key + d + "\"";
    } else {
      assert (w + Key + d + "\"")[|Key|..] == d + "\"";
      DigitsInPattern(d);
    }
  }

  lemma {:induction false} DigitsInPattern(d: string)
    requires 0 < |d| && forall i :: 0 <= i < |d| ==> IsDigit(d[i])
    ensures DigitsThenQuote(d + "\"")
  {
    if |d| > 1 {
      DigitsInPattern(d[1..]);
      assert (d + "\"")[1..] == d[1..] + "\"";
    }
  }

  // ---------------------------------------------------------------------------
  // What the rewrite does to a text.
  // ---------------------------------------------------------------------------

  /** The rewrite removes a resourceVersion field that starts the text, whitespace included. */
  lemma StripRemovesField(w: string, d: string, rest: string)
    requires forall i :: 0 <= i < |w| ==> IsSpace(w[i])
    requires 0 < |d| && forall i :: 0 <= i < |d| ==> IsDigit(d[i])
    ensures Strip(w + Key + d + "\"" + rest) == Strip(rest)
  {
    var field := w + Key + d + "\"";
    var s := field + rest;
    FieldInPattern(w, d);
    assert s[..|field|] == field;
    MatchLenExact(s, |field|);
    assert s[|field|..] == rest;
  }

  /** Where no match starts, the rewrite keeps the current character and moves on. */
  lemma StripKeepsChar(x: string)
    requires |x| > 0 && MatchLen(x).None?
    ensures Strip(x) == [x[0]] + Strip(x[1..])
  {
  }

  lemma SliceAfterHead<T>(x: seq<T>, k: nat, rest: seq<T>)
    requires 0 < k <= |x|
    ensures x[1..][k - 1..] == x[k..]
    ensures [x[0]] + (x[1..][..k - 1] + rest) == x[..k] + rest
  {
    assert [x[0]] + x[1..][..k - 1] == x[..k];
  }

  /**
   * One step of the scan over a stretch with no match: the first character is kept
   * and the rest of the stretch still has no match.
   */
  lemma KeepFirstOfUnmatched(x: string, k: nat)
    requires 0 < k <= |x|
    requires forall i :: 0 <= i < k ==> MatchLen(x[i..]).None?
    ensures Strip(x) == [x[0]] + Strip(x[1..])
    ensures forall i :: 0 <= i < k - 1 ==> MatchLen(x[1..][i..]).None?
  {
    assert x[0..] == x;
    StripKeepsChar(x);
    forall i | 0 <= i < k - 1
      ensures MatchLen(x[1..][i..]).None?
    {
      assert x[1..][i..] == x[i + 1..];
    }
  }

  /** The first `k` characters of `x`, none of which starts a match, reach the output as they are. */
  lemma {:induction false} StripKeepsPrefix(x: string, k: nat)
    requires k <= |x|
    requires forall i :: 0 <= i < k ==> MatchLen(x[i..]).None?
    ensures Strip(x) == x[..k] + Strip(x[k..])
  {
    if k > 0 {
      KeepFirstOfUnmatched(x, k);
      StripKeepsPrefix(x[1..], k - 1);
      SliceAfterHead(x, k, Strip(x[k..]));
    }
  }

  /** Text in which no match starts is copied to the output unchanged and in order. */
  lemma StripKeepsUnmatched(t: string, s: string)
    requires forall i :: 0 <= i < |t| ==> MatchLen((t + s)[i..]).None?
    ensures Strip(t + s) == t + Strip(s)
  {
    StripKeepsPrefix(t + s, |t|);
    assert (t + s)[..|t|] == t;
    assert (t + s)[|t|..] == s;
  }

  /** A match anywhere in the text makes the output strictly shorter. */
  lemma {:induction false} StripShortens(s: string, i: nat)
    requires i < |s| && MatchLen(s[i..]).Some?
    ensures |Strip(s)| < |s|
  {
    if MatchLen(s).None? {
      assert i != 0;
      assert s[1..][i - 1..] == s[i..];
      StripShortens(s[1..], i - 1);
    }
  }

  /** The rewrite changes the text exactly when the text holds a match of the pattern. */
  lemma {:induction false} StripUnchangedIff(s: string)
    ensures Strip(s) == s <==> NoMatch(s)
  {
    if NoMatch(s) {
      if s != [] {
        assert MatchLen(s[0..]).None?;
        assert s[0..] == s;
        forall i | 0 <= i < |s| - 1
          ensures MatchLen(s[1..][i..]).None?
        {
          assert s[1..][i..] == s[i + 1..];
        }
        StripUnchangedIff(s[1..]);
      }
    } else {
      var i :| 0 <= i < |s| && MatchLen(s[i..]).Some?;
      StripShortens(s, i);
    }
  }

  /**
   * marshalYaml: the YAML text of an object with every resourceVersion field removed,
   * or the empty string together with the printer's error. The printer is the
   * outcome `printed` of `YAMLPrinter.PrintObj`.
   */
  function MarshalYaml<E>(printed: Result<string, E>): (r: (string, Option<E>))
    ensures printed.Failure? ==> r == ("", Some(printed.error))
    ensures printed.Success? ==> r.1 == None && r.0 == Strip(printed.value)
  {
    match printed
    case Failure(e) => ("", Some(e))
    case Success(text) => (Strip(text), None)
  }

  /**
   * The `objectToYaml` template function: the text marshalYaml returns, which is
   * empty when the printer fails (the error itself is only logged).
   */
  function ObjectToYaml<E>(printed: Result<string, E>): (s: string)
    ensures printed.Failure? ==> s == ""
    ensures printed.Success? ==> s == Strip(printed.value)
  {
    MarshalYaml(printed).0
  }
}
