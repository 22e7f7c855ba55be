/**
 * The path patterns of frclinks.py as left-to-right scanners: what
 * `re.findall` returns for `numberRe`, `yearRe`, `eventRe` and
 * `blueAllianceRe` on a request path. Handlers take the last match.
 */
module PathParsing {
  import opened Digits

  predicate IsLetter(c: char) {
    'A' <= c <= 'Z' || 'a' <= c <= 'z'
  }

  /** Regrouping a concatenation of three strings. */
  lemma Regroup(a: string, b: string, c: string)
    ensures a + b + c == a + (b + c)
  {
  }

  predicate NoDigits(s: string) {
    forall i :: 0 <= i < |s| ==> !IsDigit(s[i])
  }

  predicate NoLetters(s: string) {
    forall i :: 0 <= i < |s| ==> !IsLetter(s[i])
  }

  /** The longest prefix of `s` made of digits. */
  function DigitRun(s: string): (r: string)
    ensures |r| <= |s| && r == s[..|r|] && AllDigits(r)
    ensures |r| < |s| ==> !IsDigit(s[|r|])
    decreases |s|
  {
    if s != [] && IsDigit(s[0]) then [s[0]] + DigitRun(s[1..]) else []
  }

  /** The longest prefix of `s` made of letters. */
  function LetterRun(s: string): (r: string)
    ensures |r| <= |s| && r == s[..|r|]
    ensures forall i :: 0 <= i < |r| ==> IsLetter(r[i])
    ensures |r| < |s| ==> !IsLetter(s[|r|])
    decreases |s|
  {
    if s != [] && IsLetter(s[0]) then [s[0]] + LetterRun(s[1..]) else []
  }

  /** A digit string followed by a non-digit is exactly the leading run. */
  lemma {:induction false} DigitRunOf(d: string, t: string)
    requires AllDigits(d) && (t == [] || !IsDigit(t[0]))
    ensures DigitRun(d + t) == d
    decreases |d|
  {
    if d == [] {
      assert d + t == t;
    } else {
      assert (d + t)[0] == d[0] && (d + t)[1..] == d[1..] + t;
      DigitRunOf(d[1..], t);
      assert [d[0]] + d[1..] == d;
    }
  }

  /** A letter string followed by a non-letter is exactly the leading run. */
  lemma {:induction false} LetterRunOf(w: string, t: string)
    requires NoLetters(t) && forall i :: 0 <= i < |w| ==> IsLetter(w[i])
    ensures LetterRun(w + t) == w
    decreases |w|
  {
    if w == [] {
      assert w + t == t;
    } else {
      assert (w + t)[0] == w[0] && (w + t)[1..] == w[1..] + t;
      LetterRunOf(w[1..], t);
      assert [w[0]] + w[1..] == w;
    }
  }

  /** A letter run stops at a non-letter, whatever follows it. */
  lemma {:induction false} LetterRunSplit(p: string, c: char, r: string)
    requires !IsLetter(c)
    ensures LetterRun(p + [c] + r) == LetterRun(p + [c])
    ensures |LetterRun(p + [c])| <= |p|
    decreases |p|
  {
    if p == [] {
      assert (p + [c] + r)[0] == c && (p + [c])[0] == c;
    } else {
      assert (p + [c] + r)[0] == p[0] && (p + [c])[0] == p[0];
      assert (p + [c] + r)[1..] == p[1..] + [c] + r;
      assert (p + [c])[1..] == p[1..] + [c];
      LetterRunSplit(p[1..], c, r);
    }
  }

  // ---------------------------------------------------------------------------
  // numberRe = \d+
  // ---------------------------------------------------------------------------

  /** `numberRe.findall(s)`: the maximal digit runs, left to right. */
  function NumberRuns(s: string): (rs: seq<string>)
    ensures forall i :: 0 <= i < |rs| ==> IsDigits(rs[i])
    decreases |s|
  {
    if s == [] then []
    else if !IsDigit(s[0]) then NumberRuns(s[1..])
    else
      var r := DigitRun(s);
      [r] + NumberRuns(s[|r|..])
  }

  /** `numberRe.findall(path)[-1]`: the team number GetTpid reads. */
  function LastNumber(path: string): (team: string)
    requires NumberRuns(path) != []
    ensures IsDigits(team)
  {
    NumberRuns(path)[|NumberRuns(path)| - 1]
  }

  lemma {:induction false} NumberRunsSkip(p: string, s: string)
    requires NoDigits(p)
    ensures NumberRuns(p + s) == NumberRuns(s)
    decreases |p|
  {
    if p == [] {
      assert p + s == s;
    } else {
      assert (p + s)[0] == p[0] && (p + s)[1..] == p[1..] + s;
      NumberRunsSkip(p[1..], s);
    }
  }

  /** In a path `p + team + t` with digits only in `team`, GetTpid reads `team`. */
  lemma LastNumberOfTeamPath(p: string, team: string, t: string)
    requires NoDigits(p) && IsDigits(team) && NoDigits(t)
    ensures NumberRuns(p + team + t) != []
    ensures LastNumber(p + team + t) == team
  {
    assert p + team + t == p + (team + t);
    NumberRunsSkip(p, team + t);
    DigitRunOf(team, t);
    assert (team + t)[|team|..] == t;
    NumberRunsSkip(t, []);
    assert t + [] == t;
  }

  // ---------------------------------------------------------------------------
  // yearRe = \d{4}
  // ---------------------------------------------------------------------------

  /** `yearRe.findall(s)`: non-overlapping runs of four digits, left to right. */
  function YearMatches(s: string): (ys: seq<string>)
    ensures forall i :: 0 <= i < |ys| ==> |ys[i]| == 4 && IsDigits(ys[i])
    decreases |s|
  {
    if |s| >= 4 && AllDigits(s[..4]) then [s[..4]] + YearMatches(s[4..])
    else if s == [] then []
    else YearMatches(s[1..])
  }

  /** No four-digit match ever spans a non-digit: the scan restarts after it. */
  lemma {:induction false} YearMatchesSplit(p: string, c: char, r: string)
    requires !IsDigit(c)
    ensures YearMatches(p + [c] + r) == YearMatches(p + [c]) + YearMatches(r)
    decreases |p|
  {
    var s := p + [c] + r;
    var q := p + [c];
    assert s[|p|] == c;
    if |s| >= 4 && AllDigits(s[..4]) {
      assert s[..4] == p[..4] == q[..4];
      assert s[4..] == p[4..] + [c] + r;
      assert q[4..] == p[4..] + [c];
      YearMatchesSplit(p[4..], c, r);
    } else if p == [] {
      assert s[1..] == r;
      assert YearMatches(q) == YearMatches(q[1..]) == [];
    } else {
      assert |q| >= 4 ==> s[..4] == q[..4];
      assert s[1..] == p[1..] + [c] + r;
      assert q[1..] == p[1..] + [c];
      YearMatchesSplit(p[1..], c, r);
    }
  }

  lemma {:induction false} YearMatchesNone(t: string)
    requires NoDigits(t)
    ensures YearMatches(t) == []
    decreases |t|
  {
    if t != [] {
      if |t| >= 4 {
        assert !IsDigit(t[..4][0]);
      }
      YearMatchesNone(t[1..]);
    }
  }

  /** Fewer than four digits before a digit-free tail give no match. */
  lemma {:induction false} YearMatchesShortRun(r: string, t: string)
    requires AllDigits(r) && |r| < 4 && NoDigits(t)
    ensures YearMatches(r + t) == []
    decreases |r| + |t|
  {
    var s := r + t;
    if s != [] {
      if |s| >= 4 {
        assert !IsDigit(s[..4][|r|]);
      }
      if r == [] {
        assert s == t;
        YearMatchesNone(t);
      } else {
        assert s[1..] == r[1..] + t;
        YearMatchesShortRun(r[1..], t);
      }
    }
  }

  // ---------------------------------------------------------------------------
  // eventRe = [A-Za-z]+\d?
  // ---------------------------------------------------------------------------

  /** Letters and digits only. */
  predicate Alphanumeric(s: string) {
    forall i :: 0 <= i < |s| ==> IsLetter(s[i]) || IsDigit(s[i])
  }

  /** The length of the event token at the front of `s`: its letters, then at most one digit. */
  function TokenLength(s: string): (m: nat)
    requires s != [] && IsLetter(s[0])
    ensures 1 <= m <= |s| && Alphanumeric(s[..m])
  {
    var w := |LetterRun(s)|;
    if w < |s| && IsDigit(s[w]) then w + 1 else w
  }

  /** `eventRe.findall(s)`: letter runs, each with the one digit that follows it, if any. */
  function EventTokens(s: string): (ts: seq<string>)
    ensures forall i :: 0 <= i < |ts| ==> |ts[i]| > 0 && IsLetter(ts[i][0]) && Alphanumeric(ts[i])
    decreases |s|
  {
    if s == [] then []
    else if !IsLetter(s[0]) then EventTokens(s[1..])
    else
      var m := TokenLength(s);
      [s[..m]] + EventTokens(s[m..])
  }

  /** `eventRe.findall(path)[-1]`: the event code GetEvent starts from. */
  function LastEventToken(path: string): (code: string)
    requires EventTokens(path) != []
    ensures |code| > 0 && IsLetter(code[0]) && Alphanumeric(code)
  {
    EventTokens(path)[|EventTokens(path)| - 1]
  }

  /** A token never reaches past a character that is neither a letter nor a digit. */
  lemma TokenLengthSplit(p: string, c: char, r: string)
    requires p != [] && IsLetter(p[0]) && !IsLetter(c) && !IsDigit(c)
    ensures TokenLength(p + [c] + r) == TokenLength(p + [c]) <= |p|
  {
    LetterRunSplit(p, c, r);
    var w := |LetterRun(p + [c])|;
    assert (p + [c] + r)[w] == (p + [c])[w];
  }

  /** No event token spans a character that is neither a letter nor a digit. */
  lemma {:induction false} EventTokensSplit(p: string, c: char, r: string)
    requires !IsLetter(c) && !IsDigit(c)
    ensures EventTokens(p + [c] + r) == EventTokens(p + [c]) + EventTokens(r)
    decreases |p|
  {
    var s := p + [c] + r;
    var q := p + [c];
    if p == [] {
      assert s[0] == c && s[1..] == r;
      assert q[0] == c && q[1..] == [];
    } else if !IsLetter(p[0]) {
      assert s[0] == p[0] && s[1..] == p[1..] + [c] + r;
      assert q[0] == p[0] && q[1..] == p[1..] + [c];
      EventTokensSplit(p[1..], c, r);
    } else {
      assert s[0] == p[0] && q[0] == p[0];
      TokenLengthSplit(p, c, r);
      var m := TokenLength(q);
      assert s[..m] == q[..m];
      assert s[m..] == p[m..] + [c] + r;
      assert q[m..] == p[m..] + [c];
      EventTokensSplit(p[m..], c, r);
    }
  }

  lemma {:induction false} EventTokensNone(t: string)
    requires NoLetters(t)
    ensures EventTokens(t) == []
    decreases |t|
  {
    if t != [] {
      EventTokensNone(t[1..]);
    }
  }

  /** A string `eventRe` matches in full: letters, then at most one digit. */
  predicate IsEventCode(code: string) {
    |code| > 0 && IsLetter(code[0]) &&
    (forall i :: 0 <= i < |code| - 1 ==> IsLetter(code[i])) &&
    (IsLetter(code[|code| - 1]) || IsDigit(code[|code| - 1]))
  }

  /**
   * What may follow an event code without extending its match: no letters,
   * and no digit right after a code that ends in a letter.
   */
  predicate EndsCode(code: string, t: string)
    requires IsEventCode(code)
  {
    NoLetters(t) && (IsDigit(code[|code| - 1]) || t == [] || !IsDigit(t[0]))
  }

  /** An event code followed by text that ends it is exactly one token. */
  lemma EventTokensOfCode(code: string, t: string)
    requires IsEventCode(code) && EndsCode(code, t)
    ensures EventTokens(code + t) == [code]
  {
    var s := code + t;
    var n := |code|;
    assert s[0] == code[0];
    if IsDigit(code[n - 1]) {
      var w := code[..n - 1];
      var r := code[n - 1..] + t;
      assert forall i :: 0 <= i < |w| ==> IsLetter(w[i]);
      assert NoLetters(r) by {
        forall i | 0 <= i < |r| ensures !IsLetter(r[i]) {
          if i > 0 {
            assert r[i] == t[i - 1];
          }
        }
      }
      assert s == w + r;
      LetterRunOf(w, r);
      assert s[n - 1] == code[n - 1];
    } else {
      LetterRunOf(code, t);
    }
    assert TokenLength(s) == n;
    assert s[..n] == code && s[n..] == t;
    EventTokensNone(t);
  }

  /** An event code followed by digit-free text holds no four-digit run. */
  lemma YearMatchesOfCode(code: string, t: string)
    requires IsEventCode(code) && NoDigits(t)
    ensures YearMatches(code + t) == []
  {
    var n := |code|;
    if IsDigit(code[n - 1]) {
      var w := code[..n - 2];
      var c := code[n - 2];
      var r := code[n - 1..] + t;
      assert code + t == w + [c] + r;
      assert w + [c] == code[..n - 1];
      YearMatchesSplit(w, c, r);
      YearMatchesNone(w + [c]);
      YearMatchesShortRun(code[n - 1..], t);
    } else {
      YearMatchesNone(code + t);
    }
  }

  /**
   * In a path `p + [c] + code + t`, with `c` a separator such as '/' and
   * `t` text that ends the code, the event code is `code`.
   */
  lemma LastEventTokenOfPath(p: string, c: char, code: string, t: string)
    requires !IsLetter(c) && !IsDigit(c)
    requires IsEventCode(code) && EndsCode(code, t)
    ensures EventTokens(p + [c] + (code + t)) != []
    ensures LastEventToken(p + [c] + (code + t)) == code
  {
    EventTokensSplit(p, c, code + t);
    EventTokensOfCode(code, t);
  }

  // ---------------------------------------------------------------------------
  // blueAllianceRe = (\d+)/?(\d{4})?
  // ---------------------------------------------------------------------------

  /**
   * `blueAllianceRe.findall(s)`: a digit run, an optional '/', then an
   * optional run of four digits; the second group is "" when it did not match.
   */
  function TeamYearMatches(s: string): (ms: seq<(string, string)>)
    ensures forall i :: 0 <= i < |ms| ==>
      IsDigits(ms[i].0) && (ms[i].1 == "" || (|ms[i].1| == 4 && IsDigits(ms[i].1)))
    decreases |s|
  {
    if s == [] then []
    else if !IsDigit(s[0]) then TeamYearMatches(s[1..])
    else
      var team := DigitRun(s);
      var rest := s[|team|..];
      var after := if rest != [] && rest[0] == '/' then rest[1..] else rest;
      if |after| >= 4 && AllDigits(after[..4]) then [(team, after[..4])] + TeamYearMatches(after[4..])
      else [(team, "")] + TeamYearMatches(after)
  }

  lemma {:induction false} TeamYearMatchesSkip(p: string, s: string)
    requires NoDigits(p)
    ensures TeamYearMatches(p + s) == TeamYearMatches(s)
    decreases |p|
  {
    if p == [] {
      assert p + s == s;
    } else {
      assert (p + s)[0] == p[0] && (p + s)[1..] == p[1..] + s;
      TeamYearMatchesSkip(p[1..], s);
    }
  }

  lemma TeamYearMatchesNone(t: string)
    requires NoDigits(t)
    ensures TeamYearMatches(t) == []
  {
    TeamYearMatchesSkip(t, []);
    assert t + [] == t;
  }

  /** In `p + team + "/" + year + t`, with digits only in `team` and `year`, the match is (team, year). */
  lemma TeamYearOfPath(p: string, team: string, year: string, t: string)
    requires NoDigits(p) && IsDigits(team) && |year| == 4 && IsDigits(year) && NoDigits(t)
    ensures TeamYearMatches(p + team + "/" + year + t) == [(team, year)]
  {
    var u := year + t;
    var s := team + ("/" + u);
    Regroup(p + team + "/", year, t);
    Regroup(p + team, "/", u);
    Regroup(p, team, "/" + u);
    TeamYearMatchesSkip(p, s);
    DigitRunOf(team, "/" + u);
    assert s[|team|..] == "/" + u;
    assert ("/" + u)[1..] == u;
    assert u[..4] == year && u[4..] == t;
    TeamYearMatchesNone(t);
  }

  /** In `p + team + t`, with digits only in `team`, the match is (team, ""). */
  lemma TeamOnlyOfPath(p: string, team: string, t: string)
    requires NoDigits(p) && IsDigits(team) && NoDigits(t)
    ensures TeamYearMatches(p + team + t) == [(team, "")]
  {
    Regroup(p, team, t);
    TeamYearMatchesSkip(p, team + t);
    DigitRunOf(team, t);
    assert (team + t)[|team|..] == t;
    var after := if t != [] && t[0] == '/' then t[1..] else t;
    assert NoDigits(after);
    if |after| >= 4 {
      assert !IsDigit(after[..4][0]);
    }
    TeamYearMatchesNone(after);
  }
}
