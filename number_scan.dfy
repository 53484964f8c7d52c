/** The numeric tokens found by `re.findall(r'-?\d*\.?\d+', text)`
    (main.py:60-61).

    The pattern is stated declaratively (`IsMatch`), and so is what `findall`
    returns for it (`FindAll`: left to right, each match as long as possible,
    matches never overlapping, nothing skipped that could have matched). The
    scanner (`MatchEnd`, `Scan`) computes the matches with one pass over each
    run of digits, and `ScanIsFindAll` and `FindAllIsScan` show that it returns
    exactly what `FindAll` describes. Every position is a position of the text,
    `\d` is the caller's table of decimal digits `dec`. */
module NumberScan {
  import opened Values

  /** A match, as the half-open range `[start, end)` of positions in the text. */
  datatype Span = Span(start: nat, end: nat)

  predicate AllDecimal(s: string, from: int, to: int, dec: char -> bool)
    requires 0 <= from <= to <= |s|
  {
    forall x :: from <= x < to ==> dec(s[x])
  }

  /** `s[i..j]` is split as `-?` = `s[i..a]`, `\d*` = `s[a..b]`,
      `\.?` = `s[b..c]` and `\d+` = `s[c..j]`. */
  ghost predicate Split(s: string, i: int, j: int, dec: char -> bool, a: int, b: int, c: int)
  {
    && 0 <= i <= a <= i + 1
    && a <= b <= c < j <= |s|
    && (a == i + 1 ==> s[i] == '-')
    && AllDecimal(s, a, b, dec)
    && (c == b || (c == b + 1 && s[b] == '.'))
    && AllDecimal(s, c, j, dec)
  }

  /** `s[i..j]` matches `-?\d*\.?\d+`. */
  ghost predicate IsMatch(s: string, i: int, j: int, dec: char -> bool)
  {
    exists a, b, c :: Split(s, i, j, dec, a, b, c)
  }

  /** A whole token matches `-?\d*\.?\d+`. */
  ghost predicate MatchesPattern(t: string, dec: char -> bool)
  {
    IsMatch(t, 0, |t|, dec)
  }

  ghost predicate NoMatchAt(s: string, p: int, dec: char -> bool)
  {
    forall j :: !IsMatch(s, p, j, dec)
  }

  /** `s[p..e]` is the longest match that starts at `p`. */
  ghost predicate LongestAt(s: string, p: int, e: int, dec: char -> bool)
  {
    IsMatch(s, p, e, dec) && forall j :: IsMatch(s, p, j, dec) ==> j <= e
  }

  /** `spans` is what `findall` reports for the text from position `i` on:
      nothing matches before the first span, the first span is the longest
      match at its start, and the search resumes where that span ends. */
  ghost predicate FindAll(s: string, i: nat, spans: seq<Span>, dec: char -> bool)
    decreases |spans|
  {
    if spans == [] then
      forall p :: i <= p < |s| ==> NoMatchAt(s, p, dec)
    else
      && i <= spans[0].start
      && (forall p :: i <= p < spans[0].start ==> NoMatchAt(s, p, dec))
      && LongestAt(s, spans[0].start, spans[0].end, dec)
      && FindAll(s, spans[0].end, spans[1..], dec)
  }

  /** The end of the run of decimal digits that starts at `p`. */
  function DigitRunEnd(s: string, p: nat, dec: char -> bool): (e: nat)
    requires p <= |s|
    ensures p <= e <= |s|
    decreases |s| - p
  {
    if p < |s| && dec(s[p]) then DigitRunEnd(s, p + 1, dec) else p
  }

  /** `DigitRunEnd` ends a run: every character before it from `p` on is a
      decimal digit, and the character at it, if any, is not. */
  lemma {:induction false} DigitRunEndIsRun(s: string, p: nat, dec: char -> bool)
    requires p <= |s|
    ensures AllDecimal(s, p, DigitRunEnd(s, p, dec), dec)
    ensures DigitRunEnd(s, p, dec) == |s| || !dec(s[DigitRunEnd(s, p, dec)])
    decreases |s| - p
  {
    if p < |s| && dec(s[p]) {
      DigitRunEndIsRun(s, p + 1, dec);
    }
  }

  /** The end of the longest match at `i`, or `i` itself when nothing matches
      there: an optional minus sign, the run of digits after it, and, when a
      decimal point follows that run and a digit follows the point, the
      point and the run of digits after it. */
  function MatchEnd(s: string, i: nat, dec: char -> bool): (e: nat)
    requires i <= |s|
    ensures i <= e <= |s|
  {
    var p := if i < |s| && s[i] == '-' then i + 1 else i;
    var a := DigitRunEnd(s, p, dec);
    if a + 1 < |s| && s[a] == '.' && dec(s[a + 1]) then DigitRunEnd(s, a + 1, dec)
    else if a > p then a
    else i
  }

  /** Any run of decimal digits from `p` ends no later than `DigitRunEnd`. */
  lemma RunWithin(s: string, p: nat, q: int, dec: char -> bool)
    requires p <= q <= |s| && AllDecimal(s, p, q, dec)
    ensures q <= DigitRunEnd(s, p, dec)
  {
    DigitRunEndIsRun(s, p, dec);
  }

  /** `MatchEnd` finds the longest match at `i`, and reports none exactly
      when there is none. */
  lemma MatchEndIsLongest(s: string, i: nat, dec: char -> bool)
    requires i <= |s| && ValidDecimal(dec)
    ensures MatchEnd(s, i, dec) > i ==> LongestAt(s, i, MatchEnd(s, i, dec), dec)
    ensures MatchEnd(s, i, dec) == i <==> NoMatchAt(s, i, dec)
  {
    var e := MatchEnd(s, i, dec);
    var p := if i < |s| && s[i] == '-' then i + 1 else i;
    var a := DigitRunEnd(s, p, dec);
    DigitRunEndIsRun(s, p, dec);
    if a + 1 < |s| && s[a] == '.' && dec(s[a + 1]) {
      DigitRunEndIsRun(s, a + 1, dec);
      assert Split(s, i, e, dec, p, a, a + 1);
      assert IsMatch(s, i, e, dec);
    } else if a > p {
      assert Split(s, i, e, dec, p, p, p);
      assert IsMatch(s, i, e, dec);
    }
    forall j | IsMatch(s, i, j, dec) ensures i < j <= e {
      var a', b', c' :| Split(s, i, j, dec, a', b', c');
      // The minus sign can only be matched by `-?`.
      assert a' == p;
      RunWithin(s, p, b', dec);
      if c' == b' {
        assert AllDecimal(s, p, j, dec);
        RunWithin(s, p, j, dec);
      } else {
        assert b' == a;
        assert dec(s[a + 1]);
        RunWithin(s, a + 1, j, dec);
      }
    }
    if e == i {
      assert NoMatchAt(s, i, dec);
    }
  }

  /** The scan from position `i`: where nothing matches, move on one
      character; otherwise report the longest match and resume at its end. */
  function Scan(s: string, i: nat, dec: char -> bool): (spans: seq<Span>)
    requires i <= |s|
    ensures forall k :: 0 <= k < |spans| ==> i <= spans[k].start < spans[k].end <= |s|
    ensures forall j, k :: 0 <= j < k < |spans| ==> spans[j].end <= spans[k].start
    decreases |s| - i
  {
    if i == |s| then []
    else
      var e := MatchEnd(s, i, dec);
      if e == i then Scan(s, i + 1, dec) else [Span(i, e)] + Scan(s, e, dec)
  }

  /** A character that is no minus sign, no decimal point and no digit
      starts no match. */
  lemma NoStartAt(s: string, i: nat, dec: char -> bool)
    requires i < |s| && s[i] != '-' && s[i] != '.' && !dec(s[i])
    ensures MatchEnd(s, i, dec) == i
  {
    assert DigitRunEnd(s, i, dec) == i;
  }

  /** One step of the scan at a position where no match starts. */
  lemma ScanPass(s: string, i: nat, dec: char -> bool)
    requires i < |s| && MatchEnd(s, i, dec) == i
    ensures Scan(s, i, dec) == Scan(s, i + 1, dec)
  {
  }

  /** The scan passes over characters that can neither start nor continue
      a number without reporting anything. */
  lemma {:induction false} ScanSkips(s: string, i: nat, j: nat, dec: char -> bool)
    requires i <= j <= |s|
    requires forall p :: i <= p < j ==> s[p] != '-' && s[p] != '.' && !dec(s[p])
    ensures Scan(s, i, dec) == Scan(s, j, dec)
    decreases j - i
  {
    if i < j {
      NoStartAt(s, i, dec);
      ScanPass(s, i, dec);
      ScanSkips(s, i + 1, j, dec);
    }
  }

  /** One step of the scan at a position where a match starts. */
  lemma ScanStep(s: string, i: nat, dec: char -> bool)
    requires i <= |s| && MatchEnd(s, i, dec) > i
    ensures Scan(s, i, dec) == [Span(i, MatchEnd(s, i, dec))] + Scan(s, MatchEnd(s, i, dec), dec)
  {
  }

  /** A position where nothing matches can be prepended to what `findall`
      reports from the next position on. */
  lemma FindAllSkip(s: string, i: nat, spans: seq<Span>, dec: char -> bool)
    requires NoMatchAt(s, i, dec) && FindAll(s, i + 1, spans, dec)
    requires spans != [] ==> i < spans[0].start
    ensures FindAll(s, i, spans, dec)
  {
  }

  /** The scan reports what `findall` does. */
  lemma {:induction false} ScanIsFindAll(s: string, i: nat, dec: char -> bool)
    requires i <= |s| && ValidDecimal(dec)
    ensures FindAll(s, i, Scan(s, i, dec), dec)
    decreases |s| - i
  {
    if i < |s| {
      var e := MatchEnd(s, i, dec);
      MatchEndIsLongest(s, i, dec);
      if e == i {
        ScanIsFindAll(s, i + 1, dec);
        FindAllSkip(s, i, Scan(s, i + 1, dec), dec);
      } else {
        ScanIsFindAll(s, e, dec);
        var spans := Scan(s, i, dec);
        assert spans[0] == Span(i, e) && spans[1..] == Scan(s, e, dec);
      }
    }
  }

  /** When `findall` reports nothing at `i`, nothing matches there and the
      same spans are what it reports from the next position on. */
  lemma FindAllPass(s: string, i: nat, spans: seq<Span>, dec: char -> bool)
    requires FindAll(s, i, spans, dec) && (spans == [] || spans[0].start != i)
    ensures NoMatchAt(s, i, dec) && FindAll(s, i + 1, spans, dec)
  {
  }

  /** When `findall` reports a match at `i`, it is the one `MatchEnd` finds,
      and the rest is what `findall` reports from its end on. */
  lemma FindAllHead(s: string, i: nat, spans: seq<Span>, dec: char -> bool)
    requires i <= |s| && ValidDecimal(dec)
    requires FindAll(s, i, spans, dec) && spans != [] && spans[0].start == i
    ensures MatchEnd(s, i, dec) == spans[0].end && FindAll(s, spans[0].end, spans[1..], dec)
  {
    MatchEndIsLongest(s, i, dec);
  }

  /** Only the scan's result satisfies `FindAll`: the description determines
      the matches. */
  lemma {:induction false} FindAllIsScan(s: string, i: nat, spans: seq<Span>, dec: char -> bool)
    requires i <= |s| && ValidDecimal(dec)
    requires FindAll(s, i, spans, dec)
    ensures spans == Scan(s, i, dec)
    decreases |s| - i
  {
    if i == |s| {
    } else {
      if spans != [] && spans[0].start == i {
        FindAllHead(s, i, spans, dec);
        var e := spans[0].end;
        FindAllIsScan(s, e, spans[1..], dec);
        assert spans == [Span(i, e)] + spans[1..];
      } else {
        FindAllPass(s, i, spans, dec);
        MatchEndIsLongest(s, i, dec);
        FindAllIsScan(s, i + 1, spans, dec);
      }
    }
  }

  /** The token strings of the spans, in order. */
  function Texts(s: string, spans: seq<Span>): (tokens: seq<string>)
    requires forall k :: 0 <= k < |spans| ==> spans[k].start <= spans[k].end <= |s|
    ensures |tokens| == |spans|
    ensures forall k :: 0 <= k < |spans| ==> tokens[k] == s[spans[k].start..spans[k].end]
  {
    if spans == [] then [] else [s[spans[0].start..spans[0].end]] + Texts(s, spans[1..])
  }

  /** A match inside the text is a token that matches on its own. */
  lemma MatchIsToken(s: string, i: int, j: int, dec: char -> bool)
    requires IsMatch(s, i, j, dec)
    ensures MatchesPattern(s[i..j], dec)
  {
    var a, b, c :| Split(s, i, j, dec, a, b, c);
    var t := s[i..j];
    assert Split(t, 0, |t|, dec, a - i, b - i, c - i);
  }

  /** What the pattern guarantees of each token: it is not empty, it ends
      with a digit, it holds at most one decimal point, and a minus sign only
      as its first character. */
  lemma TokenShape(t: string, dec: char -> bool)
    requires ValidDecimal(dec) && MatchesPattern(t, dec)
    ensures |t| > 0 && dec(t[|t| - 1])
    ensures forall x, y :: 0 <= x < y < |t| && t[x] == '.' ==> t[y] != '.'
    ensures forall x :: 0 < x < |t| ==> t[x] != '-'
  {
    var a, b, c :| Split(t, 0, |t|, dec, a, b, c);
    assert forall x :: 0 <= x < |t| && x != b && t[x] == '.' ==> x < a by {
      forall x | 0 <= x < |t| && x != b && t[x] == '.' ensures x < a {
      }
    }
  }
}
