/** The `TextProcessor` of main.py: a length check, a character-frequency
    count, the extraction of numeric tokens, and a character filter. Only the
    count touches the processor's state (`last_processed`); the two
    operations that read no state and contain no loop are functions of this
    module, the two that loop are methods of the class. */
module Processor {
  import opened Values
  import opened CharCount
  import opened NumberScan
  import opened Sanitize

  /** The defaults of `validate_string_length` (main.py:10). */
  const DefaultMinLength: int := 1
  const DefaultMaxLength: int := 1000

  /** `validate_string_length` (main.py:10-25): false for anything but a
      string, never an error; for a string, whether its number of code
      points lies within the inclusive bounds. */
  function ValidateStringLength(text: Input, minLength: int, maxLength: int): (ok: bool)
    ensures ok <==> text.Str? && minLength <= |text.s| <= maxLength
  {
    match text
    case NotStr => false
    case Str(s) => minLength <= |s| <= maxLength
  }

  /** A length accepted between two bounds is accepted between any wider
      bounds, and no string passes when the bounds are crossed. */
  lemma ValidateWiderBounds(text: Input, lo: int, hi: int, lo': int, hi': int)
    requires lo' <= lo && hi <= hi'
    ensures ValidateStringLength(text, lo, hi) ==> ValidateStringLength(text, lo', hi')
    ensures lo > hi ==> !ValidateStringLength(text, lo, hi)
  {
  }

  /** `extract_numbers` (main.py:47-62), with each number kept as the token
      the regular expression matched: a `ValueError` for anything but a
      string, otherwise the tokens the scan finds, in order. */
  function ExtractNumbers(text: Input, tables: CharTables): (r: Result<seq<string>>)
    ensures r.Failure? <==> text.NotStr?
    ensures r.Failure? ==> r.error == ValueError(NotAStringMessage)
  {
    match text
    case NotStr => Failure(ValueError(NotAStringMessage))
    case Str(s) => Success(Texts(s, Scan(s, 0, tables.isDecimal)))
  }

  /** The spans of a `findall` lie within the text. */
  predicate SpansWithin(s: string, spans: seq<Span>)
  {
    forall k :: 0 <= k < |spans| ==> spans[k].start <= spans[k].end <= |s|
  }

  /** `extract_numbers` returns the texts of the matches `findall` reports:
      for the one list of spans that `FindAll` describes (it exists by
      `ScanIsFindAll`), the tokens are those substrings, in that order; the
      matches are not empty and do not overlap. */
  lemma ExtractNumbersIsFindAll(s: string, tables: CharTables, spans: seq<Span>)
    requires ValidDecimal(tables.isDecimal)
    requires FindAll(s, 0, spans, tables.isDecimal)
    ensures SpansWithin(s, spans)
    ensures forall k :: 0 <= k < |spans| ==> spans[k].start < spans[k].end
    ensures forall j, k :: 0 <= j < k < |spans| ==> spans[j].end <= spans[k].start
    ensures ExtractNumbers(Str(s), tables) == Success(Texts(s, spans))
  {
    FindAllIsScan(s, 0, spans, tables.isDecimal);
  }

  /** Each token of `extract_numbers` matches `-?\d*\.?\d+` on its own: it
      holds a digit and ends with one, has at most one decimal point, and a
      minus sign only in front. */
  lemma ExtractedTokenShape(s: string, tables: CharTables, k: nat)
    requires ValidDecimal(tables.isDecimal)
    requires k < |ExtractNumbers(Str(s), tables).value|
    ensures var t := ExtractNumbers(Str(s), tables).value[k];
      && MatchesPattern(t, tables.isDecimal)
      && |t| > 0 && tables.isDecimal(t[|t| - 1])
      && (forall x, y :: 0 <= x < y < |t| && t[x] == '.' ==> t[y] != '.')
      && (forall x :: 0 < x < |t| ==> t[x] != '-')
  {
    var dec := tables.isDecimal;
    var spans := Scan(s, 0, dec);
    ScanIsFindAll(s, 0, dec);
    FindAllSpanMatches(s, 0, spans, dec, k);
    MatchIsToken(s, spans[k].start, spans[k].end, dec);
    TokenShape(ExtractNumbers(Str(s), tables).value[k], dec);
  }

  /** Each span that `FindAll` reports is a match of the pattern. */
  lemma {:induction false} FindAllSpanMatches(s: string, i: nat, spans: seq<Span>, dec: char -> bool, k: nat)
    requires FindAll(s, i, spans, dec) && k < |spans|
    ensures IsMatch(s, spans[k].start, spans[k].end, dec)
    decreases k
  {
    if k > 0 {
      FindAllSpanMatches(s, spans[0].end, spans[1..], dec, k - 1);
    }
  }

  /** A text without any decimal digit yields no number. */
  lemma ExtractNumbersNoDigits(s: string, tables: CharTables)
    requires ValidDecimal(tables.isDecimal)
    requires forall x :: 0 <= x < |s| ==> !tables.isDecimal(s[x])
    ensures ExtractNumbers(Str(s), tables) == Success([])
  {
    var toks := ExtractNumbers(Str(s), tables).value;
    if toks != [] {
      ExtractedTokenShape(s, tables, 0);
    }
  }

  class TextProcessor {
    /** `last_processed`: the text of the last successful count, `None`
        before the first one. */
    var lastProcessed: Option<string>

    /** `__init__` (main.py:7-8). */
    constructor ()
      ensures lastProcessed == None
    {
      lastProcessed := None;
    }

    /** `count_unique_characters` (main.py:27-45): a `ValueError`, before
        any state changes, for anything but a string; otherwise the
        character-frequency dictionary of the text, which also becomes
        `last_processed`. */
    method CountUniqueCharacters(text: Input) returns (r: Result<map<char, nat>>)
      modifies this
      ensures text.NotStr? ==> r == Failure(ValueError(NotAStringMessage)) && lastProcessed == old(lastProcessed)
      ensures text.Str? ==> r == Success(Counts(text.s)) && lastProcessed == Some(text.s)
    {
      if text.NotStr? {
        return Failure(ValueError(NotAStringMessage));
      }
      var charCount: map<char, nat> := map[];
      for i := 0 to |text.s|
        invariant charCount == Counts(text.s[..i])
      {
        var c := text.s[i];
        assert text.s[..i + 1][..i] == text.s[..i];
        charCount := charCount[c := (if c in charCount then charCount[c] else 0) + 1];
      }
      assert text.s[..|text.s|] == text.s;
      lastProcessed := Some(text.s);
      return Success(charCount);
    }

    /** `sanitize_text` (main.py:64-107): a `ValueError` for anything but a
        string; otherwise the characters of the text that pass the filter,
        in their order. Reads and writes no state. */
    method SanitizeText(text: Input, opts: Options, tables: CharTables) returns (r: Result<string>)
      ensures text.NotStr? ==> r == Failure(ValueError(NotAStringMessage))
      ensures text.Str? ==> r == Success(Filtered(text.s, opts, tables))
    {
      if text.NotStr? {
        return Failure(ValueError(NotAStringMessage));
      }
      var chars := text.s;
      var result: string := [];
      for i := 0 to |chars|
        invariant result == Filtered(chars[..i], opts, tables)
      {
        var c := chars[i];
        assert chars[..i + 1][..i] == chars[..i];
        if tables.isAlpha(c) {
          result := result + [c];
          continue;
        }
        if tables.isDigit(c) && opts.allowNumbers {
          result := result + [c];
          continue;
        }
        if tables.isSpace(c) && opts.allowSpaces {
          result := result + [c];
          continue;
        }
        if opts.allowedSpecialChars.Some? && opts.allowedSpecialChars.value != []
           && c in opts.allowedSpecialChars.value
        {
          result := result + [c];
        }
      }
      assert chars[..|chars|] == chars;
      return Success(result);
    }
  }
}
