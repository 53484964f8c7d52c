/** The expectations of test.py, stated against the model. The character
    tables here classify only what these cases need, and agree with Python on
    every character the cases given them use. The texts scanned for numbers
    are written as the concatenation of the stretches the scan takes one at
    a time. */
module SourceTests {
  import opened Values
  import opened CharCount
  import opened NumberScan
  import opened Sanitize
  import opened Processor

  predicate SampleAlpha(c: char)
  {
    ('A' <= c <= 'Z') || ('a' <= c <= 'z') || ('一' <= c <= '鿿')
  }

  predicate SampleDigit(c: char)
  {
    '0' <= c <= '9'
  }

  predicate SampleSpace(c: char)
  {
    c == ' ' || ('\t' <= c <= '\r')
  }

  const SampleTables := CharTables(SampleAlpha, SampleDigit, SampleSpace, SampleDigit)

  /** test.py:8-31. The non-ASCII literals of test.py:25, 28 and 31 are
      written here as they stand in that file (UTF-8 text read back as Mac
      Roman); they are accepted either way. */
  lemma ValidateExamples()
    ensures ValidateStringLength(Str("Hello"), DefaultMinLength, DefaultMaxLength)
    ensures !ValidateStringLength(Str(""), DefaultMinLength, DefaultMaxLength)
    ensures !ValidateStringLength(NotStr, DefaultMinLength, DefaultMaxLength)
    ensures !ValidateStringLength(Str(seq(1001, _ => 'a')), DefaultMinLength, DefaultMaxLength)
    ensures ValidateStringLength(Str("‰Ω†Â•Ω‰∏ñÁïå"), DefaultMinLength, DefaultMaxLength)
    ensures ValidateStringLength(Str("ŸÖÿ±ÿ≠ÿ®ÿß"), DefaultMinLength, DefaultMaxLength)
    ensures ValidateStringLength(Str("\U{F8FF}üëã\U{F8FF}üåç"), DefaultMinLength, DefaultMaxLength)
    ensures ValidateStringLength(Str("你好世界"), DefaultMinLength, DefaultMaxLength)
    ensures ValidateStringLength(Str("مرحبا"), DefaultMinLength, DefaultMaxLength)
    ensures ValidateStringLength(Str("\U{1F44B}\U{1F30D}"), DefaultMinLength, DefaultMaxLength)
  {
  }

  /** test.py:33-35. */
  lemma CountHelloExample()
    ensures Counts("hello") == map['h' := 1, 'e' := 1, 'l' := 2, 'o' := 1]
  {
    assert "h"[..0] == "";
    assert Counts("h") == map['h' := 1];
    assert "he"[..1] == "h";
    assert Counts("he") == map['h' := 1, 'e' := 1];
    assert "hel"[..2] == "he";
    assert Counts("hel") == map['h' := 1, 'e' := 1, 'l' := 1];
    assert "hell"[..3] == "hel";
    assert Counts("hell") == map['h' := 1, 'e' := 1, 'l' := 2];
    assert "hello"[..4] == "hell";
  }

  /** test.py:37-41, on the text the test evidently means ("你好你世界"):
      as stored, its literals are mis-encoded and the key looked up is a
      three-character string, which no character-keyed dictionary holds. */
  lemma CountUnicodeExample()
    ensures var m := Counts("你好你世界"); '你' in m && m['你'] == 2 && '好' in m && m['好'] == 1
  {
    assert "你"[..0] == "";
    assert Counts("你") == map['你' := 1];
    assert "你好"[..1] == "你";
    assert Counts("你好") == map['你' := 1, '好' := 1];
    assert "你好你"[..2] == "你好";
    assert Counts("你好你") == map['你' := 2, '好' := 1];
    assert "你好你世"[..3] == "你好你";
    assert Counts("你好你世") == map['你' := 2, '好' := 1, '世' := 1];
    assert "你好你世界"[..4] == "你好你世";
  }

  /** The scan of a text holding exactly one number. */
  lemma ScanOneMatch(s: string, dec: char -> bool, a: nat, b: nat)
    requires a < b <= |s|
    requires Scan(s, 0, dec) == Scan(s, a, dec) && MatchEnd(s, a, dec) == b
    requires Scan(s, b, dec) == []
    ensures Scan(s, 0, dec) == [Span(a, b)]
  {
    ScanStep(s, a, dec);
  }

  /** The scan of a text holding exactly two numbers, the second at its end. */
  lemma ScanTwoMatches(s: string, dec: char -> bool, a: nat, b: nat, c: nat, d: nat)
    requires a < b <= c < d == |s|
    requires Scan(s, 0, dec) == Scan(s, a, dec) && MatchEnd(s, a, dec) == b
    requires Scan(s, b, dec) == Scan(s, c, dec) && MatchEnd(s, c, dec) == d
    ensures Scan(s, 0, dec) == [Span(a, b), Span(c, d)]
  {
    ScanStep(s, c, dec);
    ScanStep(s, a, dec);
  }

  /** The token of a text whose scan finds one number. */
  lemma ExtractedOne(s: string, tables: CharTables, a: nat, b: nat)
    requires a <= b <= |s| && Scan(s, 0, tables.isDecimal) == [Span(a, b)]
    ensures ExtractNumbers(Str(s), tables) == Success([s[a..b]])
  {
    var spans := Scan(s, 0, tables.isDecimal);
    assert ExtractNumbers(Str(s), tables) == Success(Texts(s, spans));
    var found := Texts(s, spans);
    assert found[0] == s[a..b];
    assert found == [s[a..b]];
  }

  /** The tokens of a text whose scan finds two numbers. */
  lemma ExtractedTwo(s: string, tables: CharTables, a: nat, b: nat, c: nat, d: nat)
    requires a <= b <= c <= d <= |s| && Scan(s, 0, tables.isDecimal) == [Span(a, b), Span(c, d)]
    ensures ExtractNumbers(Str(s), tables) == Success([s[a..b], s[c..d]])
  {
    var spans := Scan(s, 0, tables.isDecimal);
    assert ExtractNumbers(Str(s), tables) == Success(Texts(s, spans));
    var found := Texts(s, spans);
    assert found[0] == s[a..b];
    assert found[1] == s[c..d];
    assert found == [s[a..b], s[c..d]];
  }

  // test.py:49-51: "The price is 23.50 and quantity is 5" gives 23.50 and 5.
  // Each text is written as the concatenation of the stretches the scan
  // takes one at a time.

  lemma PriceFirstMatch(s: string)
    requires s == "The price is " + "23.50" + " and quantity is " + "5"
    ensures |s| == 36 && s[13..18] == "23.50" && MatchEnd(s, 13, SampleDigit) == 18
  {
    var t := "23.50";
    assert |s| == 36 && s[13..18] == t && s[18] == ' ';
    assert DigitRunEnd(s, 18, SampleDigit) == 18;
    assert s[17] == t[4];
    assert DigitRunEnd(s, 17, SampleDigit) == 18;
    assert s[16] == t[3];
    assert DigitRunEnd(s, 16, SampleDigit) == 18;
    assert s[15] == t[2];
    assert DigitRunEnd(s, 15, SampleDigit) == 15;
    assert s[14] == t[1];
    assert DigitRunEnd(s, 14, SampleDigit) == 15;
    assert s[13] == t[0];
    assert DigitRunEnd(s, 13, SampleDigit) == 15;
  }

  lemma PriceSecondMatch(s: string)
    requires s == "The price is " + "23.50" + " and quantity is " + "5"
    ensures |s| == 36 && s[35..36] == "5" && MatchEnd(s, 35, SampleDigit) == 36
  {
    assert |s| == 36 && s[35] == '5';
    assert DigitRunEnd(s, 36, SampleDigit) == 36;
    assert DigitRunEnd(s, 35, SampleDigit) == 36;
  }

  lemma PriceFirstGap(s: string)
    requires s == "The price is " + "23.50" + " and quantity is " + "5"
    ensures Scan(s, 0, SampleDigit) == Scan(s, 13, SampleDigit)
  {
    var p := "The price is ";
    assert |s| == 36 && s[..13] == p;
    assert forall x :: 0 <= x < 13 ==> s[x] == p[x];
    ScanSkips(s, 0, 13, SampleDigit);
  }

  lemma PriceSecondGap(s: string)
    requires s == "The price is " + "23.50" + " and quantity is " + "5"
    ensures Scan(s, 18, SampleDigit) == Scan(s, 35, SampleDigit)
  {
    var q := " and quantity is ";
    assert |s| == 36 && s[18..35] == q;
    assert forall x :: 18 <= x < 35 ==> s[x] == q[x - 18];
    ScanSkips(s, 18, 35, SampleDigit);
  }

  lemma ExtractPriceExample()
    ensures ExtractNumbers(Str("The price is " + "23.50" + " and quantity is " + "5"), SampleTables)
            == Success(["23.50", "5"])
  {
    var s := "The price is " + "23.50" + " and quantity is " + "5";
    PriceFirstMatch(s);
    PriceSecondMatch(s);
    PriceFirstGap(s);
    PriceSecondGap(s);
    ScanTwoMatches(s, SampleDigit, 13, 18, 35, 36);
    ExtractedTwo(s, SampleTables, 13, 18, 35, 36);
  }

  // test.py:53-56: "Temperature is -15.5¬∞C" (a degree sign, mis-encoded as
  // two characters in the file) gives -15.5.

  lemma TemperatureMatch(s: string)
    requires s == "Temperature is " + "-15.5" + "¬∞C"
    ensures |s| == 23 && s[15..20] == "-15.5" && MatchEnd(s, 15, SampleDigit) == 20
  {
    var t := "-15.5";
    assert |s| == 23 && s[15..20] == t && s[20] == '¬';
    assert DigitRunEnd(s, 20, SampleDigit) == 20;
    assert s[19] == t[4];
    assert DigitRunEnd(s, 19, SampleDigit) == 20;
    assert s[18] == t[3];
    assert DigitRunEnd(s, 18, SampleDigit) == 18;
    assert s[17] == t[2];
    assert DigitRunEnd(s, 17, SampleDigit) == 18;
    assert s[16] == t[1];
    assert DigitRunEnd(s, 16, SampleDigit) == 18;
    assert s[15] == t[0];
  }

  lemma TemperatureGaps(s: string)
    requires s == "Temperature is " + "-15.5" + "¬∞C"
    ensures Scan(s, 0, SampleDigit) == Scan(s, 15, SampleDigit)
    ensures Scan(s, 20, SampleDigit) == []
  {
    var p := "Temperature is ";
    assert |s| == 23 && s[..15] == p && s[20] == '¬' && s[21] == '∞' && s[22] == 'C';
    assert forall x :: 0 <= x < 15 ==> s[x] == p[x];
    ScanSkips(s, 0, 15, SampleDigit);
    ScanSkips(s, 20, 23, SampleDigit);
  }

  lemma ExtractNegativeExample()
    ensures ExtractNumbers(Str("Temperature is " + "-15.5" + "¬∞C"), SampleTables) == Success(["-15.5"])
  {
    var s := "Temperature is " + "-15.5" + "¬∞C";
    TemperatureMatch(s);
    TemperatureGaps(s);
    ScanOneMatch(s, SampleDigit, 15, 20);
    ExtractedOne(s, SampleTables, 15, 20);
  }

  // test.py:58-60: "Distance is 1234567.89 light years" gives 1234567.89.

  lemma DistanceInteger(s: string)
    requires s == "Distance is " + "1234567.89" + " light years"
    ensures |s| == 34 && s[12..22] == "1234567.89" && DigitRunEnd(s, 12, SampleDigit) == 19
  {
    var t := "1234567.89";
    assert |s| == 34 && s[12..22] == t;
    assert s[19] == t[7];
    assert DigitRunEnd(s, 19, SampleDigit) == 19;
    assert s[18] == t[6];
    assert DigitRunEnd(s, 18, SampleDigit) == 19;
    assert s[17] == t[5];
    assert DigitRunEnd(s, 17, SampleDigit) == 19;
    assert s[16] == t[4];
    assert DigitRunEnd(s, 16, SampleDigit) == 19;
    assert s[15] == t[3];
    assert DigitRunEnd(s, 15, SampleDigit) == 19;
    assert s[14] == t[2];
    assert DigitRunEnd(s, 14, SampleDigit) == 19;
    assert s[13] == t[1];
    assert DigitRunEnd(s, 13, SampleDigit) == 19;
    assert s[12] == t[0];
  }

  lemma DistanceFraction(s: string)
    requires s == "Distance is " + "1234567.89" + " light years"
    ensures |s| == 34 && s[19] == '.' && s[20] == '8' && DigitRunEnd(s, 20, SampleDigit) == 22
  {
    var t := "1234567.89";
    assert |s| == 34 && s[12..22] == t && s[22] == ' ';
    assert DigitRunEnd(s, 22, SampleDigit) == 22;
    assert s[21] == t[9];
    assert DigitRunEnd(s, 21, SampleDigit) == 22;
    assert s[20] == t[8];
    assert s[19] == t[7];
  }

  lemma DistanceFirstGap(s: string)
    requires s == "Distance is " + "1234567.89" + " light years"
    ensures Scan(s, 0, SampleDigit) == Scan(s, 12, SampleDigit)
  {
    var p := "Distance is ";
    assert |s| == 34 && s[..12] == p;
    assert forall x :: 0 <= x < 12 ==> s[x] == p[x];
    ScanSkips(s, 0, 12, SampleDigit);
  }

  lemma DistanceSecondGap(s: string)
    requires s == "Distance is " + "1234567.89" + " light years"
    ensures Scan(s, 22, SampleDigit) == []
  {
    var q := " light years";
    assert |s| == 34 && s[22..] == q;
    assert forall x :: 22 <= x < 34 ==> s[x] == q[x - 22];
    ScanSkips(s, 22, 34, SampleDigit);
  }

  lemma ExtractLargeExample()
    ensures ExtractNumbers(Str("Distance is " + "1234567.89" + " light years"), SampleTables)
            == Success(["1234567.89"])
  {
    var s := "Distance is " + "1234567.89" + " light years";
    DistanceInteger(s);
    DistanceFraction(s);
    DistanceFirstGap(s);
    DistanceSecondGap(s);
    ScanOneMatch(s, SampleDigit, 12, 22);
    ExtractedOne(s, SampleTables, 12, 22);
  }

  /** test.py:66-68. */
  lemma SanitizeBasicExample()
    ensures Filtered("Hello123!", DefaultOptions, SampleTables) == "Hello123"
  {
    assert "Hello123" + "!" == "Hello123!";
    FilteredAppend("Hello123", "!", DefaultOptions, SampleTables);
    FilteredUnchanged("Hello123", DefaultOptions, SampleTables);
    FilteredNothingKept("!", DefaultOptions, SampleTables);
  }

  /** test.py:70-76, on the text the test evidently means: every character
      passes, so the text comes back unchanged. */
  lemma SanitizeUnicodeExample()
    ensures Filtered("你好123 World!", Options(true, true, Some("!")), SampleTables) == "你好123 World!"
  {
    FilteredUnchanged("你好123 World!", Options(true, true, Some("!")), SampleTables);
  }

  /** test.py:70-76 as stored: the literal begins with the per mille sign
      U+2030, which Python classes as neither letter, digit nor space, and
      which is not `!`; it is dropped, so the result differs from the input
      the test expects back. */
  lemma SanitizeUnicodeAsWritten(tables: CharTables)
    requires !tables.isAlpha('‰') && !tables.isDigit('‰') && !tables.isSpace('‰')
    ensures Filtered("‰Ω†Â•Ω123 World!", Options(true, true, Some("!")), tables) != "‰Ω†Â•Ω123 World!"
  {
    var s, opts := "‰Ω†Â•Ω123 World!", Options(true, true, Some("!"));
    FilteredOccurrences(s, opts, tables, '‰');
    assert s[0] == '‰';
    assert multiset(s)['‰'] > 0;
  }

  /** test.py:78-82: a long run of letters and digits stays, the trailing
      punctuation goes. */
  lemma SanitizeLongExample()
    ensures Filtered(seq(10000, _ => 'A') + "123" + seq(100, _ => '!'), DefaultOptions, SampleTables)
            == seq(10000, _ => 'A') + "123"
  {
    var kept, dropped := seq(10000, _ => 'A') + "123", seq(100, _ => '!');
    FilteredAppend(kept, dropped, DefaultOptions, SampleTables);
    FilteredUnchanged(kept, DefaultOptions, SampleTables);
    FilteredNothingKept(dropped, DefaultOptions, SampleTables);
  }

  /** test.py:84-88. */
  lemma SanitizeSpecialExample()
    ensures Filtered("Hello@#$%^&*()", Options(true, true, Some("@#$")), SampleTables) == "Hello@#$"
  {
    var opts := Options(true, true, Some("@#$"));
    assert "Hello@#$" + "%^&*()" == "Hello@#$%^&*()";
    FilteredAppend("Hello@#$", "%^&*()", opts, SampleTables);
    FilteredUnchanged("Hello@#$", opts, SampleTables);
    FilteredNothingKept("%^&*()", opts, SampleTables);
  }

  /** The membership test of main.py:104 applies to every character: a
      digit listed among the special characters stays even when numbers are
      not allowed. */
  lemma SanitizeListedDigitExample()
    ensures Filtered("a1", Options(false, true, Some("1")), SampleTables) == "a1"
    ensures Filtered("a1", Options(false, true, None), SampleTables) == "a"
  {
    assert "a1"[..1] == "a" && "a"[..0] == "";
    assert Filtered("a", Options(false, true, Some("1")), SampleTables) == "a";
    assert Filtered("a", Options(false, true, None), SampleTables) == "a";
    assert Keep('1', Options(false, true, Some("1")), SampleTables);
    assert !Keep('1', Options(false, true, None), SampleTables);
  }

  /** test.py:43-47 and 62-64: counting and extracting raise `ValueError`
      for a non-string, and a failed count leaves `last_processed` as the
      last successful count set it. */
  method ProcessorScenario() returns (failed: Result<map<char, nat>>, last: Option<string>, extracted: Result<seq<string>>)
    ensures failed == Failure(ValueError(NotAStringMessage))
    ensures last == Some("hello")
    ensures extracted == Failure(ValueError(NotAStringMessage))
  {
    var p := new TextProcessor();
    var counted := p.CountUniqueCharacters(Str("hello"));
    failed := p.CountUniqueCharacters(NotStr);
    last := p.lastProcessed;
    extracted := ExtractNumbers(NotStr, SampleTables);
  }
}
