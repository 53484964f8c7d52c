/** The character filter of `sanitize_text` (main.py:84-107): which
    characters it keeps, and what the filtered text is. */
module Sanitize {
  import opened Values

  /** The keyword arguments `allow_numbers`, `allow_spaces` and
      `allowed_special_chars` of `sanitize_text`. */
  datatype Options = Options(
    allowNumbers: bool,
    allowSpaces: bool,
    allowedSpecialChars: Option<string>)

  /** The defaults of main.py:65-67. */
  const DefaultOptions := Options(true, true, None)

  /** The four tests of the loop body, in the source's order: a letter, a
      digit when numbers are allowed, whitespace when spaces are allowed, or
      a character of a non-empty `allowed_special_chars` (tested for every
      character, not only for the ones of no other class). */
  predicate Keep(c: char, opts: Options, tables: CharTables)
  {
    || tables.isAlpha(c)
    || (tables.isDigit(c) && opts.allowNumbers)
    || (tables.isSpace(c) && opts.allowSpaces)
    || (opts.allowedSpecialChars.Some? && opts.allowedSpecialChars.value != []
        && c in opts.allowedSpecialChars.value)
  }

  /** The text after the loop has seen every character of `s`: the result
      list grows at its end, one kept character at a time. It is no longer
      than the text, and each of its characters passes the filter. */
  function Filtered(s: string, opts: Options, tables: CharTables): (r: string)
    ensures |r| <= |s|
    ensures forall k :: 0 <= k < |r| ==> Keep(r[k], opts, tables)
  {
    if s == [] then []
    else
      var c := s[|s| - 1];
      Filtered(s[..|s| - 1], opts, tables) + (if Keep(c, opts, tables) then [c] else [])
  }

  /** `r` is `s` with some characters left out, the others in their order. */
  predicate IsSubsequence(r: string, s: string)
  {
    if r == [] then true
    else if s == [] then false
    else if r[|r| - 1] == s[|s| - 1] then IsSubsequence(r[..|r| - 1], s[..|s| - 1])
    else IsSubsequence(r, s[..|s| - 1])
  }

  lemma {:induction false} SubsequenceLength(r: string, s: string)
    requires IsSubsequence(r, s)
    ensures |r| <= |s|
  {
    if r != [] {
      if r[|r| - 1] == s[|s| - 1] {
        SubsequenceLength(r[..|r| - 1], s[..|s| - 1]);
      } else {
        SubsequenceLength(r, s[..|s| - 1]);
      }
    }
  }

  /** The filtered text keeps the order of the input: it is a subsequence of
      it, hence no longer than it. */
  lemma {:induction false} FilteredIsSubsequence(s: string, opts: Options, tables: CharTables)
    ensures IsSubsequence(Filtered(s, opts, tables), s)
    ensures |Filtered(s, opts, tables)| <= |s|
  {
    if s != [] {
      var p, c := s[..|s| - 1], s[|s| - 1];
      FilteredIsSubsequence(p, opts, tables);
      var r := Filtered(s, opts, tables);
      if Keep(c, opts, tables) {
        assert r == Filtered(p, opts, tables) + [c];
        assert r[..|r| - 1] == Filtered(p, opts, tables) && r[|r| - 1] == c;
      } else {
        assert r == Filtered(p, opts, tables);
        SubsequenceExtend(r, p, c);
        assert p + [c] == s;
      }
      SubsequenceLength(r, s);
    }
  }

  /** A subsequence of `p` is a subsequence of `p + [c]`. */
  lemma {:induction false} SubsequenceExtend(r: string, p: string, c: char)
    requires IsSubsequence(r, p)
    ensures IsSubsequence(r, p + [c])
    decreases |p|, 1
  {
    var s := p + [c];
    assert s[..|s| - 1] == p;
    if r != [] && r[|r| - 1] == c {
      SubsequenceDropLast(r, p);
    }
  }

  /** Dropping the last character of a subsequence keeps it a subsequence. */
  lemma {:induction false} SubsequenceDropLast(r: string, s: string)
    requires r != [] && IsSubsequence(r, s)
    ensures IsSubsequence(r[..|r| - 1], s)
    decreases |s|, 0
  {
    var p, c := s[..|s| - 1], s[|s| - 1];
    assert p + [c] == s;
    if r[|r| - 1] != c {
      SubsequenceDropLast(r, p);
    }
    SubsequenceExtend(r[..|r| - 1], p, c);
  }

  /** Every occurrence of a kept character stays, every occurrence of any
      other character goes. */
  lemma {:induction false} FilteredOccurrences(s: string, opts: Options, tables: CharTables, c: char)
    ensures multiset(Filtered(s, opts, tables))[c] == if Keep(c, opts, tables) then multiset(s)[c] else 0
  {
    if s != [] {
      var p, x := s[..|s| - 1], s[|s| - 1];
      assert s == p + [x];
      FilteredOccurrences(p, opts, tables, c);
      assert multiset(s) == multiset(p) + multiset{x};
    }
  }

  /** Letters are never removed, whatever the options. */
  lemma LettersKept(s: string, opts: Options, tables: CharTables, c: char)
    requires tables.isAlpha(c)
    ensures multiset(Filtered(s, opts, tables))[c] == multiset(s)[c]
  {
    FilteredOccurrences(s, opts, tables, c);
  }

  /** Every character of the filtered text passes the filter. */
  lemma {:induction false} FilteredAllKept(s: string, opts: Options, tables: CharTables)
    ensures forall k :: 0 <= k < |Filtered(s, opts, tables)| ==> Keep(Filtered(s, opts, tables)[k], opts, tables)
  {
    if s != [] {
      FilteredAllKept(s[..|s| - 1], opts, tables);
    }
  }

  /** A text whose every character passes the filter comes out unchanged. */
  lemma {:induction false} FilteredUnchanged(s: string, opts: Options, tables: CharTables)
    requires forall k :: 0 <= k < |s| ==> Keep(s[k], opts, tables)
    ensures Filtered(s, opts, tables) == s
  {
    if s != [] {
      FilteredUnchanged(s[..|s| - 1], opts, tables);
      assert s[..|s| - 1] + [s[|s| - 1]] == s;
    }
  }

  /** A text none of whose characters passes the filter comes out empty. */
  lemma {:induction false} FilteredNothingKept(s: string, opts: Options, tables: CharTables)
    requires forall k :: 0 <= k < |s| ==> !Keep(s[k], opts, tables)
    ensures Filtered(s, opts, tables) == []
  {
    if s != [] {
      FilteredNothingKept(s[..|s| - 1], opts, tables);
    }
  }

  /** Filtering works piecewise: the filter of a concatenation is the
      concatenation of the filters. */
  lemma {:induction false} FilteredAppend(a: string, b: string, opts: Options, tables: CharTables)
    ensures Filtered(a + b, opts, tables) == Filtered(a, opts, tables) + Filtered(b, opts, tables)
  {
    if b == [] {
      assert a + b == a;
    } else {
      var p, c := b[..|b| - 1], b[|b| - 1];
      FilteredAppend(a, p, opts, tables);
      assert (a + b)[..|a + b| - 1] == a + p;
    }
  }

  /** Sanitizing twice with the same options is sanitizing once. */
  lemma FilteredIdempotent(s: string, opts: Options, tables: CharTables)
    ensures Filtered(Filtered(s, opts, tables), opts, tables) == Filtered(s, opts, tables)
  {
    FilteredAllKept(s, opts, tables);
    FilteredUnchanged(Filtered(s, opts, tables), opts, tables);
  }
}
