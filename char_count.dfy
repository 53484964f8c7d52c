/** The character-frequency dictionary built by `count_unique_characters`
    (main.py:40-42), and what it means: the keys are exactly the characters of
    the text, each value is that character's number of occurrences, and the
    values add up to the length of the text. */
module CharCount {

  /** The dictionary after the loop has seen every character of `s`: the loop
      visits the characters left to right and does
      `char_count[c] = char_count.get(c, 0) + 1`, so the last character is
      the last one added. Every count is at least one and at most the
      length of the text. */
  function Counts(s: string): (m: map<char, nat>)
    ensures forall c :: c in m ==> 1 <= m[c] <= |s|
  {
    if s == [] then map[]
    else
      var m := Counts(s[..|s| - 1]);
      var c := s[|s| - 1];
      m[c := (if c in m then m[c] else 0) + 1]
  }

  /** The sum of the values of a dictionary. */
  ghost function Total(m: map<char, nat>): nat
    decreases m.Keys
  {
    if m == map[] then 0
    else
      var k :| k in m;
      m[k] + Total(m - {k})
  }

  /** A key of `Counts(s)` is exactly a character of `s`, and its value is
      the number of times it occurs in `s` (so at least one). */
  lemma {:induction false} CountsAreOccurrences(s: string, c: char)
    ensures c in Counts(s) <==> c in s
    ensures c in Counts(s) ==> Counts(s)[c] == multiset(s)[c] >= 1
  {
    if s != [] {
      var p, x := s[..|s| - 1], s[|s| - 1];
      assert s == p + [x];
      CountsAreOccurrences(p, c);
      assert multiset(s) == multiset(p) + multiset{x};
    }
  }

  /** The key set of `Counts(s)` is the set of characters of `s`. */
  lemma CountsKeys(s: string)
    ensures Counts(s).Keys == set i | 0 <= i < |s| :: s[i]
  {
    forall c | c in Counts(s) ensures c in set i | 0 <= i < |s| :: s[i] {
      CountsAreOccurrences(s, c);
      var i :| 0 <= i < |s| && s[i] == c;
    }
    forall c | c in set i | 0 <= i < |s| :: s[i] ensures c in Counts(s) {
      CountsAreOccurrences(s, c);
    }
  }

  /** `Total` may take its keys in any order: any key can be taken first. */
  lemma {:induction false} TotalRemove(m: map<char, nat>, k: char)
    requires k in m
    ensures Total(m) == m[k] + Total(m - {k})
    decreases m.Keys
  {
    var j :| j in m && Total(m) == m[j] + Total(m - {j});
    if j != k {
      assert m - {j} - {k} == m - {k} - {j};
      TotalRemove(m - {j}, k);
      TotalRemove(m - {k}, j);
    }
  }

  /** Adding one to a key's count, or adding a new key with count one,
      adds one to the total. */
  lemma TotalIncrement(m: map<char, nat>, c: char)
    ensures Total(m[c := (if c in m then m[c] else 0) + 1]) == Total(m) + 1
  {
    var m' := m[c := (if c in m then m[c] else 0) + 1];
    TotalRemove(m', c);
    if c in m {
      TotalRemove(m, c);
      assert m' - {c} == m - {c};
    } else {
      assert m' - {c} == m;
    }
  }

  /** The counts add up to the length of the text. */
  lemma {:induction false} CountsTotal(s: string)
    ensures Total(Counts(s)) == |s|
  {
    if s != [] {
      CountsTotal(s[..|s| - 1]);
      TotalIncrement(Counts(s[..|s| - 1]), s[|s| - 1]);
    }
  }
}
