/**
 User search: the pattern built from the query, read as PostgreSQL reads LIKE patterns (section 9.7.1
 of its documentation), finds exactly the names that contain the query.
 */
module LikeSearch {

  predicate IsSpecial(c: char) {
    c == '\\' || c == '%' || c == '_'
  }

  /** Every wildcard and every backslash gets a backslash in front. */
  function EscapeChar(c: char): string {
    if IsSpecial(c) then ['\\', c] else [c]
  }

  function EscapeLikePattern(value: string): string {
    if value == "" then "" else EscapeChar(value[0]) + EscapeLikePattern(value[1..])
  }

  function SearchPattern(query: string): string {
    "%" + EscapeLikePattern(query) + "%"
  }

  /**
   `s LIKE pattern`: a backslash makes the next character literal, `%` stands for any characters and
   `_` for one. A pattern that ends in a lone backslash is an error there; it matches nothing here.
   */
  predicate Like(s: string, pattern: string)
    decreases |pattern|, |s|
  {
    if pattern == "" then s == ""
    else if pattern[0] == '\\' then
      |pattern| >= 2 && s != "" && s[0] == pattern[1] && Like(s[1..], pattern[2..])
    else if pattern[0] == '%' then
      Like(s, pattern[1..]) || (s != "" && Like(s[1..], pattern))
    else
      s != "" && (pattern[0] == '_' || s[0] == pattern[0]) && Like(s[1..], pattern[1..])
  }

  /** The query occurs in the name, in one piece. */
  ghost predicate Occurs(query: string, s: string) {
    exists i :: OccursAt(query, s, i)
  }

  predicate OccursAt(query: string, s: string, i: int) {
    0 <= i <= |s| - |query| && s[i..i + |query|] == query
  }

  lemma {:induction false} PercentMatchesAll(s: string)
    ensures Like(s, "%")
  {
    if s == "" {
      assert "%"[1..] == "";
    } else {
      PercentMatchesAll(s[1..]);
    }
  }

  /** An escaped character matches exactly itself. */
  lemma EscapedMatchesItself(s: string, c: char, rest: string)
    ensures Like(s, EscapeChar(c) + rest) <==> s != "" && s[0] == c && Like(s[1..], rest)
  {
    assert (EscapeChar(c) + rest)[|EscapeChar(c)|..] == rest;
  }

  /** An escaped query in front of `%` matches exactly the strings that start with the query. */
  lemma {:induction false} EscapedMatchesPrefix(s: string, query: string)
    ensures Like(s, EscapeLikePattern(query) + "%") <==> query <= s
  {
    hide Like;
    if query == "" {
      assert EscapeLikePattern(query) + "%" == "%";
      PercentMatchesAll(s);
    } else {
      var rest := EscapeLikePattern(query[1..]) + "%";
      assert EscapeLikePattern(query) + "%" == EscapeChar(query[0]) + rest;
      EscapedMatchesItself(s, query[0], rest);
      if s != "" {
        EscapedMatchesPrefix(s[1..], query[1..]);
        assert s == [s[0]] + s[1..] && query == [query[0]] + query[1..];
        assert query <= s <==> s[0] == query[0] && query[1..] <= s[1..];
      }
    }
  }

  /** A leading `%` tries the rest of the pattern at every position. */
  lemma {:induction false} PercentTriesEverySuffix(s: string, pattern: string)
    requires pattern != "" && pattern[0] == '%'
    ensures Like(s, pattern) <==> exists i :: 0 <= i <= |s| && Like(s[i..], pattern[1..])
  {
    if s != "" {
      PercentTriesEverySuffix(s[1..], pattern);
    }
    if Like(s, pattern) {
      if Like(s, pattern[1..]) {
        assert s[0..] == s;
      } else {
        var i :| 0 <= i <= |s[1..]| && Like(s[1..][i..], pattern[1..]);
        assert s[1..][i..] == s[i + 1..];
      }
    }
    if i :| 0 <= i <= |s| && Like(s[i..], pattern[1..]) {
      if i == 0 {
        assert s[0..] == s;
      } else {
        assert s[1..][i - 1..] == s[i..];
      }
    }
  }

  /** Whatever the query contains, the search matches it literally. */
  lemma SearchFindsOccurrences(s: string, query: string)
    ensures Like(s, SearchPattern(query)) <==> Occurs(query, s)
  {
    var pattern := SearchPattern(query);
    assert pattern[0] == '%' && pattern[1..] == EscapeLikePattern(query) + "%";
    PercentTriesEverySuffix(s, pattern);
    if Like(s, pattern) {
      var i :| 0 <= i <= |s| && Like(s[i..], pattern[1..]);
      EscapedMatchesPrefix(s[i..], query);
      assert s[i..i + |query|] == s[i..][..|query|] == query;
      assert OccursAt(query, s, i);
    }
    if Occurs(query, s) {
      var i :| OccursAt(query, s, i);
      assert s[i..][..|query|] == query;
      EscapedMatchesPrefix(s[i..], query);
    }
  }

  // ------------------------------------------------------------------ case

  function Lower(s: string, lower: char -> char): (r: string)
    ensures |r| == |s| && forall i :: 0 <= i < |s| ==> r[i] == lower(s[i])
  {
    if s == "" then "" else [lower(s[0])] + Lower(s[1..], lower)
  }

  /** Lower-casing character by character neither changes a special character nor makes one. */
  ghost predicate KeepsSpecials(lower: char -> char) {
    forall c :: if IsSpecial(c) then lower(c) == c else !IsSpecial(lower(c))
  }

  lemma {:induction false} LowerCommutesWithEscape(query: string, lower: char -> char)
    requires KeepsSpecials(lower)
    ensures Lower(EscapeLikePattern(query), lower) == EscapeLikePattern(Lower(query, lower))
  {
    if query != "" {
      LowerCommutesWithEscape(query[1..], lower);
      LowerAppends(EscapeChar(query[0]), EscapeLikePattern(query[1..]), lower);
      assert IsSpecial('\\');
      assert Lower(query, lower) == [lower(query[0])] + Lower(query[1..], lower);
    }
  }

  lemma LowerAppends(s: string, t: string, lower: char -> char)
    ensures Lower(s + t, lower) == Lower(s, lower) + Lower(t, lower)
  {
  }

  /** `LOWER(name) LIKE LOWER(pattern)`: containment of the query, whatever the case of either. */
  lemma SearchIgnoresCase(name: string, query: string, lower: char -> char)
    requires KeepsSpecials(lower)
    ensures Like(Lower(name, lower), Lower(SearchPattern(query), lower))
            <==> Occurs(Lower(query, lower), Lower(name, lower))
  {
    LowerCommutesWithEscape(query, lower);
    LowerAppends("%", EscapeLikePattern(query), lower);
    LowerAppends("%" + EscapeLikePattern(query), "%", lower);
    assert IsSpecial('%');
    assert Lower("%", lower) == "%";
    SearchFindsOccurrences(Lower(name, lower), Lower(query, lower));
  }

  /** Without the escaping a query of wildcards finds names that do not contain it. */
  lemma UnescapedWouldOvermatch()
    ensures Like("ab", "%" + "_" + "%") && !Occurs("_", "ab")
    ensures !Like("ab", SearchPattern("_"))
  {
    PercentMatchesAll("b");
    assert ("%" + "_" + "%")[1..] == "_%" && "_%"[1..] == "%" && "ab"[1..] == "b";
    assert Like("ab", "_%");
    SearchFindsOccurrences("ab", "_");
  }
}
