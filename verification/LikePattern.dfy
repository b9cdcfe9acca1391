/** SQL LIKE/ILIKE patterns: a matcher following section 8.5 of ISO/IEC 9075-2 with the
    backslash as escape character (PostgreSQL manual, section 9.7.1), and the escaping that
    the repository layer applies to search terms. */
module LikePattern {

  /** Characters that a pattern does not take literally. */
  predicate IsMeta(c: char) { c == '\\' || c == '%' || c == '_' }

  predicate IsPlain(s: string) { forall i :: 0 <= i < |s| ==> !IsMeta(s[i]) }

  // ---------------------------------------------------------------- matcher

  /** Whether `text` as a whole matches `pattern`.  A lone backslash at the end of a pattern
      matches nothing; see `Trips`. */
  predicate Matches(pattern: string, text: string)
    decreases |pattern|, |text|
  {
    if pattern == "" then text == ""
    else if pattern[0] == '%' then
      Matches(pattern[1..], text) || (text != "" && Matches(pattern, text[1..]))
    else if pattern[0] == '\\' then
      |pattern| >= 2 && text != "" && text[0] == pattern[1] && Matches(pattern[2..], text[1..])
    else
      text != "" && (pattern[0] == '_' || pattern[0] == text[0]) && Matches(pattern[1..], text[1..])
  }

  /** Past a percent sign the evaluator looks over further wildcards, an underscore taking one
      character each, for something to search; a lone backslash there is an error at once. */
  predicate EndsInBackslash(pattern: string, text: string) {
    if pattern == "" then false
    else if pattern[0] == '%' then EndsInBackslash(pattern[1..], text)
    else if pattern[0] == '_' then text != "" && EndsInBackslash(pattern[1..], text[1..])
    else pattern == "\\"
  }

  /** Whether matching runs into a lone backslash at the end of the pattern while text is left,
      which is an error: the pattern must not end with its escape character. */
  predicate Trips(pattern: string, text: string)
    decreases |pattern|, |text|
  {
    if pattern == "" || text == "" then false
    else if pattern[0] == '%' then
      EndsInBackslash(pattern[1..], text) || Trips(pattern[1..], text) || Trips(pattern, text[1..])
    else if pattern[0] == '\\' then
      |pattern| == 1 || (text[0] == pattern[1] && Trips(pattern[2..], text[1..]))
    else
      (pattern[0] == '_' || pattern[0] == text[0]) && Trips(pattern[1..], text[1..])
  }

  function MapChars(f: char -> char, s: string): (r: string)
    ensures |r| == |s| && forall i :: 0 <= i < |s| ==> r[i] == f(s[i])
  {
    if s == "" then "" else [f(s[0])] + MapChars(f, s[1..])
  }

  /** ILIKE: both sides are lower-cased, then compared by LIKE. */
  predicate IlikeMatches(lower: char -> char, pattern: string, text: string) {
    Matches(MapChars(lower, pattern), MapChars(lower, text))
  }

  /** Lower-casing touches neither wildcard nor backslash, and produces none. */
  ghost predicate KeepsMeta(lower: char -> char) {
    forall c: char :: (IsMeta(c) ==> lower(c) == c) && (!IsMeta(c) ==> !IsMeta(lower(c)))
  }

  // --------------------------------------------------------------- escaping

  /** Python's `str.replace` for a one-character search string. */
  function Replace(s: string, c: char, sub: string): string {
    if s == "" then "" else (if s[0] == c then sub else [s[0]]) + Replace(s[1..], c, sub)
  }

  function EscapeLike(term: string): string {
    Replace(Replace(Replace(term, '\\', "\\\\"), '%', "\\%"), '_', "\\_")
  }

  /** The specification of escaping: one pass that protects each metacharacter. */
  function EscapedOnce(term: string): string {
    if term == "" then ""
    else (if IsMeta(term[0]) then ['\\', term[0]] else [term[0]]) + EscapedOnce(term[1..])
  }

  lemma {:induction false} ReplaceConcat(a: string, b: string, c: char, sub: string)
    ensures Replace(a + b, c, sub) == Replace(a, c, sub) + Replace(b, c, sub)
  {
    if a == "" {
      assert a + b == b;
    } else {
      assert (a + b)[1..] == a[1..] + b;
      ReplaceConcat(a[1..], b, c, sub);
    }
  }

  /** Three replacements in the order backslash, percent, underscore protect every
      metacharacter exactly once. */
  lemma {:induction false} EscapeLikeIsOnePass(term: string)
    ensures EscapeLike(term) == EscapedOnce(term)
  {
    if term != "" {
      var head, rest := [term[0]], term[1..];
      assert term == head + rest;
      EscapeLikeIsOnePass(rest);
      ReplaceConcat(head, rest, '\\', "\\\\");
      var head1, rest1 := Replace(head, '\\', "\\\\"), Replace(rest, '\\', "\\\\");
      ReplaceConcat(head1, rest1, '%', "\\%");
      var head2, rest2 := Replace(head1, '%', "\\%"), Replace(rest1, '%', "\\%");
      ReplaceConcat(head2, rest2, '_', "\\_");
      EscapeOneChar(term[0]);
    }
  }

  lemma EscapeOneChar(c: char)
    ensures EscapeLike([c]) == if IsMeta(c) then ['\\', c] else [c]
  {
    ReplaceTwo(c, '\\', "\\\\");
    if c == '\\' {
      ReplacePair('\\', '\\', '%', "\\%");
      ReplacePair('\\', '\\', '_', "\\_");
    } else if c == '%' {
      ReplaceTwo(c, '%', "\\%");
      ReplacePair('\\', '%', '_', "\\_");
    } else {
      ReplaceTwo(c, '%', "\\%");
      ReplaceTwo(c, '_', "\\_");
    }
  }

  lemma ReplaceTwo(x: char, c: char, sub: string)
    ensures Replace([x], c, sub) == if x == c then sub else [x]
  {
    assert [x][1..] == "";
    assert sub + "" == sub;
  }

  lemma ReplacePair(x: char, y: char, c: char, sub: string)
    requires x != c && y != c
    ensures Replace([x, y], c, sub) == [x, y]
  {
    assert [x, y] == [x] + [y];
    ReplaceConcat([x], [y], c, sub);
    ReplaceTwo(x, c, sub);
    ReplaceTwo(y, c, sub);
  }

  // --------------------------------------------------------------- theorems

  /** An escaped term consumes exactly itself. */
  lemma {:induction false} MatchEscapedPrefix(term: string, pattern: string, text: string)
    ensures Matches(EscapedOnce(term) + pattern, text)
       <==> term <= text && Matches(pattern, text[|term|..])
  {
    if term == "" {
      assert EscapedOnce(term) + pattern == pattern;
      assert text[0..] == text;
    } else {
      var whole := EscapedOnce(term) + pattern;
      var rest := EscapedOnce(term[1..]) + pattern;
      if IsMeta(term[0]) {
        assert whole == ['\\', term[0]] + rest;
        assert whole[2..] == rest;
      } else {
        assert whole == [term[0]] + rest;
        assert whole[1..] == rest;
      }
      if text != "" {
        MatchEscapedPrefix(term[1..], pattern, text[1..]);
        assert term <= text <==> text[0] == term[0] && term[1..] <= text[1..] by {
          if term[0] == text[0] && term[1..] <= text[1..] {
            assert term == [term[0]] + term[1..] && text == [text[0]] + text[1..];
          }
        }
        if term <= text {
          assert text[1..][|term[1..]|..] == text[|term|..];
        }
      }
    }
  }

  lemma {:induction false} MatchPercent(pattern: string, text: string)
    ensures Matches("%" + pattern, text)
       <==> exists k :: 0 <= k <= |text| && Matches(pattern, text[k..])
    decreases |text|
  {
    var p := "%" + pattern;
    assert p[1..] == pattern;
    assert text[0..] == text;
    if text != "" {
      MatchPercent(pattern, text[1..]);
      if Matches(p, text[1..]) {
        var k :| 0 <= k <= |text[1..]| && Matches(pattern, text[1..][k..]);
        assert text[1..][k..] == text[k + 1..];
      }
      if k :| 0 <= k <= |text| && Matches(pattern, text[k..]) {
        if k > 0 {
          assert text[1..][k - 1..] == text[k..];
        }
      }
    }
  }

  ghost predicate OccursAt(term: string, text: string, k: int) {
    0 <= k <= |text| && term <= text[k..]
  }

  ghost predicate Occurs(term: string, text: string) {
    exists k :: OccursAt(term, text, k)
  }

  /** `%term%` with an escaped term is exactly the substring test. */
  lemma EscapedLikeIsSubstring(term: string, text: string)
    ensures Matches("%" + EscapeLike(term) + "%", text) <==> Occurs(term, text)
  {
    EscapeLikeIsOnePass(term);
    var inner := EscapedOnce(term) + "%";
    assert "%" + EscapeLike(term) + "%" == "%" + inner;
    MatchPercent(inner, text);
    forall k | 0 <= k <= |text|
      ensures Matches(inner, text[k..]) <==> OccursAt(term, text, k)
    {
      MatchEscapedPrefix(term, "%", text[k..]);
      if term <= text[k..] {
        PercentMatchesAll(text[k..][|term|..]);
      }
    }
  }

  lemma PercentMatchesAll(text: string)
    ensures Matches("%", text)
  {
    MatchPercent("", text);
    assert "%" + "" == "%";
    assert text[|text|..] == "";
  }

  lemma {:induction false} MapEscaped(lower: char -> char, term: string)
    requires KeepsMeta(lower)
    ensures MapChars(lower, EscapedOnce(term)) == EscapedOnce(MapChars(lower, term))
  {
    if term != "" {
      MapEscaped(lower, term[1..]);
      assert MapChars(lower, term)[1..] == MapChars(lower, term[1..]);
    }
  }

  lemma MapSurrounded(lower: char -> char, s: string)
    requires KeepsMeta(lower)
    ensures MapChars(lower, "%" + s + "%") == "%" + MapChars(lower, s) + "%"
  {
    assert IsMeta('%');
  }

  lemma MapSearchPattern(lower: char -> char, term: string)
    requires KeepsMeta(lower)
    ensures MapChars(lower, "%" + EscapeLike(term) + "%") == "%" + EscapeLike(MapChars(lower, term)) + "%"
  {
    EscapeLikeIsOnePass(term);
    EscapeLikeIsOnePass(MapChars(lower, term));
    MapEscaped(lower, term);
    MapSurrounded(lower, EscapedOnce(term));
  }

  /** The search as issued: ILIKE against `%escaped%` is the case-insensitive substring test. */
  lemma EscapedIlikeIsSubstring(lower: char -> char, term: string, text: string)
    requires KeepsMeta(lower)
    ensures IlikeMatches(lower, "%" + EscapeLike(term) + "%", text)
       <==> Occurs(MapChars(lower, term), MapChars(lower, text))
  {
    MapSearchPattern(lower, term);
    EscapedLikeIsSubstring(MapChars(lower, term), MapChars(lower, text));
  }

  // ------------------------------------------------- unescaped patterns

  lemma {:induction false} PlainMatchesOnlyItself(pattern: string, text: string)
    requires IsPlain(pattern)
    ensures Matches(pattern, text) <==> text == pattern
  {
    if pattern != "" && text != "" {
      PlainMatchesOnlyItself(pattern[1..], text[1..]);
      assert text == pattern <==> text[0] == pattern[0] && text[1..] == pattern[1..] by {
        assert text == [text[0]] + text[1..] && pattern == [pattern[0]] + pattern[1..];
      }
    }
  }

  /** Whether the pattern ends in a backslash that escapes nothing. */
  predicate Dangling(pattern: string) {
    pattern != "" &&
    if pattern[0] == '\\' then |pattern| == 1 || Dangling(pattern[2..]) else Dangling(pattern[1..])
  }

  /** A text that matches: `%` stands for nothing, `_` for the filler. */
  function Instance(pattern: string, filler: char): string
    requires !Dangling(pattern)
  {
    if pattern == "" then ""
    else if pattern[0] == '%' then Instance(pattern[1..], filler)
    else if pattern[0] == '\\' then [pattern[1]] + Instance(pattern[2..], filler)
    else [if pattern[0] == '_' then filler else pattern[0]] + Instance(pattern[1..], filler)
  }

  lemma {:induction false} InstanceMatches(pattern: string, filler: char)
    requires !Dangling(pattern) && filler != '_'
    ensures Matches(pattern, Instance(pattern, filler))
    ensures |Instance(pattern, filler)| <= |pattern|
    ensures !IsPlain(pattern) ==> Instance(pattern, filler) != pattern
    decreases |pattern|
  {
    if pattern != "" {
      var rest := if pattern[0] == '\\' then pattern[2..] else pattern[1..];
      InstanceMatches(rest, filler);
      if pattern[0] != '%' {
        assert Instance(pattern, filler)[1..] == Instance(rest, filler);
      }
      if !IsPlain(pattern) && !IsMeta(pattern[0]) {
        assert !IsPlain(rest);
        assert Instance(pattern, filler)[1..] != pattern[1..];
      }
    }
  }

  lemma {:induction false} OnlyDanglingEnds(pattern: string, text: string)
    requires !Dangling(pattern)
    ensures !EndsInBackslash(pattern, text)
    decreases |pattern|
  {
    if pattern != "" && (pattern[0] == '%' || (pattern[0] == '_' && text != "")) {
      OnlyDanglingEnds(pattern[1..], if pattern[0] == '%' then text else text[1..]);
    }
  }

  lemma {:induction false} OnlyDanglingTrips(pattern: string, text: string)
    requires !Dangling(pattern)
    ensures !Trips(pattern, text)
    decreases |pattern|, |text|
  {
    if pattern != "" && text != "" {
      if pattern[0] == '%' {
        OnlyDanglingEnds(pattern[1..], text);
        OnlyDanglingTrips(pattern[1..], text);
        OnlyDanglingTrips(pattern, text[1..]);
      } else {
        OnlyDanglingTrips(if pattern[0] == '\\' then pattern[2..] else pattern[1..], text[1..]);
      }
    }
  }

  /** A pattern that matches anything at all never trips. */
  lemma MatchingNeverTrips(pattern: string, matched: string, text: string)
    requires Matches(pattern, matched)
    ensures !Trips(pattern, text)
  {
    hide Matches, Trips, Dangling;
    if Dangling(pattern) {
      DanglingMatchesNothing(pattern, matched);
    } else {
      OnlyDanglingTrips(pattern, text);
    }
  }

  /** A pattern matches some text if and only if it does not dangle. */
  lemma SomethingMatchesIff(pattern: string)
    ensures (exists text :: Matches(pattern, text)) <==> !Dangling(pattern)
  {
    hide Matches, Dangling, Instance;
    if Dangling(pattern) {
      if text :| Matches(pattern, text) {
        DanglingMatchesNothing(pattern, text);
      }
    } else {
      InstanceMatches(pattern, 'x');
      assert Matches(pattern, Instance(pattern, 'x'));
    }
  }

  /** Of patterns without wildcards: one that ends in a lone backslash fails on exactly the texts that go
      on after what stands before it. */
  lemma {:induction false} PlainThenBackslashTrips(plain: string, text: string)
    requires IsPlain(plain)
    ensures Trips(plain + ['\\'], text) <==> plain <= text && |plain| < |text|
  {
    var pattern := plain + ['\\'];
    if plain == "" {
      assert pattern == ['\\'];
    } else if text != "" {
      assert pattern[1..] == plain[1..] + ['\\'];
      PlainThenBackslashTrips(plain[1..], text[1..]);
      if text[0] == plain[0] {
        assert plain == [plain[0]] + plain[1..] && text == [text[0]] + text[1..];
      }
    }
  }

  lemma {:induction false} DanglingMatchesNothing(pattern: string, text: string)
    requires Dangling(pattern)
    ensures !Matches(pattern, text)
    decreases |pattern|, |text|
  {
    if pattern[0] == '%' {
      DanglingMatchesNothing(pattern[1..], text);
      if text != "" {
        DanglingMatchesNothing(pattern, text[1..]);
      }
    } else if text != "" {
      if pattern[0] == '\\' {
        if |pattern| >= 2 {
          DanglingMatchesNothing(pattern[2..], text[1..]);
        }
      } else {
        DanglingMatchesNothing(pattern[1..], text[1..]);
      }
    }
  }

  /** A pattern without a backslash at least matches itself, wildcards or not. */
  lemma {:induction false} BackslashFreeMatchesItself(pattern: string)
    requires '\\' !in pattern
    ensures Matches(pattern, pattern)
  {
    if pattern != "" {
      BackslashFreeMatchesItself(pattern[1..]);
      if pattern[0] == '%' {
        assert Matches(pattern, pattern[1..]);
      }
    }
  }
}
