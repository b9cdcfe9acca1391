/** Python string operations the chunker uses: `strip`, and `split` on a blank line. */
module Text {
  import opened Common

  const BREAK := "\n\n"

  // ------------------------------------------------------------------ strip

  /** The characters for which Python's `str.isspace` holds. */
  predicate IsSpace(c: char) {
    var n := c as int;
    9 <= n <= 13 || 28 <= n <= 32 || n == 133 || n == 160 || n == 5760 || 8192 <= n <= 8202
    || n == 8232 || n == 8233 || n == 8239 || n == 8287 || n == 12288
  }

  /** Index of the first character at or after `i` that is not a space. */
  function SkipSpace(s: string, i: nat): (r: nat)
    requires i <= |s|
    ensures i <= r <= |s| && (r < |s| ==> !IsSpace(s[r]))
    decreases |s| - i
  {
    if i < |s| && IsSpace(s[i]) then SkipSpace(s, i + 1) else i
  }

  /** Index after the last character before `n` that is not a space. */
  function SkipSpaceBack(s: string, n: nat): (r: nat)
    requires n <= |s|
    ensures r <= n && (r > 0 ==> !IsSpace(s[r - 1]))
  {
    if n > 0 && IsSpace(s[n - 1]) then SkipSpaceBack(s, n - 1) else n
  }

  function LStrip(s: string): string { s[SkipSpace(s, 0)..] }

  function RStrip(s: string): string { s[..SkipSpaceBack(s, |s|)] }

  function Strip(s: string): string { RStrip(LStrip(s)) }

  predicate Trimmed(s: string) {
    s != "" && !IsSpace(s[0]) && !IsSpace(s[|s| - 1])
  }

  lemma StripIsTrimmed(s: string)
    ensures Strip(s) == "" || Trimmed(Strip(s))
  {
  }

  lemma StripTrimmed(s: string)
    requires Trimmed(s)
    ensures Strip(s) == s
  {
  }

  lemma {:induction false} SkipSpaceShift(c: char, s: string, i: nat)
    requires i <= |s|
    ensures SkipSpace([c] + s, i + 1) == SkipSpace(s, i) + 1
    decreases |s| - i
  {
    if i < |s| && IsSpace(s[i]) {
      SkipSpaceShift(c, s, i + 1);
    }
  }

  lemma LStripLeading(c: char, s: string)
    requires IsSpace(c)
    ensures LStrip([c] + s) == LStrip(s)
  {
    SkipSpaceShift(c, s, 0);
  }

  lemma {:induction false} SkipSpaceBackShift(s: string, t: string, n: nat)
    requires n <= |s| && s <= t
    ensures SkipSpaceBack(t, n) == SkipSpaceBack(s, n)
  {
    if n > 0 && IsSpace(s[n - 1]) {
      SkipSpaceBackShift(s, t, n - 1);
    }
  }

  lemma RStripTrailing(s: string, c: char)
    requires IsSpace(c)
    ensures RStrip(s + [c]) == RStrip(s)
  {
    SkipSpaceBackShift(s, s + [c], |s|);
  }

  lemma {:induction false} SkipSpaceExtend(s: string, c: char, i: nat)
    requires i <= |s| && IsSpace(c)
    ensures SkipSpace(s + [c], i) == if SkipSpace(s, i) < |s| then SkipSpace(s, i) else |s| + 1
    decreases |s| - i
  {
    if i < |s| && IsSpace(s[i]) {
      SkipSpaceExtend(s, c, i + 1);
    }
  }

  lemma StripTrailing(s: string, c: char)
    requires IsSpace(c)
    ensures Strip(s + [c]) == Strip(s)
  {
    SkipSpaceExtend(s, c, 0);
    var l := LStrip(s);
    if l != "" {
      assert LStrip(s + [c]) == l + [c];
      RStripTrailing(l, c);
    }
  }

  // ------------------------------------------------------------------ split

  predicate StartsWithBreak(s: string) { |s| >= 2 && s[0] == '\n' && s[1] == '\n' }

  /** `s.split("\n\n")`: breaks are taken from left to right and do not overlap. */
  function Split(s: string): (r: seq<string>)
    ensures r != []
    decreases |s|
  {
    if s == "" then [""]
    else if StartsWithBreak(s) then [""] + Split(s[2..])
    else var r := Split(s[1..]); [[s[0]] + r[0]] + r[1..]
  }

  /** `c` put in front of the first piece. */
  function Push(c: char, r: seq<string>): (q: seq<string>)
    requires r != []
    ensures q != []
  {
    [[c] + r[0]] + r[1..]
  }

  /** The last piece of `a` run together with the first of `b`. */
  function Glued(a: seq<string>, b: seq<string>): seq<string>
    requires a != [] && b != []
  {
    a[..|a| - 1] + [Last(a) + b[0]] + b[1..]
  }

  /** The pieces of `a` without the very last character, then those of `b`. */
  function Chopped(a: seq<string>, b: seq<string>): seq<string>
    requires a != [] && Last(a) != ""
  {
    a[..|a| - 1] + [Last(a)[..|Last(a)| - 1]] + b
  }

  lemma PushGlued(c: char, r: seq<string>, b: seq<string>)
    requires r != [] && b != []
    ensures Push(c, Glued(r, b)) == Glued(Push(c, r), b)
  {
    if |r| == 1 {
      assert [c] + (r[0] + b[0]) == ([c] + r[0]) + b[0];
    }
  }

  lemma PushChopped(c: char, r: seq<string>, b: seq<string>)
    requires r != [] && Last(r) != ""
    ensures Push(c, Chopped(r, b)) == Chopped(Push(c, r), b)
  {
    var n := |Last(r)| - 1;
    if |r| == 1 {
      assert ([c] + r[0])[..n + 1] == [c] + r[0][..n];
      assert Chopped(r, b) == [r[0][..n]] + b;
      assert Chopped(Push(c, r), b) == [([c] + r[0])[..n + 1]] + b;
    } else {
      assert Chopped(r, b)[0] == r[0];
      assert Chopped(r, b)[1..] == r[1..|r| - 1] + [Last(r)[..n]] + b;
      assert Push(c, r)[..|r| - 1] == [[c] + r[0]] + r[1..|r| - 1];
      assert Last(Push(c, r)) == Last(r);
      assert Chopped(Push(c, r), b) == [[c] + r[0]] + (r[1..|r| - 1] + [Last(r)[..n]] + b);
    }
  }

  /** A newline that ends the last piece of a split, and one that begins `b`, meet. */
  predicate Straddles(pieces: seq<string>, b: string)
    requires pieces != []
  {
    Last(pieces) != "" && Last(Last(pieces)) == '\n' && b != "" && b[0] == '\n'
  }

  /** How splitting treats a concatenation: the pieces meet in the middle, or the two newlines
      that meet form a break of their own. */
  lemma {:induction false} SplitConcat(a: string, b: string)
    ensures Split(a + b) == Joined(Split(a), b)
    decreases |a|
  {
    if a == "" {
      assert a + b == b;
      assert "" + Split(b)[0] == Split(b)[0];
    } else if StartsWithBreak(a) {
      assert (a + b)[2..] == a[2..] + b;
      SplitConcat(a[2..], b);
      SplitConcatBreak(Split(a[2..]), b);
    } else if |a| == 1 {
      assert a == [a[0]];
      SplitConcatOne(a[0], b);
    } else {
      var rest := a[1..];
      SplitConcat(rest, b);
      SplitSingle(rest);
      assert (a + b)[1..] == rest + b;
      assert !StartsWithBreak(a + b);
      PushJoined(a[0], Split(rest), b);
    }
  }

  function Joined(r: seq<string>, b: string): seq<string>
    requires r != []
  {
    if Straddles(r, b) then Chopped(r, Split(b[1..])) else Glued(r, Split(b))
  }

  lemma PushJoined(c: char, r: seq<string>, b: string)
    requires r != [] && (|r| == 1 ==> r[0] != "")
    ensures Push(c, Joined(r, b)) == Joined(Push(c, r), b)
  {
    assert Straddles(r, b) <==> Straddles(Push(c, r), b);
    if Straddles(r, b) {
      PushChopped(c, r, Split(b[1..]));
    } else {
      PushGlued(c, r, Split(b));
    }
  }

  lemma JoinedOne(x: string, q: seq<string>)
    requires q != []
    ensures Glued([x], q) == [x + q[0]] + q[1..]
    ensures x != "" ==> Chopped([x], q) == [x[..|x| - 1]] + q
  {
    assert [x][..0] == [];
  }

  lemma SplitConcatOne(c: char, b: string)
    ensures Split([c]) == [[c]]
    ensures Split([c] + b) == Joined([[c]], b)
  {
    var t := [c] + b;
    assert [c][1..] == "" && [c] + "" == [c] && t[1..] == b;
    if StartsWithBreak(t) {
      JoinedOne([c], Split(b[1..]));
      assert t[2..] == b[1..] && [c][..0] == "";
    } else {
      JoinedOne([c], Split(b));
    }
  }

  lemma SplitConcatBreak(r: seq<string>, b: string)
    requires r != []
    ensures Straddles([""] + r, b) == Straddles(r, b)
    ensures forall q :: q != [] ==> Glued([""] + r, q) == [""] + Glued(r, q)
    ensures forall q :: Last(r) != "" ==> Chopped([""] + r, q) == [""] + Chopped(r, q)
  {
    assert Last([""] + r) == Last(r);
    assert ([""] + r)[..|r|] == [""] + r[..|r| - 1];
  }

  lemma {:induction false} SplitSingle(s: string)
    ensures |Split(s)| == 1 ==> Split(s) == [s]
  {
    if s != "" && !StartsWithBreak(s) {
      SplitSingle(s[1..]);
      assert [s[0]] + s[1..] == s;
    }
  }

  // ------------------------------------------------------------- paragraphs

  /** What `keep` makes of each piece, in order. */
  function Collect(keep: string -> seq<string>, pieces: seq<string>): seq<string> {
    if pieces == [] then [] else keep(pieces[0]) + Collect(keep, pieces[1..])
  }

  /** A piece that is not blank, stripped. */
  function Kept(piece: string): seq<string> {
    if Strip(piece) == "" then [] else [Strip(piece)]
  }

  /** The paragraphs of a text: what a reader sees between blank lines. */
  function Paragraphs(s: string): seq<string> { Collect(Kept, Split(s)) }

  ghost predicate IgnoresSpace(keep: string -> seq<string>) {
    && keep("") == []
    && forall c, x | IsSpace(c) :: keep([c] + x) == keep(x) && keep(x + [c]) == keep(x)
  }

  lemma KeptIgnoresSpace()
    ensures IgnoresSpace(Kept)
  {
    forall c, x | IsSpace(c) ensures Kept([c] + x) == Kept(x) && Kept(x + [c]) == Kept(x) {
      LStripLeading(c, x);
      StripTrailing(x, c);
    }
  }

  lemma {:induction false} CollectConcat(keep: string -> seq<string>, a: seq<string>, b: seq<string>)
    ensures Collect(keep, a + b) == Collect(keep, a) + Collect(keep, b)
  {
    if a == [] {
      assert a + b == b;
    } else {
      assert (a + b)[1..] == a[1..] + b;
      CollectConcat(keep, a[1..], b);
    }
  }

  lemma CollectAround(keep: string -> seq<string>, a: seq<string>, x: string, b: seq<string>)
    ensures Collect(keep, a + [x] + b) == Collect(keep, a) + keep(x) + Collect(keep, b)
  {
    assert a + [x] + b == a + ([x] + b);
    CollectConcat(keep, a, [x] + b);
    assert ([x] + b)[1..] == b;
  }

  lemma CollectOne(keep: string -> seq<string>, x: string)
    ensures Collect(keep, [x]) == keep(x)
  {
    assert [x][1..] == [];
  }

  lemma CollectAll(keep: string -> seq<string>, r: seq<string>)
    requires r != []
    ensures Collect(keep, r) == Collect(keep, r[..|r| - 1]) + keep(Last(r))
  {
    var front, last := r[..|r| - 1], Last(r);
    assert r == front + [last];
    CollectConcat(keep, front, [last]);
    CollectOne(keep, last);
  }

  lemma CollectPush(keep: string -> seq<string>, c: char, r: seq<string>)
    requires IgnoresSpace(keep) && IsSpace(c) && r != []
    ensures Collect(keep, Push(c, r)) == Collect(keep, r)
  {
    assert Push(c, r)[1..] == r[1..];
  }

  lemma CollectChopped(keep: string -> seq<string>, r: seq<string>, q: seq<string>)
    requires IgnoresSpace(keep) && r != [] && Last(r) != "" && IsSpace(Last(Last(r)))
    ensures Collect(keep, Chopped(r, q)) == Collect(keep, r) + Collect(keep, q)
  {
    var last := Last(r);
    var body := last[..|last| - 1];
    assert last == body + [Last(last)];
    CollectAll(keep, r);
    CollectAround(keep, r[..|r| - 1], body, q);
  }

  lemma CollectGlued(keep: string -> seq<string>, r: seq<string>, x: string, q: seq<string>)
    requires r != [] && keep(Last(r) + x) == keep(Last(r))
    ensures Collect(keep, Glued(r, [x] + q)) == Collect(keep, r) + Collect(keep, q)
  {
    CollectAll(keep, r);
    assert ([x] + q)[1..] == q;
    CollectAround(keep, r[..|r| - 1], Last(r) + x, q);
  }

  lemma SplitAfterBreak(b: string)
    ensures Split(BREAK + b) == [""] + Split(b)
  {
    assert (BREAK + b)[2..] == b;
  }

  lemma {:induction false} CollectLeading(keep: string -> seq<string>, c: char, s: string)
    requires IgnoresSpace(keep) && IsSpace(c)
    ensures Collect(keep, Split([c] + s)) == Collect(keep, Split(s))
    decreases |s|
  {
    var t := [c] + s;
    if StartsWithBreak(t) {
      var u := s[1..];
      assert t == BREAK + u && s == ['\n'] + u;
      SplitAfterBreak(u);
      CollectAround(keep, [], "", Split(u));
      assert [] + [""] + Split(u) == [""] + Split(u);
      CollectLeading(keep, '\n', u);
    } else {
      assert t[1..] == s;
      CollectPush(keep, c, Split(s));
    }
  }

  lemma CollectTrailing(keep: string -> seq<string>, s: string, c: char)
    requires IgnoresSpace(keep) && IsSpace(c)
    ensures Collect(keep, Split(s + [c])) == Collect(keep, Split(s))
  {
    SplitConcat(s, [c]);
    SplitOne(c);
    if Straddles(Split(s), [c]) {
      CollectChopped(keep, Split(s), [""]);
      CollectAll(keep, [""]);
    } else {
      CollectGlued(keep, Split(s), [c], []);
      assert [[c]] + [] == [[c]];
    }
  }

  lemma SplitOne(c: char)
    ensures Split([c]) == [[c]] && Split([c][1..]) == [""]
  {
    assert [c][1..] == "" && [c] + "" == [c];
  }

  lemma CollectOfJoin(keep: string -> seq<string>, a: string, b: string)
    requires IgnoresSpace(keep)
    ensures Collect(keep, Split(a + (BREAK + b))) == Collect(keep, Split(a)) + Collect(keep, Split(b))
  {
    var tail := BREAK + b;
    SplitConcat(a, tail);
    if Straddles(Split(a), tail) {
      assert tail[1..] == ['\n'] + b;
      CollectChopped(keep, Split(a), Split(['\n'] + b));
      CollectLeading(keep, '\n', b);
    } else {
      SplitAfterBreak(b);
      assert Last(Split(a)) + "" == Last(Split(a));
      CollectGlued(keep, Split(a), "", Split(b));
    }
  }

  /** Splitting a join: a blank line between two texts separates exactly their paragraphs,
      whatever newlines the texts begin or end with. */
  lemma ParagraphsOfJoin(a: string, b: string)
    ensures Paragraphs(a + BREAK + b) == Paragraphs(a) + Paragraphs(b)
  {
    assert a + BREAK + b == a + (BREAK + b);
    KeptIgnoresSpace();
    CollectOfJoin(Kept, a, b);
  }

  lemma {:induction false} CollectSkip(keep: string -> seq<string>, s: string, i: nat)
    requires IgnoresSpace(keep) && i <= |s|
    ensures Collect(keep, Split(s[SkipSpace(s, i)..])) == Collect(keep, Split(s[i..]))
    decreases |s| - i
  {
    hide Collect, Split;
    if i < |s| && IsSpace(s[i]) {
      CollectSkip(keep, s, i + 1);
      CollectLeading(keep, s[i], s[i + 1..]);
      assert s[i..] == [s[i]] + s[i + 1..];
    }
  }

  lemma {:induction false} CollectSkipBack(keep: string -> seq<string>, s: string, n: nat)
    requires IgnoresSpace(keep) && n <= |s|
    ensures Collect(keep, Split(s[..SkipSpaceBack(s, n)])) == Collect(keep, Split(s[..n]))
  {
    hide Collect, Split;
    if n > 0 && IsSpace(s[n - 1]) {
      CollectSkipBack(keep, s, n - 1);
      CollectTrailing(keep, s[..n - 1], s[n - 1]);
      assert s[..n] == s[..n - 1] + [s[n - 1]];
    }
  }

  /** Stripping a text keeps its paragraphs. */
  lemma ParagraphsOfStrip(s: string)
    ensures Paragraphs(Strip(s)) == Paragraphs(s)
  {
    KeptIgnoresSpace();
    var l := LStrip(s);
    CollectSkip(Kept, s, 0);
    CollectSkipBack(Kept, l, |l|);
    assert s[0..] == s && l[..|l|] == l;
  }

  // ------------------------------------------------------------ single pieces

  /** No piece of a split can be split again. */
  lemma {:induction false} PiecesAreWhole(s: string, i: nat)
    requires i < |Split(s)|
    ensures Split(Split(s)[i]) == [Split(s)[i]]
    decreases |s|
  {
    if s == "" {
    } else if StartsWithBreak(s) {
      if i > 0 { PiecesAreWhole(s[2..], i - 1); }
    } else if i > 0 {
      PiecesAreWhole(s[1..], i);
    } else {
      var first := Split(s[1..])[0];
      PiecesAreWhole(s[1..], 0);
      SplitFirst(s[1..]);
      var piece := [s[0]] + first;
      assert piece[1..] == first;
      assert !StartsWithBreak(piece) by {
        if first != "" { assert first[0] == s[1]; }
      }
    }
  }

  /** The first piece is a prefix of the text. */
  lemma {:induction false} SplitFirst(s: string)
    ensures Split(s)[0] <= s
    decreases |s|
  {
    if s != "" && !StartsWithBreak(s) {
      SplitFirst(s[1..]);
      assert s == [s[0]] + s[1..];
    }
  }

  /** A stripped piece of a split is one paragraph, namely itself. */
  lemma ParagraphsOfPiece(piece: string)
    requires Split(piece) == [piece] && Strip(piece) != ""
    ensures Paragraphs(Strip(piece)) == [Strip(piece)]
  {
    ParagraphsOfStrip(piece);
    CollectOne(Kept, piece);
  }

  lemma TrimmedJoin(a: string, b: string)
    requires Trimmed(a) && Trimmed(b)
    ensures Trimmed(a + BREAK + b) && Strip(a + BREAK + b) == a + BREAK + b
  {
    StripTrimmed(a + BREAK + b);
  }

  /** Text that begins with a character other than a space has a paragraph. */
  lemma SolidHasParagraph(s: string)
    requires s != "" && !IsSpace(s[0])
    ensures Paragraphs(s) != []
  {
    var first := Split(s)[0];
    assert !StartsWithBreak(s);
    assert first[0] == s[0];
    SkipBackSolid(first, |first|);
    assert Kept(first) != [];
  }

  lemma {:induction false} SkipBackSolid(s: string, n: nat)
    requires 0 < n <= |s| && !IsSpace(s[0])
    ensures SkipSpaceBack(s, n) > 0
  {
    if IsSpace(s[n - 1]) {
      SkipBackSolid(s, n - 1);
    }
  }
}
