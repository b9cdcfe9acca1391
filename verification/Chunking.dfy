/** The section-aware chunking strategy: flatten the section tree, split large blocks at blank
    lines, merge small neighbours, prepend overlap, and append tables. */
module Chunking {
  import opened Common
  import opened Text

  datatype Section = Section(title: string, content: string, page: Option<int>, children: seq<Section>)

  datatype TextBlock = TextBlock(text: string, sectionPath: string, heading: string, page: Option<int>)

  /** A row keeps its cells in insertion order, as a Python dictionary does. */
  type TableRow = seq<(string, string)>

  datatype Table = Table(headers: seq<string>, rows: seq<TableRow>,
                         sectionPath: string, caption: Option<string>)

  datatype Kind = TextChunk | TableChunk

  datatype Chunk = Chunk(index: nat, kind: Kind, content: string, sectionPath: Option<string>,
                         heading: Option<string>, page: Option<int>, tokens: nat,
                         tableHeaders: Option<seq<string>>)

  ghost predicate IsEnd(part: string, text: string) { exists j :: 0 <= j <= |text| && part == text[j..] }

  /** The tokenizer is foreign code: an encoder and a decoder about which nothing is assumed. */
  datatype Tokenizer = Tokenizer(encode: string -> seq<int>, decode: seq<int> -> string) {
    function Count(text: string): nat { |encode(text)| }

    /** A join of two trimmed texts never costs more than both and the separator alone. */
    ghost predicate Subadditive() {
      forall a, b | Trimmed(a) && Trimmed(b) :: Count(a + BREAK + b) <= Count(a) + Count(BREAK) + Count(b)
    }

    /** Decoding the last tokens of a trimmed text gives an end of that text. */
    ghost predicate DecodesEnds() {
      forall text, k: nat | Trimmed(text) && k <= |encode(text)| ::
        IsEnd(decode(encode(text)[k..]), text)
    }

    /** Joining a trimmed text to a trimmed text never makes it cheaper. */
    ghost predicate Monotone() {
      forall a, b | Trimmed(a) && Trimmed(b) :: Count(a) <= Count(a + BREAK + b)
    }
  }

  datatype Strategy = Strategy(target: int, max: int, min: int, overlap: int, tokenizer: Tokenizer) {
    function Count(text: string): nat { tokenizer.Count(text) }
  }

  // ------------------------------------------------------ what a reader sees

  /** The paragraphs of all sections in pre-order. */
  function SectionParagraphs(sections: seq<Section>): seq<string> {
    if sections == [] then []
    else Paragraphs(sections[0].content) + SectionParagraphs(sections[0].children)
         + SectionParagraphs(sections[1..])
  }

  function BlockParagraphs(blocks: seq<TextBlock>): seq<string> {
    if blocks == [] then [] else Paragraphs(blocks[0].text) + BlockParagraphs(blocks[1..])
  }

  lemma {:induction false} BlockParagraphsConcat(a: seq<TextBlock>, b: seq<TextBlock>)
    ensures BlockParagraphs(a + b) == BlockParagraphs(a) + BlockParagraphs(b)
  {
    hide Paragraphs;
    if a == [] {
      assert a + b == b;
    } else {
      assert (a + b)[1..] == a[1..] + b;
      BlockParagraphsConcat(a[1..], b);
    }
  }

  lemma BlockParagraphsAppend(a: seq<TextBlock>, b: TextBlock)
    ensures BlockParagraphs(a + [b]) == BlockParagraphs(a) + Paragraphs(b.text)
  {
    hide Paragraphs;
    BlockParagraphsConcat(a, [b]);
    assert [b][1..] == [];
  }

  // ----------------------------------------------------------------- flatten

  function ChildPath(path: string, title: string): string {
    if path != "" then path + " > " + title else title
  }

  function OwnBlocks(s: Section, path: string): seq<TextBlock> {
    if Strip(s.content) == "" then []
    else [TextBlock(Strip(s.content), ChildPath(path, s.title), s.title, s.page)]
  }

  function Flattened(sections: seq<Section>, path: string): seq<TextBlock> {
    if sections == [] then []
    else OwnBlocks(sections[0], path)
         + Flattened(sections[0].children, ChildPath(path, sections[0].title))
         + Flattened(sections[1..], path)
  }

  method FlattenSections(sections: seq<Section>, path: string) returns (blocks: seq<TextBlock>)
    ensures blocks == Flattened(sections, path)
    decreases sections
  {
    hide Strip, Flattened;
    blocks := [];
    for i := 0 to |sections|
      invariant Flattened(sections, path) == blocks + Flattened(sections[i..], path)
    {
      FlattenedStep(sections, i, path);
      var section := sections[i];
      var sectionPath := ChildPath(path, section.title);
      if Strip(section.content) != "" {
        blocks := blocks + [TextBlock(Strip(section.content), sectionPath, section.title, section.page)];
      }
      if section.children != [] {
        var nested := FlattenSections(section.children, sectionPath);
        blocks := blocks + nested;
      } else {
        FlattenedEmpty(sectionPath);
      }
    }
    assert sections[|sections|..] == [];
    FlattenedEmpty(path);
  }

  lemma FlattenedEmpty(path: string)
    ensures Flattened([], path) == []
  {
  }

  lemma FlattenedStep(sections: seq<Section>, i: nat, path: string)
    requires i < |sections|
    ensures Flattened(sections[i..], path)
         == OwnBlocks(sections[i], path)
            + Flattened(sections[i].children, ChildPath(path, sections[i].title))
            + Flattened(sections[i + 1..], path)
  {
    assert sections[i..][1..] == sections[i + 1..];
  }

  /** Flattening keeps every paragraph, in reading order. */
  lemma {:induction false} FlatteningKeepsParagraphs(sections: seq<Section>, path: string)
    ensures BlockParagraphs(Flattened(sections, path)) == SectionParagraphs(sections)
    decreases sections
  {
    hide Paragraphs;
    if sections != [] {
      var s := sections[0];
      var own, nested := OwnBlocks(s, path), Flattened(s.children, ChildPath(path, s.title));
      FlatteningKeepsParagraphs(s.children, ChildPath(path, s.title));
      FlatteningKeepsParagraphs(sections[1..], path);
      BlockParagraphsConcat(own + nested, Flattened(sections[1..], path));
      BlockParagraphsConcat(own, nested);
      OwnBlocksKeepParagraphs(s, path);
    }
  }

  lemma OwnBlocksKeepParagraphs(s: Section, path: string)
    ensures BlockParagraphs(OwnBlocks(s, path)) == Paragraphs(s.content)
  {
    hide Paragraphs, Strip;
    ParagraphsOfStrip(s.content);
    if Strip(s.content) == "" {
      BlankHasNoParagraphs();
    } else {
      BlockParagraphsAppend([], OwnBlocks(s, path)[0]);
      assert [] + OwnBlocks(s, path) == OwnBlocks(s, path);
    }
  }

  lemma BlankHasNoParagraphs()
    ensures Paragraphs("") == []
  {
    CollectOne(Kept, "");
  }

  /** A way down the section tree: each section is a child of the one before. */
  ghost predicate IsTrail(sections: seq<Section>, trail: seq<Section>)
    decreases |trail|
  {
    && trail != [] && trail[0] in sections
    && (|trail| == 1 || IsTrail(trail[0].children, trail[1..]))
  }

  function Titles(trail: seq<Section>): (titles: seq<string>)
    ensures |titles| == |trail| && forall i :: 0 <= i < |trail| ==> titles[i] == trail[i].title
  {
    seq(|trail|, i requires 0 <= i < |trail| => trail[i].title)
  }

  /** The titles from the first that is not empty. */
  function FromTitled(titles: seq<string>): (r: seq<string>)
    ensures r != [] ==> r[0] != ""
  {
    if titles != [] && titles[0] == "" then FromTitled(titles[1..]) else titles
  }

  /** The titles on the way down, joined; empty ones at the top leave no trace. */
  function PathOf(path: string, titles: seq<string>): string {
    JoinWith(" > ", if path != "" then [path] + titles else FromTitled(titles))
  }

  /** The block that the last section of a trail becomes. */
  ghost predicate IsBlockOf(b: TextBlock, path: string, trail: seq<Section>) {
    && trail != [] && b.text == Strip(Last(trail).content) && b.text != ""
    && b.sectionPath == PathOf(path, Titles(trail))
    && b.heading == Last(trail).title && b.page == Last(trail).page
  }

  lemma PathOfChild(path: string, titles: seq<string>)
    requires titles != []
    ensures PathOf(path, titles) == PathOf(ChildPath(path, titles[0]), titles[1..])
  {
    var title, rest := titles[0], titles[1..];
    assert titles == [title] + rest;
    if path != "" {
      assert [path] + titles == [path, title] + rest;
      JoinFirstTwo(" > ", path, title, rest);
    }
  }

  lemma JoinFirstTwo(separator: string, a: string, b: string, rest: seq<string>)
    ensures JoinWith(separator, [a, b] + rest) == JoinWith(separator, [a + separator + b] + rest)
  {
    assert ([a, b] + rest)[1..] == [b] + rest && ([b] + rest)[1..] == rest;
    assert ([a + separator + b] + rest)[1..] == rest;
    if rest != [] {
      var tail := JoinWith(separator, rest);
      assert a + separator + (b + separator + tail) == (a + separator + b) + separator + tail;
    }
  }

  lemma PathOfNone(path: string)
    ensures PathOf(path, []) == path
  {
  }

  ghost predicate FromSection(b: TextBlock, sections: seq<Section>, path: string) {
    exists trail :: IsTrail(sections, trail) && IsBlockOf(b, path, trail)
  }

  /** Flattening gives the blocks of exactly the sections whose content is not blank, each with the
      path of the titles that lead to it, its own title as heading, and its page. */
  lemma {:induction false} FlattenedAreSections(sections: seq<Section>, path: string)
    ensures forall b :: b in Flattened(sections, path) ==> FromSection(b, sections, path)
    decreases sections
  {
    hide FromSection, IsTrail, IsBlockOf, OwnBlocks;
    if sections != [] {
      var s, rest := sections[0], sections[1..];
      FlattenedAreSections(s.children, ChildPath(path, s.title));
      FlattenedAreSections(rest, path);
      forall b | b in Flattened(sections, path) ensures FromSection(b, sections, path) {
        if b in OwnBlocks(s, path) {
          OwnBlockIsFrom(sections, path, b);
        } else if b in Flattened(s.children, ChildPath(path, s.title)) {
          FromChild(sections, path, b);
        } else {
          FromRest(sections, path, b);
        }
      }
    }
  }

  lemma OwnBlockIsFrom(sections: seq<Section>, path: string, b: TextBlock)
    requires sections != [] && b in OwnBlocks(sections[0], path)
    ensures FromSection(b, sections, path)
  {
    hide Strip, PathOf;
    var s := sections[0];
    PathOfChild(path, Titles([s]));
    PathOfNone(ChildPath(path, s.title));
    assert Titles([s])[1..] == [];
    assert IsTrail(sections, [s]) && IsBlockOf(b, path, [s]);
  }

  lemma FromChild(sections: seq<Section>, path: string, b: TextBlock)
    requires sections != [] && FromSection(b, sections[0].children, ChildPath(path, sections[0].title))
    ensures FromSection(b, sections, path)
  {
    hide IsTrail, IsBlockOf;
    var s := sections[0];
    var trail :| IsTrail(s.children, trail) && IsBlockOf(b, ChildPath(path, s.title), trail);
    TrailDown(sections, path, s, trail, b);
  }

  lemma FromRest(sections: seq<Section>, path: string, b: TextBlock)
    requires sections != [] && FromSection(b, sections[1..], path)
    ensures FromSection(b, sections, path)
  {
    hide IsBlockOf;
    var trail :| IsTrail(sections[1..], trail) && IsBlockOf(b, path, trail);
    assert IsTrail(sections, trail);
  }

  lemma TrailDown(sections: seq<Section>, path: string, s: Section, trail: seq<Section>, b: TextBlock)
    requires s in sections && IsTrail(s.children, trail)
    ensures IsTrail(sections, [s] + trail)
    ensures IsBlockOf(b, ChildPath(path, s.title), trail) <==> IsBlockOf(b, path, [s] + trail)
  {
    hide PathOf, Strip;
    var down := [s] + trail;
    assert down[1..] == trail && Titles(down)[1..] == Titles(trail) && Last(down) == Last(trail);
    PathOfChild(path, Titles(down));
  }

  /** And no section with content is left out. */
  lemma {:induction false} SectionsAreFlattened(sections: seq<Section>, path: string, trail: seq<Section>, b: TextBlock)
    requires IsTrail(sections, trail) && IsBlockOf(b, path, trail)
    ensures b in Flattened(sections, path)
    decreases sections
  {
    hide PathOf, Strip, IsBlockOf;
    var s, rest := sections[0], sections[1..];
    if trail[0] == s {
      if |trail| == 1 {
        assert trail == [s];
        OwnBlockIs(s, path, b);
      } else {
        assert trail == [s] + trail[1..];
        TrailDown(sections, path, s, trail[1..], b);
        SectionsAreFlattened(s.children, ChildPath(path, s.title), trail[1..], b);
      }
    } else {
      SectionsAreFlattened(rest, path, trail, b);
    }
  }

  lemma OwnBlockIs(s: Section, path: string, b: TextBlock)
    requires IsBlockOf(b, path, [s])
    ensures OwnBlocks(s, path) == [b]
  {
    hide Strip;
    PathOfChild(path, Titles([s]));
    PathOfNone(ChildPath(path, s.title));
    assert Titles([s])[1..] == [];
  }

  ghost predicate Solid(blocks: seq<TextBlock>) {
    forall i :: 0 <= i < |blocks| ==> Trimmed(blocks[i].text)
  }

  lemma {:induction false} FlattenedIsSolid(sections: seq<Section>, path: string)
    ensures Solid(Flattened(sections, path))
    decreases sections
  {
    if sections != [] {
      var s := sections[0];
      FlattenedIsSolid(s.children, ChildPath(path, s.title));
      FlattenedIsSolid(sections[1..], path);
      StripIsTrimmed(s.content);
    }
  }

  // ------------------------------------------------------------------- split

  /** A text that holds one paragraph and nothing else. */
  ghost predicate SingleParagraph(text: string) { Paragraphs(text) == [text] }

  /** Python's `separator.join(parts)`. */
  function JoinWith(separator: string, parts: seq<string>): string {
    if parts == [] then "" else if |parts| == 1 then parts[0]
    else parts[0] + separator + JoinWith(separator, parts[1..])
  }

  lemma {:induction false} JoinAppend(separator: string, parts: seq<string>, x: string)
    ensures JoinWith(separator, parts + [x])
         == if parts == [] then x else JoinWith(separator, parts) + separator + x
  {
    if parts == [] {
      assert parts + [x] == [x];
    } else if |parts| > 1 {
      assert (parts + [x])[1..] == parts[1..] + [x];
      JoinAppend(separator, parts[1..], x);
      var head, tail := parts[0] + separator, JoinWith(separator, parts[1..]);
      assert head + (tail + separator + x) == (head + tail) + separator + x;
    } else {
      assert (parts + [x])[1..] == [x];
    }
  }

  /** A text the splitter may emit: paragraphs joined by blank lines, each one after the first
      added within the target. */
  ghost predicate Fits(st: Strategy, text: string) {
    var ps := Paragraphs(text);
    && ps != [] && text == JoinWith(BREAK, ps)
    && forall k :: 2 <= k <= |ps| ==> st.Count(JoinWith(BREAK, ps[..k])) <= st.target
  }

  /** The first paragraph of `next` had no room after `text`. */
  ghost predicate NoRoom(st: Strategy, text: string, next: string) {
    Paragraphs(next) != [] && st.Count(text + BREAK + Paragraphs(next)[0]) > st.target
  }

  /** Greedy packing: every block fits, and none could have taken the paragraph after it. */
  ghost predicate GreedilyPacked(st: Strategy, blocks: seq<TextBlock>) {
    && (forall i :: 0 <= i < |blocks| ==> Fits(st, blocks[i].text))
    && (forall i :: 0 <= i < |blocks| - 1 ==> NoRoom(st, blocks[i].text, blocks[i + 1].text))
  }

  /** What splitting a block means. */
  ghost predicate IsSplit(st: Strategy, block: TextBlock, result: seq<TextBlock>) {
    if Paragraphs(block.text) == [] then result == [block]
    else
      && SameMetadata(block, result) && GreedilyPacked(st, result)
      && BlockParagraphs(result) == Paragraphs(block.text)
  }

  ghost predicate SameMetadata(block: TextBlock, blocks: seq<TextBlock>) {
    forall i :: 0 <= i < |blocks| ==> blocks[i] == block.(text := blocks[i].text)
  }

  /** The text under construction, as the blocks it would become if flushed now. */
  ghost function Flushed(block: TextBlock, blocks: seq<TextBlock>, current: string): seq<TextBlock> {
    if current == "" then blocks else blocks + [block.(text := current)]
  }

  lemma CollectTake(pieces: seq<string>, k: nat)
    requires k < |pieces|
    ensures Collect(Kept, pieces[..k + 1]) == Collect(Kept, pieces[..k]) + Kept(pieces[k])
  {
    assert pieces[..k + 1] == pieces[..k] + [pieces[k]];
    CollectConcat(Kept, pieces[..k], [pieces[k]]);
    CollectOne(Kept, pieces[k]);
  }

  /** The state of the splitting loop after it has seen the paragraphs `seen`. */
  ghost predicate Packing(st: Strategy, block: TextBlock, result: seq<TextBlock>, current: string,
                          seen: seq<string>) {
    && SameMetadata(block, result)
    && (current == "" ==> result == [])
    && (current != "" ==> Trimmed(current) && Paragraphs(current) != [])
    && BlockParagraphs(Flushed(block, result, current)) == seen
    && GreedilyPacked(st, Flushed(block, result, current))
  }

  lemma SingleFits(st: Strategy, para: string)
    requires SingleParagraph(para)
    ensures Fits(st, para)
  {
    hide Paragraphs;
  }

  /** A text takes one more paragraph while the target allows. */
  lemma GrownFits(st: Strategy, text: string, para: string)
    requires Fits(st, text) && SingleParagraph(para) && st.Count(text + BREAK + para) <= st.target
    ensures Fits(st, text + BREAK + para)
  {
    hide Paragraphs;
    var ps := Paragraphs(text);
    ParagraphsOfJoin(text, para);
    JoinAppend(BREAK, ps, para);
    var grown := ps + [para];
    forall k | 2 <= k <= |grown| ensures st.Count(JoinWith(BREAK, grown[..k])) <= st.target {
      if k <= |ps| {
        assert grown[..k] == ps[..k];
      } else {
        assert grown[..k] == grown;
      }
    }
  }

  lemma PackFirst(st: Strategy, block: TextBlock, para: string, seen: seq<string>)
    requires Packing(st, block, [], "", seen)
    requires Trimmed(para) && SingleParagraph(para)
    ensures Packing(st, block, [], para, seen + [para])
  {
    hide Paragraphs, JoinWith;
    SingleFits(st, para);
    BlockParagraphsAppend([], block.(text := para));
  }

  lemma PackGrow(st: Strategy, block: TextBlock, result: seq<TextBlock>, current: string,
                 para: string, seen: seq<string>)
    requires Packing(st, block, result, current, seen) && current != ""
    requires Trimmed(para) && SingleParagraph(para)
    requires st.Count(current + BREAK + para) <= st.target
    ensures Packing(st, block, result, current + BREAK + para, seen + [para])
  {
    hide Paragraphs, BlockParagraphs, Fits;
    var candidate := current + BREAK + para;
    var before, after := Flushed(block, result, current), Flushed(block, result, candidate);
    TrimmedJoin(current, para);
    ParagraphsOfJoin(current, para);
    BlockParagraphsAppend(result, block.(text := current));
    BlockParagraphsAppend(result, block.(text := candidate));
    assert before[|result|].text == current;
    GrownFits(st, current, para);
    forall i | 0 <= i < |after| - 1 ensures NoRoom(st, after[i].text, after[i + 1].text) {
      assert NoRoom(st, before[i].text, before[i + 1].text);
    }
    forall i | 0 <= i < |after| ensures Fits(st, after[i].text) {
      assert Fits(st, before[i].text);
    }
  }

  lemma PackFlush(st: Strategy, block: TextBlock, result: seq<TextBlock>, current: string,
                  para: string, seen: seq<string>)
    requires Packing(st, block, result, current, seen) && current != ""
    requires Trimmed(para) && SingleParagraph(para)
    requires st.Count(current + BREAK + para) > st.target
    ensures Packing(st, block, result + [block.(text := current)], para, seen + [para])
  {
    hide Paragraphs, BlockParagraphs, Fits;
    var before := Flushed(block, result, current);
    var after := before + [block.(text := para)];
    BlockParagraphsAppend(before, block.(text := para));
    SingleFits(st, para);
    forall i | 0 <= i < |after| - 1 ensures NoRoom(st, after[i].text, after[i + 1].text) {
      if i < |before| - 1 {
        assert NoRoom(st, before[i].text, before[i + 1].text);
      }
    }
    forall i | 0 <= i < |after| ensures Fits(st, after[i].text) {
      if i < |before| { assert Fits(st, before[i].text); }
    }
  }

  lemma PackEnd(st: Strategy, block: TextBlock, result: seq<TextBlock>, current: string)
    requires Packing(st, block, result, current, Paragraphs(block.text))
    ensures var flushed := Flushed(block, result, current);
            IsSplit(st, block, if flushed != [] then flushed else [block])
  {
    hide Paragraphs, Fits;
    var flushed := Flushed(block, result, current);
    if flushed != [] {
      assert Fits(st, flushed[0].text);
      FittingHasParagraphs(st, flushed[0].text);
    }
  }

  lemma FittingHasParagraphs(st: Strategy, text: string)
    requires Fits(st, text)
    ensures Paragraphs(text) != []
  {
  }

  /** Splitting loses, repeats and reorders no paragraph, keeps the block's metadata, and packs
      greedily up to the target size; text without a paragraph stays as it is. */
  method SplitBlock(st: Strategy, block: TextBlock) returns (result: seq<TextBlock>)
    ensures IsSplit(st, block, result)
  {
    hide Paragraphs, Strip, Collect, Split, Packing, BlockParagraphs, GreedilyPacked, IsSplit,
         SingleParagraph, Trimmed, SameMetadata, Strategy.Count, Kept;
    var paragraphs := Split(block.text);
    result := [];
    var current := "";
    PackStart(st, block);
    for k := 0 to |paragraphs|
      invariant Packing(st, block, result, current, Collect(Kept, paragraphs[..k]))
    {
      ghost var seen := Collect(Kept, paragraphs[..k]);
      PieceCollected(paragraphs, k);
      var para := Strip(paragraphs[k]);
      if para == "" {
        continue;
      }
      PieceIsParagraph(block.text, k);
      var candidate := if current != "" then Strip(current + BREAK + para) else para;
      if current != "" {
        CandidateIsJoin(st, block, result, current, para, seen);
      }
      if st.Count(candidate) <= st.target && current != "" {
        PackGrow(st, block, result, current, para, seen);
        current := candidate;
      } else if current != "" {
        PackFlush(st, block, result, current, para, seen);
        result := result + [block.(text := current)];
        current := para;
      } else {
        NothingYet(st, block, result, seen);
        PackFirst(st, block, para, seen);
        current := para;
      }
    }
    assert paragraphs[..|paragraphs|] == paragraphs;
    PackEnd(st, block, result, current);
    if current != "" {
      result := result + [block.(text := current)];
    }
    if result == [] {
      result := [block];
    }
  }

  lemma PackStart(st: Strategy, block: TextBlock)
    ensures Packing(st, block, [], "", Collect(Kept, Split(block.text)[..0]))
    ensures Paragraphs(block.text) == Collect(Kept, Split(block.text))
  {
  }

  lemma PieceCollected(pieces: seq<string>, k: nat)
    requires k < |pieces|
    ensures Collect(Kept, pieces[..k + 1])
         == if Strip(pieces[k]) == "" then Collect(Kept, pieces[..k])
            else Collect(Kept, pieces[..k]) + [Strip(pieces[k])]
  {
    hide Strip, Collect;
    CollectTake(pieces, k);
  }

  lemma PieceIsParagraph(text: string, k: nat)
    requires k < |Split(text)| && Strip(Split(text)[k]) != ""
    ensures Trimmed(Strip(Split(text)[k])) && SingleParagraph(Strip(Split(text)[k]))
  {
    hide Paragraphs, Strip, Split;
    PiecesAreWhole(text, k);
    StripIsTrimmed(Split(text)[k]);
    ParagraphsOfPiece(Split(text)[k]);
  }

  lemma CandidateIsJoin(st: Strategy, block: TextBlock, result: seq<TextBlock>, current: string,
                        para: string, seen: seq<string>)
    requires Packing(st, block, result, current, seen) && current != "" && Trimmed(para)
    ensures Strip(current + BREAK + para) == current + BREAK + para
  {
    hide Paragraphs, Strip;
    TrimmedJoin(current, para);
  }

  lemma NothingYet(st: Strategy, block: TextBlock, result: seq<TextBlock>, seen: seq<string>)
    requires Packing(st, block, result, "", seen)
    ensures result == []
  {
  }

  /** There is only one way to split: of two greedy packings of the same paragraphs neither has a
      first block shorter than the other's. */
  lemma FirstNotShorter(st: Strategy, a: seq<TextBlock>, b: seq<TextBlock>)
    requires GreedilyPacked(st, a) && GreedilyPacked(st, b) && BlockParagraphs(a) == BlockParagraphs(b)
    requires a != [] && b != []
    ensures |Paragraphs(a[0].text)| >= |Paragraphs(b[0].text)|
  {
    hide Paragraphs, JoinWith, Strategy.Count;
    var p, q := Paragraphs(a[0].text), Paragraphs(b[0].text);
    var all := BlockParagraphs(a);
    assert Fits(st, a[0].text) && Fits(st, b[0].text);
    if |p| < |q| {
      assert all == p + BlockParagraphs(a[1..]) && all == q + BlockParagraphs(b[1..]);
      assert all[..|p|] == p && all[..|q|] == q && q == all[..|q|];
      assert all[|p|] == q[|p|] && q[..|p|] == all[..|p|];
      assert |a| > 1 by { assert |BlockParagraphs(a[1..])| > 0; }
      assert NoRoom(st, a[0].text, a[0 + 1].text);
      assert Paragraphs(a[1].text)[0] == all[|p|] by {
        assert a[1..][0] == a[1];
        assert BlockParagraphs(a[1..]) == Paragraphs(a[1].text) + BlockParagraphs(a[1..][1..]);
      }
      assert q[..|p| + 1] == p + [q[|p|]];
      JoinAppend(BREAK, p, q[|p|]);
      assert false;
    }
  }

  /** The specification of splitting determines the result. */
  lemma {:induction false} SplitIsUnique(st: Strategy, block: TextBlock, a: seq<TextBlock>, b: seq<TextBlock>)
    requires SameMetadata(block, a) && SameMetadata(block, b)
    requires GreedilyPacked(st, a) && GreedilyPacked(st, b) && BlockParagraphs(a) == BlockParagraphs(b)
    ensures a == b
  {
    hide Paragraphs, JoinWith, Strategy.Count;
    assert a != [] ==> Fits(st, a[0].text);
    assert b != [] ==> Fits(st, b[0].text);
    if a != [] && b != [] {
      FirstNotShorter(st, a, b);
      FirstNotShorter(st, b, a);
      var p, q := Paragraphs(a[0].text), Paragraphs(b[0].text);
      var restA, restB := BlockParagraphs(a[1..]), BlockParagraphs(b[1..]);
      assert (p + restA)[..|p|] == (q + restB)[..|p|] && (p + restA)[|p|..] == (q + restB)[|p|..];
      assert p == q && restA == restB;
      TailPacked(st, a);
      TailPacked(st, b);
      SplitIsUnique(st, block, a[1..], b[1..]);
      assert a == [a[0]] + a[1..] && b == [b[0]] + b[1..];
    }
  }

  lemma TailPacked(st: Strategy, blocks: seq<TextBlock>)
    requires GreedilyPacked(st, blocks) && blocks != []
    ensures GreedilyPacked(st, blocks[1..])
  {
    hide Fits, NoRoom;
    var rest := blocks[1..];
    forall i | 0 <= i < |rest| - 1 ensures NoRoom(st, rest[i].text, rest[i + 1].text) {
      assert NoRoom(st, blocks[i + 1].text, blocks[i + 1 + 1].text);
    }
  }

  // ------------------------------------------------------------------- merge

  predicate CanMerge(st: Strategy, prev: TextBlock, block: TextBlock) {
    var p, b := st.Count(prev.text), st.Count(block.text);
    (p < st.min || b < st.min) && p + b <= st.target
  }

  /** One turn of the merge loop. */
  function MergeInto(st: Strategy, done: seq<TextBlock>, block: TextBlock): (r: seq<TextBlock>)
    requires done != []
    ensures r != []
  {
    var prev := Last(done);
    if CanMerge(st, prev, block) then
      done[..|done| - 1] + [prev.(text := prev.text + BREAK + block.text)]
    else done + [block]
  }

  function Merged(st: Strategy, blocks: seq<TextBlock>): (r: seq<TextBlock>)
    ensures blocks != [] ==> r != []
  {
    if |blocks| <= 1 then blocks
    else MergeInto(st, Merged(st, blocks[..|blocks| - 1]), Last(blocks))
  }

  method MergeUndersized(st: Strategy, blocks: seq<TextBlock>) returns (result: seq<TextBlock>)
    ensures result == Merged(st, blocks)
  {
    if blocks == [] {
      return [];
    }
    result := [blocks[0]];
    assert result == Merged(st, blocks[..1]);
    hide Merged, MergeInto, Strategy.Count;
    for i := 1 to |blocks|
      invariant result != [] && result == Merged(st, blocks[..i])
    {
      MergedStep(st, blocks, i);
      var block := blocks[i];
      MergeIntoIs(st, result, block);
      var prev := result[|result| - 1];
      var prevTokens, blockTokens := st.Count(prev.text), st.Count(block.text);
      if (prevTokens < st.min || blockTokens < st.min) && prevTokens + blockTokens <= st.target {
        var mergedText := prev.text + BREAK + block.text;
        result := result[..|result| - 1] + [prev.(text := mergedText)];
      } else {
        result := result + [block];
      }
    }
    assert blocks[..|blocks|] == blocks;
  }

  lemma MergeIntoIs(st: Strategy, done: seq<TextBlock>, block: TextBlock)
    requires done != []
    ensures var prev := done[|done| - 1];
            var p, b := st.Count(prev.text), st.Count(block.text);
            MergeInto(st, done, block)
            == if (p < st.min || b < st.min) && p + b <= st.target
               then done[..|done| - 1] + [prev.(text := prev.text + BREAK + block.text)]
               else done + [block]
  {
  }

  lemma MergedStep(st: Strategy, blocks: seq<TextBlock>, i: nat)
    requires 1 <= i < |blocks|
    ensures Merged(st, blocks[..i + 1]) == MergeInto(st, Merged(st, blocks[..i]), blocks[i])
  {
    assert blocks[..i + 1][..i] == blocks[..i];
  }

  lemma MergeIntoKeepsParagraphs(st: Strategy, done: seq<TextBlock>, block: TextBlock)
    requires done != []
    ensures BlockParagraphs(MergeInto(st, done, block)) == BlockParagraphs(done) + Paragraphs(block.text)
  {
    hide Paragraphs, BlockParagraphs, Strategy.Count;
    BlockParagraphsAppend(done, block);
    var before, prev := done[..|done| - 1], Last(done);
    assert done == before + [prev];
    BlockParagraphsAppend(before, prev);
    BlockParagraphsAppend(before, prev.(text := prev.text + BREAK + block.text));
    ParagraphsOfJoin(prev.text, block.text);
  }

  /** Merging keeps every paragraph, in order. */
  lemma {:induction false} MergingKeepsParagraphs(st: Strategy, blocks: seq<TextBlock>)
    ensures BlockParagraphs(Merged(st, blocks)) == BlockParagraphs(blocks)
  {
    hide Paragraphs;
    if |blocks| > 1 {
      var front, block := blocks[..|blocks| - 1], Last(blocks);
      MergingKeepsParagraphs(st, front);
      assert blocks == front + [block];
      BlockParagraphsAppend(front, block);
      MergeIntoKeepsParagraphs(st, Merged(st, front), block);
    }
  }

  lemma {:induction false} MergedIsSolid(st: Strategy, blocks: seq<TextBlock>)
    requires Solid(blocks)
    ensures Solid(Merged(st, blocks))
  {
    hide Trimmed, Strategy.Count;
    if |blocks| > 1 {
      var front, block := blocks[..|blocks| - 1], Last(blocks);
      MergedIsSolid(st, front);
      var done := Merged(st, front);
      assert Trimmed(Last(done).text) && Trimmed(block.text);
      TrimmedJoin(Last(done).text, block.text);
    }
  }

  lemma JoinCost(st: Strategy, a: string, b: string)
    requires st.tokenizer.Subadditive() && Trimmed(a) && Trimmed(b)
    ensures st.Count(a + BREAK + b) <= st.Count(a) + st.Count(BREAK) + st.Count(b)
  {
  }

  /** What merging creates costs at most the target plus one separator: the size test leaves
      the separator out. */
  lemma {:induction false} MergedSize(st: Strategy, blocks: seq<TextBlock>, i: nat)
    requires st.tokenizer.Subadditive() && Solid(blocks) && i < |Merged(st, blocks)|
    ensures Merged(st, blocks)[i] in blocks
         || st.Count(Merged(st, blocks)[i].text) <= st.target + st.Count(BREAK)
  {
    hide Trimmed, Strategy.Count, Tokenizer.Subadditive;
    if |blocks| > 1 {
      var front, block := blocks[..|blocks| - 1], Last(blocks);
      var done := Merged(st, front);
      if i < |done| {
        MergedSize(st, front, i);
        MergedIsSolid(st, front);
        JoinCost(st, Last(done).text, block.text);
      }
    }
  }

  /** Of two neighbours neither is undersized, or both together exceed the target. */
  ghost predicate Settled(st: Strategy, blocks: seq<TextBlock>) {
    forall i :: 0 <= i < |blocks| - 1 ==> Apart(st, blocks[i].text, blocks[i + 1].text)
  }

  ghost predicate Apart(st: Strategy, a: string, b: string) {
    (st.Count(a) >= st.min && st.Count(b) >= st.min) || st.Count(a) + st.Count(b) > st.target
  }

  /** After merging, no two neighbours can still merge. */
  lemma {:induction false} MergingSettles(st: Strategy, blocks: seq<TextBlock>)
    requires st.tokenizer.Monotone() && Solid(blocks)
    ensures Settled(st, Merged(st, blocks))
  {
    if |blocks| > 1 {
      var front, block := blocks[..|blocks| - 1], Last(blocks);
      var done := Merged(st, front);
      MergingSettles(st, front);
      MergedIsSolid(st, front);
      var prev := Last(done);
      assert Trimmed(prev.text) && Trimmed(block.text);
      if CanMerge(st, prev, block) && |done| > 1 {
        assert Apart(st, done[|done| - 2].text, done[|done| - 2 + 1].text);
        assert st.tokenizer.Count(prev.text) <= st.tokenizer.Count(prev.text + BREAK + block.text);
      }
    }
  }

  lemma {:induction false} SettledIsFixed(st: Strategy, blocks: seq<TextBlock>)
    requires Settled(st, blocks)
    ensures Merged(st, blocks) == blocks
  {
    if |blocks| > 1 {
      var front := blocks[..|blocks| - 1];
      forall i | 0 <= i < |front| - 1 ensures Apart(st, front[i].text, front[i + 1].text) {
        assert Apart(st, blocks[i].text, blocks[i + 1].text);
      }
      SettledIsFixed(st, front);
      assert Apart(st, blocks[|blocks| - 2].text, blocks[|blocks| - 2 + 1].text);
    }
  }

  lemma {:induction false} MergedLength(st: Strategy, blocks: seq<TextBlock>)
    ensures |Merged(st, blocks)| <= |blocks|
  {
    if |blocks| > 1 {
      MergedLength(st, blocks[..|blocks| - 1]);
    }
  }

  lemma {:induction false} FixedIsSettled(st: Strategy, blocks: seq<TextBlock>)
    requires Merged(st, blocks) == blocks
    ensures Settled(st, blocks)
  {
    hide Strategy.Count;
    if |blocks| > 1 {
      var n := |blocks| - 1;
      var front := blocks[..n];
      MergedLength(st, front);
      assert Merged(st, front) == front by { assert blocks[..n] == front; }
      FixedIsSettled(st, front);
      forall i | 0 <= i < n ensures Apart(st, blocks[i].text, blocks[i + 1].text) {
        if i < n - 1 { assert Apart(st, front[i].text, front[i + 1].text); }
      }
    }
  }

  /** Whatever the tokenizer: merging leaves blocks alone if and only if no two neighbours hold an
      undersized one and fit the target together. */
  lemma MergingFixesIff(st: Strategy, blocks: seq<TextBlock>)
    ensures Merged(st, blocks) == blocks <==> Settled(st, blocks)
  {
    hide Merged, Settled;
    if Settled(st, blocks) {
      SettledIsFixed(st, blocks);
    } else if Merged(st, blocks) == blocks {
      FixedIsSettled(st, blocks);
    }
  }

  function Texts(blocks: seq<TextBlock>): (texts: seq<string>)
    ensures |texts| == |blocks| && forall i :: 0 <= i < |blocks| ==> texts[i] == blocks[i].text
  {
    seq(|blocks|, i requires 0 <= i < |blocks| => blocks[i].text)
  }

  /** The blocks fall into runs, each joined by blank lines under the metadata of its first. */
  ghost predicate IsJoinOfRuns(blocks: seq<TextBlock>, runs: seq<seq<TextBlock>>, merged: seq<TextBlock>) {
    && Concat(runs) == blocks && |runs| == |merged|
    && forall i :: 0 <= i < |runs| ==>
         runs[i] != [] && merged[i] == runs[i][0].(text := JoinWith(BREAK, Texts(runs[i])))
  }

  lemma RunGrows(blocks: seq<TextBlock>, runs: seq<seq<TextBlock>>, merged: seq<TextBlock>, block: TextBlock)
    returns (longer: seq<seq<TextBlock>>)
    requires IsJoinOfRuns(blocks, runs, merged) && merged != []
    ensures IsJoinOfRuns(blocks + [block], longer, merged[..|merged| - 1]
                         + [Last(merged).(text := Last(merged).text + BREAK + block.text)])
  {
    hide JoinWith;
    var last := |runs| - 1;
    var run := runs[last] + [block];
    assert Texts(run) == Texts(runs[last]) + [block.text];
    JoinAppend(BREAK, Texts(runs[last]), block.text);
    longer := runs[..last] + [run];
    assert longer[..last] == runs[..last];
    assert Concat(longer) == Concat(runs[..last]) + (runs[last] + [block]);
    assert Concat(longer) == (Concat(runs[..last]) + runs[last]) + [block];
  }

  lemma RunBegins(blocks: seq<TextBlock>, runs: seq<seq<TextBlock>>, merged: seq<TextBlock>, block: TextBlock)
    returns (more: seq<seq<TextBlock>>)
    requires IsJoinOfRuns(blocks, runs, merged)
    ensures IsJoinOfRuns(blocks + [block], more, merged + [block])
  {
    JoinAppend(BREAK, [], block.text);
    hide JoinWith;
    assert Texts([block]) == [] + [block.text];
    more := runs + [[block]];
    assert more[..|runs|] == runs;
  }

  /** What merging makes of a list: neighbours run together, none moved, lost or repeated. */
  lemma {:induction false} MergedIsJoinOfRuns(st: Strategy, blocks: seq<TextBlock>) returns (runs: seq<seq<TextBlock>>)
    ensures IsJoinOfRuns(blocks, runs, Merged(st, blocks))
  {
    hide IsJoinOfRuns, Strategy.Count;
    if blocks == [] {
      runs := [];
      assert IsJoinOfRuns(blocks, runs, []) by { NothingRuns(); }
    } else {
      var n := |blocks| - 1;
      var front, block := blocks[..n], Last(blocks);
      runs := MergedIsJoinOfRuns(st, front);
      assert blocks == front + [block];
      if n > 0 && CanMerge(st, Last(Merged(st, front)), block) {
        runs := RunGrows(front, runs, Merged(st, front), block);
      } else {
        runs := RunBegins(front, runs, Merged(st, front), block);
      }
    }
  }

  lemma NothingRuns()
    ensures IsJoinOfRuns([], [], [])
  {
  }

  /** A second merge pass changes nothing. */
  lemma MergingIsIdempotent(st: Strategy, blocks: seq<TextBlock>)
    requires st.tokenizer.Monotone() && Solid(blocks)
    ensures Merged(st, Merged(st, blocks)) == Merged(st, blocks)
  {
    MergingSettles(st, blocks);
    SettledIsFixed(st, Merged(st, blocks));
  }

  ghost predicate SameTexts(a: seq<TextBlock>, b: seq<TextBlock>) {
    |a| == |b| && forall i :: 0 <= i < |a| ==> a[i].text == b[i].text
  }

  /** The merge never looks at sections: which texts it joins depends on the texts alone, so
      neighbours under different parents merge as readily as siblings. */
  lemma {:induction false} MergingIgnoresSections(st: Strategy, a: seq<TextBlock>, b: seq<TextBlock>)
    requires SameTexts(a, b)
    ensures SameTexts(Merged(st, a), Merged(st, b))
  {
    hide MergeInto;
    if |a| > 1 {
      var frontA, frontB := a[..|a| - 1], b[..|b| - 1];
      MergingIgnoresSections(st, frontA, frontB);
      MergeIntoIgnoresSections(st, Merged(st, frontA), Merged(st, frontB), Last(a), Last(b));
    }
  }

  lemma MergeIntoIgnoresSections(st: Strategy, a: seq<TextBlock>, b: seq<TextBlock>, x: TextBlock, y: TextBlock)
    requires SameTexts(a, b) && a != [] && x.text == y.text
    ensures SameTexts(MergeInto(st, a, x), MergeInto(st, b, y))
  {
    hide Strategy.Count;
    assert Last(a).text == Last(b).text;
  }

  // ------------------------------------------------------------- size limits

  /** The size a block may have before overlap, one unbreakable paragraph aside. */
  function SizeBound(st: Strategy): int {
    var merged := st.target + st.Count(BREAK);
    if st.max < merged then merged else st.max
  }

  ghost predicate Sized(st: Strategy, text: string) {
    st.Count(text) <= SizeBound(st) || SingleParagraph(text)
  }

  function Concat(pieces: seq<seq<TextBlock>>): seq<TextBlock> {
    if pieces == [] then [] else Concat(pieces[..|pieces| - 1]) + Last(pieces)
  }

  /** What the first pass makes of each block. */
  ghost predicate SplitUp(st: Strategy, blocks: seq<TextBlock>, pieces: seq<seq<TextBlock>>) {
    && |pieces| == |blocks|
    && forall i :: 0 <= i < |blocks| ==>
         if st.Count(blocks[i].text) > st.max then IsSplit(st, blocks[i], pieces[i])
         else pieces[i] == [blocks[i]]
  }

  /** Blocks above the maximum are split, then small neighbours are merged. */
  method ApplySizeLimits(st: Strategy, blocks: seq<TextBlock>) returns (result: seq<TextBlock>)
    ensures exists pieces :: SplitUp(st, blocks, pieces) && result == Merged(st, Concat(pieces))
  {
    hide IsSplit, Merged, Strategy.Count;
    ghost var pieces: seq<seq<TextBlock>> := [];
    if blocks == [] {
      MergedNothing(st);
      assert SplitUp(st, blocks, []);
      return [];
    }
    var splitBlocks := [];
    for i := 0 to |blocks|
      invariant SplitUp(st, blocks[..i], pieces) && splitBlocks == Concat(pieces)
    {
      var block := blocks[i];
      ghost var piece;
      if st.Count(block.text) > st.max {
        var split := SplitBlock(st, block);
        splitBlocks := splitBlocks + split;
        piece := split;
      } else {
        splitBlocks := splitBlocks + [block];
        piece := [block];
      }
      assert (pieces + [piece])[..i] == pieces;
      pieces := pieces + [piece];
    }
    assert blocks[..|blocks|] == blocks;
    result := MergeUndersized(st, splitBlocks);
  }

  lemma MergedNothing(st: Strategy)
    ensures Merged(st, Concat([])) == []
  {
  }

  lemma PieceKeepsParagraphs(st: Strategy, block: TextBlock, piece: seq<TextBlock>)
    requires IsSplit(st, block, piece) || piece == [block]
    ensures BlockParagraphs(piece) == Paragraphs(block.text)
  {
    hide Paragraphs;
    BlockParagraphsAppend([], block);
    assert [] + [block] == [block];
  }

  lemma {:induction false} SplittingKeepsParagraphs(st: Strategy, blocks: seq<TextBlock>, pieces: seq<seq<TextBlock>>)
    requires SplitUp(st, blocks, pieces)
    ensures BlockParagraphs(Concat(pieces)) == BlockParagraphs(blocks)
  {
    hide Paragraphs, IsSplit, Strategy.Count;
    if blocks != [] {
      var n := |blocks| - 1;
      SplittingKeepsParagraphs(st, blocks[..n], pieces[..n]);
      BlockParagraphsConcat(Concat(pieces[..n]), pieces[n]);
      PieceKeepsParagraphs(st, blocks[n], pieces[n]);
      assert blocks == blocks[..n] + [blocks[n]];
      BlockParagraphsAppend(blocks[..n], blocks[n]);
    }
  }

  /** Size limits keep every paragraph, in order, whatever the tokenizer. */
  lemma SizeLimitsKeepParagraphs(st: Strategy, blocks: seq<TextBlock>, pieces: seq<seq<TextBlock>>)
    requires SplitUp(st, blocks, pieces)
    ensures BlockParagraphs(Merged(st, Concat(pieces))) == BlockParagraphs(blocks)
  {
    hide *;
    SplittingKeepsParagraphs(st, blocks, pieces);
    MergingKeepsParagraphs(st, Concat(pieces));
  }

  /** Blocks within the maximum are never split. */
  lemma {:induction false} SmallBlocksStay(st: Strategy, blocks: seq<TextBlock>, pieces: seq<seq<TextBlock>>)
    requires SplitUp(st, blocks, pieces) && forall b :: b in blocks ==> st.Count(b.text) <= st.max
    ensures Concat(pieces) == blocks
  {
    hide IsSplit, Strategy.Count;
    if blocks != [] {
      var n := |blocks| - 1;
      SmallBlocksStay(st, blocks[..n], pieces[..n]);
      assert blocks[n] in blocks && pieces[n] == [blocks[n]];
    }
  }

  /** Blocks that need neither splitting nor merging pass the size limits unchanged. */
  lemma SizedAndSettledStay(st: Strategy, blocks: seq<TextBlock>, pieces: seq<seq<TextBlock>>)
    requires SplitUp(st, blocks, pieces) && Settled(st, blocks)
    requires forall b :: b in blocks ==> st.Count(b.text) <= st.max
    ensures Merged(st, Concat(pieces)) == blocks
  {
    hide *;
    SmallBlocksStay(st, blocks, pieces);
    SettledIsFixed(st, blocks);
  }

  /** A split block is within the target or a single paragraph. */
  lemma FittingIsSized(st: Strategy, text: string)
    requires Fits(st, text)
    ensures st.Count(text) <= st.target || SingleParagraph(text)
  {
    hide Paragraphs;
    var ps := Paragraphs(text);
    if |ps| > 1 {
      assert ps[..|ps|] == ps;
    }
  }

  lemma {:induction false} CollectedAreTrimmed(pieces: seq<string>)
    ensures forall p :: p in Collect(Kept, pieces) ==> Trimmed(p)
  {
    hide Strip, Trimmed;
    if pieces != [] {
      CollectedAreTrimmed(pieces[1..]);
      StripIsTrimmed(pieces[0]);
    }
  }

  lemma {:induction false} JoinIsTrimmed(parts: seq<string>)
    requires parts != [] && forall p :: p in parts ==> Trimmed(p)
    ensures Trimmed(JoinWith(BREAK, parts))
  {
    hide Trimmed;
    assert Trimmed(parts[0]);
    if |parts| > 1 {
      JoinIsTrimmed(parts[1..]);
      TrimmedJoin(parts[0], JoinWith(BREAK, parts[1..]));
    }
  }

  lemma FittingIsTrimmed(st: Strategy, text: string)
    requires Fits(st, text)
    ensures Trimmed(text)
  {
    hide Trimmed, Strategy.Count, Split;
    CollectedAreTrimmed(Split(text));
    JoinIsTrimmed(Paragraphs(text));
  }

  lemma PieceIsSolid(st: Strategy, block: TextBlock, piece: seq<TextBlock>)
    requires Trimmed(block.text) && (IsSplit(st, block, piece) || piece == [block])
    ensures Solid(piece)
  {
    SolidHasParagraph(block.text);
    hide Paragraphs, Fits, NoRoom, Trimmed;
    forall i | 0 <= i < |piece| ensures Trimmed(piece[i].text) {
      if piece != [block] {
        FittingIsTrimmed(st, piece[i].text);
      }
    }
  }

  lemma {:induction false} PiecesAreSolid(st: Strategy, blocks: seq<TextBlock>, pieces: seq<seq<TextBlock>>)
    requires SplitUp(st, blocks, pieces) && Solid(blocks)
    ensures Solid(Concat(pieces))
  {
    hide IsSplit, Strategy.Count, Trimmed;
    if blocks != [] {
      var n := |blocks| - 1;
      PiecesAreSolid(st, blocks[..n], pieces[..n]);
      PieceIsSolid(st, blocks[n], pieces[n]);
    }
  }

  lemma PieceIsSized(st: Strategy, block: TextBlock, piece: seq<TextBlock>)
    requires Trimmed(block.text)
    requires if st.Count(block.text) > st.max then IsSplit(st, block, piece) else piece == [block]
    ensures forall b :: b in piece ==> st.Count(b.text) <= st.max || Fits(st, b.text)
  {
    hide Paragraphs, Fits;
    SolidHasParagraph(block.text);
  }

  lemma {:induction false} InSomePiece(pieces: seq<seq<TextBlock>>, b: TextBlock) returns (i: nat)
    requires b in Concat(pieces)
    ensures i < |pieces| && b in pieces[i]
  {
    if b in Last(pieces) {
      i := |pieces| - 1;
    } else {
      i := InSomePiece(pieces[..|pieces| - 1], b);
    }
  }

  /** Under size limits every block is at most the larger of maximum and target plus separator,
      or a single paragraph. */
  lemma SizeLimitsBound(st: Strategy, blocks: seq<TextBlock>, pieces: seq<seq<TextBlock>>, k: nat)
    requires st.tokenizer.Subadditive() && Solid(blocks) && SplitUp(st, blocks, pieces)
    requires k < |Merged(st, Concat(pieces))|
    ensures Sized(st, Merged(st, Concat(pieces))[k].text)
  {
    hide Merged, Concat, Fits, IsSplit, Trimmed, SingleParagraph;
    var block := Merged(st, Concat(pieces))[k];
    PiecesAreSolid(st, blocks, pieces);
    MergedSize(st, Concat(pieces), k);
    if block in Concat(pieces) {
      var i := InSomePiece(pieces, block);
      PieceIsSized(st, blocks[i], pieces[i]);
      if Fits(st, block.text) {
        FittingIsSized(st, block.text);
      }
    }
  }

  // ----------------------------------------------------------------- overlap

  /** The last `overlap` tokens of a text, decoded and stripped. */
  function OverlapOf(st: Strategy, text: string): string
    requires st.overlap > 0
  {
    var tokens := st.tokenizer.encode(text);
    var tail := if |tokens| > st.overlap then tokens[|tokens| - st.overlap..] else tokens;
    Strip(st.tokenizer.decode(tail))
  }

  /** Which tokens those are: the last ones, as many as the overlap asks for or as there are. */
  lemma OverlapIsTheEnd(st: Strategy, text: string)
    requires st.overlap > 0
    ensures var tokens := st.tokenizer.encode(text);
            exists k :: 0 <= k <= |tokens| && |tokens| - k <= st.overlap && (k == 0 || |tokens| - k == st.overlap)
                        && OverlapOf(st, text) == Strip(st.tokenizer.decode(tokens[k..]))
  {
    hide Strip;
    var tokens := st.tokenizer.encode(text);
    var k := if |tokens| > st.overlap then |tokens| - st.overlap else 0;
    assert tokens[0..] == tokens;
    assert OverlapOf(st, text) == Strip(st.tokenizer.decode(tokens[k..]));
  }

  /** `after` is `block` with the tail of the chunk before it in front. */
  predicate OverlapsFrom(st: Strategy, before: TextBlock, block: TextBlock, after: TextBlock) {
    if st.overlap <= 0 || OverlapOf(st, before.text) == "" then after == block
    else after == block.(text := OverlapOf(st, before.text) + BREAK + block.text)
  }

  /** Each block but the first gets the tail of its predecessor as emitted, that is, with the
      predecessor's own overlap already in place. */
  ghost predicate Overlapped(st: Strategy, blocks: seq<TextBlock>, result: seq<TextBlock>) {
    && |result| == |blocks|
    && (blocks != [] ==> result[0] == blocks[0])
    && (forall i :: 1 <= i < |blocks| ==> OverlapsFrom(st, result[i - 1], blocks[i], result[i]))
  }

  method AddOverlap(st: Strategy, blocks: seq<TextBlock>) returns (result: seq<TextBlock>)
    ensures Overlapped(st, blocks, result)
  {
    if |blocks| <= 1 || st.overlap <= 0 {
      return blocks;
    }
    hide OverlapOf;
    result := [blocks[0]];
    for k := 1 to |blocks|
      invariant |result| == k && result[0] == blocks[0]
      invariant forall i :: 1 <= i < k ==> OverlapsFrom(st, result[i - 1], blocks[i], result[i])
    {
      var overlapText := OverlapOf(st, result[|result| - 1].text);
      if overlapText != "" {
        result := result + [blocks[k].(text := overlapText + BREAK + blocks[k].text)];
      } else {
        result := result + [blocks[k]];
      }
    }
  }

  /** `text` begins with an end of `before`, a blank line, and goes on with `own`; or that end is empty
      and it is just `own`. */
  ghost predicate ContinuesFrom(before: string, text: string, own: string) {
    exists j :: 0 <= j <= |before| && text == if j == |before| then own else before[j..] + BREAK + own
  }

  lemma StripOfEnd(text: string, j: nat)
    requires Trimmed(text) && j <= |text|
    ensures exists i :: j <= i <= |text| && Strip(text[j..]) == text[i..]
  {
    var i := j + SkipSpace(text[j..], 0);
    assert LStrip(text[j..]) == text[i..];
    if i < |text| {
      assert Trimmed(text[i..]);
      StripTrimmed(text[i..]);
    } else {
      assert text[i..] == "";
    }
    assert Strip(text[j..]) == text[i..];
  }

  /** What the overlap is for: with such a tokenizer every later chunk begins with the stripped end of
      the chunk before it. */
  lemma OverlapContinues(st: Strategy, before: TextBlock, block: TextBlock, after: TextBlock)
    requires st.tokenizer.DecodesEnds() && Trimmed(before.text) && OverlapsFrom(st, before, block, after)
    ensures ContinuesFrom(before.text, after.text, block.text)
  {
    if after == block {
      assert before.text[|before.text|..] == "";
    } else {
      OverlapIsEnd(st, before.text);
      hide OverlapOf, Strip, Trimmed, Tokenizer.DecodesEnds;
      var i :| 0 <= i <= |before.text| && OverlapOf(st, before.text) == before.text[i..];
      assert i < |before.text|;
    }
  }

  lemma OverlapIsEnd(st: Strategy, text: string)
    requires st.overlap > 0 && st.tokenizer.DecodesEnds() && Trimmed(text)
    ensures IsEnd(OverlapOf(st, text), text)
  {
    OverlapIsTheEnd(st, text);
    hide Strip, Trimmed, OverlapOf;
    var tokens := st.tokenizer.encode(text);
    var k: nat :| k <= |tokens| && OverlapOf(st, text) == Strip(st.tokenizer.decode(tokens[k..]));
    assert IsEnd(st.tokenizer.decode(tokens[k..]), text);
    var j :| 0 <= j <= |text| && st.tokenizer.decode(tokens[k..]) == text[j..];
    StripOfEnd(text, j);
  }

  lemma {:induction false} OverlappedIsSolid(st: Strategy, blocks: seq<TextBlock>, result: seq<TextBlock>, i: nat)
    requires Overlapped(st, blocks, result) && Solid(blocks) && i < |blocks|
    ensures Trimmed(result[i].text)
  {
    hide Trimmed, Strip, OverlapOf;
    assert Trimmed(blocks[i].text);
    if i > 0 {
      OverlapIsTrimmed(st, result[i - 1].text);
      if result[i] != blocks[i] {
        TrimmedJoin(OverlapOf(st, result[i - 1].text), blocks[i].text);
      }
    }
  }

  lemma OverlapIsTrimmed(st: Strategy, text: string)
    ensures st.overlap > 0 ==> OverlapOf(st, text) == "" || Trimmed(OverlapOf(st, text))
  {
    if st.overlap > 0 {
      hide Strip, Trimmed;
      var tokens := st.tokenizer.encode(text);
      StripIsTrimmed(st.tokenizer.decode(if |tokens| > st.overlap then tokens[|tokens| - st.overlap..] else tokens));
    }
  }

  ghost predicate EndsWith(whole: seq<string>, tail: seq<string>) { exists extra :: whole == extra + tail }

  /** Overlap only ever adds paragraphs in front: a chunk ends with its block's paragraphs. */
  lemma OverlapKeepsOwnParagraphs(st: Strategy, before: TextBlock, block: TextBlock, after: TextBlock)
    requires OverlapsFrom(st, before, block, after)
    ensures EndsWith(Paragraphs(after.text), Paragraphs(block.text))
    ensures after == block.(text := after.text)
    ensures st.overlap <= 0 ==> after == block
  {
    if after == block {
      assert Paragraphs(after.text) == [] + Paragraphs(block.text);
    } else {
      ParagraphsOfJoin(OverlapOf(st, before.text), block.text);
    }
  }

  // ------------------------------------------------------------------ tables

  function RowLine(cells: seq<string>): string { "| " + JoinWith(" | ", cells) + " |" }

  /** `row.get(header, "")`. */
  function Cell(row: TableRow, header: string): string {
    if row == [] then "" else if row[0].0 == header then row[0].1 else Cell(row[1..], header)
  }

  function Cells(table: Table, row: TableRow): seq<string> {
    if table.headers != [] then seq(|table.headers|, i requires 0 <= i < |table.headers| => Cell(row, table.headers[i]))
    else seq(|row|, i requires 0 <= i < |row| => row[i].1)
  }

  function TableContent(table: Table): string {
    var caption := if table.caption.Some? && table.caption.value != "" then [table.caption.value, ""] else [];
    var header := if table.headers == [] then []
                  else [RowLine(table.headers), RowLine(seq(|table.headers|, _ => "---"))];
    var rows := seq(|table.rows|, i requires 0 <= i < |table.rows| => RowLine(Cells(table, table.rows[i])));
    JoinWith("\n", caption + header + rows)
  }

  /** `v` is the first value under the header, or empty if there is none. */
  ghost predicate IsCell(row: TableRow, header: string, v: string) {
    if exists k :: 0 <= k < |row| && row[k].0 == header
    then exists k :: 0 <= k < |row| && row[k] == (header, v) && forall m :: 0 <= m < k ==> row[m].0 != header
    else v == ""
  }

  lemma {:induction false} CellIs(row: TableRow, header: string)
    ensures IsCell(row, header, Cell(row, header))
  {
    if row != [] && row[0].0 != header {
      var rest := row[1..];
      CellIs(rest, header);
      if k :| 0 <= k < |row| && row[k].0 == header {
        assert rest[k - 1].0 == header;
        var m :| 0 <= m < |rest| && rest[m] == (header, Cell(rest, header))
                 && forall n :: 0 <= n < m ==> rest[n].0 != header;
        assert row[m + 1] == (header, Cell(row, header));
        assert forall n :: 0 <= n < m + 1 ==> row[n].0 != header by {
          forall n | 0 < n < m + 1 ensures row[n].0 != header { assert rest[n - 1].0 != header; }
        }
      } else {
        assert forall m :: 0 <= m < |rest| ==> rest[m] == row[m + 1];
      }
    }
  }

  /** The cells of a row: those under the headers in their order, or all values if there are none. */
  ghost predicate AreCells(table: Table, row: TableRow, cells: seq<string>) {
    if table.headers == [] then |cells| == |row| && forall j :: 0 <= j < |row| ==> cells[j] == row[j].1
    else |cells| == |table.headers| && forall j :: 0 <= j < |cells| ==> IsCell(row, table.headers[j], cells[j])
  }

  ghost predicate IsRowLine(table: Table, row: TableRow, line: string) {
    exists cells :: AreCells(table, row, cells) && line == "| " + JoinWith(" | ", cells) + " |"
  }

  ghost predicate AreCaptionLines(table: Table, lines: seq<string>) {
    lines == if table.caption.Some? && table.caption.value != "" then [table.caption.value, ""] else []
  }

  ghost predicate AreHeaderLines(table: Table, lines: seq<string>) {
    if table.headers == [] then lines == []
    else
      exists rule :: |rule| == |table.headers| && (forall r :: r in rule ==> r == "---")
        && lines == ["| " + JoinWith(" | ", table.headers) + " |", "| " + JoinWith(" | ", rule) + " |"]
  }

  ghost predicate AreRowLines(table: Table, lines: seq<string>) {
    |lines| == |table.rows| && forall i :: 0 <= i < |lines| ==> IsRowLine(table, table.rows[i], lines[i])
  }

  /** The text of a table: the caption and a blank line if there is a caption, the headers and a rule if
      there are headers, and a line for each row. */
  ghost predicate IsTableText(table: Table, text: string) {
    exists caption, header, rows ::
      && AreCaptionLines(table, caption) && AreHeaderLines(table, header) && AreRowLines(table, rows)
      && text == JoinWith("\n", caption + header + rows)
  }

  /** Every cell of a table is in its text, in its row and column. */
  lemma TableTextHolds(table: Table)
    ensures IsTableText(table, TableContent(table))
  {
    var caption := if table.caption.Some? && table.caption.value != "" then [table.caption.value, ""] else [];
    var rule := seq(|table.headers|, _ => "---");
    var header := if table.headers == [] then [] else [RowLine(table.headers), RowLine(rule)];
    var rows := seq(|table.rows|, i requires 0 <= i < |table.rows| => RowLine(Cells(table, table.rows[i])));
    assert AreHeaderLines(table, header) by {
      hide JoinWith;
      assert |rule| == |table.headers| && forall r :: r in rule ==> r == "---";
    }
    hide JoinWith, IsRowLine, Cells, RowLine, AreHeaderLines;
    forall i | 0 <= i < |table.rows| ensures IsRowLine(table, table.rows[i], rows[i]) {
      RowLineIs(table, table.rows[i]);
    }
    assert AreCaptionLines(table, caption) && AreRowLines(table, rows);
    hide AreCaptionLines, AreRowLines;
    assert TableContent(table) == JoinWith("\n", caption + header + rows);
  }

  lemma RowLineIs(table: Table, row: TableRow)
    ensures IsRowLine(table, row, RowLine(Cells(table, row)))
  {
    hide JoinWith, Cell, IsCell;
    forall h ensures IsCell(row, h, Cell(row, h)) { CellIs(row, h); }
    assert AreCells(table, row, Cells(table, row));
  }

  function TableToChunk(st: Strategy, table: Table, index: nat): (r: Chunk)
    ensures r.index == index
  {
    var content := TableContent(table);
    Chunk(index, TableChunk, content, if table.sectionPath == "" then None else Some(table.sectionPath),
          table.caption, None, st.Count(content), Some(table.headers))
  }

  function BlockToChunk(st: Strategy, block: TextBlock): (r: Chunk)
    ensures r.index == 0
  {
    Chunk(0, TextChunk, block.text, Some(block.sectionPath), Some(block.heading), block.page,
          st.Count(block.text), None)
  }

  // ------------------------------------------------------------------- chunk

  /** Text chunks first, then one chunk a table, then indices from zero. */
  method AssembleChunks(st: Strategy, overlapped: seq<TextBlock>, tables: seq<Table>)
    returns (chunks: seq<Chunk>)
    ensures |chunks| == |overlapped| + |tables|
    ensures forall i :: 0 <= i < |overlapped| ==> chunks[i] == BlockToChunk(st, overlapped[i]).(index := i)
    ensures forall j :: |overlapped| <= j < |chunks| ==>
              chunks[j] == TableToChunk(st, tables[j - |overlapped|], j)
  {
    hide BlockToChunk, TableToChunk;
    chunks := seq(|overlapped|, i requires 0 <= i < |overlapped| => BlockToChunk(st, overlapped[i]));
    var n := |overlapped|;
    for j := 0 to |tables|
      invariant |chunks| == n + j
      invariant forall i :: 0 <= i < n ==> chunks[i] == BlockToChunk(st, overlapped[i])
      invariant forall i :: n <= i < |chunks| ==> chunks[i] == TableToChunk(st, tables[i - n], i)
    {
      chunks := chunks + [TableToChunk(st, tables[j], |chunks|)];
    }
    for k := 0 to |chunks|
      invariant |chunks| == n + |tables|
      invariant forall i :: 0 <= i < n ==>
                  chunks[i] == BlockToChunk(st, overlapped[i]).(index := if i < k then i else 0)
      invariant forall i :: n <= i < |chunks| ==> chunks[i] == TableToChunk(st, tables[i - n], i)
    {
      chunks := chunks[k := chunks[k].(index := k)];
    }
  }

  /** The chunks that blocks and tables become. */
  ghost predicate AreChunks(st: Strategy, overlapped: seq<TextBlock>, tables: seq<Table>, chunks: seq<Chunk>) {
    && |chunks| == |overlapped| + |tables|
    && (forall i :: 0 <= i < |overlapped| ==> chunks[i] == BlockToChunk(st, overlapped[i]).(index := i))
    && forall j :: |overlapped| <= j < |chunks| ==> chunks[j] == TableToChunk(st, tables[j - |overlapped|], j)
  }

  /** The whole strategy, step by step: flattening, size limits, overlap, chunks. */
  ghost predicate Derived(st: Strategy, sections: seq<Section>, tables: seq<Table>,
                          pieces: seq<seq<TextBlock>>, overlapped: seq<TextBlock>, chunks: seq<Chunk>) {
    && SplitUp(st, Flattened(sections, ""), pieces)
    && Overlapped(st, Merged(st, Concat(pieces)), overlapped)
    && AreChunks(st, overlapped, tables, chunks)
  }

  method ChunkDocument(st: Strategy, sections: seq<Section>, tables: seq<Table>) returns (chunks: seq<Chunk>)
    ensures exists pieces, overlapped :: Derived(st, sections, tables, pieces, overlapped, chunks)
  {
    var flat := FlattenSections(sections, "");
    var sizedBlocks := ApplySizeLimits(st, flat);
    ghost var pieces :| SplitUp(st, flat, pieces) && sizedBlocks == Merged(st, Concat(pieces));
    var overlapped := AddOverlap(st, sizedBlocks);
    chunks := AssembleChunks(st, overlapped, tables);
    hide SplitUp, Overlapped, AreChunks, Merged, Concat, Flattened;
    assert Derived(st, sections, tables, pieces, overlapped, chunks);
  }

  /** The text blocks before overlap hold exactly the paragraphs of all sections in pre-order; they
      are sized, and nothing is left to merge. */
  lemma BlocksOfDocument(st: Strategy, sections: seq<Section>, tables: seq<Table>,
                         pieces: seq<seq<TextBlock>>, overlapped: seq<TextBlock>, chunks: seq<Chunk>)
    requires Derived(st, sections, tables, pieces, overlapped, chunks)
    ensures var blocks := Merged(st, Concat(pieces));
            && BlockParagraphs(blocks) == SectionParagraphs(sections)
            && (st.tokenizer.Subadditive() ==> forall k :: 0 <= k < |blocks| ==> Sized(st, blocks[k].text))
            && (st.tokenizer.Monotone() ==> Settled(st, blocks))
  {
    hide SplitUp, Overlapped, AreChunks, Merged, Concat, Flattened, Settled, Sized,
         Tokenizer.Subadditive, Tokenizer.Monotone;
    var flat, blocks := Flattened(sections, ""), Merged(st, Concat(pieces));
    FlatteningKeepsParagraphs(sections, "");
    FlattenedIsSolid(sections, "");
    SizeLimitsKeepParagraphs(st, flat, pieces);
    if st.tokenizer.Subadditive() {
      forall k | 0 <= k < |blocks| ensures Sized(st, blocks[k].text) {
        SizeLimitsBound(st, flat, pieces, k);
      }
    }
    if st.tokenizer.Monotone() {
      PiecesAreSolid(st, flat, pieces);
      MergingSettles(st, Concat(pieces));
    }
  }

  /** Every text chunk ends with the paragraphs of its block, and carries the block's metadata. */
  lemma ChunksEndWithTheirBlocks(st: Strategy, sections: seq<Section>, tables: seq<Table>,
                                 pieces: seq<seq<TextBlock>>, overlapped: seq<TextBlock>, chunks: seq<Chunk>, i: nat)
    requires Derived(st, sections, tables, pieces, overlapped, chunks)
    requires i < |Merged(st, Concat(pieces))|
    ensures i < |chunks| && chunks[i].index == i && chunks[i].kind == TextChunk
    ensures var block := Merged(st, Concat(pieces))[i];
            && chunks[i].sectionPath == Some(block.sectionPath) && chunks[i].heading == Some(block.heading)
            && chunks[i].page == block.page && chunks[i].tokens == st.Count(chunks[i].content)
            && chunks[i].tableHeaders == None
            && (i == 0 || st.overlap <= 0 ==> chunks[i].content == block.text)
            && EndsWith(Paragraphs(chunks[i].content), Paragraphs(block.text))
  {
    hide SplitUp, Merged, Concat, Paragraphs, OverlapsFrom;
    var blocks := Merged(st, Concat(pieces));
    if i == 0 {
      assert [] + Paragraphs(blocks[0].text) == Paragraphs(blocks[0].text);
    } else {
      OverlapKeepsOwnParagraphs(st, overlapped[i - 1], blocks[i], overlapped[i]);
    }
  }

  /** With a tokenizer that decodes ends, each text chunk but the first begins with the end of the chunk
      before it. */
  lemma ChunksOverlap(st: Strategy, sections: seq<Section>, tables: seq<Table>,
                      pieces: seq<seq<TextBlock>>, overlapped: seq<TextBlock>, chunks: seq<Chunk>, i: nat)
    requires Derived(st, sections, tables, pieces, overlapped, chunks) && st.tokenizer.DecodesEnds()
    requires 1 <= i < |Merged(st, Concat(pieces))|
    ensures i < |chunks|
    ensures ContinuesFrom(chunks[i - 1].content, chunks[i].content, Merged(st, Concat(pieces))[i].text)
  {
    hide SplitUp, Merged, Concat, OverlapsFrom, Trimmed, ContinuesFrom, Tokenizer.DecodesEnds, Flattened;
    var blocks := Merged(st, Concat(pieces));
    FlattenedIsSolid(sections, "");
    PiecesAreSolid(st, Flattened(sections, ""), pieces);
    MergedIsSolid(st, Concat(pieces));
    OverlappedIsSolid(st, blocks, overlapped, i - 1);
    OverlapContinues(st, overlapped[i - 1], blocks[i], overlapped[i]);
  }

  /** Each table is one chunk after the text chunks, with its lines as content and its own headers,
      section and caption. */
  lemma TablesAreChunks(st: Strategy, sections: seq<Section>, tables: seq<Table>,
                        pieces: seq<seq<TextBlock>>, overlapped: seq<TextBlock>, chunks: seq<Chunk>, j: nat)
    requires Derived(st, sections, tables, pieces, overlapped, chunks) && j < |tables|
    ensures var n := |Merged(st, Concat(pieces))|;
            && |chunks| == n + |tables|
            && var c := chunks[n + j];
               && c.index == n + j && c.kind == TableChunk && c.page == None && c.heading == tables[j].caption
               && c.tableHeaders == Some(tables[j].headers) && c.tokens == st.Count(c.content)
               && c.sectionPath == (if tables[j].sectionPath == "" then None else Some(tables[j].sectionPath))
               && IsTableText(tables[j], c.content)
  {
    hide SplitUp, Merged, Concat, OverlapsFrom, Flattened, TableContent, IsTableText;
    TableTextHolds(tables[j]);
    assert chunks[|overlapped| + j] == TableToChunk(st, tables[j], |overlapped| + j);
  }

  /** One token per character: the hypotheses on tokenizers are satisfiable. */
  function Characters(): Tokenizer {
    Tokenizer((s: string) => seq(|s|, i requires 0 <= i < |s| => s[i] as int),
              (tokens: seq<int>) => seq(|tokens|, i requires 0 <= i < |tokens| => CharOf(tokens[i])))
  }

  function CharOf(token: int): char {
    if 0 <= token < 0xD800 || 0xE000 <= token < 0x11_0000 then token as char else '?'
  }

  lemma CharactersDecodeEnds()
    ensures Characters().DecodesEnds()
  {
    var t := Characters();
    forall text, k: nat | Trimmed(text) && k <= |t.encode(text)|
      ensures IsEnd(t.decode(t.encode(text)[k..]), text)
    {
      CharactersDecode(text, k);
      assert IsEnd(text[k..], text);
    }
  }

  lemma CharactersDecode(text: string, k: nat)
    requires k <= |text|
    ensures var t := Characters(); |t.encode(text)| == |text| && t.decode(t.encode(text)[k..]) == text[k..]
  {
  }

  lemma CharacterTokenizer()
    ensures Characters().Subadditive() && Characters().Monotone() && Characters().DecodesEnds()
  {
    var t := Characters();
    CharactersDecodeEnds();
    hide Tokenizer.DecodesEnds;
    forall a, b ensures t.Count(a + b) <= t.Count(a) + t.Count(b) && t.Count(a) <= t.Count(a + b) {
      assert t.Count(a + b) == |a + b|;
    }
  }

  ghost predicate Exceeds(st: Strategy, blocks: seq<TextBlock>, i: nat) {
    i < |Merged(st, blocks)| && st.Count(Merged(st, blocks)[i].text) == st.target + st.Count(BREAK)
  }

  /** The target is not a bound, and the bound of target plus separator is attained: two blocks of
      one token each, merged under a target of two, cost four. */
  lemma SeparatorBoundIsTight()
    ensures exists st: Strategy, blocks: seq<TextBlock>, i: nat ::
              st.tokenizer.Subadditive() && st.tokenizer.Monotone() && st.Count(BREAK) > 0
              && (forall b :: b in blocks ==> st.Count(b.text) <= st.target) && Exceeds(st, blocks, i)
  {
    CharacterTokenizer();
    var st := Strategy(2, 8, 2, 0, Characters());
    var a, b := TextBlock("a", "", "", None), TextBlock("b", "", "", None);
    assert [a, b][..1] == [a];
    assert Merged(st, [a, b]) == MergeInto(st, [a], b);
    assert CanMerge(st, a, b);
    assert [a][..0] == [];
    assert st.Count("a" + BREAK + "b") == 4;
    assert Exceeds(st, [a, b], 0);
  }
}
