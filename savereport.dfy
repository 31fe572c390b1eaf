/** `save_report` from src/codesystem/crew.py: free text split into a titled document at
    every `"\n# "`, saved under a name built from the analysed file. */
module SaveReport {
  import opened Wrappers
  import opened PyStr
  import opened Document
  import opened ReportFile

  /** Where the content is cut into sections. */
  const SectionSeparator := "\n# "

  const ReportTitle := "Code Analysis Report"

  /** The blocks one later section adds (see `SectionBlocksShape`). */
  function SectionBlocks(chunk: string): seq<Block> {
    if IsBlank(chunk) then []
    else
      var lines := SplitOnce(chunk, '\n');
      if lines.1.None? then [Heading(1, lines.0)]
      else [Heading(1, lines.0), Paragraph(lines.1.value)]
  }

  /** A blank section adds nothing; any other adds a level-1 heading holding its first line
      and, exactly when it has a line feed, one paragraph with the rest, written as it is:
      heading, line feed and paragraph give back the section. */
  lemma SectionBlocksShape(chunk: string)
    ensures var r := SectionBlocks(chunk);
      && (r == [] <==> IsBlank(chunk))
      && (r != [] ==> r[0].Heading? && r[0].level == 1 && '\n' !in r[0].text)
      && |r| <= 2 && (r != [] ==> (|r| == 2 <==> '\n' in chunk))
      && (|r| == 1 ==> r[0].text == chunk)
      && (|r| == 2 ==> r[1].Paragraph? && r[0].text + "\n" + r[1].text == chunk)
  {
    SplitOnceParts(chunk, '\n');
  }

  /** The blocks of the later sections, in order. */
  function LaterBlocks(chunks: seq<string>): seq<Block> {
    if chunks == [] then [] else SectionBlocks(chunks[0]) + LaterBlocks(chunks[1..])
  }

  /** The whole document: the title, the first section as a paragraph (even when it is
      empty), then the later sections. */
  function ReportBlocks(content: string): seq<Block> {
    var chunks := Split(content, SectionSeparator);
    [Title(ReportTitle), Paragraph(chunks[0])] + LaterBlocks(chunks[1..])
  }

  lemma {:induction false} LaterBlocksAppend(chunks: seq<string>, c: string)
    ensures LaterBlocks(chunks + [c]) == LaterBlocks(chunks) + SectionBlocks(c)
    decreases |chunks|
  {
    if chunks == [] {
      assert ([] + [c])[1..] == [];
    } else {
      assert (chunks + [c])[1..] == chunks[1..] + [c];
      LaterBlocksAppend(chunks[1..], c);
    }
  }

  /** The document part of `save_report`: the blocks added one section at a time. */
  method LayOutReport(content: string) returns (blocks: seq<Block>)
    ensures blocks == ReportBlocks(content)
  {
    blocks := [Title(ReportTitle)];
    var sections := Split(content, SectionSeparator);
    blocks := blocks + [Paragraph(sections[0])];
    var i := 1;
    while i < |sections|
      invariant 1 <= i <= |sections|
      invariant blocks == [Title(ReportTitle), Paragraph(sections[0])] + LaterBlocks(sections[1..i])
    {
      var section := sections[i];
      blocks := AddSection(blocks, section);
      LaterBlocksAppend(sections[1..i], section);
      assert sections[1..i + 1] == sections[1..i] + [section];
      i := i + 1;
    }
    assert sections[1..i] == sections[1..];
  }

  /** The body of the loop over the later sections: a section that is not blank adds its
      heading, then its paragraph when it has one. */
  method AddSection(blocks: seq<Block>, section: string) returns (blocks': seq<Block>)
    ensures blocks' == blocks + SectionBlocks(section)
  {
    blocks' := blocks;
    if !IsBlank(section) {
      var lines := SplitOnce(section, '\n');
      blocks' := blocks' + [Heading(1, lines.0)];
      if lines.1.Some? {
        blocks' := blocks' + [Paragraph(lines.1.value)];
      }
    }
  }

  /** `save_report(content, filename_base, file_name)`: the report's path in the output
      directory and the document saved there. */
  method SaveReport(content: string, outputDir: string, base: string, fileName: string, dt: DateTime)
    returns (path: string, blocks: seq<Block>)
    requires dt.Valid()
    ensures path == outputDir + "/" + ReportFileName(fileName, base, dt)
    ensures blocks == ReportBlocks(content)
  {
    path := outputDir + "/" + ReportFileName(fileName, base, dt);
    blocks := LayOutReport(content);
  }

  /** The later sections read back from their blocks: each heading starts a section, and a
      paragraph right after it is that section's body. */
  function SectionTexts(blocks: seq<Block>): seq<string> {
    if blocks == [] then []
    else if |blocks| >= 2 && blocks[1].Paragraph? then
      [blocks[0].text + "\n" + blocks[1].text] + SectionTexts(blocks[2..])
    else [blocks[0].text] + SectionTexts(blocks[1..])
  }

  lemma {:induction false} LaterBlocksStartWithHeading(chunks: seq<string>)
    ensures LaterBlocks(chunks) != [] ==> LaterBlocks(chunks)[0].Heading?
    decreases |chunks|
  {
    if chunks != [] {
      LaterBlocksStartWithHeading(chunks[1..]);
    }
  }

  /** Without blank sections, the blocks give back every later section exactly. */
  lemma {:induction false} SectionTextsOfLaterBlocks(chunks: seq<string>)
    requires forall k :: 0 <= k < |chunks| ==> !IsBlank(chunks[k])
    ensures SectionTexts(LaterBlocks(chunks)) == chunks
    decreases |chunks|
  {
    if chunks != [] {
      var head := SectionBlocks(chunks[0]);
      SectionBlocksShape(chunks[0]);
      var tail := LaterBlocks(chunks[1..]);
      SectionTextsOfLaterBlocks(chunks[1..]);
      LaterBlocksStartWithHeading(chunks[1..]);
      var bs := head + tail;
      if |head| == 2 {
        assert bs[2..] == tail;
      } else {
        assert bs[1..] == tail;
      }
    }
  }

  /** The document layout: title, first section verbatim, then for every non-blank later
      section its heading and body; when no later section is blank, joining the first
      section and the read-back sections with the separator rebuilds the content. */
  lemma ReportLayout(content: string)
    ensures var chunks := Split(content, SectionSeparator);
      var r := ReportBlocks(content);
      && |chunks| == Count(content, SectionSeparator) + 1
      && r[0] == Title(ReportTitle) && r[1] == Paragraph(chunks[0])
      && ((forall k :: 1 <= k < |chunks| ==> !IsBlank(chunks[k])) ==>
            Join([chunks[0]] + SectionTexts(r[2..]), SectionSeparator) == content)
  {
    var chunks := Split(content, SectionSeparator);
    var r := ReportBlocks(content);
    SplitLength(content, SectionSeparator);
    SplitJoin(content, SectionSeparator);
    if forall k :: 1 <= k < |chunks| ==> !IsBlank(chunks[k]) {
      var later := chunks[1..];
      assert r[2..] == LaterBlocks(later);
      SectionTextsOfLaterBlocks(later);
      assert [chunks[0]] + later == chunks;
    }
  }

  /** A blank later section, such as the one an empty heading line produces, adds nothing
      to the document. */
  lemma BlankSectionsVanish(chunks: seq<string>, c: string)
    requires IsBlank(c)
    ensures LaterBlocks(chunks + [c]) == LaterBlocks(chunks)
  {
    LaterBlocksAppend(chunks, c);
  }
}
