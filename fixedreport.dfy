/** `prepare_inputs` and `generate_docx_report` from src/codesystem/main.py: the five-section
    report built from a dictionary of agent outputs. */
module FixedReport {
  import opened Wrappers
  import opened Document
  import opened TextClean

  /** What a section shows when its key is missing. */
  const Placeholder := "No output available"

  /** The report's sections in order: heading text and the input key it is read from. */
  const Sections: seq<(string, string)> := [
    ("Code Analysis Output", "code_analysis_output"),
    ("Security Analysis Output", "security_analysis_output"),
    ("Performance Analysis Output", "performance_analysis_output"),
    ("Architecture Analysis Output", "code_test_output"),
    ("Best Practices Output", "best_practices_output")
  ]

  const PreparedKeys: set<string> := {
    "code_to_analyze", "file_name", "code_analysis_output", "security_analysis_output",
    "performance_analysis_output", "code_test_coverage", "best_practices_output"
  }

  /** `prepare_inputs(file_path, code_content, agent_outputs)`: seven keys; each analysis
      entry is the agent's output when it has one and the placeholder otherwise. The test
      output is read from `code_test_output` but stored under `code_test_coverage`. */
  function PrepareInputs(filePath: string, code: string, outputs: map<string, string>): (r: map<string, string>)
    ensures r.Keys == PreparedKeys && |r| == 7
    ensures r["code_to_analyze"] == code && r["file_name"] == filePath
    ensures forall key :: key in {"code_analysis_output", "security_analysis_output",
      "performance_analysis_output", "best_practices_output"} ==>
        r[key] == Get(outputs, key, Placeholder)
    ensures r["code_test_coverage"] == Get(outputs, "code_test_output", Placeholder)
  {
    var r := map[
      "code_to_analyze" := code,
      "file_name" := filePath,
      "code_analysis_output" := Get(outputs, "code_analysis_output", Placeholder),
      "security_analysis_output" := Get(outputs, "security_analysis_output", Placeholder),
      "performance_analysis_output" := Get(outputs, "performance_analysis_output", Placeholder),
      "code_test_coverage" := Get(outputs, "code_test_output", Placeholder),
      "best_practices_output" := Get(outputs, "best_practices_output", Placeholder)
    ];
    assert |PreparedKeys| == 7;
    r
  }

  /** `f"File: {inputs.get('file_name')}"`: a missing name prints as `None`. */
  function FileLine(inputs: map<string, string>): string {
    "File: " + Get(inputs, "file_name", "None")
  }

  /** The paragraph a section shows for `key`: the cleaned value, or the placeholder, which
      cleaning leaves as it is (see `SectionTextIsCleanedLookup`). */
  function SectionText(inputs: map<string, string>, key: string): string {
    if key in inputs then CleanText(inputs[key]) else Placeholder
  }

  /** `clean_text(inputs.get(key, 'No output available'))`. */
  lemma SectionTextIsCleanedLookup(inputs: map<string, string>, key: string)
    ensures SectionText(inputs, key) == CleanText(Get(inputs, key, Placeholder))
  {
    PlaceholderIsClean();
  }

  /** The blocks of the generated report, in the order the source adds them. The headings
      and keys are written out as the source writes them; `ReportLayout` proves that they
      are those of `Sections`, in its order. */
  function ReportBlocks(inputs: map<string, string>): seq<Block> {
    [ Title("Generated Report"),
      Paragraph(FileLine(inputs)),
      Heading(1, "Code Analysis Output"),
      Paragraph(SectionText(inputs, "code_analysis_output")),
      Heading(1, "Security Analysis Output"),
      Paragraph(SectionText(inputs, "security_analysis_output")),
      Heading(1, "Performance Analysis Output"),
      Paragraph(SectionText(inputs, "performance_analysis_output")),
      Heading(1, "Architecture Analysis Output"),
      Paragraph(SectionText(inputs, "code_test_output")),
      Heading(1, "Best Practices Output"),
      Paragraph(SectionText(inputs, "best_practices_output")) ]
  }

  /** The report has twelve blocks: title, file line, then one level-1 heading and one
      cleaned paragraph per entry of `Sections`, in that order. */
  lemma ReportLayout(inputs: map<string, string>)
    ensures var r := ReportBlocks(inputs);
      && |r| == 12
      && r[0] == Title("Generated Report") && r[1] == Paragraph(FileLine(inputs))
      && forall k :: 0 <= k < 5 ==>
           && r[2 + 2 * k] == Heading(1, Sections[k].0)
           && r[3 + 2 * k] == Paragraph(SectionText(inputs, Sections[k].1))
  {
  }

  /** `generate_docx_report(inputs, path)`: adds the blocks one call at a time. Every key
      lookup has a default, so no input dictionary makes it fail. */
  method GenerateDocxReport(inputs: map<string, string>) returns (doc: seq<Block>)
    ensures doc == ReportBlocks(inputs)
  {
    doc := [Title("Generated Report")];
    doc := doc + [Paragraph(FileLine(inputs))];
    doc := doc + [Heading(1, "Code Analysis Output")];
    doc := doc + [Paragraph(SectionText(inputs, "code_analysis_output"))];
    doc := doc + [Heading(1, "Security Analysis Output")];
    doc := doc + [Paragraph(SectionText(inputs, "security_analysis_output"))];
    doc := doc + [Heading(1, "Performance Analysis Output")];
    doc := doc + [Paragraph(SectionText(inputs, "performance_analysis_output"))];
    doc := doc + [Heading(1, "Architecture Analysis Output")];
    doc := doc + [Paragraph(SectionText(inputs, "code_test_output"))];
    doc := doc + [Heading(1, "Best Practices Output")];
    doc := doc + [Paragraph(SectionText(inputs, "best_practices_output"))];
    AppendedInOrder(
      Title("Generated Report"), Paragraph(FileLine(inputs)),
      Heading(1, "Code Analysis Output"), Paragraph(SectionText(inputs, "code_analysis_output")),
      Heading(1, "Security Analysis Output"), Paragraph(SectionText(inputs, "security_analysis_output")),
      Heading(1, "Performance Analysis Output"), Paragraph(SectionText(inputs, "performance_analysis_output")),
      Heading(1, "Architecture Analysis Output"), Paragraph(SectionText(inputs, "code_test_output")),
      Heading(1, "Best Practices Output"), Paragraph(SectionText(inputs, "best_practices_output")));
  }

  /** Twelve one-block appends, made in order, give the twelve blocks in that order. */
  lemma AppendedInOrder(b0: Block, b1: Block, b2: Block, b3: Block, b4: Block, b5: Block,
                        b6: Block, b7: Block, b8: Block, b9: Block, b10: Block, b11: Block)
    ensures [b0] + [b1] + [b2] + [b3] + [b4] + [b5] + [b6] + [b7] + [b8] + [b9] + [b10] + [b11]
      == [b0, b1, b2, b3, b4, b5, b6, b7, b8, b9, b10, b11]
  {
  }

  /** A section whose key is missing shows the placeholder. */
  lemma MissingSectionShowsPlaceholder(inputs: map<string, string>, k: nat)
    requires k < 5 && Sections[k].1 !in inputs
    ensures ReportBlocks(inputs)[3 + 2 * k] == Paragraph(Placeholder)
  {
    ReportLayout(inputs);
  }

  /** What a report built from `prepare_inputs` shows in section `k`: the agent's output
      for the code, security, performance and best-practices sections (cleaned, or the
      placeholder when the agent gave none), but always the placeholder under
      "Architecture Analysis Output", because the test output was stored under
      `code_test_coverage` while the report reads `code_test_output`. */
  lemma PreparedSectionText(filePath: string, code: string, outputs: map<string, string>, k: nat)
    requires k < 5
    ensures SectionText(PrepareInputs(filePath, code, outputs), Sections[k].1)
      == if k == 3 then Placeholder else SectionText(outputs, Sections[k].1)
  {
    var inputs := PrepareInputs(filePath, code, outputs);
    var key := Sections[k].1;
    if k == 3 {
      assert key !in inputs;
    } else {
      assert key in inputs by {
        if k == 0 {} else if k == 1 {} else if k == 2 {} else {}
      }
      if key !in outputs {
        PlaceholderIsClean();
      }
    }
  }

  /** The file line of a report built from `prepare_inputs` names the analysed path. */
  lemma PreparedFileLine(filePath: string, code: string, outputs: map<string, string>)
    ensures FileLine(PrepareInputs(filePath, code, outputs)) == "File: " + filePath
  {
  }

  /** `prepare_inputs` with the test output stored under `code_test_output`, the key the
      report's "Architecture Analysis Output" section reads. */
  function PrepareInputsCorrected(filePath: string, code: string, outputs: map<string, string>)
    : (r: map<string, string>)
    ensures "code_to_analyze" in r && r["code_to_analyze"] == code
    ensures "file_name" in r && r["file_name"] == filePath
    ensures forall k :: 0 <= k < |Sections| ==>
      Sections[k].1 in r && r[Sections[k].1] == Get(outputs, Sections[k].1, Placeholder)
  {
    var r := map[
      "code_to_analyze" := code,
      "file_name" := filePath,
      "code_analysis_output" := Get(outputs, "code_analysis_output", Placeholder),
      "security_analysis_output" := Get(outputs, "security_analysis_output", Placeholder),
      "performance_analysis_output" := Get(outputs, "performance_analysis_output", Placeholder),
      "code_test_output" := Get(outputs, "code_test_output", Placeholder),
      "best_practices_output" := Get(outputs, "best_practices_output", Placeholder)
    ];
    assert forall k :: 0 <= k < |Sections| ==> Sections[k].1 in r by {
      forall k | 0 <= k < |Sections| ensures Sections[k].1 in r {
        if k == 0 {} else if k == 1 {} else if k == 2 {} else if k == 3 {} else {}
      }
    }
    r
  }

  /** With the corrected key, every section of the report, the architecture one included,
      shows what its agent produced, cleaned, or the placeholder when it produced nothing. */
  lemma CorrectedSectionText(filePath: string, code: string, outputs: map<string, string>, k: nat)
    requires k < 5
    ensures SectionText(PrepareInputsCorrected(filePath, code, outputs), Sections[k].1)
      == SectionText(outputs, Sections[k].1)
  {
    if Sections[k].1 !in outputs {
      PlaceholderIsClean();
    }
  }
}
