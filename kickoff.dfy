/** `Codesystem.kickoff` from src/codesystem/crew.py: the run context handed to the crew, and
    the decision to save its result as a report. The crew's run itself is a parameter. */
module Kickoff {
  import opened Wrappers
  import opened Document
  import opened ReportFile
  import opened CrewBuild
  import SR = SaveReport

  /** The keys of the run context, the two copied from the caller's inputs first. */
  const ContextKeys: seq<string> := [
    "code_to_analyze", "file_name",
    "code_analysis_output", "security_analysis_output", "performance_analysis_output",
    "code_test_output", "best_practices_output", "final_report_task"
  ]

  /** The base name of a report saved for a run without a file name. */
  const DefaultReportBase := "code_analysis_report"

  /** `initial_inputs`: the code and the file name from the caller's inputs (empty when
      absent), and every task output slot empty; nothing else of the inputs is passed on. */
  function InitialInputs(inputs: map<string, string>): (r: map<string, string>)
    ensures forall k :: k in r <==> k in ContextKeys
    ensures r["code_to_analyze"] == Get(inputs, "code_to_analyze", "")
    ensures r["file_name"] == Get(inputs, "file_name", "")
    ensures forall j :: 2 <= j < |ContextKeys| ==> r[ContextKeys[j]] == ""
  {
    map[
      "code_to_analyze" := Get(inputs, "code_to_analyze", ""),
      "file_name" := Get(inputs, "file_name", ""),
      "code_analysis_output" := "",
      "security_analysis_output" := "",
      "performance_analysis_output" := "",
      "code_test_output" := "",
      "best_practices_output" := "",
      "final_report_task" := ""
    ]
  }

  /** Inputs other than the code and the file name do not reach the crew. */
  lemma OtherInputsIgnored(inputs: map<string, string>, key: string, value: string)
    requires key != "code_to_analyze" && key != "file_name"
    ensures InitialInputs(inputs[key := value]) == InitialInputs(inputs)
  {
  }

  /** A saved report: where it goes and what it holds. */
  datatype SavedReport = SavedReport(path: string, blocks: seq<Block>)

  /** What `kickoff` hands back: the crew's result and the report saved for it, if any. */
  datatype Outcome = Outcome(result: string, saved: Option<SavedReport>)

  /** `kickoff(inputs)`: builds the crew (its `KeyError` propagates), runs it on the initial
      context, and saves the result under the analysed file's name when the result is not
      empty. `None` inputs are the empty dictionary; `run` stands for the crew's execution,
      `outputDir` for the reports directory and `now` for the clock. */
  method RunKickoff(inputs: Option<map<string, string>>,
                    agentConfigs: seq<(string, AgentConfig)>, taskConfigs: seq<(string, TaskConfig)>,
                    run: (Crew, map<string, string>) -> string, outputDir: string, now: DateTime)
    returns (r: Result<Outcome, BuildError>)
    requires now.Valid()
    ensures var given := inputs.GetOr(map[]);
      var built := CrewOf(agentConfigs, taskConfigs);
      && (r.Failure? <==> built.Failure?)
      && (r.Failure? ==> r.error == built.error)
      && (r.Success? ==>
            && r.value.result == run(built.value.0, InitialInputs(given))
            && (r.value.saved.Some? <==> r.value.result != "")
            && (r.value.saved.Some? ==>
                  && r.value.saved.value.path == outputDir + "/"
                       + ReportFileName(Get(given, "file_name", ""), DefaultReportBase, now)
                  && r.value.saved.value.blocks == SR.ReportBlocks(r.value.result)))
  {
    var given := if inputs.None? then map[] else inputs.value;
    var context := InitialInputs(given);
    var built := BuildCrew(agentConfigs, taskConfigs);
    if built.Failure? {
      return Failure(built.error);
    }
    var result := run(built.value.0, context);
    var fileName := Get(given, "file_name", "");
    if result != "" {
      var path, blocks := SR.SaveReport(result, outputDir, DefaultReportBase, fileName, now);
      r := Success(Outcome(result, Some(SavedReport(path, blocks))));
    } else {
      r := Success(Outcome(result, None));
    }
  }

  /** The saved report of a run on `<dir>/app.py` is `app_analysis_<timestamp>.docx`; a run
      without a file name saves `code_analysis_report_<timestamp>.docx`. */
  lemma KickoffReportNames(dir: string, now: DateTime)
    requires now.Valid()
    ensures ReportFileName(Get(map["file_name" := dir + "/app.py"], "file_name", ""), DefaultReportBase, now)
      == "app_analysis_" + Timestamp(now) + ".docx"
    ensures ReportFileName(Get(map[], "file_name", ""), DefaultReportBase, now)
      == "code_analysis_report_" + Timestamp(now) + ".docx"
  {
    ReportFileNameExample(dir, now);
  }
}
