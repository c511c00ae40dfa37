/** When a finished scan counts as passed (evaluate_run in scripts/run_dashboard_soak.py). */
module SoakEvaluation {
  import opened Options

  /** A validation case; only the facts the evaluation reads. */
  datatype Case = Case(caseId: Option<string>, completed: bool, confirmed: bool)

  /** A report; the language is lower-cased, "tokenTitle" says that its title carries a redaction token. */
  datatype Report = Report(caseId: Option<string>, language: string, tokenTitle: bool)

  datatype Inputs = Inputs(
    status: string, stageStatuses: map<string, string>, errors: nat, cases: seq<Case>, reports: seq<Report>)

  const REQUIRED_STAGES: seq<string> := ["Scope", "Recon", "Attack", "Chaining", "Validation", "Report"]

  ghost predicate ConfirmedId(cases: seq<Case>, id: string) {
    id != "" && exists i :: 0 <= i < |cases| && cases[i].completed && cases[i].confirmed && cases[i].caseId == Some(id)
  }

  ghost predicate HasReport(reports: seq<Report>, id: string, language: string) {
    exists i :: 0 <= i < |reports| && reports[i].caseId == Some(id) && reports[i].language == language
  }

  /** What a passing scan is: finished in every stage, without errors, every case decided, at least one
      of them confirmed, both report languages for every confirmed case, and no token left in a title. */
  ghost predicate Acceptable(x: Inputs) {
    && x.status == "completed"
    && (forall stage :: stage in {"Scope", "Recon", "Attack", "Chaining", "Validation", "Report"} ==>
          stage in x.stageStatuses && x.stageStatuses[stage] == "completed")
    && x.errors == 0 && x.cases != []
    && (forall i :: 0 <= i < |x.cases| ==> x.cases[i].completed)
    && (exists id :: ConfirmedId(x.cases, id))
    && (forall id :: ConfirmedId(x.cases, id) ==> HasReport(x.reports, id, "ko") && HasReport(x.reports, id, "en"))
    && (forall i :: 0 <= i < |x.reports| ==> !x.reports[i].tokenTitle)
  }

  predicate Listed(languages: map<string, set<string>>, id: string, language: string) {
    id in languages && language in languages[id]
  }

  ghost predicate TableOf(reports: seq<Report>, n: nat, languages: map<string, set<string>>)
    requires n <= |reports|
  {
    forall id, l :: l != "" ==> (Listed(languages, id, l) <==> HasReport(reports[..n], id, l))
  }

  lemma ReportAdded(reports: seq<Report>, n: nat, id: string, language: string)
    requires n < |reports|
    ensures HasReport(reports[..n + 1], id, language) <==>
              HasReport(reports[..n], id, language) || (reports[n].caseId == Some(id) && reports[n].language == language)
  {
    var longer, shorter := reports[..n + 1], reports[..n];
    assert longer == shorter + [reports[n]];
    if HasReport(shorter, id, language) {
      var i :| 0 <= i < |shorter| && shorter[i].caseId == Some(id) && shorter[i].language == language;
      assert longer[i] == shorter[i];
    }
    if reports[n].caseId == Some(id) && reports[n].language == language {
      assert longer[n] == reports[n];
    }
  }

  /** The languages reported for each case. */
  method LanguagesByCase(reports: seq<Report>) returns (languages: map<string, set<string>>)
    ensures TableOf(reports, |reports|, languages)
  {
    languages := map[];
    for n := 0 to |reports|
      invariant TableOf(reports, n, languages)
    {
      var r := reports[n];
      ghost var before := languages;
      if r.caseId.Some? && r.language != "" {
        var id := r.caseId.value;
        languages := languages[id := (if id in languages then languages[id] else {}) + {r.language}];
      }
      forall id: string, l: string | l != ""
        ensures Listed(languages, id, l) <==> HasReport(reports[..n + 1], id, l)
      {
        ReportAdded(reports, n, id, l);
        assert Listed(before, id, l) <==> HasReport(reports[..n], id, l);
      }
    }
  }

  method ConfirmedIds(cases: seq<Case>) returns (ids: set<string>, allCompleted: bool)
    ensures forall id :: id in ids <==> ConfirmedId(cases, id)
    ensures allCompleted <==> forall i :: 0 <= i < |cases| ==> cases[i].completed
  {
    ids, allCompleted := {}, true;
    for n := 0 to |cases|
      invariant forall id :: id in ids <==>
                  id != "" && exists i :: 0 <= i < n && cases[i].completed && cases[i].confirmed && cases[i].caseId == Some(id)
      invariant allCompleted <==> forall i :: 0 <= i < n ==> cases[i].completed
    {
      var c := cases[n];
      allCompleted := allCompleted && c.completed;
      if c.completed && c.confirmed && c.caseId.Some? && c.caseId.value != "" {
        ids := ids + {c.caseId.value};
      }
    }
  }

  /** A scan passes exactly when it is acceptable. */
  method EvaluateRun(x: Inputs) returns (passed: bool)
    ensures passed <==> Acceptable(x)
  {
    var languages := LanguagesByCase(x.reports);
    assert x.reports[..|x.reports|] == x.reports;
    var confirmed, allCompleted := ConfirmedIds(x.cases);
    assert (exists id :: ConfirmedId(x.cases, id)) <==> confirmed != {};
    var missing := set id | id in confirmed && !(Listed(languages, id, "ko") && Listed(languages, id, "en"));
    assert (missing == {}) <==>
             forall id :: ConfirmedId(x.cases, id) ==> HasReport(x.reports, id, "ko") && HasReport(x.reports, id, "en") by {
      assert forall id :: id in confirmed ==>
                            (id !in missing <==> HasReport(x.reports, id, "ko") && HasReport(x.reports, id, "en"));
    }
    var stages := forall i :: 0 <= i < |REQUIRED_STAGES| ==>
                    REQUIRED_STAGES[i] in x.stageStatuses && x.stageStatuses[REQUIRED_STAGES[i]] == "completed";
    assert |REQUIRED_STAGES| == 6;
    assert REQUIRED_STAGES[0] == "Scope" && REQUIRED_STAGES[1] == "Recon" && REQUIRED_STAGES[2] == "Attack";
    assert REQUIRED_STAGES[3] == "Chaining" && REQUIRED_STAGES[4] == "Validation" && REQUIRED_STAGES[5] == "Report";
    var clean := forall i :: 0 <= i < |x.reports| ==> !x.reports[i].tokenTitle;
    passed := x.status == "completed" && stages && x.errors == 0 && x.cases != [] && allCompleted
              && confirmed != {} && missing == {} && clean;
  }
}
