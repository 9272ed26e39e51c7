/** The download loops of downloadDashboards and downloadAllDashboards: fetch each
    selected uid in turn, abort at the first non-200 answer, otherwise write one file. */
module Download {
  import opened Results
  import opened Api
  import opened Filename
  import opened Summaries
  import opened Selection

  /** How a download ends. sys.exit(1) after a bad answer becomes Aborted; a -d list
      that int() rejects (a ValueError in Python) becomes InvalidIdList. */
  datatype Outcome = Completed | Aborted(error: ApiError) | InvalidIdList(token: string)

  /** What a run over uids with the scripted answers responses must have done:
      the answers before the first non-200 one each wrote their file, in order; the
      first non-200 answer (if any) stopped the loop and is the error; and every uid up
      to and including the one that failed was fetched, each once, in order. */
  ghost predicate RanAsScripted(uids: seq<string>, responses: seq<DashboardResponse>, outputDir: string,
                                fetched: seq<string>, written: seq<string>, outcome: Outcome)
    requires |uids| <= |responses|
  {
    && |written| <= |uids|
    && (forall i :: 0 <= i < |written| ==>
          responses[i].status == StatusOk && written[i] == OutputPath(outputDir, responses[i].title))
    && (outcome.Completed? || outcome.Aborted?)
    && (outcome.Completed? ==> |written| == |uids|)
    && (outcome.Aborted? ==>
          |written| < |uids| && responses[|written|].status != StatusOk
          && outcome.error == ApiError(responses[|written|].status, responses[|written|].content))
    && fetched == uids[..if outcome.Completed? then |uids| else |written| + 1]
  }

  /** The loop body shared by both download operations; responses[i] is the answer the
      server gives to the i-th fetch. */
  method SaveDashboards(uids: seq<string>, responses: seq<DashboardResponse>, outputDir: string)
    returns (fetched: seq<string>, written: seq<string>, outcome: Outcome)
    requires |uids| <= |responses|
    ensures RanAsScripted(uids, responses, outputDir, fetched, written, outcome)
  {
    fetched, written := [], [];
    var i := 0;
    while i < |uids|
      invariant 0 <= i <= |uids|
      invariant fetched == uids[..i]
      invariant |written| == i
      invariant forall j :: 0 <= j < i ==>
        responses[j].status == StatusOk && written[j] == OutputPath(outputDir, responses[j].title)
    {
      fetched := fetched + [uids[i]];
      var r := responses[i];
      if r.status != StatusOk {
        assert fetched == uids[..i + 1];
        return fetched, written, Aborted(ApiError(r.status, r.content));
      }
      var filename := SanitiseFilename(r.title);
      written := written + [outputDir + "/" + filename + ".json"];
      i := i + 1;
    }
    assert uids[..|uids|] == uids;
    outcome := Completed;
  }

  /** downloadDashboards(l): parse the id list, then download the selected summaries. */
  method DownloadDashboards(dashboards: seq<Summary>, idList: string,
                            responses: seq<DashboardResponse>, outputDir: string)
    returns (fetched: seq<string>, written: seq<string>, outcome: Outcome)
    requires |dashboards| <= |responses|
    ensures ParseIdList(idList).Failure? ==>
      outcome == InvalidIdList(ParseIdList(idList).error) && fetched == [] && written == []
    ensures ParseIdList(idList).Success? ==>
      |SelectUids(dashboards, ParseIdList(idList).value)| <= |responses|
      && RanAsScripted(SelectUids(dashboards, ParseIdList(idList).value), responses, outputDir,
                       fetched, written, outcome)
  {
    var parsed := ParseIdList(idList);
    if parsed.Failure? {
      return [], [], InvalidIdList(parsed.error);
    }
    SelectedLength(dashboards, parsed.value);
    fetched, written, outcome := SaveDashboards(SelectUids(dashboards, parsed.value), responses, outputDir);
  }

  lemma {:induction false} SelectedLength(dashboards: seq<Summary>, wanted: seq<int>)
    ensures |Selected(dashboards, wanted)| <= |dashboards|
  {
    if dashboards != [] {
      SelectedLength(dashboards[1..], wanted);
    }
  }

  /** downloadAllDashboards(): download every cached summary. */
  method DownloadAllDashboards(dashboards: seq<Summary>, responses: seq<DashboardResponse>, outputDir: string)
    returns (fetched: seq<string>, written: seq<string>, outcome: Outcome)
    requires |dashboards| <= |responses|
    ensures RanAsScripted(Uids(dashboards), responses, outputDir, fetched, written, outcome)
  {
    fetched, written, outcome := SaveDashboards(Uids(dashboards), responses, outputDir);
  }

  /** When every answer is 200, each uid is fetched once in order and one file is
      written per uid, named after the fetched title. */
  lemma AllAnswersOk(uids: seq<string>, responses: seq<DashboardResponse>, outputDir: string,
                     fetched: seq<string>, written: seq<string>, outcome: Outcome)
    requires |uids| <= |responses|
    requires RanAsScripted(uids, responses, outputDir, fetched, written, outcome)
    requires forall i :: 0 <= i < |uids| ==> responses[i].status == StatusOk
    ensures outcome == Completed && fetched == uids && |written| == |uids|
    ensures forall i :: 0 <= i < |uids| ==> written[i] == OutputPath(outputDir, responses[i].title)
  {
    assert uids[..|uids|] == uids;
  }

  /** When the first non-200 answer is the k-th, exactly the first k files are written,
      uids up to the k-th are fetched, and the error carries that answer's status. */
  lemma FirstBadAnswerStops(uids: seq<string>, responses: seq<DashboardResponse>, outputDir: string,
                            fetched: seq<string>, written: seq<string>, outcome: Outcome, k: nat)
    requires |uids| <= |responses|
    requires RanAsScripted(uids, responses, outputDir, fetched, written, outcome)
    requires k < |uids| && responses[k].status != StatusOk
    requires forall i :: 0 <= i < k ==> responses[i].status == StatusOk
    ensures |written| == k && fetched == uids[..k + 1]
    ensures outcome == Aborted(ApiError(responses[k].status, responses[k].content))
  {
  }

  /** downloadAllDashboards fetches every cached summary exactly once, in cached order,
      when the server answers 200 throughout. */
  lemma DownloadAllVisitsEach(dashboards: seq<Summary>, responses: seq<DashboardResponse>, outputDir: string,
                              fetched: seq<string>, written: seq<string>, outcome: Outcome)
    requires |dashboards| <= |responses|
    requires RanAsScripted(Uids(dashboards), responses, outputDir, fetched, written, outcome)
    requires forall i :: 0 <= i < |dashboards| ==> responses[i].status == StatusOk
    ensures fetched == Uids(dashboards) == SelectUids(dashboards, Ids(dashboards))
    ensures |written| == |dashboards| && outcome == Completed
  {
    AllAnswersOk(Uids(dashboards), responses, outputDir, fetched, written, outcome);
    AllUidsIsFullSelection(dashboards);
  }
}
