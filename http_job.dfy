/**
  `HttpJob` (src/models/http_job.rs): one configured job, and its `Display`
  line, which embeds the request's display line in brackets.
 */
module HttpJobModel {
  import opened Text
  import opened HttpJobRequestModel

  datatype HttpJob = HttpJob(name: string, enable: bool, cron: string, request: HttpJobRequest)

  /** `HttpJob::new`: every argument is stored as given. */
  function New(name: string, enable: bool, cron: string, request: HttpJobRequest): (j: HttpJob)
    ensures j.name == name && j.enable == enable && j.cron == cron && j.request == request
  {
    HttpJob(name, enable, cron, request)
  }

  /** `impl Display for HttpJob`. */
  function Display(j: HttpJob, debug: HeaderMap -> string): string
  {
    "name: " + j.name + ", enable: " + BoolText(j.enable) + ", cron: " + j.cron
      + ", request: [" + HttpJobRequestModel.Display(j.request, debug) + "]"
  }

  /**
    Reading the display line back: the name, the enable flag, the cron
    expression and the request's own line follow their labels, in that order.
   */
  lemma DisplayLayout(j: HttpJob, debug: HeaderMap -> string)
    ensures var s, e, q := Display(j, debug), BoolText(j.enable), HttpJobRequestModel.Display(j.request, debug);
      && s[6..6 + |j.name|] == j.name
      && s[16 + |j.name|..16 + |j.name| + |e|] == e
      && s[24 + |j.name| + |e|..24 + |j.name| + |e| + |j.cron|] == j.cron
      && s[36 + |j.name| + |e| + |j.cron|..36 + |j.name| + |e| + |j.cron| + |q|] == q
  {
    var e, q := BoolText(j.enable), HttpJobRequestModel.Display(j.request, debug);
    var l1, l2, l3, l4, l5 := "name: ", ", enable: ", ", cron: ", ", request: [", "]";
    var n, c := j.name, j.cron;
    assert |l1| == 6 && |l2| == 10 && |l3| == 8 && |l4| == 12;
    assert |l1 + n + l2| == 16 + |n| && |l1 + n + l2 + e + l3| == 24 + |n| + |e|;
    assert |l1 + n + l2 + e + l3 + c + l4| == 36 + |n| + |e| + |c|;
    FourFieldsAt(Display(j, debug), l1, n, l2, e, l3, c, l4, q, l5);
  }

  /**
    The labels of the display line: "name: ", ", enable: ", ", cron: " and
    ", request: [" at the offsets the fields leave, and a closing "]" that
    ends the line, so the request's line is enclosed in brackets.
   */
  lemma DisplayLabels(j: HttpJob, debug: HeaderMap -> string)
    ensures var s, e, q := Display(j, debug), BoolText(j.enable), HttpJobRequestModel.Display(j.request, debug);
      && s[..6] == "name: "
      && s[6 + |j.name|..16 + |j.name|] == ", enable: "
      && s[16 + |j.name| + |e|..24 + |j.name| + |e|] == ", cron: "
      && s[24 + |j.name| + |e| + |j.cron|..36 + |j.name| + |e| + |j.cron|] == ", request: ["
      && |s| == 37 + |j.name| + |e| + |j.cron| + |q| && s[|s| - 1] == ']'
  {
    var e, q := BoolText(j.enable), HttpJobRequestModel.Display(j.request, debug);
    var l1, l2, l3, l4, l5 := "name: ", ", enable: ", ", cron: ", ", request: [", "]";
    assert |l1| == 6 && |l2| == 10 && |l3| == 8 && |l4| == 12 && |l5| == 1;
    var s := Display(j, debug);
    var n, c := j.name, j.cron;
    assert |l1 + n| == 6 + |n| && |l1 + n + l2| == 16 + |n|;
    assert |l1 + n + l2 + e| == 16 + |n| + |e| && |l1 + n + l2 + e + l3| == 24 + |n| + |e|;
    assert |l1 + n + l2 + e + l3 + c| == 24 + |n| + |e| + |c|;
    assert |l1 + n + l2 + e + l3 + c + l4| == 36 + |n| + |e| + |c|;
    FourFieldsAt(s, l1, n, l2, e, l3, c, l4, q, l5);
    assert |s| == 37 + |n| + |e| + |c| + |q|;
    assert s[|s| - 1..] == l5 && l5[0] == ']';
    assert s[|s| - 1] == s[|s| - 1..][0];
  }

  /** The enable flag shows as "true" or "false", so jobs that differ only in it display differently. */
  lemma DisplayShowsEnable(j: HttpJob, debug: HeaderMap -> string)
    ensures Display(j.(enable := true), debug) != Display(j.(enable := false), debug)
    ensures Display(j, debug)[16 + |j.name|..16 + |j.name| + |BoolText(j.enable)|] == (if j.enable then "true" else "false")
  {
    DisplayLayout(j, debug);
    DisplayLayout(j.(enable := true), debug);
    DisplayLayout(j.(enable := false), debug);
  }
}
