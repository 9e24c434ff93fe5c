/**
  The scheduler (src/scheduler/cron_scheduler.rs): which jobs are handed to
  the cron scheduler at start-up, how one firing assembles its request, and
  what one firing logs. Cron matching, the scheduler's clock, the HTTP client
  and the task runtime are not modelled; a firing's send is an oracle.
 */
module CronScheduler {
  import opened Wrappers
  import opened Text
  import opened ConfigErrors
  import Configure
  import opened HttpJobRequestModel
  import opened HttpJobModel
  import ConfigureHttpJobs

  // ----- methods -----

  /** The HTTP methods of the client library. */
  datatype HttpMethod = OPTIONS | GET | POST | PUT | DELETE | HEAD | TRACE | CONNECT | PATCH

  /** `a` and `b` are the same word up to the case of ASCII letters. */
  predicate EqualsIgnoreCase(a: string, b: string)
  {
    |a| == |b| && forall i :: 0 <= i < |a| ==> LowerChar(a[i]) == LowerChar(b[i])
  }

  /** A word spelt in lower case only is its own lower-case form. */
  lemma LowerOfLowered(s: string, w: string)
    requires forall i :: 0 <= i < |w| ==> LowerChar(w[i]) == w[i]
    ensures Lower(s) == w <==> EqualsIgnoreCase(s, w)
  {
    if EqualsIgnoreCase(s, w) {
      assert Lower(s) == w;
    }
  }

  /**
    `get_method`: "get", "post", "put", "options" and "delete", in any letter
    case, select their methods; every other string selects GET.
   */
  function GetMethod(m: string): (r: HttpMethod)
    ensures r == POST <==> EqualsIgnoreCase(m, "post")
    ensures r == PUT <==> EqualsIgnoreCase(m, "put")
    ensures r == OPTIONS <==> EqualsIgnoreCase(m, "options")
    ensures r == DELETE <==> EqualsIgnoreCase(m, "delete")
    ensures r == GET <==> !EqualsIgnoreCase(m, "post") && !EqualsIgnoreCase(m, "put") &&
                          !EqualsIgnoreCase(m, "options") && !EqualsIgnoreCase(m, "delete")
  {
    LowerOfLowered(m, "post");
    LowerOfLowered(m, "put");
    LowerOfLowered(m, "options");
    LowerOfLowered(m, "delete");
    var lower := Lower(m);
    if lower == "get" then GET
    else if lower == "post" then POST
    else if lower == "put" then PUT
    else if lower == "options" then OPTIONS
    else if lower == "delete" then DELETE
    else GET
  }

  /** The method depends only on the lower-case form of the string. */
  lemma GetMethodOfLower(m: string)
    ensures GetMethod(m) == GetMethod(Lower(m))
  {
    LowerIdempotent(m);
  }

  /** Unlisted methods, and the empty string, fall back to GET. */
  lemma GetMethodFallback()
    ensures GetMethod("patch") == GET && GetMethod("head") == GET && GetMethod("") == GET
  {
    assert !EqualsIgnoreCase("patch", "post") by { assert LowerChar("patch"[1]) != LowerChar("post"[1]); }
    assert !EqualsIgnoreCase("patch", "delete");
    assert !EqualsIgnoreCase("head", "post") by { assert LowerChar("head"[0]) != LowerChar("post"[0]); }
  }

  /** The listed methods are found when spelt in capitals. */
  lemma GetMethodUpperCase()
    ensures GetMethod("GET") == GET && GetMethod("OPTIONS") == OPTIONS
  {
    assert !EqualsIgnoreCase("GET", "put") by { assert LowerChar("GET"[0]) != LowerChar("put"[0]); }
    assert EqualsIgnoreCase("OPTIONS", "options");
  }

  /** The listed methods are found when spelt in mixed case. */
  lemma GetMethodMixedCase()
    ensures GetMethod("Post") == POST && GetMethod("pUT") == PUT && GetMethod("Delete") == DELETE
  {
    assert EqualsIgnoreCase("Post", "post");
    assert EqualsIgnoreCase("pUT", "put");
    assert EqualsIgnoreCase("Delete", "delete");
  }

  // ----- start-up -----

  /** One job handed to the cron scheduler: its cron expression and the job a firing runs. */
  datatype Entry = Entry(cron: string, job: HttpJob)

  /** The cron scheduler, seen as the list of jobs added to it. */
  class Scheduler {
    var entries: seq<Entry>

    /** `Scheduler::local()`: nothing scheduled yet. */
    constructor Local()
      ensures entries == []
    {
      entries := [];
    }

    /** `scheduler.add(job)`. */
    method Add(e: Entry)
      modifies this
      ensures entries == old(entries) + [e]
    {
      entries := entries + [e];
    }
  }

  /** The enabled jobs, in their order. */
  function EnabledJobs(jobs: seq<HttpJob>): (r: seq<HttpJob>)
    ensures |r| <= |jobs|
    ensures forall j :: j in r <==> j in jobs && j.enable
    decreases |jobs|
  {
    if jobs == [] then []
    else
      var init, last := jobs[..|jobs| - 1], jobs[|jobs| - 1];
      assert jobs == init + [last];
      EnabledJobs(init) + (if last.enable then [last] else [])
  }

  /** Filtering keeps the order: the enabled jobs of a concatenation are those of each part, in turn. */
  lemma {:induction false} EnabledJobsAppend(a: seq<HttpJob>, b: seq<HttpJob>)
    ensures EnabledJobs(a + b) == EnabledJobs(a) + EnabledJobs(b)
    decreases |b|
  {
    if b != [] {
      var init, last := b[..|b| - 1], b[|b| - 1];
      assert (a + b)[..|a + b| - 1] == a + init;
      EnabledJobsAppend(a, init);
    } else {
      assert a + b == a;
    }
  }

  /** A single job is scheduled exactly when it is enabled. */
  lemma EnabledJobsOne(j: HttpJob)
    ensures EnabledJobs([j]) == if j.enable then [j] else []
  {
    assert [j][..0] == [];
  }

  /** What start-up hands to the scheduler: one entry per enabled job, in order, under that job's cron expression. */
  function ScheduleOf(jobs: seq<HttpJob>): (es: seq<Entry>)
    ensures |es| == |EnabledJobs(jobs)|
    ensures forall i :: 0 <= i < |es| ==> es[i] == Entry(EnabledJobs(jobs)[i].cron, EnabledJobs(jobs)[i])
  {
    var enabled := EnabledJobs(jobs);
    seq(|enabled|, i requires 0 <= i < |enabled| => Entry(enabled[i].cron, enabled[i]))
  }

  /** The outcome of `start_cron_scheduler`: the process exits with a status and a message, or the jobs are scheduled. */
  datatype Startup = Exited(status: int, stderr: string) | Scheduled(entries: seq<Entry>)

  /** What `start_cron_scheduler` does with the result of loading the jobs. */
  function StartupOf(loaded: Result<seq<HttpJob>, ConfigError>): (s: Startup)
    ensures s.Exited? <==> loaded.Failure?
    ensures s.Exited? ==> s.status == 1 && Labelled(s.stderr, "Failed to retrieve HTTP jobs: ", Message(loaded.error), "")
    ensures s.Scheduled? ==> forall e :: e in s.entries ==> e.job in loaded.value && e.job.enable && e.cron == e.job.cron
    ensures s.Scheduled? ==> forall j :: j in loaded.value && j.enable ==> Entry(j.cron, j) in s.entries
  {
    match loaded
    case Failure(e) =>
      var prefix := "Failed to retrieve HTTP jobs: ";
      LabelledConcat(prefix, Message(e), "");
      assert prefix + Message(e) + "" == prefix + Message(e);
      Exited(1, prefix + Message(e))
    case Success(jobs) =>
      ScheduledExactlyEnabled(jobs);
      Scheduled(ScheduleOf(jobs))
  }

  /** `start_cron_scheduler`: load the jobs (or exit with status 1), then add every enabled job to a new scheduler. */
  method StartCronScheduler(fs: Configure.FileSystem, parsers: Configure.Parsers, foreign: ConfigureHttpJobs.Foreign)
    returns (s: Startup)
    ensures s == StartupOf(ConfigureHttpJobs.HttpJobsOf(fs, parsers, foreign))
  {
    var httpJobs := ConfigureHttpJobs.GetHttpJobs(fs, parsers, foreign);
    if httpJobs.Failure? {
      return Exited(1, "Failed to retrieve HTTP jobs: " + Message(httpJobs.error));
    }
    var entries := ScheduleJobs(httpJobs.value);
    return Scheduled(entries);
  }

  /** Adding a job at the end schedules it after the others exactly when it is enabled. */
  lemma ScheduleOfSnoc(jobs: seq<HttpJob>, it: HttpJob)
    ensures ScheduleOf(jobs + [it]) == ScheduleOf(jobs) + (if it.enable then [Entry(it.cron, it)] else [])
  {
    EnabledJobsAppend(jobs, [it]);
    EnabledJobsOne(it);
  }

  /** The loop of `start_cron_scheduler`: a new scheduler, and every enabled job added to it in turn. */
  method ScheduleJobs(jobs: seq<HttpJob>) returns (entries: seq<Entry>)
    ensures entries == ScheduleOf(jobs)
  {
    var scheduler := new Scheduler.Local();
    for i := 0 to |jobs|
      invariant scheduler.entries == ScheduleOf(jobs[..i])
    {
      var it := jobs[i];
      assert jobs[..i + 1] == jobs[..i] + [it];
      ScheduleOfSnoc(jobs[..i], it);
      if it.enable {
        scheduler.Add(Entry(it.cron, it));
      }
    }
    assert jobs[..|jobs|] == jobs;
    return scheduler.entries;
  }

  /** If loading fails the process exits with status 1 and nothing is scheduled. */
  lemma LoadFailureExits(e: ConfigError)
    ensures StartupOf(Failure(e)) == Exited(1, "Failed to retrieve HTTP jobs: " + Message(e))
  {
  }

  /**
    Exactly the enabled jobs are scheduled, each under its own cron
    expression, in input order; a disabled job has no entry.
   */
  lemma ScheduledExactlyEnabled(jobs: seq<HttpJob>)
    ensures var es := ScheduleOf(jobs);
      && (forall e :: e in es ==> e.job in jobs && e.job.enable && e.cron == e.job.cron)
      && (forall j :: j in jobs && j.enable ==> Entry(j.cron, j) in es)
      && (forall j :: j in jobs && !j.enable ==> forall e :: e in es ==> e.job != j)
      && |es| <= |jobs|
  {
    var es, enabled := ScheduleOf(jobs), EnabledJobs(jobs);
    forall j | j in jobs && j.enable ensures Entry(j.cron, j) in es {
      var k :| 0 <= k < |enabled| && enabled[k] == j;
      assert es[k] == Entry(j.cron, j);
    }
    forall e | e in es ensures e.job in jobs && e.job.enable && e.cron == e.job.cron {
      var k :| 0 <= k < |es| && es[k] == e;
      assert enabled[k] in enabled;
    }
  }

  // ----- one firing -----

  /** The request a firing sends. */
  datatype Request = Request(verb: HttpMethod, url: string, headers: seq<Header>, body: Option<string>)

  /** `client.request(method, url)`: no headers, no body yet. */
  function ClientRequest(verb: HttpMethod, url: string): Request
  {
    Request(verb, url, [], None)
  }

  /**
    The entries of `hs` whose names are not in `names`, in their order. In
    `start_http_job` the builder has no header yet when the template's map is
    applied, so this removes nothing there; it states what the client's
    `headers` does to a builder in general.
   */
  function WithoutNames(hs: seq<Header>, names: set<string>): (r: seq<Header>)
    ensures |r| <= |hs|
    decreases |hs|
  {
    if hs == [] then []
    else (if hs[0].name in names then [] else [hs[0]]) + WithoutNames(hs[1..], names)
  }

  /** An entry is kept exactly when its name is not in `names`; with no such name nothing is removed. */
  lemma {:induction false} WithoutNamesKeeps(hs: seq<Header>, names: set<string>)
    ensures forall h :: h in WithoutNames(hs, names) <==> h in hs && h.name !in names
    ensures (forall i :: 0 <= i < |hs| ==> hs[i].name !in names) ==> WithoutNames(hs, names) == hs
    decreases |hs|
  {
    if hs != [] {
      WithoutNamesKeeps(hs[1..], names);
      assert hs == [hs[0]] + hs[1..];
    }
  }

  /** Filtering keeps order: the kept entries of `a` come before those of `b`. */
  lemma {:induction false} WithoutNamesAppend(a: seq<Header>, b: seq<Header>, names: set<string>)
    ensures WithoutNames(a + b, names) == WithoutNames(a, names) + WithoutNames(b, names)
    decreases |a|
  {
    if a == [] {
      assert a + b == b;
    } else {
      var first := if a[0].name in names then [] else [a[0]];
      var x, y, z := WithoutNames(a[1..], names), WithoutNames(b, names), WithoutNames(a[1..] + b, names);
      assert WithoutNames(a + b, names) == first + z by {
        assert (a + b)[0] == a[0] && (a + b)[1..] == a[1..] + b;
      }
      assert z == x + y by {
        WithoutNamesAppend(a[1..], b, names);
      }
      assert first + (x + y) == (first + x) + y;
    }
  }

  /**
    `request_builder.headers(map)`: each name in `map` replaces what the
    builder had under that name; the map's entries follow, and method, url
    and body are untouched.
   */
  function WithHeaders(rb: Request, headerMap: HeaderMap): (q: Request)
    ensures q.verb == rb.verb && q.url == rb.url && q.body == rb.body
    ensures |q.headers| >= |headerMap| && q.headers[|q.headers| - |headerMap|..] == headerMap
    ensures forall h :: h in rb.headers && h.name !in Names(headerMap) ==> h in q.headers
    ensures forall h :: h in q.headers ==> h in headerMap || (h in rb.headers && h.name !in Names(headerMap))
    ensures rb.headers == [] ==> q.headers == headerMap
  {
    var kept := WithoutNames(rb.headers, Names(headerMap));
    WithoutNamesKeeps(rb.headers, Names(headerMap));
    assert (kept + headerMap)[|kept + headerMap| - |headerMap|..] == headerMap;
    rb.(headers := kept + headerMap)
  }

  /** The names a header list uses. */
  function Names(hs: seq<Header>): set<string>
  {
    set h | h in hs :: h.name
  }

  /** `request_builder.header(name, value)`: appended after the headers already there; nothing else changes. */
  function WithHeader(rb: Request, name: string, value: string): (q: Request)
    ensures q.verb == rb.verb && q.url == rb.url && q.body == rb.body
    ensures |q.headers| == |rb.headers| + 1 && q.headers[..|rb.headers|] == rb.headers
    ensures q.headers[|rb.headers|] == Header(name, value)
  {
    rb.(headers := rb.headers + [Header(name, value)])
  }

  /** `request_builder.body(body)`: the body is set; nothing else changes. */
  function WithBody(rb: Request, body: string): (q: Request)
    ensures q.verb == rb.verb && q.url == rb.url && q.headers == rb.headers
    ensures q.body == Some(body)
  {
    rb.(body := Some(body))
  }

  const ContentType: Header := Header("Content-Type", "application/json")

  /**
    The request a job's template describes: the method `get_method` selects,
    the url verbatim, the template's headers when there are any, and, when
    there is a body, a `Content-Type: application/json` header after them and
    the body verbatim.
   */
  function RequestFor(r: HttpJobRequest): (q: Request)
    ensures q.verb == GetMethod(r.methodName) && q.url == r.url && q.body == r.body
    ensures |q.headers| == (if r.headers.Some? then |r.headers.value| else 0) + (if r.body.Some? then 1 else 0)
  {
    Request(GetMethod(r.methodName), r.url,
      (if r.headers.Some? then r.headers.value else []) + (if r.body.Some? then [ContentType] else []),
      r.body)
  }

  /** The steps of `start_http_job` that build the request. */
  method AssembleRequest(r: HttpJobRequest) returns (q: Request)
    ensures q == RequestFor(r)
  {
    var requestBuilder := ClientRequest(GetMethod(r.methodName), r.url);
    if r.headers.Some? {
      requestBuilder := WithHeaders(requestBuilder, r.headers.value);
    }
    if r.body.Some? {
      requestBuilder := WithBody(WithHeader(requestBuilder, "Content-Type", "application/json"), r.body.value);
    }
    q := requestBuilder;
  }

  /**
    Headers are applied only when present; `Content-Type: application/json` is
    added exactly when there is a body, which is sent verbatim; with neither,
    the request carries no header at all.
   */
  lemma AssemblyRules(r: HttpJobRequest)
    ensures var q := RequestFor(r);
      && q.verb == GetMethod(r.methodName) && q.url == r.url && q.body == r.body
      && (r.headers.Some? ==> q.headers[..|r.headers.value|] == r.headers.value)
      && (r.body.Some? ==> |q.headers| > 0 && q.headers[|q.headers| - 1] == ContentType)
      && (r.body.None? ==> q.headers == if r.headers.Some? then r.headers.value else [])
      && (r.headers.None? && r.body.None? ==> q.headers == [])
  {
  }

  /** A status the client can report, and the 2xx success range. */
  type StatusCode = s: int | 100 <= s <= 999 witness 200

  predicate IsSuccess(status: StatusCode)
  {
    200 <= status <= 299
  }

  /**
    What the one send of a firing returns: a response with its status and, if
    it could be read, its text; or a transport error.
   */
  datatype SendOutcome = Response(status: StatusCode, text: Option<string>) | TransportError(error: string)

  /** The network, seen as the requests sent over it; the `n`-th send is answered by `reply(n, request)`. */
  class Network {
    var sent: seq<Request>
    const reply: (nat, Request) -> SendOutcome

    constructor (reply: (nat, Request) -> SendOutcome)
      ensures sent == [] && this.reply == reply
    {
      sent := [];
      this.reply := reply;
    }

    /** `request_builder.send().await`. */
    method Send(q: Request) returns (outcome: SendOutcome)
      modifies this
      ensures sent == old(sent) + [q]
      ensures outcome == reply(|old(sent)|, q)
    {
      outcome := reply(|sent|, q);
      sent := sent + [q];
    }
  }

  /** What one log line reports. */
  datatype Event =
    | JobStart(name: string)
    | JobShown(display: string)
    | RequestSucceeded(name: string)
    | RequestFailedStatus(name: string, status: StatusCode)
    | RequestFailedError(name: string, error: string)
    | ResponseText(text: string)
    | JobEnd(name: string)

  /** One log line: the firing's correlation id and timestamp, and what it reports. */
  datatype Record = Record(uuid: string, time: string, event: Event)

  function EventText(e: Event): string
  {
    match e
    case JobStart(name) => "Http job start, job name: " + name
    case JobShown(display) => "Job: [" + display + "]"
    case RequestSucceeded(name) => "Http request success, job name: " + name
    case RequestFailedStatus(name, status) => "Http request failed, job name: " + name + (", http status: " + Decimal(status))
    case RequestFailedError(name, error) => "Http request failed, job name: " + name + (", error: " + error)
    case ResponseText(text) => "Http response: " + text
    case JobEnd(name) => "Http job end, job name: " + name + "\n"
  }

  /** The printed line of a record: its id, a space, its timestamp, a space, and what it reports. */
  function Line(r: Record): (s: string)
    ensures Labelled(s, "", r.uuid, " " + r.time + " " + EventText(r.event))
    ensures Labelled(s, r.uuid + " ", r.time, " " + EventText(r.event))
    ensures Labelled(s, r.uuid + " " + r.time + " ", EventText(r.event), "")
  {
    SpaceSeparated(r.uuid, r.time, EventText(r.event));
    r.uuid + " " + r.time + " " + EventText(r.event)
  }

  /** The three parts of a line, with the spaces between them. */
  lemma SpaceSeparated(u: string, t: string, e: string)
    ensures Labelled(u + " " + t + " " + e, "", u, " " + t + " " + e)
    ensures Labelled(u + " " + t + " " + e, u + " ", t, " " + e)
    ensures Labelled(u + " " + t + " " + e, u + " " + t + " ", e, "")
  {
    var s := u + " " + t + " " + e;
    assert Labelled(s, "", u, " " + t + " " + e) by {
      assert s == "" + u + (" " + t + " " + e);
      LabelledConcat("", u, " " + t + " " + e);
    }
    assert Labelled(s, u + " ", t, " " + e) by {
      assert s == (u + " ") + t + (" " + e);
      LabelledConcat(u + " ", t, " " + e);
    }
    assert s == (u + " " + t + " ") + e + "";
    LabelledConcat(u + " " + t + " ", e, "");
  }

  /**
    Where each line shows the job's name, the displayed job, the status, the
    error and the response text, after its fixed wording.
   */
  lemma EventTextLayout(name: string, display: string, status: StatusCode, error: string, text: string)
    ensures Labelled(EventText(JobStart(name)), "Http job start, job name: ", name, "")
    ensures Labelled(EventText(JobShown(display)), "Job: [", display, "]")
    ensures Labelled(EventText(RequestSucceeded(name)), "Http request success, job name: ", name, "")
    ensures Labelled(EventText(RequestFailedStatus(name, status)), "Http request failed, job name: ", name, ", http status: " + Decimal(status))
    ensures Labelled(EventText(RequestFailedError(name, error)), "Http request failed, job name: ", name, ", error: " + error)
    ensures Labelled(EventText(ResponseText(text)), "Http response: ", text, "")
    ensures Labelled(EventText(JobEnd(name)), "Http job end, job name: ", name, "\n")
  {
    LabelledTail("Http job start, job name: ", name);
    LabelledConcat("Job: [", display, "]");
    LabelledTail("Http request success, job name: ", name);
    LabelledConcat("Http request failed, job name: ", name, ", http status: " + Decimal(status));
    LabelledConcat("Http request failed, job name: ", name, ", error: " + error);
    LabelledTail("Http response: ", text);
    LabelledConcat("Http job end, job name: ", name, "\n");
  }

  /** The status line logged for a received response. */
  function StatusEvent(name: string, status: StatusCode): Event
  {
    if IsSuccess(status) then RequestSucceeded(name) else RequestFailedStatus(name, status)
  }

  /**
    The records one firing logs, given what its send returned. A response
    whose text cannot be read stops the firing right after its status line
    (the text is unwrapped), so neither the text nor the end line follows.
   */
  function FiringLog(job: HttpJob, uuid: string, time: string, debug: HeaderMap -> string, outcome: SendOutcome): (log: seq<Record>)
    ensures |log| == (if outcome.TransportError? then 4 else if outcome.text.Some? then 5 else 3)
    ensures forall k :: 0 <= k < |log| ==> log[k].uuid == uuid && log[k].time == time
  {
    [Record(uuid, time, JobStart(job.name)), Record(uuid, time, JobShown(HttpJobModel.Display(job, debug)))] +
    match outcome
    case Response(status, Some(text)) =>
      [Record(uuid, time, StatusEvent(job.name, status)), Record(uuid, time, ResponseText(text)), Record(uuid, time, JobEnd(job.name))]
    case Response(status, None) =>
      [Record(uuid, time, StatusEvent(job.name, status))]
    case TransportError(error) =>
      [Record(uuid, time, RequestFailedError(job.name, error)), Record(uuid, time, JobEnd(job.name))]
  }

  /**
    `start_http_job`: log the start, build the request, send it exactly once
    and log the outcome and the end. `uuid` and `localTime` are the firing's
    correlation id and timestamp.
   */
  method StartHttpJob(job: HttpJob, uuid: string, localTime: string, debug: HeaderMap -> string, network: Network)
    returns (log: seq<Record>)
    modifies network
    ensures network.sent == old(network.sent) + [RequestFor(job.request)]
    ensures log == FiringLog(job, uuid, localTime, debug, network.reply(|old(network.sent)|, RequestFor(job.request)))
  {
    var started := [Record(uuid, localTime, JobStart(job.name)), Record(uuid, localTime, JobShown(HttpJobModel.Display(job, debug)))];
    var request := AssembleRequest(job.request);
    var resp := network.Send(request);
    log := started;
    match resp
    case Response(status, text) =>
      if IsSuccess(status) {
        log := log + [Record(uuid, localTime, RequestSucceeded(job.name))];
      } else {
        log := log + [Record(uuid, localTime, RequestFailedStatus(job.name, status))];
      }
      if text.None? {
        assert log == started + [Record(uuid, localTime, StatusEvent(job.name, status))];
        return;
      }
      log := log + [Record(uuid, localTime, ResponseText(text.value))];
      log := log + [Record(uuid, localTime, JobEnd(job.name))];
      assert log == started + [Record(uuid, localTime, StatusEvent(job.name, status)),
        Record(uuid, localTime, ResponseText(text.value)), Record(uuid, localTime, JobEnd(job.name))];
    case TransportError(error) =>
      log := log + [Record(uuid, localTime, RequestFailedError(job.name, error))];
      log := log + [Record(uuid, localTime, JobEnd(job.name))];
      assert log == started + [Record(uuid, localTime, RequestFailedError(job.name, error)), Record(uuid, localTime, JobEnd(job.name))];
  }

  /**
    The log of a firing: two start lines first; every line carries the
    firing's id and timestamp; a 2xx response is logged as a success, any
    other status as a failure with that status, a transport error as a
    failure with that error; the end line comes last unless the response text
    could not be read.
   */
  lemma FiringLogRules(job: HttpJob, uuid: string, time: string, debug: HeaderMap -> string, outcome: SendOutcome)
    ensures var log := FiringLog(job, uuid, time, debug, outcome);
      && |log| >= 3
      && log[0].event == JobStart(job.name)
      && log[1].event == JobShown(HttpJobModel.Display(job, debug))
      && (forall r :: r in log ==> r.uuid == uuid && r.time == time)
      && (log[2].event.RequestSucceeded? <==> outcome.Response? && IsSuccess(outcome.status))
      && (log[2].event.RequestFailedStatus? <==> outcome.Response? && !IsSuccess(outcome.status))
      && (outcome.Response? && !IsSuccess(outcome.status) ==> log[2].event == RequestFailedStatus(job.name, outcome.status))
      && (outcome.TransportError? ==> log[2].event == RequestFailedError(job.name, outcome.error))
      && (log[|log| - 1].event == JobEnd(job.name) <==> !(outcome.Response? && outcome.text.None?))
      && (outcome.Response? && outcome.text.Some? ==> log[3].event == ResponseText(outcome.text.value))
  {
  }

  /** The failure line names the status in decimal, and distinct statuses give distinct lines. */
  lemma StatusLineShowsStatus(name: string, s1: StatusCode, s2: StatusCode)
    ensures EventText(RequestFailedStatus(name, s1)) == EventText(RequestFailedStatus(name, s2)) <==> s1 == s2
  {
    var p, q := "Http request failed, job name: " + name, ", http status: ";
    var t1, t2 := EventText(RequestFailedStatus(name, s1)), EventText(RequestFailedStatus(name, s2));
    if t1 == t2 {
      assert t1 == p + (q + Decimal(s1)) && t2 == p + (q + Decimal(s2));
      assert q + Decimal(s1) == t1[|p|..] == q + Decimal(s2);
      assert Decimal(s1) == (q + Decimal(s1))[|q|..];
      assert Decimal(s2) == (q + Decimal(s2))[|q|..];
      DecimalInjective(s1, s2);
    }
  }
}
