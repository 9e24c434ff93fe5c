/**
  Decoding the job list (src/configure/http_jobs.rs): the parsed document is
  walked into an ordered list of `HttpJob`s, or the first error met. The
  header-name and header-value checks of the HTTP library, and the JSON
  serialiser used for request bodies, are oracles.
 */
module ConfigureHttpJobs {
  import opened Wrappers
  import opened SerdeJson
  import opened ConfigErrors
  import Configure
  import opened HttpJobRequestModel
  import opened HttpJobModel

  /**
    The foreign checks: `HeaderName::try_from` and `HeaderValue::try_from`
    succeed exactly on the strings these predicates accept (the field-name
    token and field-value rules of section 5 of RFC 9110), and
    `serde_json::to_string` of an object gives its text or fails.
   */
  datatype Foreign = Foreign(
    validName: string -> bool,
    validValue: string -> bool,
    serialize: seq<(string, Value)> -> Option<string>)

  /**
    All or nothing: the values of a sequence of results when every one
    succeeded, otherwise the error of the first one that failed.
   */
  function Collect<T, E>(rs: seq<Result<T, E>>): (r: Result<seq<T>, E>)
    ensures r.Success? <==> forall i :: 0 <= i < |rs| ==> rs[i].Success?
    ensures r.Success? ==> |r.value| == |rs| && forall i :: 0 <= i < |rs| ==> rs[i] == Success(r.value[i])
    ensures r.Failure? ==>
      exists i :: 0 <= i < |rs| && rs[i] == Failure(r.error) && forall j :: 0 <= j < i ==> rs[j].Success?
    decreases |rs|
  {
    if rs == [] then Success([])
    else
      var init := rs[..|rs| - 1];
      assert forall i :: 0 <= i < |init| ==> init[i] == rs[i];
      match Collect(init)
      case Failure(e) => Failure(e)
      case Success(xs) =>
        match rs[|rs| - 1]
        case Failure(e) => Failure(e)
        case Success(x) => Success(xs + [x])
  }

  /** One more success extends the collected prefix by its value. */
  lemma CollectSnoc<T, E>(rs: seq<Result<T, E>>, i: nat, xs: seq<T>, x: T)
    requires i < |rs| && Collect(rs[..i]) == Success(xs) && rs[i] == Success(x)
    ensures Collect(rs[..i + 1]) == Success(xs + [x])
  {
    assert rs[..i + 1][..i] == rs[..i];
  }

  /** The first failure decides the whole result, whatever follows it. */
  lemma CollectStops<T, E>(rs: seq<Result<T, E>>, i: nat)
    requires i < |rs| && Collect(rs[..i]).Success? && rs[i].Failure?
    ensures Collect(rs) == Failure(rs[i].error)
  {
    var r := Collect(rs);
    assert forall j :: 0 <= j < i ==> rs[..i][j] == rs[j];
    var k :| 0 <= k < |rs| && rs[k] == Failure(r.error) && forall j :: 0 <= j < k ==> rs[j].Success?;
    assert k == i;
  }

  // ----- headers -----

  /** One member of the `headers` object: a valid name and a string value that is a valid header value. */
  function HeaderOf(k: string, v: Value, foreign: Foreign): (r: Result<Header, ConfigError>)
    ensures r.Success? <==> foreign.validName(k) && v.String? && foreign.validValue(v.s)
    ensures r.Success? ==> r.value == Header(k, v.s)
    ensures !foreign.validName(k) ==> r == Failure(InvalidHeaderName(k))
    ensures foreign.validName(k) && !v.String? ==> r == Failure(HeaderValueNotString)
    ensures foreign.validName(k) && v.String? && !foreign.validValue(v.s) ==> r == Failure(InvalidHeaderValue(v.s))
  {
    if !foreign.validName(k) then Failure(InvalidHeaderName(k))
    else if !v.String? then Failure(HeaderValueNotString)
    else if !foreign.validValue(v.s) then Failure(InvalidHeaderValue(v.s))
    else Success(Header(k, v.s))
  }

  function HeaderResults(fields: seq<(string, Value)>, foreign: Foreign): (rs: seq<Result<Header, ConfigError>>)
    ensures |rs| == |fields| && forall i :: 0 <= i < |fields| ==> rs[i] == HeaderOf(fields[i].0, fields[i].1, foreign)
  {
    seq(|fields|, i requires 0 <= i < |fields| => HeaderOf(fields[i].0, fields[i].1, foreign))
  }

  /** What the header loop builds from the members of a `headers` object. */
  function HeaderMapOf(fields: seq<(string, Value)>, foreign: Foreign): Result<HeaderMap, ConfigError>
  {
    Collect(HeaderResults(fields, foreign))
  }

  /** The header loop: every member is checked and appended to the map, in order; the first bad one stops it. */
  method AppendHeaders(fields: seq<(string, Value)>, foreign: Foreign) returns (r: Result<HeaderMap, ConfigError>)
    ensures r == HeaderMapOf(fields, foreign)
  {
    ghost var rs := HeaderResults(fields, foreign);
    var headerMap: HeaderMap := [];
    for i := 0 to |fields|
      invariant Collect(rs[..i]) == Success(headerMap)
    {
      var (k, v) := fields[i];
      if !foreign.validName(k) {
        CollectStops(rs, i);
        return Failure(InvalidHeaderName(k));
      }
      if !v.String? {
        CollectStops(rs, i);
        return Failure(HeaderValueNotString);
      }
      if !foreign.validValue(v.s) {
        CollectStops(rs, i);
        return Failure(InvalidHeaderValue(v.s));
      }
      CollectSnoc(rs, i, headerMap, Header(k, v.s));
      headerMap := headerMap + [Header(k, v.s)];
    }
    assert rs[..|fields|] == rs;
    return Success(headerMap);
  }

  /** `headers`: absent or not an object gives `None`; an object gives the map of its members, or the first member's error. */
  function HeadersOf(request: Value, foreign: Foreign): (r: Result<Option<HeaderMap>, ConfigError>)
    ensures r.Failure? ==> HeaderError(r.error)
    ensures r.Success? && r.value.Some? ==>
      request.Get("headers").Some? && request.Get("headers").value.Object? &&
      |r.value.value| == |request.Get("headers").value.fields|
  {
    match request.Get("headers")
    case Some(Object(fields)) =>
      (match HeaderMapOf(fields, foreign)
       case Success(h) => Success(Some(h))
       case Failure(e) => Failure(e))
    case _ => Success(None)
  }

  /** `body`: absent or not an object gives `None`; an object gives its serialisation. */
  function BodyOf(request: Value, foreign: Foreign): (r: Result<Option<string>, ConfigError>)
    ensures r.Failure? ==> r.error == BodyUnserializable
    ensures r.Success? ==> (r.value.Some? <==> request.Get("body").Some? && request.Get("body").value.Object?)
  {
    match request.Get("body")
    case Some(Object(fields)) =>
      (match foreign.serialize(fields)
       case Some(text) => Success(Some(text))
       case None => Failure(BodyUnserializable))
    case _ => Success(None)
  }

  // ----- one request -----

  /** What `get_http_job_request` returns for one element of `http_jobs`. */
  function RequestOf(value: Value, foreign: Foreign): (r: Result<HttpJobRequest, ConfigError>)
    ensures r.Failure? ==> RequestError(r.error)
    ensures r.Success? ==> value.Get("request").Some? && GetStr(value.Get("request").value, "url") == Some(r.value.url)
    ensures r.Success? ==> GetStr(value.Get("request").value, "method") == Some(r.value.methodName)
  {
    match value.Get("request")
    case None => Failure(RequestMissing)
    case Some(request) =>
      match GetStr(request, "url")
      case None => Failure(UrlInvalid)
      case Some(url) =>
        match GetStr(request, "method")
        case None => Failure(MethodInvalid)
        case Some(m) =>
          var headers, body := HeadersOf(request, foreign), BodyOf(request, foreign);
          if headers.Failure? then Failure(headers.error)
          else if body.Failure? then Failure(body.error)
          else Success(HttpJobRequestModel.New(url, m, headers.value, body.value))
  }

  /** `get_http_job_request`. */
  method GetHttpJobRequest(value: Value, foreign: Foreign) returns (r: Result<HttpJobRequest, ConfigError>)
    ensures r == RequestOf(value, foreign)
  {
    var request := value.Get("request");
    if request.None? {
      return Failure(RequestMissing);
    }
    var url := GetStr(request.value, "url");
    if url.None? {
      return Failure(UrlInvalid);
    }
    var m := GetStr(request.value, "method");
    if m.None? {
      return Failure(MethodInvalid);
    }
    var headers: Result<Option<HeaderMap>, ConfigError> := Success(None);
    var h := request.value.Get("headers");
    if h.Some? && h.value.Object? {
      var headerMap := AppendHeaders(h.value.fields, foreign);
      headers := if headerMap.Success? then Success(Some(headerMap.value)) else Failure(headerMap.error);
    }
    assert headers == HeadersOf(request.value, foreign);
    var body: Result<Option<string>, ConfigError> := Success(None);
    var b := request.value.Get("body");
    if b.Some? && b.value.Object? {
      var text := foreign.serialize(b.value.fields);
      body := if text.Some? then Success(Some(text.value)) else Failure(BodyUnserializable);
    }
    assert body == BodyOf(request.value, foreign);
    if headers.Failure? {
      return Failure(headers.error);
    }
    if body.Failure? {
      return Failure(body.error);
    }
    return Success(HttpJobRequestModel.New(url.value, m.value, headers.value, body.value));
  }

  // ----- the job list -----

  /** One element of `http_jobs`, as the loop body of `get_http_jobs` decodes it. */
  function JobOf(it: Value, foreign: Foreign): (r: Result<HttpJob, ConfigError>)
    ensures r.Failure? ==> JobError(r.error)
    ensures r.Success? ==> GetStr(it, "name") == Some(r.value.name) && GetBool(it, "enable") == Some(r.value.enable)
    ensures r.Success? ==> GetStr(it, "cron") == Some(r.value.cron) && RequestOf(it, foreign) == Success(r.value.request)
  {
    match GetStr(it, "name")
    case None => Failure(NameInvalid)
    case Some(name) =>
      match GetBool(it, "enable")
      case None => Failure(EnableInvalid)
      case Some(enable) =>
        match GetStr(it, "cron")
        case None => Failure(CronInvalid)
        case Some(cron) =>
          match RequestOf(it, foreign)
          case Failure(e) => Failure(e)
          case Success(request) => Success(HttpJobModel.New(name, enable, cron, request))
  }

  function JobResults(items: seq<Value>, foreign: Foreign): (rs: seq<Result<HttpJob, ConfigError>>)
    ensures |rs| == |items| && forall i :: 0 <= i < |items| ==> rs[i] == JobOf(items[i], foreign)
  {
    seq(|items|, i requires 0 <= i < |items| => JobOf(items[i], foreign))
  }

  /** What `get_http_jobs` makes of a parsed document. */
  function JobsOf(config: Value, foreign: Foreign): (r: Result<seq<HttpJob>, ConfigError>)
    ensures r.Failure? ==> r.error.HttpJobsMissing? || r.error.HttpJobsNotArray? || JobError(r.error)
    ensures r.Success? ==>
      config.Get("http_jobs").Some? && config.Get("http_jobs").value.Array? &&
      |r.value| == |config.Get("http_jobs").value.items|
  {
    match config.Get("http_jobs")
    case None => Failure(HttpJobsMissing)
    case Some(Array(items)) => Collect(JobResults(items, foreign))
    case Some(_) => Failure(HttpJobsNotArray)
  }

  /** What `get_http_jobs` returns: the configuration's error, or the decoded job list. */
  function HttpJobsOf(fs: Configure.FileSystem, parsers: Configure.Parsers, foreign: Foreign): (r: Result<seq<HttpJob>, ConfigError>)
    ensures Configure.ConfigureOf(fs, parsers).Failure? ==> r == Failure(Configure.ConfigureOf(fs, parsers).error)
    ensures r.Success? ==> Configure.ConfigureOf(fs, parsers).Success?
    ensures r.Failure? && !FileError(r.error) ==> Configure.ConfigureOf(fs, parsers).Success?
    ensures Configure.ConfigureOf(fs, parsers).Success? ==> r == JobsOf(Configure.ConfigureOf(fs, parsers).value, foreign)
  {
    Configure.ConfigureErrors(fs, parsers);
    match Configure.ConfigureOf(fs, parsers)
    case Failure(e) => Failure(e)
    case Success(config) => JobsOf(config, foreign)
  }

  /** The body of the `get_http_jobs` loop: one element's fields, checked in order, then its request. */
  method DecodeJob(it: Value, foreign: Foreign) returns (r: Result<HttpJob, ConfigError>)
    ensures r == JobOf(it, foreign)
  {
    var name := GetStr(it, "name");
    if name.None? {
      return Failure(NameInvalid);
    }
    var enable := GetBool(it, "enable");
    if enable.None? {
      return Failure(EnableInvalid);
    }
    var cron := GetStr(it, "cron");
    if cron.None? {
      return Failure(CronInvalid);
    }
    var request := GetHttpJobRequest(it, foreign);
    if request.Failure? {
      return Failure(request.error);
    }
    return Success(HttpJobModel.New(name.value, enable.value, cron.value, request.value));
  }

  /** `get_http_jobs`: load the document, then push one job per element of `http_jobs`, stopping at the first error. */
  method GetHttpJobs(fs: Configure.FileSystem, parsers: Configure.Parsers, foreign: Foreign)
    returns (r: Result<seq<HttpJob>, ConfigError>)
    ensures r == HttpJobsOf(fs, parsers, foreign)
  {
    var configure := Configure.GetConfigure(fs, parsers);
    if configure.Failure? {
      return Failure(configure.error);
    }
    var httpJobsVal := configure.value.Get("http_jobs");
    if httpJobsVal.None? {
      return Failure(HttpJobsMissing);
    }
    if !httpJobsVal.value.Array? {
      return Failure(HttpJobsNotArray);
    }
    r := DecodeJobs(httpJobsVal.value.items, foreign);
  }

  /** The loop of `get_http_jobs`: push one job per element, stopping at the first error. */
  method DecodeJobs(items: seq<Value>, foreign: Foreign) returns (r: Result<seq<HttpJob>, ConfigError>)
    ensures r == Collect(JobResults(items, foreign))
  {
    ghost var rs := JobResults(items, foreign);
    var httpJobs: seq<HttpJob> := [];
    for i := 0 to |items|
      invariant Collect(rs[..i]) == Success(httpJobs)
    {
      var job := DecodeJob(items[i], foreign);
      if job.Failure? {
        CollectStops(rs, i);
        return Failure(job.error);
      }
      CollectSnoc(rs, i, httpJobs, job.value);
      httpJobs := httpJobs + [job.value];
    }
    assert rs[..|items|] == rs;
    return Success(httpJobs);
  }

  // ----- properties of the decoder -----

  /** The top level: no `http_jobs` key, or one that is not an array, is an error. */
  lemma TopLevelErrors(config: Value, foreign: Foreign)
    ensures config.Get("http_jobs").None? ==> JobsOf(config, foreign) == Failure(HttpJobsMissing)
    ensures config.Get("http_jobs").Some? && !config.Get("http_jobs").value.Array? ==>
      JobsOf(config, foreign) == Failure(HttpJobsNotArray)
  {
  }

  /** A decoded list has one job per array element, in the same order. */
  lemma OneJobPerElement(config: Value, foreign: Foreign, jobs: seq<HttpJob>)
    requires JobsOf(config, foreign) == Success(jobs)
    ensures config.Get("http_jobs").Some? && config.Get("http_jobs").value.Array?
    ensures var items := config.Get("http_jobs").value.items;
      |jobs| == |items| && forall i :: 0 <= i < |items| ==> JobOf(items[i], foreign) == Success(jobs[i])
  {
  }

  /**
    All or nothing: the list fails exactly when some element fails, and then
    with the error of the first element that fails; no partial list is returned.
   */
  lemma AllOrNothing(config: Value, foreign: Foreign, items: seq<Value>)
    requires config.Get("http_jobs") == Some(Array(items))
    ensures JobsOf(config, foreign).Failure? <==> exists i :: 0 <= i < |items| && JobOf(items[i], foreign).Failure?
    ensures JobsOf(config, foreign).Failure? ==>
      exists i :: 0 <= i < |items| && JobOf(items[i], foreign) == Failure(JobsOf(config, foreign).error) &&
        forall j :: 0 <= j < i ==> JobOf(items[j], foreign).Success?
  {
    var rs := JobResults(items, foreign);
    if exists i :: 0 <= i < |items| && JobOf(items[i], foreign).Failure? {
      var i :| 0 <= i < |items| && JobOf(items[i], foreign).Failure?;
      assert rs[i].Failure?;
    }
  }

  /**
    One element: it decodes exactly when `name` is a string, `enable` a
    boolean (there is no default) and `cron` a string, and its request
    decodes; the job then holds those values. The first missing field, in that
    order, is the error.
   */
  lemma JobFields(it: Value, foreign: Foreign)
    ensures JobOf(it, foreign).Success? <==>
      GetStr(it, "name").Some? && GetBool(it, "enable").Some? && GetStr(it, "cron").Some? &&
      RequestOf(it, foreign).Success?
    ensures JobOf(it, foreign).Success? ==> var j := JobOf(it, foreign).value;
      && it.Get("name") == Some(String(j.name))
      && it.Get("enable") == Some(Bool(j.enable))
      && it.Get("cron") == Some(String(j.cron))
      && RequestOf(it, foreign) == Success(j.request)
    ensures GetStr(it, "name").None? ==> JobOf(it, foreign) == Failure(NameInvalid)
    ensures GetStr(it, "name").Some? && GetBool(it, "enable").None? ==> JobOf(it, foreign) == Failure(EnableInvalid)
    ensures GetStr(it, "name").Some? && GetBool(it, "enable").Some? && GetStr(it, "cron").None? ==>
      JobOf(it, foreign) == Failure(CronInvalid)
  {
  }

  /** A missing `request`, or a `url` or `method` that is missing or not a string, is an error, checked in that order. */
  lemma RequestErrors(value: Value, foreign: Foreign)
    ensures value.Get("request").None? ==> RequestOf(value, foreign) == Failure(RequestMissing)
    ensures value.Get("request").Some? && GetStr(value.Get("request").value, "url").None? ==>
      RequestOf(value, foreign) == Failure(UrlInvalid)
    ensures (value.Get("request").Some? && GetStr(value.Get("request").value, "url").Some? &&
             GetStr(value.Get("request").value, "method").None?) ==>
            RequestOf(value, foreign) == Failure(MethodInvalid)
  {
  }

  /** A decoded request holds the `url` and `method` strings and the decoded headers and body. */
  lemma RequestFields(value: Value, foreign: Foreign, r: HttpJobRequest)
    requires RequestOf(value, foreign) == Success(r)
    ensures value.Get("request").Some?
    ensures var request := value.Get("request").value;
      && request.Get("url") == Some(String(r.url))
      && request.Get("method") == Some(String(r.methodName))
      && HeadersOf(request, foreign) == Success(r.headers)
      && BodyOf(request, foreign) == Success(r.body)
  {
  }

  /** `headers` absent or not an object: no header map. */
  lemma HeadersAbsent(request: Value, foreign: Foreign)
    requires request.Get("headers").None? || !request.Get("headers").value.Object?
    ensures HeadersOf(request, foreign) == Success(None)
  {
  }

  /**
    `headers` an object: it yields a map exactly when every member has a valid
    name and a string value that is a valid header value; the map then holds
    every member, in order, so its entry count is the object's size; otherwise
    the error is that of the first bad member.
   */
  lemma HeadersObject(request: Value, foreign: Foreign, fields: seq<(string, Value)>)
    requires request.Get("headers") == Some(Object(fields))
    ensures HeadersOf(request, foreign).Success? <==>
      forall i :: 0 <= i < |fields| ==>
        foreign.validName(fields[i].0) && fields[i].1.String? && foreign.validValue(fields[i].1.s)
    ensures HeadersOf(request, foreign).Success? ==>
      var h := HeadersOf(request, foreign).value;
      h.Some? && |h.value| == |fields| &&
      forall i :: 0 <= i < |fields| ==> fields[i].1.String? && h.value[i] == Header(fields[i].0, fields[i].1.s)
    ensures HeadersOf(request, foreign).Failure? ==>
      exists i :: 0 <= i < |fields| && HeaderOf(fields[i].0, fields[i].1, foreign) == Failure(HeadersOf(request, foreign).error) &&
        forall j :: 0 <= j < i ==> HeaderOf(fields[j].0, fields[j].1, foreign).Success?
  {
    var rs := HeaderResults(fields, foreign);
    assert forall i :: 0 <= i < |fields| ==> rs[i] == HeaderOf(fields[i].0, fields[i].1, foreign);
  }

  /**
    `body` gives `Some` exactly when it is an object, and then its
    serialisation; absent or any other kind of value gives `None`.
   */
  lemma BodyObject(request: Value, foreign: Foreign)
    ensures request.Get("body").None? || !request.Get("body").value.Object? ==> BodyOf(request, foreign) == Success(None)
    ensures request.Get("body").Some? && request.Get("body").value.Object? ==>
      var fields := request.Get("body").value.fields;
      BodyOf(request, foreign) ==
        if foreign.serialize(fields).Some? then Success(Some(foreign.serialize(fields).value)) else Failure(BodyUnserializable)
    ensures BodyOf(request, foreign).Success? ==>
      (BodyOf(request, foreign).value.Some? <==> request.Get("body").Some? && request.Get("body").value.Object?)
  {
  }

  /** A header error is reported before a body error. */
  lemma HeaderErrorFirst(value: Value, foreign: Foreign)
    requires value.Get("request").Some?
    requires GetStr(value.Get("request").value, "url").Some? && GetStr(value.Get("request").value, "method").Some?
    ensures var request := value.Get("request").value;
      HeadersOf(request, foreign).Failure? ==> RequestOf(value, foreign) == Failure(HeadersOf(request, foreign).error)
    ensures var request := value.Get("request").value;
      HeadersOf(request, foreign).Success? && BodyOf(request, foreign).Failure? ==>
        RequestOf(value, foreign) == Failure(BodyOf(request, foreign).error)
  {
  }
}
