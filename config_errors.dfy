/**
  The errors the configuration loader and the job decoder return, one
  constructor per message in `src/configure/mod.rs` and
  `src/configure/http_jobs.rs`, and the text each one displays as.
 */
module ConfigErrors {
  import opened Text

  datatype ConfigError =
    // selecting the jobs file (get_jobs_file_content, read_file, get_configure)
    | NoJobsFile
    | MultipleJobsFiles
    | ReadFailed(path: string, reason: string)
    | ParseFailed(file: string, reason: string)
    // the top level of the document (get_http_jobs)
    | HttpJobsMissing
    | HttpJobsNotArray
    // one element of `http_jobs`
    | NameInvalid
    | EnableInvalid
    | CronInvalid
    // its `request` (get_http_job_request)
    | RequestMissing
    | UrlInvalid
    | MethodInvalid
    | InvalidHeaderName(name: string)
    | HeaderValueNotString
    | InvalidHeaderValue(value: string)
    | BodyUnserializable

  /**
    The message of each error. The two header errors come from the HTTP
    library's `HeaderName`/`HeaderValue` conversions; their texts are that
    library's.
   */
  function Message(e: ConfigError): string
  {
    match e
    case NoJobsFile => "No 'jobs' file found."
    case MultipleJobsFiles => "Multiple 'jobs' files exist. Please ensure only one file is present."
    case ReadFailed(path, reason) => "An error occurred while reading the file '" + path + "': " + reason
    case ParseFailed(file, reason) => "An error occurred while parsing the '" + file + "' file: " + reason
    case HttpJobsMissing => "The 'http_jobs' field is missing in the JSON configuration."
    case HttpJobsNotArray => "The 'http_jobs' field must be an array in the JSON configuration."
    case NameInvalid => "The 'name' field is missing or not a string."
    case EnableInvalid => "The 'enable' field is missing or not a boolean."
    case CronInvalid => "The 'cron' field is missing or not a string."
    case RequestMissing => "The 'request' field is required in the JSON value."
    case UrlInvalid => "The 'url' field is required and must be a string."
    case MethodInvalid => "The 'method' field is required and must be a string."
    case InvalidHeaderName(_) => "invalid HTTP header name"
    case HeaderValueNotString => "The value of the header must be a string."
    case InvalidHeaderValue(_) => "failed to parse header value"
    case BodyUnserializable => "Error parsing request body."
  }

  /** The fixed messages of the jobs-file selection. */
  lemma SelectionMessages()
    ensures Message(NoJobsFile) == "No 'jobs' file found."
    ensures Message(MultipleJobsFiles) == "Multiple 'jobs' files exist. Please ensure only one file is present."
  {
  }

  /** The fixed messages of the `http_jobs` array and of a job's own fields. */
  lemma JobMessages()
    ensures Message(HttpJobsMissing) == "The 'http_jobs' field is missing in the JSON configuration."
    ensures Message(HttpJobsNotArray) == "The 'http_jobs' field must be an array in the JSON configuration."
    ensures Message(NameInvalid) == "The 'name' field is missing or not a string."
    ensures Message(EnableInvalid) == "The 'enable' field is missing or not a boolean."
    ensures Message(CronInvalid) == "The 'cron' field is missing or not a string."
  {
  }

  /** The fixed messages of a job's request template. */
  lemma RequestMessages()
    ensures Message(RequestMissing) == "The 'request' field is required in the JSON value."
    ensures Message(UrlInvalid) == "The 'url' field is required and must be a string."
    ensures Message(MethodInvalid) == "The 'method' field is required and must be a string."
    ensures Message(HeaderValueNotString) == "The value of the header must be a string."
    ensures Message(BodyUnserializable) == "Error parsing request body."
  {
  }

  /** A read error names the file, between quotes, and then gives the reason. */
  lemma ReadMessage(path: string, reason: string)
    ensures Labelled(Message(ReadFailed(path, reason)), "An error occurred while reading the file '", path, "': " + reason)
  {
    var prefix := "An error occurred while reading the file '";
    assert Message(ReadFailed(path, reason)) == prefix + path + ("': " + reason);
    LabelledConcat(prefix, path, "': " + reason);
  }

  /** A parse error names the file it came from and then gives the parser's reason. */
  lemma ParseMessage(file: string, reason: string)
    ensures Labelled(Message(ParseFailed(file, reason)), "An error occurred while parsing the '", file, "' file: " + reason)
  {
    var prefix := "An error occurred while parsing the '";
    assert Message(ParseFailed(file, reason)) == prefix + file + ("' file: " + reason);
    LabelledConcat(prefix, file, "' file: " + reason);
  }

  /** The errors of finding, reading and parsing the jobs file. */
  predicate FileError(e: ConfigError)
  {
    e.NoJobsFile? || e.MultipleJobsFiles? || e.ReadFailed? || e.ParseFailed?
  }

  /** The errors of one `headers` member. */
  predicate HeaderError(e: ConfigError)
  {
    e.InvalidHeaderName? || e.HeaderValueNotString? || e.InvalidHeaderValue?
  }

  /** The errors of one `request`. */
  predicate RequestError(e: ConfigError)
  {
    e.RequestMissing? || e.UrlInvalid? || e.MethodInvalid? || HeaderError(e) || e.BodyUnserializable?
  }

  /** The errors of one element of `http_jobs`. */
  predicate JobError(e: ConfigError)
  {
    e.NameInvalid? || e.EnableInvalid? || e.CronInvalid? || RequestError(e)
  }
}
