# rjob core in Dafny

rjob is a small HTTP cron runner. At start-up it looks for exactly one jobs
document, `./jobs.json`, `./jobs.yaml` or `./jobs.yml`. It parses that
document with the parser its extension selects and decodes its `http_jobs`
array into `HttpJob` values. Each value holds a name, an enable flag, a cron
expression and a request template. Every enabled job is then registered with a
cron scheduler. When a job fires, it logs a start line and the job's display
line. It then sends one HTTP request built from the template and logs the
outcome and an end line. Every line carries the firing's correlation id and
timestamp.

The model has these modules:

- `Configure` (`configure.dfy`): selecting the jobs file, mapping its extension to `FileContent`, and dispatching to a parser.
- `ConfigureHttpJobs` (`http_jobs.dfy`): decoding the document into jobs and request templates, all or nothing.
- `HttpJobRequestModel` and `HttpJobModel`: the two records, their constructors and their `Display` lines.
- `CronScheduler`: choosing the HTTP method, which jobs are scheduled, how a firing builds its request, and what a firing logs.
- Support modules:
  - `SerdeJson`: an already-parsed JSON value and its accessors.
  - `ConfigErrors`: every error and its message.
  - `Text`: `bool` and integer rendering, and the lower-casing the method match uses.
  - `Wrappers`: `Option` and `Result`.

Four kinds of step follow the source's own form:

- The source's loops are methods with loop invariants. They are the candidate loop, the header loop, the job loop and the scheduling loop.
- The request builder's rebinding, the single send and the logging are a method over a `Network` object that records what was sent.
- The set of scheduled jobs is a `Scheduler` object that jobs are added to.
- Each method is proved equal to a specification function, and the properties are lemmas about those functions.

The environment is passed in as oracles:

- the file system: `FileSystem.present` and `FileSystem.read`;
- the JSON and YAML parsers (`Parsers`);
- the HTTP library's header-name and header-value checks and the JSON serialiser (`Foreign`);
- the `Debug` rendering of a header map (`debug`);
- the answer to each send (`Network.reply`);
- the firing's id and timestamp (`uuid`, `localTime`).

The model follows the code as written:

- Requests are sent once, with no retry and no timeout.
- `enable` and `method` are required fields with no default.
- The `Content-Type: application/json` header of a request with a body is appended after the template's headers. It does not replace a `Content-Type` the template already has, because the builder's `header` call appends.
- A response whose text cannot be read aborts the firing after its status line (`unwrap`), so no response line and no end line are logged.

## Model

| member | source | states |
|---|---|---|
| SerdeJson.Value.Get | src/configure/http_jobs.rs:38-39 | a lookup succeeds exactly on an object that has a member with that key, and returns that member's value |
| SerdeJson.GetStr | src/configure/http_jobs.rs:47-50 | `get(key).and_then(as_str)` is `Some` exactly when the member exists and is a string, and then holds that string |
| SerdeJson.GetBool | src/configure/http_jobs.rs:52-54 | `get(key).and_then(as_bool)` is `Some` exactly when the member exists and is a boolean, and then holds it |
| Text.BoolText | src/models/http_job.rs:25 | a flag renders as "true" or "false", and as "true" exactly when it is set |
| Text.Lower | src/scheduler/cron_scheduler.rs:146 | lower-casing keeps the length and lower-cases every character in place |
| Text.LowerIdempotent | src/scheduler/cron_scheduler.rs:146 | lower-casing an already lower-cased string changes nothing |
| Text.Decimal | src/scheduler/cron_scheduler.rs:116 | a status renders as a non-empty string of decimal digits with no leading zero |
| Text.DecimalRoundTrip | src/scheduler/cron_scheduler.rs:116 | reading the rendered digits back gives the number |
| Text.DecimalInjective | src/scheduler/cron_scheduler.rs:116 | distinct numbers render differently |
| Text.LabelledConcat | src/configure/mod.rs:81 | a string built as prefix, field and rest shows the field right after the prefix, followed by the rest |
| HttpJobRequestModel.New | src/models/http_job_request.rs:13-20 | the url, method, headers and body are stored as given |
| HttpJobRequestModel.HeadersText | src/models/http_job_request.rs:25-28 | absent headers show as "None", present ones as their `Debug` rendering |
| HttpJobRequestModel.BodyText | src/models/http_job_request.rs:29-32 | an absent body shows as "None", a present one verbatim |
| HttpJobRequestModel.DisplayLayout | src/models/http_job_request.rs:23-38 | the line starts with "url: "; the labels ", method: ", ", headers: " and ", body: " follow at the offsets the fields before them leave; url, method, headers text and body text sit right after their labels; the body text ends the line |
| HttpJobRequestModel.DisplayDistinguishesBody | src/models/http_job_request.rs:29-37 | two requests that differ only in the body display the same exactly when their bodies render the same |
| HttpJobModel.New | src/models/http_job.rs:13-20 | the name, flag, cron expression and request are stored as given |
| HttpJobModel.DisplayLayout | src/models/http_job.rs:23-26 | name, flag text, cron and the request's own display line sit at the offsets their labels leave |
| HttpJobModel.DisplayLabels | src/models/http_job.rs:23-26 | the line starts with "name: "; ", enable: ", ", cron: " and ", request: [" follow at the offsets the fields leave; a closing ']' ends the line, so the request's line is enclosed in brackets |
| HttpJobModel.DisplayShowsEnable | src/models/http_job.rs:25 | the flag appears as "true"/"false" in its slot, so jobs differing only in it display differently |
| Configure.LastIndexOf | src/configure/mod.rs:222-226 | the index returned holds the character and no later index does; -1 when absent |
| Configure.Trimmed | src/configure/mod.rs:223-224 | the path without trailing '/' separators and "." components: a prefix of the path that ends in neither |
| Configure.TrimmedRemoves | src/configure/mod.rs:223-224 | trimming removes only '/' and '.' characters from the end of the path |
| Configure.TrimmedKeeps | src/configure/mod.rs:223-224 | a path that ends in neither '/' nor "/." is its own trimmed form |
| Configure.TrimmedSkips | src/configure/mod.rs:223-224 | appending "/" or "/." to a path does not change its trimmed form |
| Configure.FileName | src/configure/mod.rs:222-226 | a file name is a suffix of the trimmed path with no '/' in it, and never "", "." or ".." |
| Configure.FileNameIsLastComponent | src/configure/mod.rs:222-226 | a file name is the whole component after the trimmed path's last '/', and there is none exactly when that component is "", "." or ".." |
| Configure.ExtensionOf | src/configure/mod.rs:224-225 | an extension contains no '.', and the name ends with "." followed by it, where that dot is not the name's first character |
| Configure.ExtensionOfHasDot | src/configure/mod.rs:224-225 | a name has an extension exactly when it has a '.' somewhere after its first character |
| Configure.FileExtension | src/configure/mod.rs:222-226 | an extension contains no '.' or '/', and the trimmed path ends with "." followed by it |
| Configure.FileExtensionHasDot | src/configure/mod.rs:222-226 | a path has an extension exactly when it has a file name with a '.' after its first character |
| Configure.TrailingComponentsSkipped | src/configure/mod.rs:222-226 | a trailing "/" or "/." does not change the extension, so "./data.yaml/" still has extension "yaml" |
| Configure.JobsFileExtension | src/configure/mod.rs:114 | a candidate path `./jobs.<ext>` has extension `ext` |
| Configure.CandidateExtension | src/configure/mod.rs:114 | the three candidates have the extensions "json", "yaml", "yml", in order |
| Configure.From | src/configure/mod.rs:197-205 | the content is kept unchanged; "yaml" gives `Yaml`, "yml" gives `Yml`, anything else (including no extension) gives `Json`; never `None` |
| Configure.SelectFile | src/configure/mod.rs:113-134 | a selection never yields `None`; it fails only with the "no file" error, the "multiple files" error, or the read error of a listed candidate, which carries that read's reason |
| Configure.FirstPresent | src/configure/mod.rs:119-120 | the index of the first existing candidate: no earlier candidate exists, and the length of the list when none does |
| Configure.GetJobsFileContent | src/configure/mod.rs:113-134 | the candidate loop returns exactly the file selection `SelectFile` over the three fixed candidates |
| Configure.ExamineCandidates | src/configure/mod.rs:116-133 | the loop over any candidate list, with its count and early returns, equals `SelectFile` on that list |
| Configure.SelectReadFailed | src/configure/mod.rs:120-124 | when the first existing candidate cannot be read, that read error (naming the file) is the result |
| Configure.SelectSecond | src/configure/mod.rs:120-123 | a second existing candidate after a readable first one gives the "Multiple 'jobs' files" error |
| Configure.SelectOnly | src/configure/mod.rs:119-133 | a single readable existing candidate gives its content tagged by its extension |
| Configure.NoCandidateIsError | src/configure/mod.rs:129-131 | when no candidate exists the result is the "No 'jobs' file found." error |
| Configure.TwoCandidatesIsError | src/configure/mod.rs:119-124 | with two existing candidates the outcome is the first one's read error or else the "Multiple 'jobs' files" error, never a content |
| Configure.SelectSucceedsIffOne | src/configure/mod.rs:113-134 | selection succeeds exactly when one candidate exists and is readable, and then yields that file's content tagged by its extension |
| Configure.SelectedFormat | src/configure/mod.rs:114-124 | a successful selection is `Json`, `Yaml` or `Yml` exactly when `./jobs.json`, `./jobs.yaml` or `./jobs.yml` is the file found, with that file's text |
| Configure.ParseContent | src/configure/mod.rs:43-51 | JSON content goes to the JSON parser and YAML/YML content to the YAML parser; a parse error names that variant's file; `None` is the "no file" error |
| Configure.GetConfigure | src/configure/mod.rs:39-54 | the result is the selection's error, or the parse of the selected content |
| Configure.ConfigureFromErrors | src/configure/mod.rs:39-54 | for any candidate list, `get_configure` fails only with a file error: a read error carrying its read's reason for a listed file, a parse error naming one of the three files, or "no file" when no candidate exists |
| Configure.ConfigureErrors | src/configure/mod.rs:39-54 | the same for the three fixed candidates |
| ConfigureHttpJobs.Collect | src/configure/http_jobs.rs:44-67 | a list of results succeeds exactly when every element does, with the values in order; otherwise it fails with the first failing element's error |
| ConfigureHttpJobs.CollectSnoc | src/configure/http_jobs.rs:64 | appending a success to a successful prefix extends the list by that value |
| ConfigureHttpJobs.CollectStops | src/configure/http_jobs.rs:49 | a failure after a successful prefix is the error of the whole list |
| ConfigureHttpJobs.HeaderOf | src/configure/http_jobs.rs:121-123 | a header entry decodes exactly when its name is valid and its value is a valid string, checked name first; a valid name with an invalid string value gives `InvalidHeaderValue` with that value |
| ConfigureHttpJobs.HeaderResults | src/configure/http_jobs.rs:120-124 | one header result per object member, in order |
| ConfigureHttpJobs.AppendHeaders | src/configure/http_jobs.rs:119-126 | the header loop returns exactly the all-or-nothing collection of the entries' results |
| ConfigureHttpJobs.HeadersOf | src/configure/http_jobs.rs:116-128 | a header failure is one of the three header errors; a header map is given only for an object of headers, with one entry per member |
| ConfigureHttpJobs.BodyOf | src/configure/http_jobs.rs:130-136 | the only body error is "Error parsing request body."; a body is present exactly when `body` is an object |
| ConfigureHttpJobs.RequestOf | src/configure/http_jobs.rs:102-139 | a request failure is a request error; a decoded request holds the `url` and `method` strings of the `request` member |
| ConfigureHttpJobs.GetHttpJobRequest | src/configure/http_jobs.rs:102-139 | the request decoder returns exactly `RequestOf` |
| ConfigureHttpJobs.JobOf | src/configure/http_jobs.rs:47-63 | an element's failure is a job error; a decoded job holds the element's `name`, `enable` and `cron` values and its decoded request |
| ConfigureHttpJobs.DecodeJob | src/configure/http_jobs.rs:47-64 | the loop body decodes an element exactly as `JobOf` |
| ConfigureHttpJobs.DecodeJobs | src/configure/http_jobs.rs:44-67 | the job loop returns exactly the all-or-nothing collection of the elements' results |
| ConfigureHttpJobs.JobsOf | src/configure/http_jobs.rs:38-67 | a failure is the missing-key error, the not-an-array error or a job error; a decoded list has one job per array element |
| ConfigureHttpJobs.HttpJobsOf | src/configure/http_jobs.rs:35-68 | a configuration error is passed through unchanged; a loaded configuration gives exactly its decoded jobs (`JobsOf`); any error that is not a file error means the configuration was loaded |
| ConfigureHttpJobs.GetHttpJobs | src/configure/http_jobs.rs:35-68 | loading the jobs returns exactly `HttpJobsOf`: the configuration error or the decoded list |
| ConfigureHttpJobs.TopLevelErrors | src/configure/http_jobs.rs:38-42 | a missing `http_jobs` key and a non-array value each give their own error |
| ConfigureHttpJobs.OneJobPerElement | src/configure/http_jobs.rs:46-65 | a decoded list has one job per array element, in order, each the decoding of its element |
| ConfigureHttpJobs.AllOrNothing | src/configure/http_jobs.rs:46-67 | the list fails exactly when some element fails, and then with the first failing element's error |
| ConfigureHttpJobs.JobFields | src/configure/http_jobs.rs:47-63 | an element decodes exactly when name, enable and cron have their types and its request decodes; the job holds those values; the first bad field is the error |
| ConfigureHttpJobs.RequestErrors | src/configure/http_jobs.rs:103-114 | a missing `request`, then a bad `url`, then a bad `method` give their own errors, in that order |
| ConfigureHttpJobs.RequestFields | src/configure/http_jobs.rs:106-138 | a decoded request holds the `url` and `method` strings and the decoded headers and body |
| ConfigureHttpJobs.HeadersAbsent | src/configure/http_jobs.rs:116-117 | headers missing or not an object give no header map, without error |
| ConfigureHttpJobs.HeadersObject | src/configure/http_jobs.rs:116-128 | an object of headers succeeds exactly when every member is valid, and then gives one entry per member in member order; otherwise the first bad member's error |
| ConfigureHttpJobs.BodyObject | src/configure/http_jobs.rs:130-136 | a body is present exactly when `body` is an object, and is then its serialisation or the "Error parsing request body." error |
| ConfigureHttpJobs.HeaderErrorFirst | src/configure/http_jobs.rs:138 | a header error is reported before a body error |
| CronScheduler.LowerOfLowered | src/scheduler/cron_scheduler.rs:146 | for a word already in lower case, lower-casing a string yields it exactly when the string equals it up to letter case |
| CronScheduler.GetMethod | src/scheduler/cron_scheduler.rs:145-153 | POST, PUT, OPTIONS and DELETE are chosen exactly when the string equals their name up to letter case; GET is chosen in every other case |
| CronScheduler.GetMethodOfLower | src/scheduler/cron_scheduler.rs:146 | the method depends only on the lower-cased string |
| CronScheduler.GetMethodFallback | src/scheduler/cron_scheduler.rs:147-152 | "patch", "head" and "" fall back to GET |
| CronScheduler.GetMethodUpperCase | src/scheduler/cron_scheduler.rs:147-152 | "GET" and "OPTIONS" select their methods |
| CronScheduler.GetMethodMixedCase | src/scheduler/cron_scheduler.rs:147-152 | "Post", "pUT" and "Delete" select their methods |
| CronScheduler.Scheduler.Local | src/scheduler/cron_scheduler.rs:35 | a new scheduler holds no jobs |
| CronScheduler.Scheduler.Add | src/scheduler/cron_scheduler.rs:45 | adding appends the job and changes nothing else |
| CronScheduler.EnabledJobs | src/scheduler/cron_scheduler.rs:37-39 | a job is kept exactly when it is in the list and enabled |
| CronScheduler.EnabledJobsAppend | src/scheduler/cron_scheduler.rs:37-47 | the enabled jobs of a concatenation are those of the first part followed by those of the second, so input order is kept |
| CronScheduler.EnabledJobsOne | src/scheduler/cron_scheduler.rs:39 | a single job is kept exactly when it is enabled |
| CronScheduler.ScheduleOf | src/scheduler/cron_scheduler.rs:37-47 | one entry per enabled job, in order, each under that job's own cron expression |
| CronScheduler.ScheduleOfSnoc | src/scheduler/cron_scheduler.rs:39-46 | one more job adds one entry at the end exactly when that job is enabled |
| CronScheduler.ScheduleJobs | src/scheduler/cron_scheduler.rs:35-47 | the scheduling loop leaves exactly `ScheduleOf(jobs)` in the scheduler |
| CronScheduler.StartCronScheduler | src/scheduler/cron_scheduler.rs:26-48 | start-up exits with status 1 and "Failed to retrieve HTTP jobs: " plus the error's message when loading fails, and otherwise schedules exactly `ScheduleOf` of the loaded jobs |
| CronScheduler.StartupOf | src/scheduler/cron_scheduler.rs:26-48 | start-up exits exactly when loading fails, then with status 1 and the message after "Failed to retrieve HTTP jobs: "; otherwise every entry is an enabled loaded job under its own cron expression and every enabled job has its entry |
| CronScheduler.LoadFailureExits | src/scheduler/cron_scheduler.rs:27-33 | a load failure exits with status 1 and the prefixed message |
| CronScheduler.ScheduledExactlyEnabled | src/scheduler/cron_scheduler.rs:37-47 | every entry is an enabled input job under its own cron expression; every enabled job has an entry; no disabled job has one |
| CronScheduler.WithoutNames | src/scheduler/cron_scheduler.rs:96 | filtering never adds entries |
| CronScheduler.WithoutNamesKeeps | src/scheduler/cron_scheduler.rs:96 | the entries kept are exactly those whose names are not being replaced; with no name replaced, nothing changes |
| CronScheduler.WithoutNamesAppend | src/scheduler/cron_scheduler.rs:96 | filtering keeps the entries' order |
| CronScheduler.WithHeaders | src/scheduler/cron_scheduler.rs:95-97 | `headers(map)` keeps method, url and body, ends the header list with the map, keeps exactly the old headers whose names the map does not use, and on a builder without headers gives exactly the map |
| CronScheduler.WithHeader | src/scheduler/cron_scheduler.rs:100-101 | `header(name, value)` appends that one header after the existing ones and changes nothing else |
| CronScheduler.WithBody | src/scheduler/cron_scheduler.rs:102 | `body(b)` sets the body to `b` and changes nothing else |
| CronScheduler.RequestFor | src/scheduler/cron_scheduler.rs:82-104 | the request has the method `get_method` selects, the template's url and body, and one header per template header plus one for a body |
| CronScheduler.AssembleRequest | src/scheduler/cron_scheduler.rs:82-104 | the builder steps produce exactly `RequestFor` of the template |
| CronScheduler.AssemblyRules | src/scheduler/cron_scheduler.rs:83-104 | method from `get_method`, url and body verbatim, template headers first, `Content-Type: application/json` last exactly when there is a body, no headers when there are neither (list order; see "Header order on the wire" below) |
| CronScheduler.Network.constructor | src/scheduler/cron_scheduler.rs:86-89 | a new client has sent nothing |
| CronScheduler.Network.Send | src/scheduler/cron_scheduler.rs:107 | a send records exactly that request and returns the network's answer to it |
| CronScheduler.StartHttpJob | src/scheduler/cron_scheduler.rs:75-126 | a firing sends exactly one request, `RequestFor` of the job's template, and logs exactly `FiringLog` of the answer |
| CronScheduler.FiringLog | src/scheduler/cron_scheduler.rs:79-125 | a firing logs five lines after a readable response, three when its text cannot be read, four after a transport error; every line carries the firing's id and time |
| CronScheduler.FiringLogRules | src/scheduler/cron_scheduler.rs:79-125 | start and display lines come first; every line has the firing's id and time; 2xx is logged as success, other statuses as failure with that status, transport errors as failure with the error; the response text follows the status line; the end line is last unless the text could not be read |
| CronScheduler.EventTextLayout | src/scheduler/cron_scheduler.rs:79-125 | each line's fixed wording comes first, then the job name (or the job's display line in brackets, or the response text), then the status or the error where there is one; the end line ends with an extra newline |
| CronScheduler.Line | src/scheduler/cron_scheduler.rs:79 | a printed line is the id, a space, the time, a space, and the event's text |
| CronScheduler.SpaceSeparated | src/scheduler/cron_scheduler.rs:79 | the id, the time and the text can be read back from their places in a line |
| ConfigErrors.SelectionMessages | src/configure/mod.rs:122-130 | the "multiple files" and "no file" errors print the source's fixed texts |
| ConfigErrors.JobMessages | src/configure/http_jobs.rs:39-58 | the `http_jobs` and job-field errors print the source's fixed texts |
| ConfigErrors.RequestMessages | src/configure/http_jobs.rs:104-134 | the request-template errors print the source's fixed texts |
| ConfigErrors.ReadMessage | src/configure/mod.rs:81 | a read error names the file between quotes after the fixed wording, then gives the reason |
| ConfigErrors.ParseMessage | src/configure/mod.rs:45-49 | a parse error names the file between quotes after the fixed wording, then gives the reason |
| CronScheduler.StatusLineShowsStatus | src/scheduler/cron_scheduler.rs:116 | failure lines for two statuses are equal exactly when the statuses are |

## Left out

- File system, parsers and network: `fs::metadata`, `fs::read_to_string`, `serde_json::from_str`, `serde_yaml::from_str` and the HTTP send are oracles passed in. Their behaviour, and the texts of their errors, are not modelled.
- JSON object member order: a parsed object is the sequence of its members as the parser's map iterates them. The map's ordering (sorted by key unless order-preserving) and its collapsing of duplicate keys are not modelled. `Value.Get` returns the first member with the key.
- Header validity: `HeaderName::try_from`, `HeaderValue::try_from` and `serde_json::to_string` are oracles in `Foreign`. These are names and values that the HTTP library accepts, or a body that serialises. The library lower-cases header names; the model stores names as written.
- Header order on the wire: `HeaderMap` keeps the values of one name together under its lower-cased name. A template {"Content-Type", "X-Token"} plus a body is therefore sent as content-type, content-type, x-token. The model's list is Content-Type, X-Token, Content-Type. The order between different names is not modelled: HTTP gives it no meaning, and the values of one name keep their order in both.
- The `Debug` rendering of a `HeaderMap` is the parameter `debug`.
- `ConfigErrors.Message`: the texts for an invalid header name or value are the HTTP library's general messages. Other library errors (I/O, parser) are carried as their text.
- Configure.FileExtension: `Path::extension` is modelled on `/`-separated paths. Trailing separators and trailing "." components are skipped first, as `Path::file_name` does. The extension is the text after the last '.' of the file name, and there is none for a leading dot or for the names "", "." and "..". Other platforms' separators, repeated separators and "." components inside the path, and non-UTF-8 names are not modelled; none of them changes the last component of the three candidate paths.
- Text.Lower: `str::to_lowercase` is modelled for the ASCII letters only. Other characters are left unchanged.
- Cron expressions: parsing them, the scheduler's clock, and when firings happen are left out. The model records which jobs are registered under which expression.
- `Job::new_sync`, `tokio::spawn` and the task runtime are left out. So is the fact that the scheduler is a local value of `start_cron_scheduler`: what happens to its jobs after that function returns is a property of the scheduler library.
- `process::exit(1)` is the `Exited(1, message)` outcome. The standard-error line is its message.
- The HTTP client's construction (`Client::builder().user_agent("rjob").build().unwrap()`) and its user-agent header are not modelled.
- The firing's timestamp and correlation id (src/utils/datetime_util.rs, src/utils/uuid_util.rs) are parameters of `StartHttpJob`.
- src/main.rs (calling the scheduler, then sleeping forever) is not part of this model. Neither is src/models/jobs.rs (a `Jobs` record the core does not use).
- Retries, timeouts and defaults for `enable` or `method` do not exist in the code, so none are modelled.
