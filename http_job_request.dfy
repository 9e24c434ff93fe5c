/**
  `HttpJobRequest` (src/models/http_job_request.rs): the request template of
  one job, and its `Display` line. A `HeaderMap` is the sequence of the
  name/value pairs appended to it, in order; its `Debug` rendering belongs to
  the HTTP library and is passed in as `debug`.
 */
module HttpJobRequestModel {
  import opened Wrappers
  import opened Text

  datatype Header = Header(name: string, value: string)

  type HeaderMap = seq<Header>

  datatype HttpJobRequest = HttpJobRequest(
    url: string,
    methodName: string,
    headers: Option<HeaderMap>,
    body: Option<string>)

  /** `HttpJobRequest::new`: every argument is stored as given. */
  function New(url: string, methodName: string, headers: Option<HeaderMap>, body: Option<string>): (r: HttpJobRequest)
    ensures r.url == url && r.methodName == methodName && r.headers == headers && r.body == body
  {
    HttpJobRequest(url, methodName, headers, body)
  }

  /** The `headers` part of the display line. */
  function HeadersText(headers: Option<HeaderMap>, debug: HeaderMap -> string): (s: string)
    ensures headers.None? ==> s == "None"
    ensures headers.Some? ==> s == debug(headers.value)
  {
    match headers
    case Some(h) => debug(h)
    case None => "None"
  }

  /** The `body` part of the display line: the body itself, verbatim. */
  function BodyText(body: Option<string>): (s: string)
    ensures body.None? ==> s == "None"
    ensures body.Some? ==> s == body.value
  {
    match body
    case Some(b) => b
    case None => "None"
  }

  /** `impl Display for HttpJobRequest`. */
  function Display(r: HttpJobRequest, debug: HeaderMap -> string): string
  {
    "url: " + r.url + ", method: " + r.methodName + ", headers: " + HeadersText(r.headers, debug)
      + ", body: " + BodyText(r.body)
  }

  /**
    Reading the display line back: the labels "url: ", ", method: ",
    ", headers: " and ", body: " and the four fields alternate, in that order,
    and the body's rendering ends the line.
   */
  lemma DisplayLayout(r: HttpJobRequest, debug: HeaderMap -> string)
    ensures var s, ht := Display(r, debug), HeadersText(r.headers, debug);
      && s[5..5 + |r.url|] == r.url
      && s[15 + |r.url|..15 + |r.url| + |r.methodName|] == r.methodName
      && s[26 + |r.url| + |r.methodName|..26 + |r.url| + |r.methodName| + |ht|] == ht
      && s[34 + |r.url| + |r.methodName| + |ht|..] == BodyText(r.body)
      && s[..5] == "url: "
      && s[5 + |r.url|..15 + |r.url|] == ", method: "
      && s[15 + |r.url| + |r.methodName|..26 + |r.url| + |r.methodName|] == ", headers: "
      && s[26 + |r.url| + |r.methodName| + |ht|..34 + |r.url| + |r.methodName| + |ht|] == ", body: "
      && |s| == 34 + |r.url| + |r.methodName| + |ht| + |BodyText(r.body)|
  {
    var ht, bt := HeadersText(r.headers, debug), BodyText(r.body);
    var l1, l2, l3, l4 := "url: ", ", method: ", ", headers: ", ", body: ";
    assert |l1| == 5 && |l2| == 10 && |l3| == 11 && |l4| == 8;
    var s := Display(r, debug);
    assert s == l1 + r.url + l2 + r.methodName + l3 + ht + l4 + bt + "";
    FourFieldsAt(s, l1, r.url, l2, r.methodName, l3, ht, l4, bt, "");
  }

  /** Two requests with the same url, method and headers display differently exactly when their bodies' renderings differ. */
  lemma DisplayDistinguishesBody(r: HttpJobRequest, b1: Option<string>, b2: Option<string>, debug: HeaderMap -> string)
    ensures Display(r.(body := b1), debug) == Display(r.(body := b2), debug) <==> BodyText(b1) == BodyText(b2)
  {
    var r1, r2 := r.(body := b1), r.(body := b2);
    if Display(r1, debug) == Display(r2, debug) {
      DisplayLayout(r1, debug);
      DisplayLayout(r2, debug);
    }
  }
}
