/**
 * The server side of middleware/cookies.js: `setCookies` appends a
 * `Set-Cookie` line to the response and mirrors the change into the request,
 * both in the map a cookie parser left in `req.cookies` and in the raw
 * `Cookie` header, so that later readers in the same request see it;
 * `removeCookies` is `setCookies` of '' with `maxAge: -1`; `getCookies`
 * reads the request back.
 *
 * The `cookie` package's `serialize` and `parse` are parameters: `serialize`
 * answers None when it throws (an invalid name or option), and `parse`
 * answers the properties of the object it builds, so no two share a name.
 */
module CookieExchange {
  import opened Wrappers
  import opened JsValues
  import opened Cookies
  import opened PercentDecoding

  /** What `res.getHeader('Set-Cookie')` answers: nothing, a single string, or a list of lines. */
  datatype HeaderValue = NoHeader | Text(text: string) | Lines(lines: seq<string>)

  /** `!currentCookies ? [cookieStr] : currentCookies.concat(cookieStr)` */
  function AppendSetCookie(current: HeaderValue, cookieStr: string): (next: HeaderValue)
    ensures current.NoHeader? || current == Text("") ==> next == Lines([cookieStr])
    ensures current.Lines? ==>
      next.Lines? && |next.lines| == |current.lines| + 1
      && next.lines[..|current.lines|] == current.lines && next.lines[|current.lines|] == cookieStr
    ensures current.Text? && current.text != "" ==> next == Text(current.text + cookieStr)
  {
    match current
    case NoHeader => Lines([cookieStr])
    case Text(s) => if s == "" then Lines([cookieStr]) else Text(s + cookieStr)
    case Lines(xs) => Lines(xs + [cookieStr])
  }

  /** A run of `setCookies` calls on a fresh response. */
  function AppendAll(current: HeaderValue, cookieStrs: seq<string>): HeaderValue
    decreases |cookieStrs|
  {
    if cookieStrs == [] then current
    else AppendAll(AppendSetCookie(current, cookieStrs[0]), cookieStrs[1..])
  }

  /** Every cookie set on a response ends up as its own line, in order. */
  lemma {:induction false} AppendAllLines(lines: seq<string>, cookieStrs: seq<string>)
    ensures AppendAll(Lines(lines), cookieStrs) == Lines(lines + cookieStrs)
    decreases |cookieStrs|
  {
    if cookieStrs == [] {
      assert lines + cookieStrs == lines;
    } else {
      AppendAllLines(lines + [cookieStrs[0]], cookieStrs[1..]);
      assert lines + [cookieStrs[0]] + cookieStrs[1..] == lines + cookieStrs;
    }
  }

  lemma FreshResponseCollectsAll(cookieStrs: seq<string>)
    requires cookieStrs != []
    ensures AppendAll(NoHeader, cookieStrs) == Lines(cookieStrs)
  {
    AppendAllLines([cookieStrs[0]], cookieStrs[1..]);
    assert [cookieStrs[0]] + cookieStrs[1..] == cookieStrs;
  }

  /** If another layer set the header to a single string, the new cookie is
      glued onto it and the two become one malformed line. */
  lemma TextHeaderIsGlued()
    ensures AppendSetCookie(Text("a=1"), "b=2") == Text("a=1b=2")
  {
  }

  /** The two request properties `setCookies` and `getCookies` use. */
  class Request {
    /** `req.cookies`, None when it is falsy (no cookie parser ran). */
    var cookies: Option<map<string, Value>>
    /** `req.headers.cookie`, "" when it is absent. */
    var cookieHeader: string

    constructor(cookies: Option<map<string, Value>>, cookieHeader: string)
      ensures this.cookies == cookies && this.cookieHeader == cookieHeader
    {
      this.cookies := cookies;
      this.cookieHeader := cookieHeader;
    }
  }

  class Response {
    /** The `Set-Cookie` header set so far. */
    var setCookie: HeaderValue

    constructor()
      ensures setCookie == NoHeader
    {
      setCookie := NoHeader;
    }
  }

  /** The server branch of `getCookies`: the parser's map when there is one,
      otherwise the parsed `Cookie` header, otherwise nothing. */
  function ServerCookies(req: Request?, parse: string -> seq<Cookie>): (cookies: map<string, Value>)
    reads req
    ensures req == null ==> cookies == map[]
    ensures req != null && req.cookies.Some? ==> cookies == req.cookies.value
    ensures req != null && req.cookies.None? ==>
      cookies == (if req.cookieHeader != "" then EntriesMap(ToEntries(parse(req.cookieHeader))) else map[])
  {
    if req != null && req.cookies.Some? then req.cookies.value
    else if req != null && req.cookieHeader != "" then EntriesMap(ToEntries(parse(req.cookieHeader)))
    else map[]
  }

  /** `setCookies(key, data, { req, res, ...options })` on the server. The
      result tells whether `serialize` threw, in which case nothing changed. */
  method SetCookies(key: string, data: Value, options: map<string, Value>, req: Request?, res: Response?,
                    serialize: (string, Value, map<string, Value>) -> Option<string>,
                    parse: string -> seq<Cookie>)
    returns (thrown: bool)
    requires req != null ==> DistinctNames(ToEntries(parse(req.cookieHeader)))
    modifies req, res
    ensures thrown <==> serialize(key, Stringify(data), options).None?
    ensures thrown || req == null || res == null ==>
      (req != null ==> unchanged(req)) && (res != null ==> unchanged(res))
    ensures !thrown && req != null && res != null ==>
      && res.setCookie == AppendSetCookie(old(res.setCookie), serialize(key, Stringify(data), options).value)
      && req.cookies == (if old(req.cookies).Some? then Some(UpdateCookieMap(old(req.cookies).value, key, data)) else None)
      && req.cookieHeader == (if old(req.cookieHeader) == "" then ""
                              else HeaderFromEntries(UpdateEntries(ToEntries(parse(old(req.cookieHeader))), key, data)))
    ensures req != null ==>
      var parsed := ToEntries(parse(old(req.cookieHeader)));
      && DistinctNames(UpdateEntries(parsed, key, data))
      && EntriesMap(UpdateEntries(parsed, key, data)) == UpdateCookieMap(EntriesMap(parsed), key, data)
  {
    if req != null {
      UpdateKeepsNamesDistinct(ToEntries(parse(req.cookieHeader)), key, data);
      UpdateEntriesMap(ToEntries(parse(req.cookieHeader)), key, data);
    }
    var cookieStr := serialize(key, Stringify(data), options);
    if cookieStr.None? {
      return true;
    }
    thrown := false;
    if res != null && req != null {
      var currentCookies := res.setCookie;
      res.setCookie := AppendSetCookie(currentCookies, cookieStr.value);
      if req.cookies.Some? {
        req.cookies := Some(UpdateCookieMap(req.cookies.value, key, data));
      }
      if req.cookieHeader != "" {
        var cookies := ToEntries(parse(req.cookieHeader));
        cookies := UpdateEntries(cookies, key, data);
        req.cookieHeader := HeaderFromEntries(cookies);
      }
    }
  }

  /** `removeCookies(key, options)`: `setCookies` of '' with `maxAge` -1. */
  method RemoveCookies(key: string, options: map<string, Value>, req: Request?, res: Response?,
                       serialize: (string, Value, map<string, Value>) -> Option<string>,
                       parse: string -> seq<Cookie>)
    returns (thrown: bool)
    requires req != null ==> DistinctNames(ToEntries(parse(req.cookieHeader)))
    modifies req, res
    ensures thrown <==> serialize(key, Str(""), options["maxAge" := Num(-1)]).None?
    ensures thrown || req == null || res == null ==>
      (req != null ==> unchanged(req)) && (res != null ==> unchanged(res))
    ensures !thrown && req != null && res != null ==>
      && res.setCookie == AppendSetCookie(old(res.setCookie), serialize(key, Str(""), options["maxAge" := Num(-1)]).value)
      && (old(req.cookies).Some? ==> req.cookies == Some(old(req.cookies).value - {key}))
      && (old(req.cookies).None? ==> req.cookies.None?)
      && (old(req.cookieHeader) != "" ==> req.cookieHeader == HeaderFromEntries(DeleteEntry(ToEntries(parse(old(req.cookieHeader))), key)))
      && (old(req.cookieHeader) == "" ==> req.cookieHeader == "")
  {
    assert Stringify(Str("")) == Str("");
    thrown := SetCookies(key, Str(""), options["maxAge" := Num(-1)], req, res, serialize, parse);
  }

  /** After `removeCookies`, `checkCookies` on the same request no longer finds the
      key when a cookie parser ran; it answers false unless another cookie is
      named `hasOwnProperty`. */
  method RemoveThenCheck(key: string, options: map<string, Value>, req: Request, res: Response,
                         serialize: (string, Value, map<string, Value>) -> Option<string>,
                         parse: string -> seq<Cookie>)
    returns (present: Result<bool, JsError>)
    requires req.cookies.Some?
    requires DistinctNames(ToEntries(parse(req.cookieHeader)))
    requires serialize(key, Str(""), options["maxAge" := Num(-1)]).Some?
    modifies req, res
    ensures present != Ok(true)
    ensures "hasOwnProperty" !in old(req.cookies).value - {key} ==> present == Ok(false)
  {
    var thrown := RemoveCookies(key, options, req, res, serialize, parse);
    present := CheckCookies(key, ServerCookies(req, parse));
  }

  /** After `setCookies` of a plain string, `getCookie` on the same request
      reads it back from the map a cookie parser left in `req.cookies`. */
  method SetThenGet(key: string, s: string, options: map<string, Value>, req: Request, res: Response,
                    serialize: (string, Value, map<string, Value>) -> Option<string>,
                    parse: string -> seq<Cookie>)
    returns (read: Result<Value, JsError>)
    requires s != "" && '%' !in s && s !in Keywords
    requires serialize(key, Str(s), options).Some?
    requires req.cookies.Some?
    requires DistinctNames(ToEntries(parse(req.cookieHeader)))
    modifies req, res
    ensures read == Ok(Str(s))
  {
    var thrown := SetCookies(key, Str(s), options, req, res, serialize, parse);
    read := GetCookie(key, ServerCookies(req, parse));
    StringReadBack(old(req.cookies).value, key, s);
  }
}
