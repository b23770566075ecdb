/**
  The verb wrappers of `MyAxios` (lib/axios.js). Every wrapper first runs
  `mappingUrl`. The parameter-only verbs (delete, get, head, options) then fold
  the residual parameters into the query string and hand the HTTP client a
  URL alone; the body-bearing verbs (post, put, patch) hand it the rewritten
  URL and the residual parameters as the body.

  `url.parse`, `querystring.parse` and `querystring.stringify` are Node
  library code and are kept uninterpreted, as fields of `NodeLib`. The HTTP
  client itself is a sink: the model returns the call it would receive. The
  per-call `config` argument is passed through untouched and is not modelled.
 */
module Dispatch {
  import opened Text
  import opened JsValues
  import opened UrlMapping

  datatype Verb = Delete | Get | Head | Options | Post | Put | Patch {
    /** The verbs whose wrapper folds parameters into the query string. */
    predicate IsQueryVerb() {
      Delete? || Get? || Head? || Options?
    }

    /** The verbs whose wrapper sends the parameters as the body. */
    predicate IsBodyVerb() {
      Post? || Put? || Patch?
    }
  }

  /** The components `url.parse` reports; `None` stands for `null`. */
  datatype UrlParts = UrlParts(
    protocol: Option<string>,
    host: Option<string>,
    port: Option<string>,
    pathname: Option<string>,
    query: Option<string>,
    hash: Option<string>)

  /** The Node library functions the wrappers call. `parseUrl` is total on
      strings: the errors `url.parse` raises on malformed hosts are not modelled. */
  datatype NodeLib = NodeLib(
    parseUrl: string -> UrlParts,
    parseQuery: string -> seq<Prop>,
    stringify: seq<Prop> -> string)

  /** `url.parse` throws a TypeError when its argument is not a string. */
  datatype Error = UrlNotAString

  datatype Result<T> = Ok(value: T) | Err(error: Error)

  /** The call the HTTP client receives: `axios[verb](url, config)` when
      `body` is `None`, `axios[verb](url, body, config)` otherwise. */
  datatype ClientCall = ClientCall(verb: Verb, url: Option<string>, body: Option<JsValue>)

  /** `${x}` in a template literal, where `null` renders as "null". */
  function Render(x: Option<string>): string {
    match x
    case None => "null"
    case Some(s) => s
  }

  /** A component that is present and non-empty, i.e. truthy. */
  predicate Present(x: Option<string>) {
    x.Some? && x.value != ""
  }

  /** `data` after `Object.assign(qstring.parse(urlParse.query), data)`,
      which runs only when the URL already has a query string. */
  function FoldQuery(lib: NodeLib, parts: UrlParts, data: JsValue): JsValue {
    if Present(parts.query) then Obj(Assign(lib.parseQuery(parts.query.value), OwnProps(data)))
    else data
  }

  /** The URL the wrapper builds from the parsed components and a query string. */
  function RebuildUrl(parts: UrlParts, queryString: string): string {
    var port := if Present(parts.port) then ":" + parts.port.value else "";
    Render(parts.protocol) + "//" + Render(parts.host) + port + Render(parts.pathname) + "?" + queryString
  }

  /** The URL a parameter-only verb hands to the client, given the URL and
      data that `mappingUrl` returned. */
  function QueryUrl(lib: NodeLib, url: string, data: JsValue): string {
    var parts := lib.parseUrl(url);
    var folded := FoldQuery(lib, parts, data);
    if Truthy(folded) && IsObjectType(folded) then RebuildUrl(parts, lib.stringify(folded.props))
    else url
  }

  /** `MyAxios.prototype[verb](url, data, config)` for delete, get, head and options. */
  method QueryRequest(lib: NodeLib, verb: Verb, url: Option<string>, data: JsValue)
    returns (r: Result<ClientCall>)
    requires verb.IsQueryVerb()
    requires data.Obj? ==> LiteralParams(data.props)
    requires data.Obj? ==> DistinctKeys(data.props)
    ensures r.Err? <==> url.None?
    ensures url.Some? ==>
      var (mapped, residual) := MapUrl(url, data);
      mapped.Some? && r == Ok(ClientCall(verb, Some(QueryUrl(lib, mapped.value, residual)), None))
  {
    var u, d := MappingUrl(url, data);
    if u.None? {
      return Err(UrlNotAString);
    }
    var parts := lib.parseUrl(u.value);
    if Present(parts.query) {
      d := Obj(Assign(lib.parseQuery(parts.query.value), OwnProps(d)));
    }
    var port := if Present(parts.port) then ":" + parts.port.value else "";
    var target := u.value;
    if Truthy(d) && IsObjectType(d) {
      target := Render(parts.protocol) + "//" + Render(parts.host) + port + Render(parts.pathname)
        + "?" + lib.stringify(d.props);
    }
    return Ok(ClientCall(verb, Some(target), None));
  }

  /** `MyAxios.prototype[verb](url, data, config)` for post, put and patch. */
  method BodyRequest(verb: Verb, url: Option<string>, data: JsValue) returns (call: ClientCall)
    requires verb.IsBodyVerb()
    requires data.Obj? ==> LiteralParams(data.props)
    requires data.Obj? ==> DistinctKeys(data.props)
    ensures call.verb == verb && call.body.Some?
    ensures (call.url, call.body.value) == MapUrl(url, data)
  {
    var u, d := MappingUrl(url, data);
    return ClientCall(verb, u, Some(d));
  }

  // ---------------------------------------------------------------------
  // Properties of query folding

  /** The URL is rebuilt exactly when the data ends up an object: when the
      URL already had a query string or the residual parameters are an
      object, even an empty one. Otherwise the URL is handed over as it is. */
  lemma RebuildCondition(lib: NodeLib, url: string, data: JsValue)
    ensures var parts := lib.parseUrl(url);
      QueryUrl(lib, url, data) ==
        if Present(parts.query) || data.Obj?
        then RebuildUrl(parts, lib.stringify(FoldQuery(lib, parts, data).props))
        else url
  {
  }

  /** With an existing query string, the data sent is the parsed query
      overridden by the residual parameters: the residual value wins on a
      shared key, every other query key survives with its value and keeps
      its place ahead of the new keys, and no other key appears. */
  lemma FoldQueryMerges(lib: NodeLib, parts: UrlParts, data: JsValue)
    requires Present(parts.query)
    ensures var existing := lib.parseQuery(parts.query.value);
      var folded := FoldQuery(lib, parts, data);
      && folded.Obj?
      && KeysOf(folded.props) == KeysOf(existing) + KeysOf(OwnProps(data))
      && (forall k :: Lookup(folded.props, k) ==
            if k in KeysOf(OwnProps(data)) then Lookup(OwnProps(data), k) else Lookup(existing, k))
      && |existing| <= |folded.props|
      && (forall i :: 0 <= i < |existing| ==> folded.props[i].0 == existing[i].0)
  {
    var existing := lib.parseQuery(parts.query.value);
    var source := OwnProps(data);
    AssignKeepsTargetOrder(existing, source);
    forall k ensures Lookup(Assign(existing, source), k) ==
      if k in KeysOf(source) then Lookup(source, k) else Lookup(existing, k)
    {
      AssignLookup(existing, source, k);
    }
  }

  /** The rebuilt URL keeps nothing of the original query string or fragment:
      only the serialized data follows the `?`. */
  lemma RebuildDropsSearchAndHash(parts: UrlParts, queryString: string, query': Option<string>, hash': Option<string>)
    ensures RebuildUrl(parts.(query := query', hash := hash'), queryString) == RebuildUrl(parts, queryString)
  {
  }

  /** An absent component is rendered as the text "null": a URL without
      protocol and host is rebuilt as `null//null<path>?<query>`. */
  lemma RelativeUrlRendersNull(parts: UrlParts, queryString: string)
    requires parts.protocol.None? && parts.host.None? && !Present(parts.port)
    ensures RebuildUrl(parts, queryString) == "null//null" + Render(parts.pathname) + "?" + queryString
  {
  }

  /** `url.parse` reports a host that already includes the port, and the
      wrapper appends the port again: `h:p` becomes `h:p:p`. */
  lemma PortAppendedTwice(parts: UrlParts, queryString: string, h: string, p: string)
    requires p != "" && parts.host == Some(h + ":" + p) && parts.port == Some(p)
    ensures RebuildUrl(parts, queryString) ==
      Render(parts.protocol) + "//" + h + ":" + p + ":" + p + Render(parts.pathname) + "?" + queryString
  {
  }

  /** An empty residual object still triggers the rebuild, which ends in a
      bare `?` when the serializer renders no properties as "". */
  lemma EmptyResidualTrailingQuestionMark(lib: NodeLib, url: string)
    requires !Present(lib.parseUrl(url).query)
    requires lib.stringify([]) == ""
    ensures var q := QueryUrl(lib, url, Obj([]));
      |q| > 0 && q[|q| - 1] == '?'
  {
  }
  // ---------------------------------------------------------------------
  // Worked cases

  /** The substitution behind `PostExample`. */
  lemma PostSubstitution()
    ensures Substitute("/users/:id", [("id", Num(1)), ("name", Str("a"))]) == Rewrite("/users/1", [("name", Str("a"))])
  {
    assert ToStr(Num(1)) == "1" by { assert NatToString(1) == [DigitChar(1)]; }
    assert "/users/" + Placeholder("id") == "/users/:id";
    PlaceholderThenUnmatchedKey("/users/", "id", Num(1), "name", Str("a"));
  }

  /** `post('/users/:id', {id: 1, name: 'a'})` posts `{name: 'a'}` to `/users/1`. */
  lemma PostExample()
    ensures MapUrl(Some("/users/:id"), Obj([("id", Num(1)), ("name", Str("a"))]))
      == (Some("/users/1"), Obj([("name", Str("a"))]))
  {
    var url := "/users/:id";
    var props := [("id", Num(1)), ("name", Str("a"))];
    assert url != "";
    PostSubstitution();
  }

  /** A parameter that matches no placeholder and is new to the URL's
      query string is carried and appended after the existing query keys. */
  lemma NewKeyFollowsQuery(lib: NodeLib, url: string, k: string, v: JsValue)
    requires url != "" && ':' !in url
    requires Present(lib.parseUrl(url).query)
    requires k !in KeysOf(lib.parseQuery(lib.parseUrl(url).query.value))
    ensures MapUrl(Some(url), Obj([(k, v)])) == (Some(url), Obj([(k, v)]))
    ensures QueryUrl(lib, url, Obj([(k, v)])) ==
      RebuildUrl(lib.parseUrl(url), lib.stringify(lib.parseQuery(lib.parseUrl(url).query.value) + [(k, v)]))
  {
    var props := [(k, v)];
    AbsentLeadNoOccurrence(Placeholder(k), url);
    NoPlaceholderNoChange(url, props);
    var existing := lib.parseQuery(lib.parseUrl(url).query.value);
    assert props[..0] == [];
    assert Assign(existing, props) == existing + props;
  }

  /** The search URL holds no `:`, so no placeholder can occur in it. */
  lemma SearchUrlHasNoColon()
    ensures ':' !in "/search?sort=asc"
  {
  }

  /** In `get('/search?sort=asc', {q: 'cats'})`, `q` matches no placeholder:
      the URL is unchanged and `q` is carried. */
  lemma SearchMapping()
    ensures MapUrl(Some("/search?sort=asc"), Obj([("q", Str("cats"))]))
      == (Some("/search?sort=asc"), Obj([("q", Str("cats"))]))
  {
    var url := "/search?sort=asc";
    SearchUrlHasNoColon();
    AbsentLeadNoOccurrence(Placeholder("q"), url);
    NoPlaceholderNoChange(url, [("q", Str("cats"))]);
  }

  /** The folding behind `SearchExample`: `q` follows the existing `sort`. */
  lemma SearchFolding(lib: NodeLib)
    requires lib.parseUrl("/search?sort=asc") == UrlParts(None, None, None, Some("/search"), Some("sort=asc"), None)
    requires lib.parseQuery("sort=asc") == [("sort", Str("asc"))]
    ensures QueryUrl(lib, "/search?sort=asc", Obj([("q", Str("cats"))]))
      == RebuildUrl(lib.parseUrl("/search?sort=asc"), lib.stringify([("sort", Str("asc")), ("q", Str("cats"))]))
  {
    var url := "/search?sort=asc";
    var existing := [("sort", Str("asc"))];
    SearchUrlHasNoColon();
    assert "q" !in KeysOf(existing);
    NewKeyFollowsQuery(lib, url, "q", Str("cats"));
    assert existing + [("q", Str("cats"))] == [("sort", Str("asc")), ("q", Str("cats"))];
  }

  /** `get('/search?sort=asc', {q: 'cats'})`: `q` is folded after the
      existing `sort`; the relative URL has no protocol or host, which are
      rendered as "null". */
  lemma SearchExample(lib: NodeLib)
    requires lib.parseUrl("/search?sort=asc") == UrlParts(None, None, None, Some("/search"), Some("sort=asc"), None)
    requires lib.parseQuery("sort=asc") == [("sort", Str("asc"))]
    ensures QueryUrl(lib, "/search?sort=asc", Obj([("q", Str("cats"))]))
      == "null//null" + "/search" + "?" + lib.stringify([("sort", Str("asc")), ("q", Str("cats"))])
  {
    var parts := lib.parseUrl("/search?sort=asc");
    var qs := lib.stringify([("sort", Str("asc")), ("q", Str("cats"))]);
    SearchFolding(lib);
    RelativeUrlRendersNull(parts, qs);
  }
}
