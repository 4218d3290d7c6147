/** The request an invocation sends to an external API: the URL built by
    `formatPath`, the headers with the bearer token, and the HTTP method mapped
    from the closed request-type enum. The exchange itself is not modelled. */
module ExternalApi {
  import opened Wrappers
  import opened Text
  import opened Exceptions
  import opened UrlEncoding
  import Entities

  // ---- formatPath: placeholders ----

  /** The placeholder `<name>` a path parameter fills. */
  function Placeholder(name: string): (r: string)
    ensures |r| == |name| + 2 && r[0] == '<' && r[|r| - 1] == '>'
  {
    "<" + name + ">"
  }

  /** Each path parameter, in iteration order, replaces every occurrence of its
      placeholder in the path produced by the parameters before it. */
  function Substitute(path: string, pathParam: seq<(string, string)>): string
    decreases |pathParam|
  {
    if pathParam == [] then path
    else Substitute(Replace(path, Placeholder(pathParam[0].0), pathParam[0].1), pathParam[1..])
  }

  /** Placeholders no parameter names stay in the path as literal text, and no
      error is raised. */
  lemma {:induction false} SubstituteUnmapped(path: string, pathParam: seq<(string, string)>)
    requires forall i | 0 <= i < |pathParam| :: !Occurs(path, Placeholder(pathParam[i].0))
    ensures Substitute(path, pathParam) == path
    decreases |pathParam|
  {
    if pathParam != [] {
      ReplaceAbsent(path, Placeholder(pathParam[0].0), pathParam[0].1);
      SubstituteUnmapped(path, pathParam[1..]);
    }
  }

  /** A path without `<` has no placeholders and is left as it is. */
  lemma NoPlaceholders(path: string, pathParam: seq<(string, string)>)
    requires '<' !in path
    ensures Substitute(path, pathParam) == path
  {
    forall i | 0 <= i < |pathParam| ensures !Occurs(path, Placeholder(pathParam[i].0)) {
      LeadAbsentNoOccurrence(path, Placeholder(pathParam[i].0));
    }
    SubstituteUnmapped(path, pathParam);
  }

  /** A placeholder whose name holds no `<` cannot overlap itself. */
  lemma PlaceholderNonOverlapping(name: string)
    requires '<' !in name
    ensures NonOverlapping(Placeholder(name))
  {
    assert Placeholder(name)[1..] == name + ">";
  }

  /** One parameter replaces every occurrence of its placeholder: the literal
      pieces between the occurrences are kept and the value is put between them.
      The pieces may hold other placeholders, as long as not this one. */
  lemma EveryOccurrenceReplaced(pieces: seq<string>, name: string, value: string)
    requires |pieces| >= 1
    requires '<' !in name
    requires forall i | 0 <= i < |pieces| :: !Occurs(pieces[i], Placeholder(name))
    ensures Substitute(Intercalate(pieces, Placeholder(name)), [(name, value)]) == Intercalate(pieces, value)
  {
    PlaceholderNonOverlapping(name);
    ReplaceEvery(pieces, Placeholder(name), value);
  }

  /** A placeholder does not occur in text whose only `<` opens a placeholder
      with a different name (names hold no `>`, so neither is a prefix of the
      other). */
  lemma OtherPlaceholderAbsent(b: string, n1: string, n2: string, c: string)
    requires '<' !in b && '<' !in c
    requires '>' !in n1 && '<' !in n2 && '>' !in n2 && n1 != n2
    ensures !Occurs(b + Placeholder(n2) + c, Placeholder(n1))
  {
    var s := b + Placeholder(n2) + c;
    var p1, p2 := Placeholder(n1), Placeholder(n2);
    forall i | 0 <= i <= |s| && i + |p1| <= |s| ensures !OccursAt(s, p1, i) {
      var w := s[i..i + |p1|];
      if i < |b| {
        assert w[0] == b[i];
      } else if i == |b| {
        if |n1| == |n2| {
          assert w == p2;
          assert p1[1..|p1| - 1] == n1;
          assert p2[1..|p2| - 1] == n2;
        } else if |n1| < |n2| {
          assert w[|n1| + 1] == p2[|n1| + 1] == n2[|n1|];
          assert p1[|n1| + 1] == '>';
        } else {
          assert w[|n2| + 1] == p2[|n2| + 1] == '>';
          assert p1[|n2| + 1] == n1[|n2|];
        }
      } else if i < |b| + |p2| {
        assert w[0] == p2[i - |b|];
        assert i - |b| == |p2| - 1 || p2[i - |b|] == n2[i - |b| - 1];
      } else {
        assert w[0] == c[i - |b| - |p2|];
      }
    }
  }

  /** Two parameters with different names fill a path holding both
      placeholders, each in its place (for example `/users/<id>/posts/<pid>`). */
  lemma TwoPlaceholdersFilled(a: string, n1: string, v1: string, b: string, n2: string, v2: string, c: string)
    requires '<' !in a && '<' !in b && '<' !in c && '<' !in v1
    requires '>' !in n1 && '<' !in n2 && '>' !in n2 && n1 != n2
    ensures Substitute(a + Placeholder(n1) + b + Placeholder(n2) + c, [(n1, v1), (n2, v2)])
         == a + v1 + b + v2 + c
  {
    var p1, p2 := Placeholder(n1), Placeholder(n2);
    var path := a + p1 + b + p2 + c;
    var first := Replace(path, p1, v1);
    assert first == a + v1 + b + p2 + c by {
      FirstFilled(a, p1, v1, b, n1, n2, c);
    }
    var second := Replace(first, p2, v2);
    assert second == a + v1 + b + v2 + c by {
      SecondFilled(a + v1 + b, p2, v2, c);
    }
    assert Substitute(path, [(n1, v1), (n2, v2)]) == Substitute(first, [(n2, v2)]);
    assert Substitute(first, [(n2, v2)]) == Substitute(second, []);
  }

  lemma FirstFilled(a: string, p1: string, v1: string, b: string, n1: string, n2: string, c: string)
    requires p1 == Placeholder(n1)
    requires '<' !in a && '<' !in b && '<' !in c
    requires '>' !in n1 && '<' !in n2 && '>' !in n2 && n1 != n2
    ensures Replace(a + p1 + b + Placeholder(n2) + c, p1, v1) == a + v1 + b + Placeholder(n2) + c
  {
    var rest := b + Placeholder(n2) + c;
    assert a + p1 + b + Placeholder(n2) + c == a + p1 + rest;
    LeadAbsentNoEarly(a, p1, rest);
    ReplaceFirst(a, p1, rest, v1);
    OtherPlaceholderAbsent(b, n1, n2, c);
    ReplaceAbsent(rest, p1, v1);
  }

  lemma SecondFilled(x: string, p2: string, v2: string, c: string)
    requires |p2| > 0 && p2[0] == '<'
    requires '<' !in x && '<' !in c
    ensures Replace(x + p2 + c, p2, v2) == x + v2 + c
  {
    LeadAbsentNoEarly(x, p2, c);
    ReplaceFirst(x, p2, c, v2);
    LeadAbsentNoOccurrence(c, p2);
    ReplaceAbsent(c, p2, v2);
  }

  // ---- formatPath: query string ----

  /** One request parameter as `enc(key)=enc(value)`. */
  function Pair(kv: (string, string)): (r: string)
    ensures '&' !in r && '?' !in r
  {
    EncodedHasNoSeparators(kv.0);
    EncodedHasNoSeparators(kv.1);
    Encode(kv.0) + ['='] + Encode(kv.1)
  }

  function Pairs(requestParam: seq<(string, string)>): (r: seq<string>)
    ensures |r| == |requestParam|
    ensures forall i | 0 <= i < |r| :: r[i] == Pair(requestParam[i])
  {
    seq(|requestParam|, i requires 0 <= i < |requestParam| => Pair(requestParam[i]))
  }

  /** The encoded pairs joined by `&`, in iteration order. */
  function QueryString(requestParam: seq<(string, string)>): (r: string)
    ensures '?' !in r
  {
    JoinFree(Pairs(requestParam), '&', '?');
    Join(Pairs(requestParam), '&')
  }

  /** Joining pieces that lack a character other than the separator gives a text
      that lacks it too. */
  lemma {:induction false} JoinFree(xs: seq<string>, sep: char, c: char)
    requires c != sep
    requires forall i | 0 <= i < |xs| :: c !in xs[i]
    ensures c !in Join(xs, sep)
    decreases |xs|
  {
    if |xs| > 1 {
      JoinFree(xs[1..], sep, c);
    }
  }

  /** `formatPath(requestPath, pathParameter, requestParameter)`. */
  function FormatPath(path: string, pathParam: seq<(string, string)>, requestParam: seq<(string, string)>): (r: string)
    ensures requestParam == [] ==> r == Substitute(path, pathParam)
    ensures requestParam != [] ==>
      CutLast(r, '?') == Some((Substitute(path, pathParam), QueryString(requestParam)))
  {
    var base := Substitute(path, pathParam);
    if requestParam == [] then base
    else
      CutLastUnique(base, QueryString(requestParam), '?');
      base + ['?'] + QueryString(requestParam)
  }

  /** Reads a query string back into its pairs: splits at `&`, then each piece at
      its first `=`, and decodes both halves. */
  function ParsePairs(pieces: seq<string>): Option<seq<(string, string)>>
    decreases |pieces|
  {
    if pieces == [] then Some([])
    else
      match CutFirst(pieces[0], '=')
      case None => None
      case Some((k, v)) =>
        match (Decode(k), Decode(v), ParsePairs(pieces[1..]))
        case (Some(key), Some(value), Some(rest)) => Some([(key, value)] + rest)
        case _ => None
  }

  function ParseQuery(query: string): Option<seq<(string, string)>> {
    ParsePairs(Split(query, '&'))
  }

  lemma {:induction false} ParsePairsOfPairs(requestParam: seq<(string, string)>)
    ensures ParsePairs(Pairs(requestParam)) == Some(requestParam)
    decreases |requestParam|
  {
    if requestParam != [] {
      var kv := requestParam[0];
      EncodedHasNoSeparators(kv.0);
      CutFirstUnique(Encode(kv.0), Encode(kv.1), '=');
      DecodeEncode(kv.0);
      DecodeEncode(kv.1);
      assert Pairs(requestParam)[1..] == Pairs(requestParam[1..]);
      ParsePairsOfPairs(requestParam[1..]);
      assert requestParam == [kv] + requestParam[1..];
    }
  }

  /** The query string carries every request parameter, in order, and nothing
      else: parsing it back gives the parameters. */
  lemma QueryRoundTrip(requestParam: seq<(string, string)>)
    requires requestParam != []
    ensures ParseQuery(QueryString(requestParam)) == Some(requestParam)
  {
    SplitJoin(Pairs(requestParam), '&');
    ParsePairsOfPairs(requestParam);
  }

  /** The URL splits at its last `?` into the substituted path and a query that
      parses back to the request parameters. */
  lemma FormatPathRoundTrip(path: string, pathParam: seq<(string, string)>, requestParam: seq<(string, string)>)
    requires requestParam != []
    ensures var cut := CutLast(FormatPath(path, pathParam, requestParam), '?');
      && cut.Some? && cut.value.0 == Substitute(path, pathParam)
      && ParseQuery(cut.value.1) == Some(requestParam)
  {
    QueryRoundTrip(requestParam);
  }

  /** n request parameters give exactly n - 1 `&` separators. */
  lemma SeparatorCount(requestParam: seq<(string, string)>)
    requires requestParam != []
    ensures Count(QueryString(requestParam), '&') == |requestParam| - 1
  {
    JoinCount(Pairs(requestParam), '&');
  }

  /** Without request parameters no `?` is appended, so a path without `<`
      comes back unchanged. */
  lemma PlainPathUnchanged(path: string, pathParam: seq<(string, string)>)
    requires '<' !in path
    ensures FormatPath(path, pathParam, []) == path
  {
    NoPlaceholders(path, pathParam);
  }

  // ---- sendRequest: headers ----

  const AUTHORIZATION := "Authorization"

  function BearerValue(token: string): string {
    "Bearer " + token
  }

  /** The headers sent, as written: the token is put into the query's own header
      map, which throws when that map is null. When it is not null, the map sent is
      that same map, so the header put into it is sent. */
  function HeadersAsWritten(token: Option<string>, header: Option<map<string, string>>): (r: Result<map<string, string>, Exc>)
    ensures r.Failure? <==> HasText(token) && header.None?
    ensures r.Failure? ==> r.error == NullPointer
    ensures !HasText(token) ==> r == Success(header.GetOr(map[]))
  {
    if HasText(token) then
      if header.None? then Failure(NullPointer)
      else Success(header.value[AUTHORIZATION := BearerValue(token.value)])
    else Success(header.GetOr(map[]))
  }

  /** The headers sent, as evidently intended: a null header map is read as an
      empty one, and a token with text adds `Authorization: Bearer <token>`,
      overwriting any value the caller gave. */
  function Headers(token: Option<string>, header: Option<map<string, string>>): (r: map<string, string>)
    ensures HasText(token) ==> AUTHORIZATION in r && r[AUTHORIZATION] == BearerValue(token.value)
    ensures !HasText(token) ==> r == header.GetOr(map[])
    ensures forall k | k != AUTHORIZATION :: (k in r <==> k in header.GetOr(map[]))
    ensures forall k | k != AUTHORIZATION && k in r :: r[k] == header.GetOr(map[])[k]
  {
    var base := header.GetOr(map[]);
    if HasText(token) then base[AUTHORIZATION := BearerValue(token.value)] else base
  }

  /** The two agree whenever the written code does not throw. */
  lemma HeadersAgree(token: Option<string>, header: Option<map<string, string>>)
    requires header.Some? || !HasText(token)
    ensures HeadersAsWritten(token, header) == Success(Headers(token, header))
  {
  }

  /** A query without headers and a token with text: the written code throws a
      NullPointerException where the intended one sends the bearer header. */
  lemma NullHeaderWithToken()
    ensures HeadersAsWritten(Some("t"), None) == Failure(NullPointer)
    ensures Headers(Some("t"), None) == map[AUTHORIZATION := BearerValue("t")]
  {
    assert HasText(Some("t")) by {
      assert !IsWhitespace("t"[0]);
    }
  }

  // ---- sendRequest: method ----

  /** Spring's `HttpMethod` constants. */
  datatype HttpMethod = GET | HEAD | POST | PUT | PATCH | DELETE | OPTIONS | TRACE

  /** The switch from the request-type enum to an HTTP method. */
  function MapMethod(t: Entities.RequestType): (m: HttpMethod)
    ensures m != HEAD && m != OPTIONS && m != TRACE
  {
    match t
    case GET => GET
    case POST => POST
    case PUT => PUT
    case PATCH => PATCH
    case DELETE => DELETE
  }

  /** The request type a method comes from, if any. */
  function RequestTypeOf(m: HttpMethod): Option<Entities.RequestType> {
    match m
    case GET => Some(Entities.RequestType.GET)
    case POST => Some(Entities.RequestType.POST)
    case PUT => Some(Entities.RequestType.PUT)
    case PATCH => Some(Entities.RequestType.PATCH)
    case DELETE => Some(Entities.RequestType.DELETE)
    case _ => None
  }

  /** The mapping is total and one-to-one: it is undone by `RequestTypeOf`, and
      every method it can produce comes from exactly one request type. */
  lemma MethodRoundTrip(t: Entities.RequestType, m: HttpMethod)
    ensures RequestTypeOf(MapMethod(t)) == Some(t)
    ensures RequestTypeOf(m).Some? ==> MapMethod(RequestTypeOf(m).value) == m
    ensures RequestTypeOf(m).None? <==> m in {HEAD, OPTIONS, TRACE}
  {
  }

  lemma MapMethodInjective(a: Entities.RequestType, b: Entities.RequestType)
    requires MapMethod(a) == MapMethod(b)
    ensures a == b
  {
    MethodRoundTrip(a, GET);
    MethodRoundTrip(b, GET);
  }

  // ---- sendRequest ----

  /** What is handed to the HTTP client. */
  datatype Request = Request(verb: HttpMethod, uri: string, headers: map<string, string>, body: Option<string>)

  function UriOf(q: Entities.InvokeQuery): string {
    FormatPath(q.requestPath, q.pathParam.GetOr([]), q.requestParam.GetOr([]))
  }

  /** Some `?` in `uri` is followed by a query that parses to `requestParam`. */
  predicate CarriesQuery(uri: string, requestParam: seq<(string, string)>) {
    exists i | 0 <= i < |uri| :: uri[i] == '?' && ParseQuery(uri[i + 1..]) == Some(requestParam)
  }

  lemma UriCarriesQuery(q: Entities.InvokeQuery)
    ensures q.requestParam.GetOr([]) != [] ==> CarriesQuery(UriOf(q), q.requestParam.value)
  {
    var uri := UriOf(q);
    if q.requestParam.GetOr([]) != [] {
      FormatPathRoundTrip(q.requestPath, q.pathParam.GetOr([]), q.requestParam.value);
      var cut := CutLast(uri, '?').value;
      assert uri[|cut.0|] == '?' && uri[|cut.0| + 1..] == cut.1;
    }
  }

  /** `sendRequest` up to the exchange, as written. */
  function SendRequestAsWritten(token: Option<string>, q: Entities.InvokeQuery): (r: Result<Request, Exc>)
    ensures r.Failure? <==> HasText(token) && q.header.None?
    ensures r.Success? ==> r.value == BuildRequest(token, q)
  {
    match HeadersAsWritten(token, q.header)
    case Failure(e) => Failure(e)
    case Success(headers) => Success(Request(MapMethod(q.requestType), UriOf(q), headers, q.body))
  }

  /** `sendRequest` up to the exchange, with a null header map read as empty. */
  function BuildRequest(token: Option<string>, q: Entities.InvokeQuery): (r: Request)
    ensures RequestTypeOf(r.verb) == Some(q.requestType)
    ensures q.requestParam.GetOr([]) == [] ==> r.uri == Substitute(q.requestPath, q.pathParam.GetOr([]))
    ensures q.requestParam.GetOr([]) != [] ==> CarriesQuery(r.uri, q.requestParam.value)
    ensures HasText(token) ==> AUTHORIZATION in r.headers && r.headers[AUTHORIZATION] == BearerValue(token.value)
    ensures r.body == q.body
  {
    MethodRoundTrip(q.requestType, GET);
    var uri := UriOf(q);
    UriCarriesQuery(q);
    Request(MapMethod(q.requestType), uri, Headers(token, q.header), q.body)
  }
}
