/**
  The `/cors_multiple_origins` route: the request's `origin` header is
  checked, by exact string membership, against a fixed allow-list.  An
  allowed origin gets a response whose `Access-Control-Allow-Origin` header
  echoes it; any other origin gets a plain string naming it and no header.
 */
module Cors {
  import opened Wrappers

  const AllowedOrigins: set<string> :=
    {"http://allowed1.example.com", "http://allowed2.example.com"}

  const AllowOriginHeader := "Access-Control-Allow-Origin"
  const WhitelistedBody := "You sent a whitelisted origin!\n"
  const DeniedPrefix := "The origin you sent has not been whitelisted: "
  const DeniedSuffix := "\n"

  /** A handler reply: a `Response` with a body and headers, or a bare
      string, which is sent as the body with no extra headers. */
  datatype Reply = Response(body: string, headers: map<string, string>) | Text(body: string)

  /** `headers.get('origin', '')`: the header's value, or `''` when the
      request has none. */
  function OriginOf(headers: map<string, string>): (origin: string)
    ensures "origin" in headers ==> origin == headers["origin"]
    ensures "origin" !in headers ==> origin == ""
  {
    if "origin" in headers then headers["origin"] else ""
  }

  /** The decision for one origin string. */
  function CheckOrigin(origin: string): (r: Reply)
    ensures r.Response? <==> origin in AllowedOrigins
    ensures r.Response? ==>
      r.body == WhitelistedBody && r.headers == map[AllowOriginHeader := origin]
    ensures r.Text? ==> r.body == DeniedPrefix + origin + DeniedSuffix
  {
    if origin in AllowedOrigins then
      Response(WhitelistedBody, map[AllowOriginHeader := origin])
    else
      Text(DeniedPrefix + origin + DeniedSuffix)
  }

  /** `supports_cors_multiple_origins`, given the request's headers: the
      reply carries the CORS header exactly when the request sent a listed
      origin, and then echoes that origin; otherwise it names the origin
      sent, or the empty one. */
  function SupportsCorsMultipleOrigins(headers: map<string, string>): (r: Reply)
    ensures r.Response? <==> "origin" in headers && headers["origin"] in AllowedOrigins
    ensures r.Response? ==>
      r.body == WhitelistedBody && r.headers == map[AllowOriginHeader := headers["origin"]]
    ensures r.Text? ==>
      r.body == DeniedPrefix + (if "origin" in headers then headers["origin"] else "") + DeniedSuffix
  {
    assert "" !in AllowedOrigins;
    CheckOrigin(OriginOf(headers))
  }

  /** The origin a reply allows, if it carries the CORS header. */
  function AllowedOriginOf(r: Reply): Option<string>
  {
    if r.Response? && AllowOriginHeader in r.headers then Some(r.headers[AllowOriginHeader])
    else None
  }

  /** The origin named by a denial body, read back from the fixed text. */
  function DeniedOriginOf(body: string): Option<string>
  {
    if |body| >= |DeniedPrefix| + |DeniedSuffix|
       && body[..|DeniedPrefix|] == DeniedPrefix
       && body[|body| - |DeniedSuffix|..] == DeniedSuffix
    then Some(body[|DeniedPrefix|..|body| - |DeniedSuffix|])
    else None
  }

  /** A reply allows an origin exactly when that origin was sent and is on
      the list, and then it allows that origin verbatim. */
  lemma AllowedExactlyWhenListed(headers: map<string, string>, o: string)
    ensures AllowedOriginOf(SupportsCorsMultipleOrigins(headers)) == Some(o)
        <==> "origin" in headers && headers["origin"] == o && o in AllowedOrigins
  {
    if "origin" !in headers {
      assert "" !in AllowedOrigins;
    }
  }

  /** The CORS header never names an origin outside the allow-list. */
  lemma NeverAllowsUnlisted(headers: map<string, string>)
    ensures match AllowedOriginOf(SupportsCorsMultipleOrigins(headers))
      case Some(o) => o in AllowedOrigins
      case None => true
  {
  }

  /** A denial names the refused origin verbatim: it can be read back. */
  lemma DenialNamesOrigin(origin: string)
    requires origin !in AllowedOrigins
    ensures CheckOrigin(origin).Text?
    ensures DeniedOriginOf(CheckOrigin(origin).body) == Some(origin)
  {
    var body := DeniedPrefix + origin + DeniedSuffix;
    assert body[..|DeniedPrefix|] == DeniedPrefix;
    assert body[|body| - |DeniedSuffix|..] == DeniedSuffix;
    assert body[|DeniedPrefix|..|body| - |DeniedSuffix|] == origin;
  }

  /** A request without an `origin` header is treated as sending `''`,
      which is refused. */
  lemma MissingOriginDenied(headers: map<string, string>)
    requires "origin" !in headers
    ensures SupportsCorsMultipleOrigins(headers) == Text(DeniedPrefix + DeniedSuffix)
  {
    assert "" !in AllowedOrigins;
    assert DeniedPrefix + "" == DeniedPrefix;
  }

  lemma ListedOriginAllowed()
    ensures SupportsCorsMultipleOrigins(map["origin" := "http://allowed1.example.com"])
      == Response(WhitelistedBody, map[AllowOriginHeader := "http://allowed1.example.com"])
  {
  }

  lemma UnlistedOriginDenied()
    ensures SupportsCorsMultipleOrigins(map["origin" := "http://evil.example.com"])
      == Text(DeniedPrefix + "http://evil.example.com" + DeniedSuffix)
  {
    assert "http://evil.example.com"[7] != "http://allowed1.example.com"[7];
    assert "http://evil.example.com" != "http://allowed2.example.com";
  }
}
