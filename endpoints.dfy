// The HTTP endpoints of functions/src/index.ts: checkSlug, createPolicySite,
// previewTemplate, publishTemplate, previewPolicyHtml and publishAiPolicy.
// Each one answers 405 to anything but POST and 400 when a required field
// is missing (a falsy JavaScript value); anything thrown later becomes a
// 500, except in checkSlug, which answers 200 with the status "unknown".
//
// The request body is reduced to the fields the endpoints read, each a
// string or absent (`rotate` a boolean or absent). Storage, the clock, the
// random UUID, the SHA-256 digest and the text model are parameters.

module Endpoints {
  import opened Text
  import opened Optional
  import opened SiteId
  import opened Placeholders
  import opened Templates
  import opened Hosting
  import opened AiOutput

  /** The JSON body fields the endpoints read. */
  datatype Body = Body(
    slug: Option<string>, productName: Option<string>, email: Option<string>,
    html: Option<string>, templateName: Option<string>, rotate: Option<bool>)

  datatype SlugStatus = Invalid | TakenProject | MaybeFree | Unknown

  function StatusName(s: SlugStatus): string {
    match s
    case Invalid => "invalid"
    case TakenProject => "taken_project"
    case MaybeFree => "maybe_free"
    case Unknown => "unknown"
  }

  /** The addresses a published site answers on. */
  datatype SiteUrls = SiteUrls(webAppUrl: string, firebaseAppUrl: string, policyUrl: string)

  /** What an endpoint sends back. `Failure` is the message of an error
      that was thrown (sent as text or as `{message}`). */
  datatype Payload =
    | Text(text: string)
    | SlugJson(status: SlugStatus)
    | SiteJson(siteId: string, templateName: Option<string>, urls: SiteUrls)
    | PreviewJson(html: string, template: string)
    | AiPreviewJson(html: string, bytes: nat)
    | BadRequestJson(code: string, message: string)
    | Failure(cause: PublishError)
    | GenerationFailure

  datatype Response = Response(status: int, payload: Payload)

  const NotPost := Response(405, Text("Use POST"))

  /** The URLs createPolicySite and the publish endpoints report. */
  function UrlsOf(siteId: string): (u: SiteUrls)
    ensures OnHost(u.webAppUrl, siteId, ".web.app", "/")
    ensures OnHost(u.firebaseAppUrl, siteId, ".firebaseapp.com", "/")
    ensures OnHost(u.policyUrl, siteId, ".web.app", PolicyDir)
  {
    var web := "https://" + siteId + ".web.app";
    var u := SiteUrls(web + "/", "https://" + siteId + ".firebaseapp.com/", web + PolicyDir);
    OnHostOf(siteId, ".web.app", "/");
    OnHostOf(siteId, ".firebaseapp.com", "/");
    OnHostOf(siteId, ".web.app", PolicyDir);
    u
  }

  /** `url` is `https://`, then the host `siteId` followed by `domain`, then
      `path`: it starts with the scheme and the identifier, ends with the
      domain and the path, and has nothing in between. */
  predicate OnHost(url: string, siteId: string, domain: string, path: string) {
    StartsWith(url, "https://" + siteId) && EndsWith(url, domain + path) &&
    |url| == |"https://" + siteId| + |domain + path|
  }

  lemma OnHostOf(siteId: string, domain: string, path: string)
    ensures OnHost("https://" + siteId + domain + path, siteId, domain, path)
  {
    var pre, url := "https://" + siteId, "https://" + siteId + domain + path;
    assert url == pre + (domain + path);
    assert url[..|pre|] == pre && url[|pre|..] == domain + path;
  }

  // ---------------------------------------------------------------------
  // checkSlug

  /** `/^[a-z0-9-]{4,30}$/`. */
  predicate SlugPattern(s: string) {
    4 <= |s| <= 30 && AllSlugChars(s)
  }

  /** The site listing's `sites` array (absent means none), each with an
      optional `name`. */
  type SiteListing = Option<seq<Option<string>>>

  /** `(list.sites || []).some((s) => s.name?.endsWith(`/sites/${slug}`))`. */
  predicate Listed(listing: SiteListing, slug: string) {
    listing.Some? &&
    exists i :: 0 <= i < |listing.value| && listing.value[i].Some? && EndsWith(listing.value[i].value, "/sites/" + slug)
  }

  /** The value checkSlug's `slug` field is read as. */
  function SlugText(slug: Option<string>): string {
    if Truthy(slug) then slug.value else ""
  }

  /** The status of an already sanitised slug `s`; `listing` is the outcome
      of the one listing call, which is made only for a slug that passes the
      format test. */
  function Classify(s: string, listing: Fetched<SiteListing>): SlugStatus {
    if s == [] || !SlugPattern(s) then Invalid
    else if listing.Failed? then Unknown
    else if Listed(listing.value, s) then TakenProject
    else MaybeFree
  }

  /** checkSlug: every POST gets 200, failures included. */
  function CheckSlug(httpMethod: string, slug: Option<string>, listing: Fetched<SiteListing>): (r: Response)
    ensures httpMethod == "POST" ==> r.status == 200 && r.payload.SlugJson?
    ensures httpMethod != "POST" ==> r.status == 405
  {
    if httpMethod != "POST" then NotPost
    else Response(200, SlugJson(Classify(SanitizeSiteId(SlugText(slug)), listing)))
  }

  /** On a sanitised slug the format test reduces to a length test: the
      sanitiser already guarantees the alphabet and the upper bound. */
  lemma ClassifyInvalidIff(s: string, listing: Fetched<SiteListing>)
    requires Canonical(s) && |s| <= MaxLength
    ensures Classify(s, listing) == Invalid <==> |s| < 4
  {
  }

  /** So a slug is invalid exactly when it sanitises to fewer than four
      characters, and then the listing plays no part. */
  lemma CheckSlugInvalidIff(slug: Option<string>, listing: Fetched<SiteListing>, other: Fetched<SiteListing>)
    ensures CheckSlug("POST", slug, listing).payload == SlugJson(Invalid) <==> |SanitizeSiteId(SlugText(slug))| < 4
    ensures CheckSlug("POST", slug, listing).payload == SlugJson(Invalid) ==>
      CheckSlug("POST", slug, other) == CheckSlug("POST", slug, listing)
  {
    var s := SanitizeSiteId(SlugText(slug));
    ClassifyInvalidIff(s, listing);
    ClassifyInvalidIff(s, other);
  }

  /** For a valid slug, `taken_project` is reported exactly when some listed
      site name ends with `/sites/<slug>`, `maybe_free` otherwise, and
      `unknown` when the listing failed. */
  lemma CheckSlugTakenIff(slug: Option<string>, listing: Fetched<SiteListing>)
    requires |SanitizeSiteId(SlugText(slug))| >= 4
    ensures var s := SanitizeSiteId(SlugText(slug));
      var r := CheckSlug("POST", slug, listing).payload;
      (listing.Failed? ==> r == SlugJson(Unknown)) &&
      (listing.Parsed? ==> (r == SlugJson(TakenProject) <==> Listed(listing.value, s))) &&
      (listing.Parsed? ==> (r == SlugJson(MaybeFree) <==> !Listed(listing.value, s)))
  {
    var s := SanitizeSiteId(SlugText(slug));
    ClassifyInvalidIff(s, listing);
  }

  // ---------------------------------------------------------------------
  // Guards

  /** The early answer of createPolicySite, if any. The slug's length is
      not checked. */
  function CreatePolicySiteGuard(httpMethod: string, b: Body): Option<Response> {
    if httpMethod != "POST" then Some(NotPost)
    else if !Truthy(b.slug) || !Truthy(b.productName) || !Truthy(b.email) then
      Some(Response(400, Text("Missing slug/productName/email")))
    else None
  }

  function PreviewTemplateGuard(httpMethod: string, b: Body): Option<Response> {
    if httpMethod != "POST" then Some(NotPost)
    else if !Truthy(b.productName) || !Truthy(b.email) then Some(Response(400, Text("Missing productName/email")))
    else None
  }

  function PublishTemplateGuard(httpMethod: string, b: Body): Option<Response> {
    if httpMethod != "POST" then Some(NotPost)
    else if !Truthy(b.slug) then Some(Response(400, Text("Missing slug")))
    else None
  }

  function PreviewPolicyHtmlGuard(httpMethod: string, b: Body): Option<Response> {
    if httpMethod != "POST" then Some(NotPost)
    else if !Truthy(b.productName) || !Truthy(b.email) then
      Some(Response(400, BadRequestJson("bad_request", "Missing productName or email")))
    else None
  }

  function PublishAiPolicyGuard(httpMethod: string, b: Body): Option<Response> {
    if httpMethod != "POST" then Some(NotPost)
    else if !Truthy(b.slug) || !Truthy(b.html) then Some(Response(400, Text("Missing slug/html")))
    else None
  }

  /** Every endpoint answers 405 to a method other than POST, before it
      looks at the body. */
  lemma NonPostRejected(httpMethod: string, b: Body, listing: Fetched<SiteListing>)
    requires httpMethod != "POST"
    ensures CheckSlug(httpMethod, b.slug, listing).status == 405
    ensures CreatePolicySiteGuard(httpMethod, b) == Some(NotPost)
    ensures PreviewTemplateGuard(httpMethod, b) == Some(NotPost)
    ensures PublishTemplateGuard(httpMethod, b) == Some(NotPost)
    ensures PreviewPolicyHtmlGuard(httpMethod, b) == Some(NotPost)
    ensures PublishAiPolicyGuard(httpMethod, b) == Some(NotPost)
  {
  }

  /** A POST gets a 400 from a guard exactly when a field it requires is
      missing or empty. */
  lemma GuardsRequireFields(b: Body)
    ensures CreatePolicySiteGuard("POST", b).Some? <==> !(Truthy(b.slug) && Truthy(b.productName) && Truthy(b.email))
    ensures PreviewTemplateGuard("POST", b).Some? <==> !(Truthy(b.productName) && Truthy(b.email))
    ensures PublishTemplateGuard("POST", b).Some? <==> !Truthy(b.slug)
    ensures PreviewPolicyHtmlGuard("POST", b).Some? <==> !(Truthy(b.productName) && Truthy(b.email))
    ensures PublishAiPolicyGuard("POST", b).Some? <==> !(Truthy(b.slug) && Truthy(b.html))
    ensures forall g :: (g in [CreatePolicySiteGuard("POST", b), PreviewTemplateGuard("POST", b),
                               PublishTemplateGuard("POST", b), PreviewPolicyHtmlGuard("POST", b),
                               PublishAiPolicyGuard("POST", b)] && g.Some?) ==> g.value.status == 400
  {
  }

  /** createPolicySite goes ahead with a one-character slug, which checkSlug
      calls invalid: it has no length test. */
  lemma CreateAcceptsShortSlug(b: Body, listing: Fetched<SiteListing>)
    requires b.slug.Some? && |b.slug.value| == 1 && Truthy(b.productName) && Truthy(b.email)
    ensures CreatePolicySiteGuard("POST", b).None?
    ensures CheckSlug("POST", b.slug, listing).payload == SlugJson(Invalid)
  {
    assert |SanitizeSiteId(SlugText(b.slug))| <= 1;
    CheckSlugInvalidIff(b.slug, listing, listing);
  }

  // ---------------------------------------------------------------------
  // publishTemplate's choice of HTML

  /** Where publishTemplate takes its HTML from. */
  datatype HtmlSource =
    | Supplied(html: string)
    | Resolve(productName: string, email: string, templateName: string)
    | NoHtml

  /** The supplied `html` wins; without it, the template is resolved again
      only when the name, the e-mail and the template name are all given. */
  function PublishTemplateSource(b: Body): (src: HtmlSource)
    ensures Truthy(b.html) ==> src == Supplied(b.html.value)
    ensures !Truthy(b.html) && Truthy(b.productName) && Truthy(b.email) && Truthy(b.templateName) ==>
      src == Resolve(b.productName.value, b.email.value, b.templateName.value)
    ensures src == NoHtml <==>
      !Truthy(b.html) && !(Truthy(b.productName) && Truthy(b.email) && Truthy(b.templateName))
  {
    if Truthy(b.html) then Supplied(b.html.value)
    else if Truthy(b.productName) && Truthy(b.email) && Truthy(b.templateName) then
      Resolve(b.productName.value, b.email.value, b.templateName.value)
    else NoHtml
  }

  // ---------------------------------------------------------------------
  // previewPolicyHtml's byte count

  /** `Buffer.byteLength(c, "utf8")` for one character. */
  function Utf8Width(c: char): (n: nat)
    ensures 1 <= n <= 4
  {
    var k := c as int;
    if k < 0x80 then 1 else if k < 0x800 then 2 else if k < 0x1_0000 then 3 else 4
  }

  /** `Buffer.byteLength(s, "utf8")`. */
  function Utf8Length(s: string): (n: nat)
    ensures |s| <= n <= 4 * |s|
  {
    if s == [] then 0 else Utf8Width(s[0]) + Utf8Length(s[1..])
  }

  /** ASCII text takes one byte per character. */
  lemma {:induction false} Utf8LengthOfAscii(s: string)
    requires forall i :: 0 <= i < |s| ==> s[i] as int < 0x80
    ensures Utf8Length(s) == |s|
    decreases |s|
  {
    if s != [] {
      Utf8LengthOfAscii(s[1..]);
    }
  }

  // ---------------------------------------------------------------------
  // The endpoints

  /** The publish step shared by the three publishing endpoints: 200 with
      the site's URLs when the release went out, else 500 with the error. */
  function PublishResponse(siteId: string, templateName: Option<string>, outcome: Outcome): (r: Response)
    ensures r.status == 200 <==> outcome.Published?
    ensures r.status == 200 ==> r.payload == SiteJson(siteId, templateName, UrlsOf(siteId))
    ensures r.status != 200 ==> r == Response(500, Failure(outcome.error))
  {
    if outcome.Published? then Response(200, SiteJson(siteId, templateName, UrlsOf(siteId)))
    else Response(500, Failure(outcome.error))
  }

  /** `after` is `before` followed by one complete publishToHosting run of
      `html` to `siteId`. */
  ghost predicate Ran(before: seq<Exchange>, after: seq<Exchange>, siteId: string, html: string,
                      gzip: string -> seq<bv8>, sha256Hex: seq<bv8> -> string)
  {
    |after| >= |before| && after[..|before|] == before &&
    var p := PhaseAfter(after[|before|..], siteId, gzip(html), sha256Hex(gzip(html)));
    p.Some? && Terminal(p.value)
  }

  /** What that run reported. */
  ghost function RunOutcome(before: seq<Exchange>, after: seq<Exchange>, siteId: string, html: string,
                            gzip: string -> seq<bv8>, sha256Hex: seq<bv8> -> string): Outcome
    requires Ran(before, after, siteId, html, gzip, sha256Hex)
  {
    OutcomeOf(PhaseAfter(after[|before|..], siteId, gzip(html), sha256Hex(gzip(html))).value)
  }

  /** A run that publishToHosting reported on is a Ran, with that outcome. */
  lemma RanOfRun(before: seq<Exchange>, after: seq<Exchange>, siteId: string, html: string,
                 gzip: string -> seq<bv8>, sha256Hex: seq<bv8> -> string, outcome: Outcome)
    requires |after| >= |before| && after[..|before|] == before
    requires var p := PhaseAfter(after[|before|..], siteId, gzip(html), sha256Hex(gzip(html)));
      p.Some? && Terminal(p.value) && outcome == OutcomeOf(p.value)
    ensures Ran(before, after, siteId, html, gzip, sha256Hex)
    ensures outcome == RunOutcome(before, after, siteId, html, gzip, sha256Hex)
  {
  }

  /** `pick` is one getPolicyHTML may return. */
  ghost predicate MayPick(listing: seq<StoredFile>, appName: string, email: string, siteDigest: seq<bv8>,
                          rotate: bool, templateName: Option<string>, isoNow: string, pick: PolicyPick)
    requires |siteDigest| == 32
  {
    (HtmlFiles(listing) == [] ==> pick == PolicyPick(FallbackPolicyHtml(appName, email, isoNow), "fallback")) &&
    (HtmlFiles(listing) != [] ==>
      exists random :: 0 <= random < |HtmlFiles(listing)| &&
        pick == Rendered(PickFile(HtmlFiles(listing), siteDigest, rotate, templateName, random), appName, email))
  }

  /** createPolicySite. `listing` is the template storage listing,
      `sha256` the digest used for the seeded pick, `isoNow` the clock. */
  method CreatePolicySite(api: HostingApi, httpMethod: string, b: Body, listing: seq<StoredFile>,
                          sha256: string -> seq<bv8>, isoNow: string,
                          gzip: string -> seq<bv8>, sha256Hex: seq<bv8> -> string)
    returns (resp: Response)
    requires forall s :: |sha256(s)| == 32
    modifies api
    ensures CreatePolicySiteGuard(httpMethod, b).Some? ==>
      resp == CreatePolicySiteGuard(httpMethod, b).value && api.log == old(api.log)
    ensures CreatePolicySiteGuard(httpMethod, b).None? ==>
      var siteId := SanitizeSiteId(b.slug.value);
      exists pick ::
        MayPick(listing, b.productName.value, b.email.value, sha256(siteId), b.rotate != Some(false), None, isoNow, pick) &&
        Ran(old(api.log), api.log, siteId, pick.html, gzip, sha256Hex) &&
        resp == PublishResponse(siteId, Some(pick.templateName), RunOutcome(old(api.log), api.log, siteId, pick.html, gzip, sha256Hex))
  {
    var guard := CreatePolicySiteGuard(httpMethod, b);
    if guard.Some? {
      return guard.value;
    }
    var siteId := SanitizeSiteId(b.slug.value);
    var pick := GetPolicyHtml(listing, b.productName.value, b.email.value, sha256(siteId),
                              b.rotate != Some(false), None, isoNow);
    assert MayPick(listing, b.productName.value, b.email.value, sha256(siteId), b.rotate != Some(false), None, isoNow, pick);
    var outcome := PublishToHosting(api, siteId, pick.html, gzip, sha256Hex);
    RanOfRun(old(api.log), api.log, siteId, pick.html, gzip, sha256Hex, outcome);
    resp := PublishResponse(siteId, Some(pick.templateName), outcome);
  }

  /** The identifier a preview is seeded with: the slug, else `preview-`
      and the first eight characters of a random UUID. */
  function PreviewId(slug: Option<string>, uuid: string): (id: string)
    ensures Truthy(slug) ==> id == slug.value
    ensures !Truthy(slug) ==> StartsWith(id, "preview-") && |id| == 8 + Min(|uuid|, 8)
    ensures !Truthy(slug) ==> id[8..] == uuid[..Min(|uuid|, 8)]
  {
    if Truthy(slug) then slug.value else "preview-" + (if |uuid| <= 8 then uuid else uuid[..8])
  }

  function Min(a: int, b: int): int {
    if a <= b then a else b
  }

  /** previewTemplate. `uuid` stands for `crypto.randomUUID()`, used to name
      the preview when no slug is given. Nothing is published. */
  method PreviewTemplate(httpMethod: string, b: Body, uuid: string, listing: seq<StoredFile>,
                         sha256: string -> seq<bv8>, isoNow: string)
    returns (resp: Response)
    requires forall s :: |sha256(s)| == 32
    ensures PreviewTemplateGuard(httpMethod, b).Some? ==> resp == PreviewTemplateGuard(httpMethod, b).value
    ensures PreviewTemplateGuard(httpMethod, b).None? ==>
      var siteId := SanitizeSiteId(PreviewId(b.slug, uuid));
      exists pick ::
        MayPick(listing, b.productName.value, b.email.value, sha256(siteId), b.rotate != Some(false), b.templateName, isoNow, pick) &&
        resp == Response(200, PreviewJson(pick.html, pick.templateName))
  {
    var guard := PreviewTemplateGuard(httpMethod, b);
    if guard.Some? {
      return guard.value;
    }
    var siteId := SanitizeSiteId(PreviewId(b.slug, uuid));
    var pick := GetPolicyHtml(listing, b.productName.value, b.email.value, sha256(siteId),
                              b.rotate != Some(false), b.templateName, isoNow);
    resp := Response(200, PreviewJson(pick.html, pick.templateName));
  }

  /** publishTemplate. */
  method PublishTemplate(api: HostingApi, httpMethod: string, b: Body, listing: seq<StoredFile>,
                         sha256: string -> seq<bv8>, isoNow: string,
                         gzip: string -> seq<bv8>, sha256Hex: seq<bv8> -> string)
    returns (resp: Response)
    requires forall s :: |sha256(s)| == 32
    modifies api
    ensures PublishTemplateGuard(httpMethod, b).Some? ==>
      resp == PublishTemplateGuard(httpMethod, b).value && api.log == old(api.log)
    ensures PublishTemplateGuard(httpMethod, b).None? && PublishTemplateSource(b) == NoHtml ==>
      resp == Response(400, Text("No html provided")) && api.log == old(api.log)
    ensures PublishTemplateGuard(httpMethod, b).None? && PublishTemplateSource(b).Supplied? ==>
      var siteId := SanitizeSiteId(b.slug.value);
      Ran(old(api.log), api.log, siteId, b.html.value, gzip, sha256Hex) &&
      resp == PublishResponse(siteId, None, RunOutcome(old(api.log), api.log, siteId, b.html.value, gzip, sha256Hex))
    ensures PublishTemplateGuard(httpMethod, b).None? && PublishTemplateSource(b).Resolve? ==>
      var siteId := SanitizeSiteId(b.slug.value);
      exists pick ::
        MayPick(listing, b.productName.value, b.email.value, sha256(siteId), false, b.templateName, isoNow, pick) &&
        (pick.html == [] ==> resp == Response(400, Text("No html provided")) && api.log == old(api.log)) &&
        (pick.html != [] ==>
          Ran(old(api.log), api.log, siteId, pick.html, gzip, sha256Hex) &&
          resp == PublishResponse(siteId, None, RunOutcome(old(api.log), api.log, siteId, pick.html, gzip, sha256Hex)))
  {
    var guard := PublishTemplateGuard(httpMethod, b);
    if guard.Some? {
      return guard.value;
    }
    var siteId := SanitizeSiteId(b.slug.value);
    var outHtml: Option<string> := b.html;
    var pick: PolicyPick := PolicyPick([], []);
    if !Truthy(outHtml) && Truthy(b.productName) && Truthy(b.email) && Truthy(b.templateName) {
      pick := GetPolicyHtml(listing, b.productName.value, b.email.value, sha256(siteId),
                            false, b.templateName, isoNow);
      outHtml := Some(pick.html);
      assert MayPick(listing, b.productName.value, b.email.value, sha256(siteId), false, b.templateName, isoNow, pick);
    }
    if !Truthy(outHtml) {
      return Response(400, Text("No html provided"));
    }
    var outcome := PublishToHosting(api, siteId, outHtml.value, gzip, sha256Hex);
    resp := PublishResponse(siteId, None, outcome);
    RanOfRun(old(api.log), api.log, siteId, outHtml.value, gzip, sha256Hex, outcome);
  }

  /** previewPolicyHtml. `generated` is the text model's answer, or None
      when the call failed (a missing key included). */
  method PreviewPolicyHtml(httpMethod: string, b: Body, generated: Option<string>) returns (resp: Response)
    ensures PreviewPolicyHtmlGuard(httpMethod, b).Some? ==> resp == PreviewPolicyHtmlGuard(httpMethod, b).value
    ensures PreviewPolicyHtmlGuard(httpMethod, b).None? && generated.None? ==> resp == Response(500, GenerationFailure)
    ensures PreviewPolicyHtmlGuard(httpMethod, b).None? && generated.Some? ==>
      resp.status == 200 && resp.payload.AiPreviewJson? &&
      resp.payload.html == Filled(Cleaned(generated.value, b.productName.value), b.productName.value, b.email.value) &&
      resp.payload.bytes == Utf8Length(resp.payload.html)
  {
    var guard := PreviewPolicyHtmlGuard(httpMethod, b);
    if guard.Some? {
      return guard.value;
    }
    if generated.None? {
      return Response(500, GenerationFailure);
    }
    var html := PostProcess(generated.value, b.productName.value, b.email.value);
    resp := Response(200, AiPreviewJson(html, Utf8Length(html)));
  }

  /** publishAiPolicy: publishes the supplied HTML as it is. */
  method PublishAiPolicy(api: HostingApi, httpMethod: string, b: Body,
                         gzip: string -> seq<bv8>, sha256Hex: seq<bv8> -> string)
    returns (resp: Response)
    modifies api
    ensures PublishAiPolicyGuard(httpMethod, b).Some? ==>
      resp == PublishAiPolicyGuard(httpMethod, b).value && api.log == old(api.log)
    ensures PublishAiPolicyGuard(httpMethod, b).None? ==>
      var siteId := SanitizeSiteId(b.slug.value);
      Ran(old(api.log), api.log, siteId, b.html.value, gzip, sha256Hex) &&
      resp == PublishResponse(siteId, None, RunOutcome(old(api.log), api.log, siteId, b.html.value, gzip, sha256Hex))
  {
    var guard := PublishAiPolicyGuard(httpMethod, b);
    if guard.Some? {
      return guard.value;
    }
    var siteId := SanitizeSiteId(b.slug.value);
    var outcome := PublishToHosting(api, siteId, b.html.value, gzip, sha256Hex);
    RanOfRun(old(api.log), api.log, siteId, b.html.value, gzip, sha256Hex, outcome);
    resp := PublishResponse(siteId, None, outcome);
  }
}
