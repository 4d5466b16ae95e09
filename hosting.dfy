// publishToHosting (functions/src/index.ts): puts one HTML page on a
// hosting site through a sequence of remote calls -- create the site, open
// a version, declare its one file, upload the content if the platform asks
// for it, finalize the version, release it. Any failure throws and stops
// the sequence.
//
// The hosting platform is abstract: HostingApi records every call it is
// sent, with the reply, and a reply can be anything. The pipeline is a
// small state machine (Phase) driven by those replies. The access token,
// URL building, gzip and SHA-256 are not modelled: the compressed bytes and
// their digest are functions passed in.

module Hosting {
  import opened Text
  import opened Optional

  const PolicyDir := "/PrivacyPolicies"
  const PolicyPath := PolicyDir + "/index.html"

  /** A reply as `fetch` returns it. */
  datatype HttpReply = HttpReply(status: int, body: string) {
    /** `Response.ok`. */
    predicate Ok() { 200 <= status <= 299 }
  }

  /** What `fetchJSON` gives: the parsed body, or nothing because the call
      was rejected, the reply was not ok, or its body was not JSON (each of
      which throws). */
  datatype Fetched<T> = Parsed(value: T) | Failed

  /** The configuration sent with every new version: a cache header on all
      paths and a permanent redirect from the root to the policy directory. */
  datatype VersionConfig = VersionConfig(
    headerGlob: string, cacheControl: string,
    redirectGlob: string, redirectStatus: int, redirectTo: string)

  const ReleaseConfig := VersionConfig("**", "public, max-age=300", "/", 301, PolicyDir)

  /** The parsed reply to populateFiles. */
  datatype PopulateReply = PopulateReply(uploadUrl: string, uploadRequiredHashes: Option<seq<string>>)

  /** One remote call and its reply. A `None` raw reply is a `fetch` that
      was rejected. */
  datatype Exchange =
    | SiteCreation(siteId: string, created: Option<HttpReply>)
    | VersionCreation(siteName: string, config: VersionConfig, version: Fetched<string>)
    | FilePopulation(versionName: string, path: string, hash: string, populated: Fetched<PopulateReply>)
    | ContentUpload(url: string, content: seq<bv8>, uploaded: Option<HttpReply>)
    | Finalization(siteId: string, versionId: string, finalized: Fetched<()>)
    | Activation(siteId: string, versionName: string, released: Fetched<()>)

  /** The steps of the pipeline, in their order. */
  datatype Step = CreateSite | CreateVersion | PopulateFiles | Upload | Finalize | Release

  function StepOf(e: Exchange): Step {
    match e
    case SiteCreation(_, _) => CreateSite
    case VersionCreation(_, _, _) => CreateVersion
    case FilePopulation(_, _, _, _) => PopulateFiles
    case ContentUpload(_, _, _) => Upload
    case Finalization(_, _, _) => Finalize
    case Activation(_, _, _) => Release
  }

  function StepRank(s: Step): nat {
    match s
    case CreateSite => 0
    case CreateVersion => 1
    case PopulateFiles => 2
    case Upload => 3
    case Finalize => 4
    case Release => 5
  }

  /** Why a publish stopped. */
  datatype PublishError =
    | SiteRejected(reply: Option<HttpReply>)
    | RequestFailed(step: Step)
    | UploadRejected(reply: Option<HttpReply>)

  datatype Outcome = Published | NotPublished(error: PublishError)

  // ---------------------------------------------------------------------
  // The create-site tolerance

  /** A 409 whose lower-cased body says the identifier is already taken:
      the only failure of create-site that the pipeline goes on from. */
  predicate AlreadyExists(r: HttpReply) {
    r.status == 409 &&
    (Contains(Lower(r.body), "already exists") || Contains(Lower(r.body), "already in use"))
  }

  predicate SiteReady(created: Option<HttpReply>) {
    created.Some? && (created.value.Ok() || AlreadyExists(created.value))
  }

  /** `pop.uploadRequiredHashes?.includes(sha256)`. */
  predicate UploadNeeded(pop: PopulateReply, hash: string) {
    pop.uploadRequiredHashes.Some? && hash in pop.uploadRequiredHashes.value
  }

  // ---------------------------------------------------------------------
  // Version names

  /** `s.split("/")`. */
  function Split(s: string): (parts: seq<string>)
    ensures |parts| >= 1
  {
    if s == [] then [""]
    else if s[0] == '/' then [""] + Split(s[1..])
    else
      var rest := Split(s[1..]);
      [[s[0]] + rest[0]] + rest[1..]
  }

  predicate NoSlash(s: string) {
    forall i :: 0 <= i < |s| ==> s[i] != '/'
  }

  lemma {:induction false} SplitNoSlash(s: string)
    requires NoSlash(s)
    ensures Split(s) == [s]
    decreases |s|
  {
    if s != [] {
      assert NoSlash(s[1..]) by {
        assert forall i :: 0 <= i < |s| - 1 ==> s[1..][i] == s[i + 1];
      }
      SplitNoSlash(s[1..]);
      assert s == [s[0]] + s[1..];
    }
  }

  /** Splitting `a/b` gives `a`, then the parts of `b`. */
  lemma {:induction false} SplitAtSlash(a: string, b: string)
    requires NoSlash(a)
    ensures Split(a + "/" + b) == [a] + Split(b)
    decreases |a|
  {
    var s := a + "/" + b;
    if a == [] {
      assert s == "/" + b;
      assert s[1..] == b;
    } else {
      assert s[1..] == a[1..] + "/" + b;
      assert NoSlash(a[1..]) by {
        assert forall i :: 0 <= i < |a| - 1 ==> a[1..][i] == a[i + 1];
      }
      SplitAtSlash(a[1..], b);
      assert s[0] == a[0] && a == [a[0]] + a[1..];
    }
  }

  /** `versionName.split("/")[3]`; an index past the end gives `undefined`,
      which the URL template spells out. */
  function VersionId(versionName: string): string {
    var parts := Split(versionName);
    if |parts| > 3 then parts[3] else "undefined"
  }

  /** A version name of the platform's form `sites/S/versions/V` yields `V`. */
  lemma VersionIdOfName(site: string, id: string)
    requires NoSlash(site) && NoSlash(id)
    ensures VersionId("sites/" + site + "/versions/" + id) == id
  {
    assert "sites/" + site + "/versions/" + id == "sites" + "/" + (site + "/" + ("versions" + "/" + id));
    SplitAtSlash("sites", site + "/" + ("versions" + "/" + id));
    SplitAtSlash(site, "versions" + "/" + id);
    SplitAtSlash("versions", id);
    SplitNoSlash(id);
  }

  // ---------------------------------------------------------------------
  // The pipeline as a state machine

  datatype Phase =
    | Creating
    | Opening
    | Populating(versionName: string)
    | Uploading(versionName: string, uploadUrl: string)
    | Finalizing(versionName: string)
    | Releasing(versionName: string)
    | Released
    | Aborted(error: PublishError)

  predicate Terminal(p: Phase) {
    p.Released? || p.Aborted?
  }

  /** The call the pipeline makes in phase `p` is the one `e` records
      (whatever its reply). */
  predicate Expects(p: Phase, e: Exchange, siteId: string, content: seq<bv8>, hash: string) {
    match p
    case Creating => e.SiteCreation? && e.siteId == siteId
    case Opening => e.VersionCreation? && e.siteName == "sites/" + siteId && e.config == ReleaseConfig
    case Populating(v) => e.FilePopulation? && e.versionName == v && e.path == PolicyPath && e.hash == hash
    case Uploading(_, url) => e.ContentUpload? && e.url == url + "/" + hash && e.content == content
    case Finalizing(v) => e.Finalization? && e.siteId == siteId && e.versionId == VersionId(v)
    case Releasing(v) => e.Activation? && e.siteId == siteId && e.versionName == v
    case Released => false
    case Aborted(_) => false
  }

  /** The version a phase works on (none before the version is open). */
  function VersionOf(p: Phase): string {
    if p.Populating? || p.Uploading? || p.Finalizing? || p.Releasing? then p.versionName else ""
  }

  /** The phase after the call `e`, made in phase `p`, got its reply. */
  function After(p: Phase, e: Exchange, hash: string): Phase {
    match e
    case SiteCreation(_, created) =>
      if SiteReady(created) then Opening else Aborted(SiteRejected(created))
    case VersionCreation(_, _, version) =>
      if version.Parsed? then Populating(version.value) else Aborted(RequestFailed(CreateVersion))
    case FilePopulation(v, _, _, populated) =>
      if populated.Failed? then Aborted(RequestFailed(PopulateFiles))
      else if UploadNeeded(populated.value, hash) then Uploading(v, populated.value.uploadUrl)
      else Finalizing(v)
    case ContentUpload(_, _, uploaded) =>
      if uploaded.Some? && uploaded.value.Ok() then Finalizing(VersionOf(p)) else Aborted(UploadRejected(uploaded))
    case Finalization(_, _, finalized) =>
      if finalized.Parsed? then Releasing(VersionOf(p)) else Aborted(RequestFailed(Finalize))
    case Activation(_, _, released) =>
      if released.Parsed? then Released else Aborted(RequestFailed(Release))
  }

  /** The phase the pipeline is in after the calls `t`, or None when `t`
      is not a sequence of calls the pipeline makes. */
  function PhaseAfter(t: seq<Exchange>, siteId: string, content: seq<bv8>, hash: string): Option<Phase>
    decreases |t|
  {
    if t == [] then Some(Creating)
    else
      var last := t[|t| - 1];
      match PhaseAfter(t[..|t| - 1], siteId, content, hash)
      case Some(p) => if Expects(p, last, siteId, content, hash) then Some(After(p, last, hash)) else None
      case None => None
  }

  /** The call `e` got the reply that lets the pipeline go on. */
  predicate Succeeded(e: Exchange) {
    match e
    case SiteCreation(_, created) => SiteReady(created)
    case VersionCreation(_, _, version) => version.Parsed?
    case FilePopulation(_, _, _, populated) => populated.Parsed?
    case ContentUpload(_, _, uploaded) => uploaded.Some? && uploaded.value.Ok()
    case Finalization(_, _, finalized) => finalized.Parsed?
    case Activation(_, _, released) => released.Parsed?
  }

  function OutcomeOf(p: Phase): Outcome
    requires Terminal(p)
  {
    if p.Released? then Published else NotPublished(p.error)
  }

  // ---------------------------------------------------------------------
  // The remote platform

  class HostingApi {
    /** Every call sent to the platform, with its reply, oldest first. */
    var log: seq<Exchange>

    constructor ()
      ensures log == []
    {
      log := [];
    }

    /** POST projects/P/sites?siteId=… */
    method CreateSite(siteId: string) returns (created: Option<HttpReply>)
      modifies this
      ensures log == old(log) + [SiteCreation(siteId, created)]
    {
      created := *;
      log := log + [SiteCreation(siteId, created)];
    }

    /** POST sites/S/versions, through fetchJSON. */
    method CreateVersion(siteName: string, config: VersionConfig) returns (version: Fetched<string>)
      modifies this
      ensures log == old(log) + [VersionCreation(siteName, config, version)]
    {
      version := *;
      log := log + [VersionCreation(siteName, config, version)];
    }

    /** POST V:populateFiles, declaring one file and its hash. */
    method PopulateFiles(versionName: string, path: string, hash: string) returns (populated: Fetched<PopulateReply>)
      modifies this
      ensures log == old(log) + [FilePopulation(versionName, path, hash, populated)]
    {
      populated := *;
      log := log + [FilePopulation(versionName, path, hash, populated)];
    }

    /** POST of the compressed bytes to the upload URL. */
    method Upload(url: string, content: seq<bv8>) returns (uploaded: Option<HttpReply>)
      modifies this
      ensures log == old(log) + [ContentUpload(url, content, uploaded)]
    {
      uploaded := *;
      log := log + [ContentUpload(url, content, uploaded)];
    }

    /** PATCH sites/S/versions/V with status FINALIZED. */
    method Finalize(siteId: string, versionId: string) returns (finalized: Fetched<()>)
      modifies this
      ensures log == old(log) + [Finalization(siteId, versionId, finalized)]
    {
      finalized := *;
      log := log + [Finalization(siteId, versionId, finalized)];
    }

    /** POST sites/S/releases?versionName=… */
    method CreateRelease(siteId: string, versionName: string) returns (released: Fetched<()>)
      modifies this
      ensures log == old(log) + [Activation(siteId, versionName, released)]
    {
      released := *;
      log := log + [Activation(siteId, versionName, released)];
    }
  }

  /** Appending the call the phase expects moves PhaseAfter one step. */
  lemma PhaseAfterSnoc(t: seq<Exchange>, e: Exchange, siteId: string, content: seq<bv8>, hash: string, p: Phase)
    requires PhaseAfter(t, siteId, content, hash) == Some(p)
    requires Expects(p, e, siteId, content, hash)
    ensures PhaseAfter(t + [e], siteId, content, hash) == Some(After(p, e, hash))
  {
    assert (t + [e])[..|t + [e]| - 1] == t;
  }

  /** `log` extends `start` by calls that bring the pipeline to `p`. */
  ghost predicate Logged(log: seq<Exchange>, start: seq<Exchange>, p: Phase,
                         siteId: string, content: seq<bv8>, hash: string) {
    |log| >= |start| && log[..|start|] == start &&
    PhaseAfter(log[|start|..], siteId, content, hash) == Some(p)
  }

  /** One step of PublishToHosting: the log grew by the expected call. */
  lemma Extend(start: seq<Exchange>, prev: seq<Exchange>, log: seq<Exchange>,
               siteId: string, content: seq<bv8>, hash: string, p: Phase)
    requires Logged(prev, start, p, siteId, content, hash)
    requires |log| == |prev| + 1 && log[..|prev|] == prev
    requires Expects(p, log[|prev|], siteId, content, hash)
    ensures Logged(log, start, After(p, log[|prev|], hash), siteId, content, hash)
  {
    var t := prev[|start|..];
    assert log[|start|..] == t + [log[|prev|]];
    assert log[..|start|] == prev[..|start|];
    PhaseAfterSnoc(t, log[|prev|], siteId, content, hash, p);
  }

  /** publishToHosting. `gzip` and `sha256Hex` stand for the compression of
      the UTF-8 text and the hex digest of the compressed bytes. The calls
      made are appended to `api.log`; they are exactly the calls of a run
      of the state machine from Creating to a terminal phase. */
  method PublishToHosting(api: HostingApi, siteId: string, html: string,
                          gzip: string -> seq<bv8>, sha256Hex: seq<bv8> -> string)
    returns (outcome: Outcome)
    modifies api
    ensures |api.log| >= |old(api.log)| && api.log[..|old(api.log)|] == old(api.log)
    ensures var t := api.log[|old(api.log)|..];
      var p := PhaseAfter(t, siteId, gzip(html), sha256Hex(gzip(html)));
      p.Some? && Terminal(p.value) && outcome == OutcomeOf(p.value)
  {
    var content := gzip(html);
    var hash := sha256Hex(content);
    ghost var start := api.log;
    ghost var phase := Creating;
    assert start[|start|..] == [];
    assert Logged(start, start, phase, siteId, content, hash);

    ghost var prev := api.log;
    var created := api.CreateSite(siteId);
    Extend(start, prev, api.log, siteId, content, hash, phase);
    phase := After(phase, api.log[|prev|], hash);
    if !SiteReady(created) {
      return NotPublished(SiteRejected(created));
    }

    prev := api.log;
    var version := api.CreateVersion("sites/" + siteId, ReleaseConfig);
    Extend(start, prev, api.log, siteId, content, hash, phase);
    phase := After(phase, api.log[|prev|], hash);
    if version.Failed? {
      return NotPublished(RequestFailed(CreateVersion));
    }
    var versionName := version.value;
    outcome := ShipVersion(api, siteId, versionName, content, hash, start);
  }

  /** The steps of publishToHosting once the version exists: populate, the
      upload when asked for, finalize and release. */
  method ShipVersion(api: HostingApi, siteId: string, versionName: string,
                     content: seq<bv8>, hash: string, ghost start: seq<Exchange>)
    returns (outcome: Outcome)
    requires Logged(api.log, start, Populating(versionName), siteId, content, hash)
    modifies api
    ensures |api.log| >= |start| && api.log[..|start|] == start
    ensures var p := PhaseAfter(api.log[|start|..], siteId, content, hash);
      p.Some? && Terminal(p.value) && outcome == OutcomeOf(p.value)
  {
    ghost var phase := Populating(versionName);
    ghost var prev := api.log;
    var populated := api.PopulateFiles(versionName, PolicyPath, hash);
    Extend(start, prev, api.log, siteId, content, hash, phase);
    phase := After(phase, api.log[|prev|], hash);
    if populated.Failed? {
      return NotPublished(RequestFailed(PopulateFiles));
    }
    var pop := populated.value;

    if UploadNeeded(pop, hash) {
      prev := api.log;
      var uploaded := api.Upload(pop.uploadUrl + "/" + hash, content);
      Extend(start, prev, api.log, siteId, content, hash, phase);
      phase := After(phase, api.log[|prev|], hash);
      if !(uploaded.Some? && uploaded.value.Ok()) {
        return NotPublished(UploadRejected(uploaded));
      }
    }

    prev := api.log;
    var finalized := api.Finalize(siteId, VersionId(versionName));
    Extend(start, prev, api.log, siteId, content, hash, phase);
    phase := After(phase, api.log[|prev|], hash);
    if finalized.Failed? {
      return NotPublished(RequestFailed(Finalize));
    }

    prev := api.log;
    var released := api.CreateRelease(siteId, versionName);
    Extend(start, prev, api.log, siteId, content, hash, phase);
    phase := After(phase, api.log[|prev|], hash);
    if released.Failed? {
      return NotPublished(RequestFailed(Release));
    }
    return Published;
  }
}
