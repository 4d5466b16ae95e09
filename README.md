# privacy-sites in Dafny

privacy-sites publishes a one-page privacy policy for an app on its own
Firebase Hosting site. A browser page (`web/main.js`) collects an app name,
a contact e-mail and a slug, and calls HTTP functions
(`functions/src/index.ts`). Those functions do the following:

- sanitise the slug into a hosting site identifier;
- pick a policy template from storage, or generate one with a text model;
- fill the template's placeholders;
- publish the page at `/PrivacyPolicies` through the hosting API's create-site, version, populate, upload, finalize and release calls.

This project models that core and proves properties of it:

- `text.dfy`: the JavaScript string operations the code relies on. These are ASCII `toLowerCase`, `trim` with the JavaScript white-space set, `startsWith`, `endsWith` and `includes`.
- `site_id.dfy`: `sanitizeSiteId`, one function per stage of its replace chain.
- `placeholders.dfy` and `pattern_words.dfy`: the regular expressions of `fillPlaceholders` as a small pattern language (literals, case folding, greedy `\s*`). They also model JavaScript's global `String.prototype.replace`, including the `$` patterns of the replacement string, and the ordered replace passes.
- `placeholder_examples.dfy`: what the passes do to particular placeholders.
- `templates.dfy`: `seededIndex`, using signed 32-bit arithmetic; `fallbackPolicyHTML`; and `getPolicyHTML`'s choice of template.
- `ai_output.dfy`: the clean-up of a text model's answer (fence removal, document shell, placeholders).
- `hosting.dfy`: the hosting platform as a class that records each call and its reply, which the platform chooses freely. `publishToHosting` is written as an imperative method. A phase machine (`PhaseAfter`) reads any record of calls back as the pipeline's progress.
- `publish_properties.dfy`: what every run of the pipeline guarantees.
- `endpoints.dfy`: the six HTTP functions.
- `web_client.dfy`: the page's slug sanitiser, its required-field gates, the four-step wizard, the pillbar selection rule, and how a slug-check reply is shown.

The model follows the code as written, which does less than one might expect:

- Site listing in `checkSlug` reads a single page; there is no pagination.
- Every failure after the guards is a 500, except in `checkSlug`, which answers 200 `unknown` (`functions/src/index.ts`, lines 136-138); there is no finer error taxonomy.
- A conflicting site identifier is tolerated by the 409 body test alone.
- `sanitizeSiteId` is not idempotent. A cut at 30 characters can leave a trailing hyphen, which a second pass removes. `SiteId.SanitizeIdempotentIff` states exactly when it is idempotent.

## Model

| member | source | states |
|---|---|---|
| Text.Lower | privacy-sites/functions/src/index.ts:35 | `toLowerCase` keeps the length and maps each character (ASCII letters only) |
| Text.Trim | privacy-sites/functions/src/index.ts:230-231 | `trim` leaves the part of the input that starts after its leading white space, everything after the result is white space, and the result neither starts nor ends with JavaScript white space |
| SiteId.ReplaceInvalid | privacy-sites/functions/src/index.ts:35 | `[^a-z0-9-]` → `-` keeps the length, keeps every slug character, and puts `-` in place of every other character |
| SiteId.DropLeadingHyphens | privacy-sites/functions/src/index.ts:35 | the `^-+` removal takes a suffix, removes only hyphens, and leaves no leading hyphen |
| SiteId.DropTrailingHyphens | privacy-sites/functions/src/index.ts:35 | the `-+$` removal takes a prefix, removes only hyphens, and leaves no trailing hyphen |
| SiteId.CollapseHyphens | privacy-sites/functions/src/index.ts:35 | `-+` → `-` never lengthens the text |
| SiteId.CollapseStep | privacy-sites/functions/src/index.ts:35 | a second reading of `-+` → `-`, one character at a time: a hyphen followed by a hyphen is dropped, everything else kept (the partner of `CollapseHyphens`) |
| SiteId.CollapseIsStep | privacy-sites/functions/src/index.ts:35 | the run reading and the one-character reading of `-+` → `-` agree on every text |
| SiteId.CollapseAppend | privacy-sites/functions/src/index.ts:35 | the collapse of `a + b` is the collapse of `a` followed by that of `b`, whenever the join does not split a run of hyphens |
| SiteId.CollapseRun | privacy-sites/functions/src/index.ts:35 | a run of one or more hyphens becomes a single hyphen |
| SiteId.CollapseOther | privacy-sites/functions/src/index.ts:35 | a character other than a hyphen is kept |
| SiteId.TrimHyphens | privacy-sites/functions/src/index.ts:35 | `^-+\|-+$` → `` leaves a middle part of the text with no hyphen at either end, and everything dropped is a hyphen |
| SiteId.Cut | privacy-sites/functions/src/index.ts:35 | `.slice(0, 30)` keeps the first 30 characters, or all of them when there are fewer |
| SiteId.CollapseHyphensCanonical | privacy-sites/functions/src/index.ts:35 | `-+` → `-` leaves no two adjacent hyphens, keeps the first character, and keeps the alphabet |
| SiteId.SanitizeSiteId | privacy-sites/functions/src/index.ts:34-36 | the identifier has at most 30 characters from `[a-z0-9-]`, no double hyphen and no leading hyphen; a trailing hyphen only at length 30 |
| SiteId.CollapseOfNoDouble | privacy-sites/functions/src/index.ts:35 | collapsing text without double hyphens changes nothing |
| SiteId.SanitizeOfCanonical | privacy-sites/functions/src/index.ts:35 | on canonical text the sanitiser only drops trailing hyphens and cuts |
| SiteId.SanitizeIdempotentIff | privacy-sites/functions/src/index.ts:34-36 | sanitising twice equals sanitising once exactly when the first result has no trailing hyphen |
| SiteId.SanitizeNotIdempotentExample | privacy-sites/functions/src/index.ts:35 | 29 `a` then `-b` sanitises to 29 `a` and a hyphen, and then to 29 `a` |
| Placeholders.MatchAtoms | privacy-sites/functions/src/index.ts:44-50 | a pattern match consumes at most the text, and a literal consumes at least one character |
| Placeholders.FirstMatch | privacy-sites/functions/src/index.ts:51-52 | a match it reports lies inside the text, and the pattern matches there |
| Placeholders.FirstMatchLeftmost | privacy-sites/functions/src/index.ts:51-52 | the reported match is the leftmost one: no earlier position matches, and there is no match exactly when no position matches |
| Placeholders.Expand | privacy-sites/functions/src/index.ts:51-52 | the replacement string of `String.prototype.replace`: `$$`, `$&`, `` $` `` and `$'` are expanded, every other character is copied |
| Placeholders.ReplaceAll | privacy-sites/functions/src/index.ts:51-52 | a replace with the `g` flag: each leftmost match, scanning on after it, is replaced by the expanded value (`ReplaceNone`, `ReplaceOnce` and `ReplaceLeavesNoMatch` state its behaviour) |
| Placeholders.ReplaceEach | privacy-sites/functions/src/index.ts:51-52 | the replace passes of a pattern list, in list order, each on the result of the previous one (the loop of the method `ReplaceInTurn` is proved to compute it) |
| Placeholders.ExpandLiteral | privacy-sites/functions/src/index.ts:51-52 | a replacement value without `$` is inserted literally |
| Placeholders.SourcePatternsWellFormed | privacy-sites/functions/src/index.ts:44-50 | all thirteen placeholder patterns are in the form whose greedy `\s*` matching is exact |
| Placeholders.ReplaceLeavesNoMatch | privacy-sites/functions/src/index.ts:51-52 | a global replace by a value that cannot take part in a match leaves no match of the pattern behind |
| Placeholders.ReplaceEachKeepsNoMatch | privacy-sites/functions/src/index.ts:51-52 | later passes do not bring back a pattern that is absent, when the value cannot form it |
| Placeholders.ReplaceEachSplit | privacy-sites/functions/src/index.ts:51-52 | running the passes of `a + b` is running `a`'s passes and then `b`'s |
| Placeholders.ReplaceNone | privacy-sites/functions/src/index.ts:51-52 | a pass over text without a match leaves it unchanged |
| Placeholders.ReplaceOnce | privacy-sites/functions/src/index.ts:51-52 | a single match is replaced by the value, with the text around it kept |
| Placeholders.ReplaceEachNone | privacy-sites/functions/src/index.ts:51-52 | passes whose patterns do not occur leave the text unchanged |
| Placeholders.PassLeavesNoMatch | privacy-sites/functions/src/index.ts:51-52 | after the passes of a list, no match is left of a pattern in the list, when the value cannot form it |
| Placeholders.AppNameTokenReplaced | privacy-sites/functions/src/index.ts:47-52 | after filling, no `{{ APP_NAME }}` is left |
| Placeholders.EmailTokenReplaced | privacy-sites/functions/src/index.ts:50-52 | after filling with a non-empty e-mail that has no `$` and none of the characters `%`, `E`, `M`, `A`, `I`, `L`, no `%EMAIL%` is left |
| Placeholders.ReplaceInTurn | privacy-sites/functions/src/index.ts:51 | the `for … of` loop of replace passes computes the ordered passes |
| Placeholders.FillPlaceholders | privacy-sites/functions/src/index.ts:43-54 | the result is the name passes, in order, followed by the e-mail passes |
| PatternWords.SpacedMatchesWords | privacy-sites/functions/src/index.ts:45-46 | the atom matcher on `w1\s*w2…` agrees with matching the words with white space between them |
| PatternWords.MatchWordsJoined | privacy-sites/functions/src/index.ts:45-46 | words joined by white space match the pattern, over their whole length |
| PlaceholderExamples.AppNameCurlyMissesOuter | privacy-sites/functions/src/index.ts:45 | `/\{\s*app\s*name\s*\}/` does not match at the first brace of the text `{{app name}}` |
| PlaceholderExamples.AppNameCurlyMatchesInner | privacy-sites/functions/src/index.ts:45 | it does match the ten characters from the second brace on |
| PlaceholderExamples.DoubleBraceLeavesBraces | privacy-sites/functions/src/index.ts:43-54 | filling `{{app name}}` with `Foo` gives `{Foo}`: the single-brace pattern runs first |
| PlaceholderExamples.EmailSingleBracePassKeepsBraces | privacy-sites/functions/src/index.ts:50-52 | the first e-mail pass turns `{{email}}` into the value in braces |
| Templates.DigestWord | privacy-sites/functions/src/index.ts:40 | the big-endian word of the first four digest bytes, by the source's shifts and `\|` (its value is stated by the two lemmas below) |
| Templates.DigestWordIsSum | privacy-sites/functions/src/index.ts:40 | the shift-or of the four digest bytes is their big-endian sum |
| Templates.DigestWordBytes | privacy-sites/functions/src/index.ts:40 | each of the four bytes can be read back from the word |
| Templates.ToInt32 | privacy-sites/functions/src/index.ts:40 | `\| 0` gives the signed 32-bit value: it is in range, negative exactly when the top bit is set, and equal to the word modulo 2^32 |
| Templates.SeededIndex | privacy-sites/functions/src/index.ts:37-42 | 0 for `n <= 0`, else an index in `[0, n)` |
| Templates.SeededIndexUsesFourBytes | privacy-sites/functions/src/index.ts:39-41 | only the first four digest bytes decide the index |
| Templates.SeededIndexOfMinInt | privacy-sites/functions/src/index.ts:40-41 | the word `0x80000000` gives −2^31, and the index is 2^31 mod n |
| Templates.FallbackPolicyHtml | privacy-sites/functions/src/index.ts:55-58 | the fallback page starts with `<!doctype html>` and contains the app name and the e-mail |
| Templates.Today | privacy-sites/functions/src/index.ts:56 | the date is the first ten characters of the ISO time, or all of it when it is shorter |
| Templates.HtmlFiles | privacy-sites/functions/src/index.ts:63 | the filter keeps exactly the listed files that are templates |
| Templates.HtmlFilesAppend | privacy-sites/functions/src/index.ts:63 | the filter of `a + b` is the filter of `a` followed by the filter of `b`, so order and repeats are kept |
| Templates.HtmlFilesSingle | privacy-sites/functions/src/index.ts:63 | one file is kept exactly when it is a template |
| Templates.PrefixTestRedundant | privacy-sites/functions/src/index.ts:63 | the test against the prefix itself never removes a file that ends in `.html` |
| Templates.FindTemplate | privacy-sites/functions/src/index.ts:70 | `find` gives the first file whose name is the requested name or ends with `/` and it, or none when no file does |
| Templates.Requested | privacy-sites/functions/src/index.ts:68-71 | the file a template name resolves to is a listed file; it is not the first file only when its name matches; it is the first file when nothing matches, and when some file matches it is the first matching file in listing order (`find`) |
| Templates.LastSegment | privacy-sites/functions/src/index.ts:79 | `split("/").pop()` is a suffix with no `/`, preceded by a `/` when shorter than the name |
| Templates.BaseName | privacy-sites/functions/src/index.ts:79 | `split("/").pop() \|\| name` is a suffix of the name, with no `/` unless it is the whole name |
| Templates.BaseNameOfPath | privacy-sites/functions/src/index.ts:79 | the short name of `dir/base` is `base` |
| Templates.PickFile | privacy-sites/functions/src/index.ts:67-76 | the picked template is one of the listed files; which one is fixed per branch by `NamedPickIgnoresRandom` (the requested file), `RotatePickIsDraw` (the random draw) and `SeededPickIgnoresRandom` (the seeded index) |
| Templates.GetPolicyHtml | privacy-sites/functions/src/index.ts:60-80 | without templates, the fallback page named `fallback`; otherwise a listed template rendered with the placeholders filled, chosen by `PickFile` for some random draw |
| Templates.NamedPickIgnoresRandom | privacy-sites/functions/src/index.ts:69-71 | with a template name, the pick is the requested file whatever the random draw and `rotate` |
| Templates.RotatePickIsDraw | privacy-sites/functions/src/index.ts:72-75 | without a name and with `rotate`, the pick is the file at the random draw `crypto.randomInt(0, n)`, not the seeded one |
| Templates.SeededPickIgnoresRandom | privacy-sites/functions/src/index.ts:72-75 | without a name and without `rotate`, the pick is the file at the seeded index |
| Templates.UnknownNameGivesFirst | privacy-sites/functions/src/index.ts:68-71 | a name that matches nothing gives the first file |
| Templates.SeededPickStable | privacy-sites/functions/src/index.ts:37-42 | the same site identifier always gets the same template |
| AiOutput.StripFences | privacy-sites/functions/src/index.ts:231 | fence removal never lengthens the text |
| AiOutput.StripWithoutBacktick | privacy-sites/functions/src/index.ts:231 | text without a backtick is returned unchanged |
| AiOutput.StripKeepsPlainPrefix | privacy-sites/functions/src/index.ts:231 | a leading part without a backtick is kept as it is, and only the rest is cleaned |
| AiOutput.StripBareFence | privacy-sites/functions/src/index.ts:231 | a bare ``` that does not begin a ```html fence is removed, and removal goes on after it |
| AiOutput.StripHtmlFence | privacy-sites/functions/src/index.ts:231 | a ```html fence in any case is removed whole, and removal goes on after it |
| AiOutput.StripWrappedPage | privacy-sites/functions/src/index.ts:231 | a backtick-free page between a ```html fence and a closing ``` comes out as the page alone |
| AiOutput.StripLeavesNoFence | privacy-sites/functions/src/index.ts:231 | after fence removal no three backticks in a row are left |
| AiOutput.StripKeepsFirst | privacy-sites/functions/src/index.ts:231 | text that does not start with a backtick keeps its first character |
| AiOutput.HasDocumentRoot | privacy-sites/functions/src/index.ts:232 | the `/<!doctype|<html/i` test: either marker occurs in the lower-cased text (`DocTypeIsRoot` shows a page starting with `<!doctype html>` passes) |
| AiOutput.WithShell | privacy-sites/functions/src/index.ts:232-234 | the result has a document root; text that has one is unchanged; otherwise the shell comes first and the text ends the result |
| AiOutput.CleanedIsDocument | privacy-sites/functions/src/index.ts:230-234 | the cleaned answer has a document root and ends with the model's text, which has no fence left |
| AiOutput.PostProcess | privacy-sites/functions/src/index.ts:230-236 | the page is the cleaned answer with its placeholders filled |
| Hosting.Split | privacy-sites/functions/src/index.ts:117 | `split("/")` has at least one part |
| Hosting.SiteReady | privacy-sites/functions/src/index.ts:95-98 | the create-site step lets the run go on when the call succeeded or failed with the tolerated conflict |
| Hosting.UploadNeeded | privacy-sites/functions/src/index.ts:112 | the upload is needed exactly when the populate reply lists the page's hash among the required ones |
| Hosting.PhaseAfter | privacy-sites/functions/src/index.ts:93-121 | the phase machine: reads a record of calls back as the pipeline's progress, or as no run at all; every run contract below is stated through it |
| Hosting.SplitAtSlash | privacy-sites/functions/src/index.ts:117 | splitting `a/b` gives `a` and then the parts of `b` |
| Hosting.VersionIdOfName | privacy-sites/functions/src/index.ts:117 | `sites/S/versions/V` yields the version id `V` |
| Hosting.HostingApi.CreateSite | privacy-sites/functions/src/index.ts:94 | the call and its reply are appended to the log |
| Hosting.HostingApi.CreateVersion | privacy-sites/functions/src/index.ts:102-105 | the call, with the version configuration, and its reply are appended to the log |
| Hosting.HostingApi.PopulateFiles | privacy-sites/functions/src/index.ts:108-110 | the call, declaring the policy path and its hash, and its reply are appended to the log |
| Hosting.HostingApi.Upload | privacy-sites/functions/src/index.ts:113 | the upload and its reply are appended to the log |
| Hosting.HostingApi.Finalize | privacy-sites/functions/src/index.ts:118-120 | the finalize call and its reply are appended to the log |
| Hosting.HostingApi.CreateRelease | privacy-sites/functions/src/index.ts:121 | the release call and its reply are appended to the log |
| Hosting.PhaseAfterSnoc | privacy-sites/functions/src/index.ts:93-121 | appending the call a phase expects moves the pipeline to the next phase |
| Hosting.ShipVersion | privacy-sites/functions/src/index.ts:108-121 | from a log that brought the pipeline to the populate step, the calls it makes complete the run, and the outcome is the one the run ends in |
| Hosting.PublishToHosting | privacy-sites/functions/src/index.ts:82-122 | the calls made form a complete run of the pipeline for this site, page and hash, and the outcome is the one the run ends in |
| PublishProperties.ExpectedStep | privacy-sites/functions/src/index.ts:93-121 | a call has its phase's rank; the pipeline goes on exactly when the reply succeeded, and then to a later phase |
| PublishProperties.RunInOrder | privacy-sites/functions/src/index.ts:93-121 | the calls come in the order create-site, version, populate, upload, finalize, release, each at most once |
| PublishProperties.RunStartsWithSite | privacy-sites/functions/src/index.ts:94 | a run starts with create-site for the published identifier |
| PublishProperties.FailureEndsRun | privacy-sites/functions/src/index.ts:95-121 | every call but the last succeeded: a failure stops every later step |
| PublishProperties.UploadIffRequired | privacy-sites/functions/src/index.ts:112-115 | after a successful populate, the upload comes exactly when the platform asked for the hash, to `uploadUrl/hash` with the compressed page; otherwise finalize follows |
| PublishProperties.UploadOnlyWhenRequired | privacy-sites/functions/src/index.ts:112-115 | an upload only follows a populate that asked for it |
| PublishProperties.ReleaseAfterFinalize | privacy-sites/functions/src/index.ts:117-121 | a release directly follows a successful finalize and names the version the run created |
| PublishProperties.CompleteRun | privacy-sites/functions/src/index.ts:82-122 | a run publishes exactly when its last call is a release that succeeded |
| PublishProperties.SiteRejectionStops | privacy-sites/functions/src/index.ts:95-100 | a create-site failure other than the tolerated 409 ends the run with that reply |
| Hosting.AlreadyExists | privacy-sites/functions/src/index.ts:95-98 | the tolerance rule: status 409 and a body that says `already exists` or `already in use` in any case; the three lemmas below state what it lets through |
| PublishProperties.AlreadyExistsTolerated | privacy-sites/functions/src/index.ts:96-97 | a 409 whose body says `already exists` or `already in use` at some position, in any mix of cases, is tolerated |
| PublishProperties.OtherConflictFatal | privacy-sites/functions/src/index.ts:97 | a 409 whose body says neither phrase at any position, in any mix of cases, is fatal |
| PublishProperties.OnlyConflictTolerated | privacy-sites/functions/src/index.ts:97 | any other failed status is fatal whatever the body says |
| Endpoints.UrlsOf | privacy-sites/functions/src/index.ts:151-152 | each reported URL is `https://`, the identifier and the domain, then the path: `.web.app/`, `.firebaseapp.com/` and `.web.app/PrivacyPolicies` |
| Endpoints.CheckSlug | privacy-sites/functions/src/index.ts:125-140 | a POST always gets 200 with a status; any other method gets 405 |
| Endpoints.Classify | privacy-sites/functions/src/index.ts:128-138 | the status checkSlug reports: `invalid` for a slug failing `^[a-z0-9-]{4,30}$`, then `unknown` when the listing failed, then `taken_project` or `maybe_free` by the listing |
| Endpoints.Listed | privacy-sites/functions/src/index.ts:134 | a slug is listed when some listed site name ends with `/sites/` and the slug; an absent `sites` array lists nothing |
| Endpoints.CreatePolicySiteGuard | privacy-sites/functions/src/index.ts:144-146 | 405 for a method other than POST, then 400 when slug, product name or e-mail is missing or empty |
| Endpoints.PreviewTemplateGuard | privacy-sites/functions/src/index.ts:161-163 | 405 for a method other than POST, then 400 when product name or e-mail is missing or empty |
| Endpoints.PublishTemplateGuard | privacy-sites/functions/src/index.ts:174-176 | 405 for a method other than POST, then 400 when the slug is missing or empty |
| Endpoints.PreviewPolicyHtmlGuard | privacy-sites/functions/src/index.ts:241-243 | 405 for a method other than POST, then 400 when product name or e-mail is missing or empty |
| Endpoints.PublishAiPolicyGuard | privacy-sites/functions/src/index.ts:253-255 | 405 for a method other than POST, then 400 when slug or HTML is missing or empty |
| Endpoints.ClassifyInvalidIff | privacy-sites/functions/src/index.ts:128-129 | on a sanitised slug the `{4,30}` format test is exactly a length test |
| Endpoints.CheckSlugInvalidIff | privacy-sites/functions/src/index.ts:127-129 | `invalid` exactly when the slug sanitises to fewer than four characters, whatever the listing |
| Endpoints.CheckSlugTakenIff | privacy-sites/functions/src/index.ts:129-138 | for a valid slug, `taken_project` exactly when a listed site name ends with `/sites/<slug>`, `maybe_free` otherwise, `unknown` when the listing failed |
| Endpoints.NonPostRejected | privacy-sites/functions/src/index.ts:127 | every endpoint answers 405 to a method other than POST |
| Endpoints.GuardsRequireFields | privacy-sites/functions/src/index.ts:146 | each endpoint gives 400 exactly when one of its required fields is missing or empty (also lines 163, 176, 243, 255) |
| Endpoints.CreateAcceptsShortSlug | privacy-sites/functions/src/index.ts:146-147 | createPolicySite goes ahead with a one-character slug that checkSlug calls invalid |
| Endpoints.PublishTemplateSource | privacy-sites/functions/src/index.ts:178-182 | supplied HTML wins; otherwise the template is resolved only with name, e-mail and template name; otherwise there is no HTML |
| Endpoints.Utf8Length | privacy-sites/functions/src/index.ts:245 | the UTF-8 byte count is between one and four bytes per character |
| Endpoints.Utf8LengthOfAscii | privacy-sites/functions/src/index.ts:245 | ASCII text has one byte per character |
| Endpoints.PublishResponse | privacy-sites/functions/src/index.ts:149-155 | 200 with the site's URLs exactly when the release went out, else 500 with the error |
| Endpoints.PreviewId | privacy-sites/functions/src/index.ts:164 | a non-empty slug as it is; otherwise `preview-` followed by the first eight characters of the UUID (all of it when shorter) |
| Endpoints.CreatePolicySite | privacy-sites/functions/src/index.ts:142-157 | a guard answer changes nothing; otherwise a template pick for the sanitised slug, one complete publish run of that page, and a response that follows the run's outcome |
| Endpoints.PreviewTemplate | privacy-sites/functions/src/index.ts:159-170 | a guard answer, or 200 with a template pick for the sanitised preview identifier |
| Endpoints.PublishTemplate | privacy-sites/functions/src/index.ts:172-191 | a guard answer or `No html provided` changes nothing; supplied or re-resolved HTML is published in one complete run and the response follows its outcome |
| Endpoints.PreviewPolicyHtml | privacy-sites/functions/src/index.ts:239-249 | a guard answer; 500 when generation failed; otherwise the post-processed page and its UTF-8 byte count |
| Endpoints.PublishAiPolicy | privacy-sites/functions/src/index.ts:251-264 | a guard answer changes nothing; otherwise the HTML as sent is published in one complete run and the response follows its outcome |
| WebClient.SanitizeSlug | privacy-sites/web/main.js:15 | the page's slug chain: lower case, `[^a-z0-9-]` → `-`, `--+` → `-`, hyphens trimmed, cut at 30 (equal to the server's, by the next lemma) |
| WebClient.CollapseLongRuns | privacy-sites/web/main.js:15 | `--+` → `-`: a run of two or more hyphens becomes one, a lone hyphen stays |
| WebClient.GateOpen | privacy-sites/web/main.js:57-58 | the Create gate: trimmed name and e-mail non-empty and the sanitised trimmed slug non-empty |
| WebClient.CollapseLongRunsIsCollapse | privacy-sites/web/main.js:15 | collapsing `--+` gives the same text as collapsing `-+` |
| WebClient.SanitizeSlugIsServerSanitizer | privacy-sites/web/main.js:15 | the page's `sanitizeSlug` equals the server's `sanitizeSiteId` on every input |
| WebClient.GateSatisfiesServer | privacy-sites/web/main.js:157-162 | what passes the page's gate passes createPolicySite's and previewTemplate's field checks, and the server keeps the sent slug exactly when it has no trailing hyphen |
| WebClient.GatePreviewDiffers | privacy-sites/web/main.js:33-36 | the page can announce an address whose identifier differs from the one the server creates |
| WebClient.GateAllowsShortSlug | privacy-sites/web/main.js:57-58 | the gate accepts the slug `ab`, which checkSlug calls invalid |
| WebClient.WalkStaysInRange | privacy-sites/web/main.js:176-177 | whatever is clicked, the step index stays in `[0, 3]` |
| WebClient.Moved | privacy-sites/web/main.js:176-177 | Prev lowers the index only above 0, Next raises it only below 3 |
| WebClient.WalkSnoc | privacy-sites/web/main.js:176-177 | one more click moves the index by that click, and counts a prompt build exactly when it builds |
| WebClient.ReachingLastBuilds | privacy-sites/web/main.js:177 | reaching the last step from an earlier one builds the prompt on the way |
| WebClient.BuildOnlyOnArrival | privacy-sites/web/main.js:177 | buildPrompt runs exactly on a Next from step 2, which lands on step 3 |
| WebClient.Wizard.constructor | privacy-sites/web/main.js:69 | choosing the AI flow shows step 0 with Prev disabled and the preview button hidden |
| WebClient.Wizard.RenderSteps | privacy-sites/web/main.js:174 | only the current step's panel is shown |
| WebClient.Wizard.UpdateNav | privacy-sites/web/main.js:175 | Prev disabled iff step 0, Next hidden iff step 3, preview hidden iff not step 3 |
| WebClient.Wizard.Prev | privacy-sites/web/main.js:176 | the index drops only when above 0; the view stays consistent |
| WebClient.Wizard.Next | privacy-sites/web/main.js:177 | the index rises only when below 3, and the prompt is built exactly when it lands on 3 |
| WebClient.Toggled | privacy-sites/web/main.js:183 | the new value is `true` exactly when the old one was not `true` |
| WebClient.ToggleTwice | privacy-sites/web/main.js:183 | two clicks restore a pill exactly when it held `true` or `false` |
| WebClient.SelectedValues | privacy-sites/web/main.js:201 | the selection holds the value of every pressed pill and only values of the bar |
| WebClient.SelectedValuesAppend | privacy-sites/web/main.js:201 | the selection of two bars side by side is the first bar's selection followed by the second's, so document order is kept |
| WebClient.SelectedValuesSingle | privacy-sites/web/main.js:201 | one pill contributes its value exactly when it is pressed |
| WebClient.SingleSelection | privacy-sites/web/main.js:201-209 | after a single-select click the selection is the clicked pill's value alone |
| WebClient.ClickPill | privacy-sites/web/main.js:180-185 | multi-select flips the clicked pill and nothing else; single-select presses exactly the clicked pill |
| WebClient.ClearAll | privacy-sites/web/main.js:184 | the forEach leaves every pill unpressed |
| WebClient.ClickPreset | privacy-sites/web/main.js:90-93 | the preset becomes the clicked value and only that pill is pressed |
| WebClient.SlugReplyJson | privacy-sites/functions/src/index.ts:129-138 | the checkSlug reply object has the single key `status` |
| WebClient.ShownAsWritten | privacy-sites/web/main.js:49 | the page's reading of a reply: no reply is "could not verify", a truthy `available` key is "available", anything else "may be taken" (the same test is at lines 101-103) |
| WebClient.AvailableNeverShown | privacy-sites/web/main.js:49 | every checkSlug reply is shown as "may be taken" (the same test is at lines 101-102 and 196) |
| WebClient.ShownByStatus | privacy-sites/web/main.js:101-103 | the corrected reading of a reply: no reply is "could not verify", status `maybe_free` is "available", anything else "may be taken" |
| WebClient.ShownByStatusIff | privacy-sites/web/main.js:101-102 | read by its status, a reply shows "available" exactly when checkSlug answered `maybe_free` |

## Findings

| source | as written | input that shows it | evidently intended | confidence | as-written member | corrected member |
|---|---|---|---|---|---|---|
| privacy-sites/web/main.js:49 | the slug-check handlers test `j.available`, but checkSlug only sends `{status}` (index.ts:135) | any slug, e.g. `my-app-1` with no such site listed (`maybe_free`) | show "available" when the status is `maybe_free` | high; not executed | WebClient.AvailableNeverShown | WebClient.ShownByStatusIff |

## Left out

- Network access, Google authentication and access tokens are not modelled. Each remote reply is chosen freely by the `HostingApi` methods.
- A failed token fetch in `publishToHosting` (`functions/src/index.ts`, lines 88-89) stops the function before any remote call. The model can only show it as a create-site call without a reply, so in that case `RunStartsWithSite` records a create-site call the program never made.
- Storage failures in `getPolicyHTML` (`functions/src/index.ts`, lines 61-62 and 78) are not modelled: the listing and the download always succeed. In createPolicySite, previewTemplate and publishTemplate such a failure would end in a 500.
- URL construction and `encodeURIComponent` are left out. Calls are recorded by their arguments, not by their URLs.
- gzip and SHA-256 are parameters, as `gzip`, `sha256Hex` and `sha256`, because they are foreign code. The model relies only on `sha256` giving 32 bytes.
- The storage listing is an input. The template download is the file's stored text.
- The numeric `localeCompare` sort of the listing is not modelled. The model takes the list in the order given, already sorted.
- `crypto.randomInt`, `crypto.randomUUID` and `new Date()` are not modelled. They become a nondeterministic choice, a parameter and a parameter.
- The text model call and the prompt text are left out: the prompt in `generateAiPolicyHtmlPreview` and in `buildPrompt`, the tone, variation and style pack. The model's answer is a parameter. A missing API key is part of a failed call.
- Case mapping covers ASCII only. `toLowerCase` and the `i` flag on non-ASCII letters are not modelled.
- Request bodies are reduced to string or boolean fields. Non-string JSON values, whose use would throw inside the handlers, are not modelled.
- The text of error messages is not modelled. A 500 carries the modelled error, not its message.
- DOM handling in the page is left out. That covers element lookup, the modal, `srcdoc`, `alert`, `debounce` timers, `readHtml`, the address preview text, the reset button and the random slug generators (`genSlug`, `genAiSlug`).
- The `fetch` calls from the page to the endpoints are not modelled. Only the page's gate and its reading of the slug-check reply are.
- `tools/generate-icons.mjs` is not part of this model.
- Concurrent publishes to the same site, and the platform's own behaviour across calls, are not modelled.
- The request bodies the page sends include fields the server ignores, `preset` and `prompt`, so those are not modelled.
- Placeholders.EmailTokenReplaced: proved only for a non-empty e-mail with no `$` and none of the characters `%`, `E`, `M`, `A`, `I`, `L`. Other values can recreate the token: filling `%%EMAIL%MAIL%` with `E` gives `%EMAIL%`.
- Placeholders.AppNameTokenReplaced: proved only for values that have no `$` and cannot take part in a match of the token. Other values can recreate the token.
