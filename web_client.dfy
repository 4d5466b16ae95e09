// The parts of web/main.js that decide something: the client's copy of the
// slug sanitiser, the required-field gates, the four-step wizard of the AI
// flow, the pillbar selection rule, and how a slug-check reply is shown.
// Everything else in the page script only moves values between the DOM and
// the endpoints.

module WebClient {
  import opened Text
  import opened Optional
  import opened SiteId
  import opened Hosting
  import opened Endpoints

  // ---------------------------------------------------------------------
  // sanitizeSlug

  /** `.replace(/--+/g, "-")`: a run of two or more hyphens becomes one; a
      lone hyphen is left as it is. */
  function CollapseLongRuns(s: string): string
    decreases |s|
  {
    if s == [] then []
    else if |s| >= 2 && s[0] == '-' && s[1] == '-' then "-" + CollapseLongRuns(DropLeadingHyphens(s))
    else [s[0]] + CollapseLongRuns(s[1..])
  }

  /** Collapsing runs of two or more and collapsing runs of one or more
      give the same text: a lone hyphen is its own collapse. */
  lemma {:induction false} CollapseLongRunsIsCollapse(s: string)
    ensures CollapseLongRuns(s) == CollapseHyphens(s)
    decreases |s|
  {
    if s == [] {
    } else if |s| >= 2 && s[0] == '-' && s[1] == '-' {
      CollapseLongRunsIsCollapse(DropLeadingHyphens(s));
    } else if s[0] == '-' {
      assert DropLeadingHyphens(s) == s[1..] by {
        if |s| >= 2 {
          assert s[1..][0] != '-';
        }
      }
      CollapseLongRunsIsCollapse(s[1..]);
    } else {
      CollapseLongRunsIsCollapse(s[1..]);
    }
  }

  /** sanitizeSlug, the page's copy of the server's sanitiser. */
  function SanitizeSlug(s: string): string {
    Cut(TrimHyphens(CollapseLongRuns(ReplaceInvalid(Lower(s)))))
  }

  /** The page and the server agree on every identifier. */
  lemma SanitizeSlugIsServerSanitizer(s: string)
    ensures SanitizeSlug(s) == SanitizeSiteId(s)
  {
    CollapseLongRunsIsCollapse(ReplaceInvalid(Lower(s)));
  }

  // ---------------------------------------------------------------------
  // Required-field gates

  /** The test shared by the gate's Continue, Preview and Create buttons:
      trimmed name and e-mail, and the sanitised trimmed slug, all non-empty. */
  predicate GateOpen(name: string, email: string, slug: string) {
    Trim(name) != [] && Trim(email) != [] && SanitizeSlug(Trim(slug)) != []
  }

  /** The body the Create button sends once the gate is open. */
  function CreateRequest(name: string, email: string, slug: string): Body {
    Body(Some(SanitizeSlug(Trim(slug))), Some(Trim(name)), Some(Trim(email)), None, None, None)
  }

  /** What passes the gate passes createPolicySite's and previewTemplate's
      own field checks. The server sanitises the slug the page already
      sanitised, and keeps it exactly when it does not end in a hyphen. */
  lemma GateSatisfiesServer(name: string, email: string, slug: string)
    requires GateOpen(name, email, slug)
    ensures CreatePolicySiteGuard("POST", CreateRequest(name, email, slug)).None?
    ensures PreviewTemplateGuard("POST", CreateRequest(name, email, slug)).None?
    ensures var sent := SanitizeSlug(Trim(slug));
      SanitizeSiteId(sent) == sent <==> NoTrailingHyphen(sent)
  {
    SanitizeSlugIsServerSanitizer(Trim(slug));
    SanitizeIdempotentIff(Trim(slug));
  }

  /** The gate's address preview can name a site other than the one the
      server creates: the page cuts the slug to 30 characters and may leave
      a hyphen at the end, which the server then removes. */
  lemma GatePreviewDiffers()
    ensures var slug := seq(29, _ => 'a') + "-b";
      var sent := SanitizeSlug(slug);
      sent == seq(29, _ => 'a') + "-" && SanitizeSiteId(sent) == seq(29, _ => 'a')
  {
    var slug := seq(29, _ => 'a') + "-b";
    SanitizeSlugIsServerSanitizer(slug);
    SanitizeNotIdempotentExample();
  }

  /** The gate lets through slugs that checkSlug calls invalid: it only asks
      for a non-empty slug. */
  lemma GateAllowsShortSlug(name: string, email: string, slug: string, listing: Fetched<SiteListing>)
    requires name == "App" && email == "me@example.com" && slug == "ab"
    ensures GateOpen(name, email, slug)
    ensures CheckSlug("POST", Some(slug), listing).payload == SlugJson(Invalid)
  {
    PlainExample(name);
    PlainExample(email);
    PlainExample(slug);
    SanitizeOfAb(slug);
    SanitizeSlugIsServerSanitizer(slug);
    CheckSlugInvalidIff(Some(slug), listing, listing);
  }

  /** The example values have no white space at either end. */
  lemma PlainExample(s: string)
    requires s == "App" || s == "me@example.com" || s == "ab"
    ensures Trim(s) == s
  {
    TrimOfPlain(s);
  }

  lemma SanitizeOfAb(s: string)
    requires s == "ab"
    ensures SanitizeSiteId(s) == s && |s| == 2
  {
    assert Canonical(s);
    SanitizeOfCanonical(s);
    assert DropTrailingHyphens(s) == s;
  }

  /** Text with no white space at either end is its own trim. */
  lemma TrimOfPlain(s: string)
    requires s != [] && !IsSpace(s[0]) && !IsSpace(s[|s| - 1])
    ensures Trim(s) == s
  {
    assert LeadingSpaces(s) == 0;
    assert TrimStart(s) == s;
  }

  // ---------------------------------------------------------------------
  // The AI wizard

  /** The index of the last of the four steps. */
  const LastStep := 3

  datatype Move = Back | Forward

  /** aiPrev and aiNext on the step index. */
  function Moved(i: int, m: Move): int {
    match m
    case Back => if i > 0 then i - 1 else i
    case Forward => if i < LastStep then i + 1 else i
  }

  /** Whether the move is the one that runs buildPrompt: a Next that lands
      on the last step. */
  predicate Builds(i: int, m: Move) {
    m == Forward && i < LastStep && i + 1 == LastStep
  }

  /** The step index after a series of clicks. */
  function Walk(i: int, ms: seq<Move>): int
    decreases |ms|
  {
    if ms == [] then i else Walk(Moved(i, ms[0]), ms[1..])
  }

  /** How many times buildPrompt ran along those clicks. */
  function BuildCount(i: int, ms: seq<Move>): nat
    decreases |ms|
  {
    if ms == [] then 0 else (if Builds(i, ms[0]) then 1 else 0) + BuildCount(Moved(i, ms[0]), ms[1..])
  }

  /** Walking one more click. */
  lemma {:induction false} WalkSnoc(i: int, ms: seq<Move>, m: Move)
    ensures Walk(i, ms + [m]) == Moved(Walk(i, ms), m)
    ensures BuildCount(i, ms + [m]) == BuildCount(i, ms) + (if Builds(Walk(i, ms), m) then 1 else 0)
    decreases |ms|
  {
    if ms != [] {
      assert (ms + [m])[1..] == ms[1..] + [m];
      WalkSnoc(Moved(i, ms[0]), ms[1..], m);
    }
  }

  /** The index never leaves the four steps, whatever is clicked. */
  lemma {:induction false} WalkStaysInRange(i: int, ms: seq<Move>)
    requires 0 <= i <= LastStep
    ensures 0 <= Walk(i, ms) <= LastStep
    decreases |ms|
  {
    if ms != [] {
      WalkStaysInRange(Moved(i, ms[0]), ms[1..]);
    }
  }

  /** Reaching the last step from an earlier one means the prompt was built
      on the way. */
  lemma {:induction false} ReachingLastBuilds(i: int, ms: seq<Move>)
    requires 0 <= i < LastStep && Walk(i, ms) == LastStep
    ensures BuildCount(i, ms) >= 1
    decreases |ms|
  {
    var j := Moved(i, ms[0]);
    if !Builds(i, ms[0]) {
      ReachingLastBuilds(j, ms[1..]);
    }
  }

  /** The prompt is only built by arriving: no click made while on the last
      step builds it, and Back never does. */
  lemma BuildOnlyOnArrival(i: int, m: Move)
    requires 0 <= i <= LastStep
    ensures Builds(i, m) <==> m == Forward && i == LastStep - 1
    ensures Builds(i, m) ==> Moved(i, m) == LastStep
  {
  }

  /** The controls updateNav sets for a step. */
  datatype Nav = Nav(prevDisabled: bool, nextHidden: bool, previewHidden: bool)

  /** The AI flow's wizard: the step index, which panel shows, the state of
      the navigation buttons, and how often buildPrompt ran. `clicks` is the
      history the state is the result of. */
  class Wizard {
    var stepIndex: int
    var panelHidden: seq<bool>
    var nav: Nav
    var promptBuilds: nat
    ghost var clicks: seq<Move>

    ghost predicate Valid()
      reads this
    {
      stepIndex == Walk(0, clicks) && promptBuilds == BuildCount(0, clicks) &&
      0 <= stepIndex <= LastStep &&
      |panelHidden| == LastStep + 1 && (forall k :: 0 <= k < |panelHidden| ==> (panelHidden[k] <==> k != stepIndex)) &&
      nav == Nav(stepIndex == 0, stepIndex == LastStep, stepIndex != LastStep)
    }

    /** Choosing the AI flow: step 0, rendered, navigation updated. */
    constructor ()
      ensures Valid() && stepIndex == 0 && clicks == [] && promptBuilds == 0
      ensures nav == Nav(true, false, true)
    {
      stepIndex := 0;
      promptBuilds := 0;
      clicks := [];
      panelHidden := [false, true, true, true];
      nav := Nav(true, false, true);
    }

    /** renderSteps: only the current step's panel shows. */
    method RenderSteps()
      modifies this
      requires 0 <= stepIndex <= LastStep
      ensures |panelHidden| == LastStep + 1
      ensures forall k :: 0 <= k < |panelHidden| ==> (panelHidden[k] <==> k != stepIndex)
      ensures stepIndex == old(stepIndex) && nav == old(nav) && promptBuilds == old(promptBuilds) && clicks == old(clicks)
    {
      var hidden: seq<bool> := [];
      for k := 0 to LastStep + 1
        invariant |hidden| == k
        invariant forall j :: 0 <= j < k ==> (hidden[j] <==> j != stepIndex)
      {
        hidden := hidden + [k != stepIndex];
      }
      panelHidden := hidden;
    }

    /** updateNav. */
    method UpdateNav()
      modifies this
      ensures nav == Nav(stepIndex == 0, stepIndex == LastStep, stepIndex != LastStep)
      ensures stepIndex == old(stepIndex) && panelHidden == old(panelHidden)
      ensures promptBuilds == old(promptBuilds) && clicks == old(clicks)
    {
      nav := Nav(stepIndex == 0, stepIndex == LastStep, stepIndex != LastStep);
    }

    /** aiPrev's click handler. */
    method Prev()
      modifies this
      requires Valid()
      ensures Valid() && clicks == old(clicks) + [Back]
      ensures stepIndex == Moved(old(stepIndex), Back) && promptBuilds == old(promptBuilds)
    {
      WalkSnoc(0, clicks, Back);
      clicks := clicks + [Back];
      if stepIndex > 0 {
        stepIndex := stepIndex - 1;
        RenderSteps();
        UpdateNav();
      }
    }

    /** aiNext's click handler; `built` tells whether buildPrompt ran. */
    method Next() returns (built: bool)
      modifies this
      requires Valid()
      ensures Valid() && clicks == old(clicks) + [Forward]
      ensures stepIndex == Moved(old(stepIndex), Forward)
      ensures built <==> old(stepIndex) < LastStep && stepIndex == LastStep
      ensures promptBuilds == old(promptBuilds) + (if built then 1 else 0)
    {
      WalkSnoc(0, clicks, Forward);
      clicks := clicks + [Forward];
      built := false;
      if stepIndex < LastStep {
        stepIndex := stepIndex + 1;
        if stepIndex == LastStep {
          promptBuilds := promptBuilds + 1;
          built := true;
        }
        RenderSteps();
        UpdateNav();
      }
    }
  }

  // ---------------------------------------------------------------------
  // Pillbars

  /** A multi-select click's new `aria-pressed` value. */
  function Toggled(v: string): (r: string)
    ensures r == "true" <==> v != "true"
    ensures r == "true" || r == "false"
  {
    if v == "true" then "false" else "true"
  }

  /** Two clicks on a pill restore it exactly when it held one of the two
      values the bar writes. */
  lemma ToggleTwice(v: string)
    ensures Toggled(Toggled(v)) == v <==> v == "true" || v == "false"
  {
  }

  /** The values of the pressed pills, in order (selectedValues). */
  function SelectedValues(values: seq<string>, pressed: seq<string>): (r: seq<string>)
    requires |values| == |pressed|
    ensures |r| <= |values|
    ensures forall v :: v in r ==> v in values
    ensures forall j :: 0 <= j < |values| && pressed[j] == "true" ==> values[j] in r
  {
    if values == [] then []
    else
      var rest := SelectedValues(values[1..], pressed[1..]);
      assert forall j :: 1 <= j < |values| ==> values[j] == values[1..][j - 1] && pressed[j] == pressed[1..][j - 1];
      (if pressed[0] == "true" then [values[0]] else []) + rest
  }

  /** The selection keeps the order of the bar: the selection of two runs
      of pills is the first run's followed by the second's. */
  lemma {:induction false} SelectedValuesAppend(v1: seq<string>, p1: seq<string>, v2: seq<string>, p2: seq<string>)
    requires |v1| == |p1| && |v2| == |p2|
    ensures SelectedValues(v1 + v2, p1 + p2) == SelectedValues(v1, p1) + SelectedValues(v2, p2)
    decreases |v1|
  {
    if v1 == [] {
      assert v1 + v2 == v2 && p1 + p2 == p2;
    } else {
      assert (v1 + v2)[1..] == v1[1..] + v2 && (p1 + p2)[1..] == p1[1..] + p2;
      SelectedValuesAppend(v1[1..], p1[1..], v2, p2);
    }
  }

  /** A single pill contributes its value exactly when it is pressed. */
  lemma SelectedValuesSingle(v: string, p: string)
    ensures SelectedValues([v], [p]) == if p == "true" then [v] else []
  {
    assert [v][1..] == [] && [p][1..] == [];
  }

  /** After a single-select click, the bar's selection is the clicked pill
      alone; so buildPrompt's tone is the clicked value. */
  lemma {:induction false} SingleSelection(values: seq<string>, pressed: seq<string>, clicked: nat)
    requires |values| == |pressed| && clicked < |pressed|
    requires forall j :: 0 <= j < |pressed| ==> pressed[j] == (if j == clicked then "true" else "false")
    ensures SelectedValues(values, pressed) == [values[clicked]]
    decreases |values|
  {
    if clicked > 0 {
      SingleSelection(values[1..], pressed[1..], clicked - 1);
    } else {
      NoneSelected(values[1..], pressed[1..]);
    }
  }

  lemma {:induction false} NoneSelected(values: seq<string>, pressed: seq<string>)
    requires |values| == |pressed|
    requires forall j :: 0 <= j < |pressed| ==> pressed[j] == "false"
    ensures SelectedValues(values, pressed) == []
    decreases |values|
  {
    if values != [] {
      NoneSelected(values[1..], pressed[1..]);
    }
  }

  /** A click on pill `clicked` of a bar whose pills hold `pressed`
      (bindPillbar). A multi-select bar flips that pill alone; a
      single-select bar clears every pill and presses the clicked one. */
  method ClickPill(pressed: array<string>, clicked: nat, multi: bool)
    modifies pressed
    requires clicked < pressed.Length
    ensures multi ==> pressed[clicked] == Toggled(old(pressed[clicked]))
    ensures multi ==> forall j :: 0 <= j < pressed.Length && j != clicked ==> pressed[j] == old(pressed[j])
    ensures !multi ==> forall j :: 0 <= j < pressed.Length ==> pressed[j] == (if j == clicked then "true" else "false")
  {
    if multi {
      pressed[clicked] := Toggled(pressed[clicked]);
    } else {
      ClearAll(pressed);
      pressed[clicked] := "true";
    }
  }

  /** Every pill of the bar to "false", one after the other. */
  method ClearAll(pressed: array<string>)
    modifies pressed
    ensures forall j :: 0 <= j < pressed.Length ==> pressed[j] == "false"
  {
    for k := 0 to pressed.Length
      invariant forall j :: 0 <= j < k ==> pressed[j] == "false"
    {
      pressed[k] := "false";
    }
  }

  /** The preset bar of the fast flow: a single-select bar whose click also
      makes the clicked pill's value the preset. */
  method ClickPreset(pressed: array<string>, values: seq<string>, clicked: nat) returns (preset: string)
    modifies pressed
    requires clicked < pressed.Length == |values|
    ensures preset == values[clicked]
    ensures forall j :: 0 <= j < pressed.Length ==> pressed[j] == (if j == clicked then "true" else "false")
    ensures SelectedValues(values, pressed[..]) == [preset]
  {
    preset := values[clicked];
    for k := 0 to pressed.Length
      invariant forall j :: 0 <= j < k ==> pressed[j] == (if j == clicked then "true" else "false")
      invariant forall j :: k <= j < pressed.Length ==> pressed[j] == old(pressed[j])
    {
      pressed[k] := if k == clicked then "true" else "false";
    }
    SingleSelection(values, pressed[..], clicked);
  }

  // ---------------------------------------------------------------------
  // Showing a slug-check reply

  /** A JSON value as the page reads it. */
  datatype Json = JString(s: string) | JBool(b: bool)

  function JsonTruthy(v: Json): bool {
    match v
    case JString(s) => s != []
    case JBool(b) => b
  }

  /** The JSON object checkSlug sends for a POST. */
  function SlugReplyJson(p: Payload): (j: map<string, Json>)
    requires p.SlugJson?
    ensures j.Keys == {"status"}
  {
    map["status" := JString(StatusName(p.status))]
  }

  datatype SlugMessage = LooksAvailable | MayBeTaken | CouldNotVerify

  /** The three slug-check handlers: `j.available ? … : …`, and the catch
      for a reply that could not be fetched or parsed (None). */
  function ShownAsWritten(reply: Option<map<string, Json>>): SlugMessage {
    if reply.None? then CouldNotVerify
    else if "available" in reply.value && JsonTruthy(reply.value["available"]) then LooksAvailable
    else MayBeTaken
  }

  /** No checkSlug answer is ever shown as available: the page reads a key
      the server does not send. */
  lemma AvailableNeverShown(slug: Option<string>, listing: Fetched<SiteListing>)
    ensures ShownAsWritten(Some(SlugReplyJson(CheckSlug("POST", slug, listing).payload))) == MayBeTaken
  {
    NoAvailableKey(CheckSlug("POST", slug, listing).payload);
  }

  lemma NoAvailableKey(r: Payload)
    requires r.SlugJson?
    ensures ShownAsWritten(Some(SlugReplyJson(r))) == MayBeTaken
  {
    var j := SlugReplyJson(r);
    assert "available" !in j.Keys;
  }

  /** The reading the handlers evidently intend: available when the server
      found no site of that name. */
  function ShownByStatus(reply: Option<map<string, Json>>): SlugMessage {
    if reply.None? then CouldNotVerify
    else if "status" in reply.value && reply.value["status"] == JString(StatusName(MaybeFree)) then LooksAvailable
    else MayBeTaken
  }

  /** Read by its status, a reply says available exactly when checkSlug
      found the slug well formed and unlisted. */
  lemma ShownByStatusIff(slug: Option<string>, listing: Fetched<SiteListing>)
    ensures var r := CheckSlug("POST", slug, listing).payload;
      ShownByStatus(Some(SlugReplyJson(r))) == LooksAvailable <==> r == SlugJson(MaybeFree)
  {
    var r := CheckSlug("POST", slug, listing).payload;
    ShownByStatusOfReply(r);
  }

  lemma ShownByStatusOfReply(r: Payload)
    requires r.SlugJson?
    ensures ShownByStatus(Some(SlugReplyJson(r))) == LooksAvailable <==> r == SlugJson(MaybeFree)
  {
    var j := SlugReplyJson(r);
    assert "status" in j && j["status"] == JString(StatusName(r.status));
    StatusNameOfMaybeFree(r.status);
  }

  /** Only `maybe_free` is spelled "maybe_free". */
  lemma StatusNameOfMaybeFree(st: SlugStatus)
    ensures StatusName(st) == "maybe_free" <==> st == MaybeFree
  {
    match st
    case Invalid => assert |StatusName(st)| == 7;
    case TakenProject => assert |StatusName(st)| == 13;
    case MaybeFree =>
    case Unknown => assert |StatusName(st)| == 7;
  }
}
