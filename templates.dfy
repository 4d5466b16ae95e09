// Template selection in functions/src/index.ts: seededIndex, the built-in
// fallback page, and getPolicyHTML, which picks a stored template (by name,
// at random, or by a hash of the site identifier) and fills its
// placeholders.
//
// SHA-256, the storage listing and download, the clock and the random
// source are not modelled: their results are parameters.

module Templates {
  import opened Text
  import opened Optional
  import opened Placeholders

  // ---------------------------------------------------------------------
  // seededIndex

  /** `(h[0] << 24) | (h[1] << 16) | (h[2] << 8) | h[3]`: the first four
      digest bytes as one big-endian 32-bit word. */
  function DigestWord(h: seq<bv8>): bv32
    requires |h| >= 4
  {
    (h[0] as bv32 << 24) | (h[1] as bv32 << 16) | (h[2] as bv32 << 8) | h[3] as bv32
  }

  /** The bytes occupy disjoint bits, so the `|` chain is a sum. */
  lemma DigestWordIsSum(h: seq<bv8>)
    requires |h| >= 4
    ensures DigestWord(h) == h[0] as bv32 * 0x100_0000 + h[1] as bv32 * 0x1_0000 + h[2] as bv32 * 0x100 + h[3] as bv32
  {
  }

  /** The word keeps each of the four bytes: reading them back gives them. */
  lemma DigestWordBytes(h: seq<bv8>)
    requires |h| >= 4
    ensures (DigestWord(h) >> 24) as bv8 == h[0]
    ensures ((DigestWord(h) >> 16) & 0xFF) as bv8 == h[1]
    ensures ((DigestWord(h) >> 8) & 0xFF) as bv8 == h[2]
    ensures (DigestWord(h) & 0xFF) as bv8 == h[3]
  {
  }

  /** `| 0`: the word read as a signed 32-bit integer. */
  function ToInt32(w: bv32): (r: int)
    ensures -0x8000_0000 <= r < 0x8000_0000
    ensures r < 0 <==> w as int >= 0x8000_0000
    ensures w as int == if r < 0 then r + 0x1_0000_0000 else r
  {
    var u := w as int;
    if u < 0x8000_0000 then u else u - 0x1_0000_0000
  }

  /** `Math.abs`, which on -2^31 gives 2^31 (the result is a double, not a
      32-bit integer). */
  function Abs(x: int): (r: nat)
    ensures r == x || r == -x
  {
    if x < 0 then -x else x
  }

  /** seededIndex(key, n), given the SHA-256 digest of `key`. */
  function SeededIndex(digest: seq<bv8>, n: int): (r: int)
    requires |digest| == 32
    ensures n <= 0 ==> r == 0
    ensures n > 0 ==> 0 <= r < n
  {
    if n <= 0 then 0 else Abs(ToInt32(DigestWord(digest))) % n
  }

  /** Only the first four digest bytes take part in the choice. */
  lemma SeededIndexUsesFourBytes(d1: seq<bv8>, d2: seq<bv8>, n: int)
    requires |d1| == 32 && |d2| == 32 && d1[..4] == d2[..4]
    ensures SeededIndex(d1, n) == SeededIndex(d2, n)
  {
    assert d1[0] == d2[0] && d1[1] == d2[1] && d1[2] == d2[2] && d1[3] == d2[3] by {
      assert forall i :: 0 <= i < 4 ==> d1[i] == d1[..4][i] && d2[i] == d2[..4][i];
    }
  }

  /** A digest starting 80 00 00 00 gives -2^31, whose absolute value 2^31
      is still non-negative; the index is 2^31 mod n. */
  lemma SeededIndexOfMinInt(digest: seq<bv8>, n: int)
    requires |digest| == 32 && digest[0] == 0x80 && digest[1] == 0 && digest[2] == 0 && digest[3] == 0
    requires n > 0
    ensures ToInt32(DigestWord(digest)) == -0x8000_0000
    ensures SeededIndex(digest, n) == 0x8000_0000 % n
  {
    assert DigestWord(digest) == 0x8000_0000;
  }

  // ---------------------------------------------------------------------
  // Document text

  const DocType := "<!doctype html>"

  /** What follows `<!doctype html>` up to the title text, in both the
      fallback page and the shell put around AI output. */
  const Prologue := "<html lang=\"en\"><meta charset=\"utf-8\"><meta name=\"viewport\" content=\"width=device-width,initial-scale=1\"><title>Privacy Policy \U{2014} "

  /** `<!doctype html>…<title>Privacy Policy — name</title>`. */
  function TitledHead(name: string): (r: string)
    ensures StartsWith(r, DocType)
  {
    assert (DocType + Prologue + name + "</title>")[..|DocType|] == DocType;
    DocType + Prologue + name + "</title>"
  }

  /** `new Date().toISOString().slice(0, 10)`: the date part of the time. */
  function Today(isoNow: string): (r: string)
    ensures |r| == if |isoNow| < 10 then |isoNow| else 10
    ensures StartsWith(isoNow, r)
  {
    if |isoNow| <= 10 then isoNow else isoNow[..10]
  }

  lemma ContainsMiddle(a: string, t: string, b: string)
    ensures Contains(a + t + b, t)
  {
    ContainsAt(a + t + b, t, |a|);
  }

  const FallbackStyle := "<style>body{font-family:system-ui;margin:40px;max-width:860px}</style><body><h1>Privacy Policy</h1><p><strong>App:</strong> "
  const FallbackUpdated := " \U{00B7} <strong>Last Updated:</strong> "
  const FallbackCollect := "</p><p>We collect minimal information necessary to operate and improve "
  const FallbackContact := ". For questions contact <a href=\"mailto:"
  const FallbackEnd := "</a>.</p></body></html>"

  /** The body of the fallback page up to the link text. */
  function FallbackBody(appName: string, email: string, isoNow: string): string {
    FallbackStyle + appName + FallbackUpdated + Today(isoNow) + FallbackCollect + appName
      + FallbackContact + email + "\">"
  }

  /** fallbackPolicyHTML: a small page naming the app and the contact
      address. Neither value is escaped. */
  function FallbackPolicyHtml(appName: string, email: string, isoNow: string): (r: string)
    ensures StartsWith(r, DocType)
    ensures Contains(r, appName) && Contains(r, email)
  {
    var head := TitledHead(appName);
    var body := FallbackBody(appName, email, isoNow);
    var tail := email + FallbackEnd;
    FallbackParts(head, body, tail, appName, email);
    head + body + tail
  }

  /** The three parts of the fallback page: the head names the app, the
      tail starts with the e-mail address. */
  lemma FallbackParts(head: string, body: string, tail: string, appName: string, email: string)
    requires head == TitledHead(appName) && tail == email + FallbackEnd
    ensures StartsWith(head + body + tail, DocType)
    ensures Contains(head + body + tail, appName) && Contains(head + body + tail, email)
  {
    ContainsMiddle(DocType + Prologue, appName, "</title>");
    assert tail[..|email|] == email;
    StartsWithContains(tail, email);
    PartsCarry(head, body, tail, appName, email);
  }

  /** What the first part starts with and contains, and what the last part
      contains, the whole page does too. */
  lemma PartsCarry(head: string, body: string, tail: string, appName: string, email: string)
    requires StartsWith(head, DocType) && Contains(head, appName) && Contains(tail, email)
    ensures StartsWith(head + body + tail, DocType)
    ensures Contains(head + body + tail, appName) && Contains(head + body + tail, email)
  {
    var r := head + body + tail;
    assert head + (body + tail) == r;
    assert r[..|DocType|] == head[..|DocType|];
    ContainsInConcat(head, body + tail, appName);
    ContainsInConcat(tail, head + body, email);
  }

  // ---------------------------------------------------------------------
  // getPolicyHTML

  /** A stored object: its full name (with the `policy-templates/` prefix)
      and its text. */
  datatype StoredFile = StoredFile(name: string, content: string)

  /** What getPolicyHTML returns: the page and the template's short name. */
  datatype PolicyPick = PolicyPick(html: string, templateName: string)

  const TemplatesPrefix := "policy-templates/"

  /** The filter on the listing: `.html` files other than the prefix itself. */
  predicate IsTemplate(f: StoredFile) {
    EndsWith(f.name, ".html") && f.name != TemplatesPrefix
  }

  function HtmlFiles(files: seq<StoredFile>): (r: seq<StoredFile>)
    ensures |r| <= |files|
    ensures forall f :: f in r <==> f in files && IsTemplate(f)
  {
    if files == [] then []
    else if IsTemplate(files[0]) then [files[0]] + HtmlFiles(files[1..])
    else HtmlFiles(files[1..])
  }

  /** The filter keeps the order of the listing: filtering a concatenation
      filters each part, and a single file is kept exactly when it is a
      template. */
  lemma {:induction false} HtmlFilesAppend(a: seq<StoredFile>, b: seq<StoredFile>)
    ensures HtmlFiles(a + b) == HtmlFiles(a) + HtmlFiles(b)
    decreases |a|
  {
    if a != [] {
      assert (a + b)[0] == a[0] && (a + b)[1..] == a[1..] + b;
      HtmlFilesAppend(a[1..], b);
    } else {
      assert a + b == b;
    }
  }

  lemma HtmlFilesSingle(f: StoredFile)
    ensures HtmlFiles([f]) == if IsTemplate(f) then [f] else []
  {
    assert [f][1..] == [];
  }

  /** The `find` test: the name ends with `/` + the requested name, or is it. */
  predicate NameMatches(name: string, wanted: string) {
    EndsWith(name, "/" + wanted) || name == wanted
  }

  /** `files.find(...)`, as the index of the first match. */
  function FindTemplate(files: seq<StoredFile>, wanted: string): (r: Option<nat>)
    ensures r.Some? ==> r.value < |files| && NameMatches(files[r.value].name, wanted)
    ensures r.Some? ==> forall j :: 0 <= j < r.value ==> !NameMatches(files[j].name, wanted)
    ensures r.None? <==> forall j :: 0 <= j < |files| ==> !NameMatches(files[j].name, wanted)
  {
    if files == [] then None
    else if NameMatches(files[0].name, wanted) then Some(0)
    else match FindTemplate(files[1..], wanted)
      case Some(i) => Some(i + 1)
      case None => None
  }

  /** The text after the last `/` (all of `s` when it has none). */
  function LastSegment(s: string): (r: string)
    ensures EndsWith(s, r)
    ensures forall i :: 0 <= i < |r| ==> r[i] != '/'
    ensures |r| < |s| ==> s[|s| - |r| - 1] == '/'
  {
    if s == [] || s[|s| - 1] == '/' then []
    else
      var r := LastSegment(s[..|s| - 1]) + [s[|s| - 1]];
      assert s == s[..|s| - 1] + [s[|s| - 1]];
      r
  }

  /** `name.split("/").pop() || name`. */
  function BaseName(name: string): (r: string)
    ensures EndsWith(name, r)
    ensures r != name ==> forall i :: 0 <= i < |r| ==> r[i] != '/'
  {
    var last := LastSegment(name);
    if last == [] then name else last
  }

  /** The last segment of `dir/base` is `base`, when `base` has no `/`. */
  lemma {:induction false} LastSegmentAfterSlash(dir: string, base: string)
    requires forall i :: 0 <= i < |base| ==> base[i] != '/'
    ensures LastSegment(dir + "/" + base) == base
    decreases |base|
  {
    var s := dir + "/" + base;
    if base != [] {
      var init := base[..|base| - 1];
      assert s[..|s| - 1] == dir + "/" + init;
      LastSegmentAfterSlash(dir, init);
      assert base == init + [base[|base| - 1]];
    }
  }

  /** A stored path `dir/base` with a non-empty last part is reported as
      `base`. */
  lemma BaseNameOfPath(dir: string, base: string)
    requires base != [] && forall i :: 0 <= i < |base| ==> base[i] != '/'
    ensures BaseName(dir + "/" + base) == base
  {
    LastSegmentAfterSlash(dir, base);
  }

  /** The page made from a stored template, and its short name. */
  function Rendered(f: StoredFile, appName: string, email: string): PolicyPick {
    PolicyPick(Filled(f.content, appName, email), BaseName(f.name))
  }

  /** The file a requested template name resolves to: the first match, or
      the first file when nothing matches. */
  function Requested(files: seq<StoredFile>, wanted: string): (f: StoredFile)
    requires files != []
    ensures f in files
    ensures f != files[0] ==> NameMatches(f.name, wanted)
    ensures (forall j :: 0 <= j < |files| ==> !NameMatches(files[j].name, wanted)) ==> f == files[0]
    ensures forall k ::
      (0 <= k < |files| && NameMatches(files[k].name, wanted) &&
       forall j :: 0 <= j < k ==> !NameMatches(files[j].name, wanted)) ==> f == files[k]
  {
    match FindTemplate(files, wanted)
    case Some(i) => files[i]
    case None => files[0]
  }

  /** JavaScript truthiness of an optional string field. */
  predicate Truthy(s: Option<string>) {
    s.Some? && s.value != []
  }

  /** The template getPolicyHTML uses from the non-empty, sorted list
      `files`: the requested one when a name is given, else the random
      index `random` under `rotate`, else the seeded index. */
  function PickFile(files: seq<StoredFile>, siteDigest: seq<bv8>, rotate: bool,
                    templateName: Option<string>, random: nat): (f: StoredFile)
    requires files != [] && |siteDigest| == 32 && random < |files|
    ensures f in files
  {
    if Truthy(templateName) then Requested(files, templateName.value)
    else if rotate then files[random]
    else files[SeededIndex(siteDigest, |files|)]
  }

  /** getPolicyHTML. `listing` is the storage listing under the prefix, in
      the order the source's sort gives; `siteDigest` is the SHA-256 digest
      of `siteId`; `isoNow` is the current time. The `rotate` pick stands
      for `crypto.randomInt(0, n)`: some index in range. */
  method GetPolicyHtml(listing: seq<StoredFile>, appName: string, email: string, siteDigest: seq<bv8>,
                       rotate: bool, templateName: Option<string>, isoNow: string)
    returns (pick: PolicyPick)
    requires |siteDigest| == 32
    ensures HtmlFiles(listing) == [] ==>
      pick == PolicyPick(FallbackPolicyHtml(appName, email, isoNow), "fallback")
    ensures HtmlFiles(listing) != [] ==>
      exists random :: 0 <= random < |HtmlFiles(listing)| &&
        pick == Rendered(PickFile(HtmlFiles(listing), siteDigest, rotate, templateName, random), appName, email)
  {
    var htmlFiles := HtmlFiles(listing);
    if htmlFiles == [] {
      return PolicyPick(FallbackPolicyHtml(appName, email, isoNow), "fallback");
    }
    var file := htmlFiles[0];
    var random: nat := 0;
    if Truthy(templateName) {
      var exact := FindTemplate(htmlFiles, templateName.value);
      if exact.Some? {
        file := htmlFiles[exact.value];
      }
    } else {
      var n := |htmlFiles|;
      var index;
      if rotate {
        random :| 0 <= random < n;
        index := random;
      } else {
        index := SeededIndex(siteDigest, n);
      }
      file := htmlFiles[index];
    }
    assert file == PickFile(htmlFiles, siteDigest, rotate, templateName, random);
    var html := FillPlaceholders(file.content, appName, email);
    pick := PolicyPick(html, BaseName(file.name));
  }

  /** With a template name, the pick does not depend on the random draw. */
  lemma NamedPickIgnoresRandom(files: seq<StoredFile>, siteDigest: seq<bv8>, rotate: bool,
                               wanted: string, r1: nat, r2: nat)
    requires files != [] && |siteDigest| == 32 && r1 < |files| && r2 < |files| && wanted != []
    ensures PickFile(files, siteDigest, rotate, Some(wanted), r1) == PickFile(files, siteDigest, rotate, Some(wanted), r2)
    ensures PickFile(files, siteDigest, rotate, Some(wanted), r1) == Requested(files, wanted)
  {
  }

  /** Without a name and without `rotate`, the pick is the seeded one,
      whatever the random draw. */
  lemma SeededPickIgnoresRandom(files: seq<StoredFile>, siteDigest: seq<bv8>, templateName: Option<string>, random: nat)
    requires files != [] && |siteDigest| == 32 && random < |files| && !Truthy(templateName)
    ensures PickFile(files, siteDigest, false, templateName, random) == files[SeededIndex(siteDigest, |files|)]
  {
  }

  /** Without a name and with `rotate`, the pick is the file at the random
      draw, whatever the seeded index would have been. */
  lemma RotatePickIsDraw(files: seq<StoredFile>, siteDigest: seq<bv8>, templateName: Option<string>, random: nat)
    requires files != [] && |siteDigest| == 32 && random < |files| && !Truthy(templateName)
    ensures PickFile(files, siteDigest, true, templateName, random) == files[random]
  {
  }

  /** A requested name that matches nothing gives the first file, whatever
      the seeded or random choice would have been. */
  lemma UnknownNameGivesFirst(files: seq<StoredFile>, wanted: string)
    requires files != []
    requires forall f :: f in files ==> !NameMatches(f.name, wanted)
    ensures Requested(files, wanted) == files[0]
  {
  }

  /** The same site identifier always gets the same template. */
  lemma SeededPickStable(listing: seq<StoredFile>, d1: seq<bv8>, d2: seq<bv8>)
    requires |d1| == 32 && |d2| == 32 && d1[..4] == d2[..4]
    requires HtmlFiles(listing) != []
    ensures var files := HtmlFiles(listing); files[SeededIndex(d1, |files|)] == files[SeededIndex(d2, |files|)]
  {
    SeededIndexUsesFourBytes(d1, d2, |HtmlFiles(listing)|);
  }

  /** The `!== TEMPLATES_PREFIX` test never removes anything: the prefix
      does not end in `.html`. */
  lemma PrefixTestRedundant(f: StoredFile)
    ensures IsTemplate(f) <==> EndsWith(f.name, ".html")
  {
    if f.name == TemplatesPrefix {
      assert f.name[|f.name| - 5..] == "ates/";
    }
  }
}
