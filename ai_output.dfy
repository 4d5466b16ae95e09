// The post-processing of generated text in generateAiPolicyHtmlPreview
// (functions/src/index.ts): the model's raw answer is trimmed, every
// Markdown fence (```html or ```, any case) is removed, the text is trimmed
// again, a document shell is put in front when the text has neither a
// doctype nor an <html> tag, and the placeholders are filled.
//
// Prompt construction and the model call itself are not modelled: the raw
// answer is a parameter.

module AiOutput {
  import opened Text
  import opened Placeholders
  import opened Templates

  const Fence := "```"
  const HtmlFence := "```html"

  /** `s` starts with the lower-case word `w`, ignoring ASCII case. */
  predicate StartsWithIgnoringCase(s: string, w: string) {
    |w| <= |s| && Lower(s[..|w|]) == w
  }

  /** `.replace(/```html|```/gi, "")`: scanning from the left, a fence
      spelled ```html (in any case) is removed whole, else a bare ``` is
      removed, else the character is kept. */
  function StripFences(s: string): (r: string)
    ensures |r| <= |s|
    decreases |s|
  {
    if s == [] then []
    else if StartsWithIgnoringCase(s, HtmlFence) then StripFences(s[|HtmlFence|..])
    else if StartsWith(s, Fence) then StripFences(s[|Fence|..])
    else [s[0]] + StripFences(s[1..])
  }

  /** No three backticks in a row. */
  predicate NoFence(s: string) {
    forall i :: 0 <= i < |s| - 2 ==> !(s[i] == '`' && s[i + 1] == '`' && s[i + 2] == '`')
  }

  /** Both fence spellings start with a backtick. */
  lemma FencesStartWithBacktick(s: string)
    requires s != [] && s[0] != '`'
    ensures !StartsWithIgnoringCase(s, HtmlFence) && !StartsWith(s, Fence)
  {
    if |HtmlFence| <= |s| {
      assert Lower(s[..|HtmlFence|])[0] == LowerChar(s[0]);
    }
    if |Fence| <= |s| {
      assert s[..|Fence|][0] == s[0];
    }
  }

  /** Text that does not start with a backtick keeps its first character. */
  lemma StripKeepsFirst(s: string)
    requires s != [] && s[0] != '`'
    ensures StripFences(s) != [] && StripFences(s)[0] == s[0]
  {
    FencesStartWithBacktick(s);
  }

  /** Text without a backtick has no fence, so the removal returns it as it
      is. */
  lemma {:induction false} StripWithoutBacktick(s: string)
    requires forall i :: 0 <= i < |s| ==> s[i] != '`'
    ensures StripFences(s) == s
    decreases |s|
  {
    if s != [] {
      StripPlainStep(s);
      StripWithoutBacktick(s[1..]);
    }
  }

  /** Text without a backtick in front of the rest is kept whole, and the
      removal goes on in the rest. */
  lemma StripKeepsPlainPrefix(a: string, b: string)
    requires forall i :: 0 <= i < |a| ==> a[i] != '`'
    ensures StripFences(a + b) == a + StripFences(b)
  {
    var s := a + b;
    assert s[..|a|] == a && s[|a|..] == b;
    StripKeepsPlainHead(s, |a|);
  }

  /** The first `k` characters, none a backtick, are kept. */
  lemma {:induction false} StripKeepsPlainHead(s: string, k: nat)
    requires k <= |s| && forall i :: 0 <= i < k ==> s[i] != '`'
    ensures StripFences(s) == s[..k] + StripFences(s[k..])
    decreases k
  {
    if k == 0 {
      assert s[..0] == [] && s[0..] == s;
    } else {
      StripKeepsPlainHead(s, k - 1);
      var t := s[k - 1..];
      assert t[0] == s[k - 1] && t[1..] == s[k..];
      StripPlainStep(t);
      PrefixSnoc(s, k, StripFences(s[k..]));
    }
  }

  lemma PrefixSnoc(s: string, k: nat, x: string)
    requires 0 < k <= |s|
    ensures s[..k - 1] + ([s[k - 1]] + x) == s[..k] + x
  {
    assert s[..k] == s[..k - 1] + [s[k - 1]];
  }

  /** A first character that is not a backtick is kept, and the removal
      goes on after it. */
  lemma StripPlainStep(s: string)
    requires s != [] && s[0] != '`'
    ensures StripFences(s) == [s[0]] + StripFences(s[1..])
  {
    FencesStartWithBacktick(s);
  }

  /** A bare fence is removed and the removal goes on after it. */
  lemma StripBareFence(f: string, b: string)
    requires f == Fence && !StartsWithIgnoringCase(f + b, HtmlFence)
    ensures StripFences(f + b) == StripFences(b)
  {
    var s := f + b;
    assert s[..|f|] == f && s[|f|..] == b;
  }

  /** A fence spelled ```html, in any case, is removed whole. */
  lemma StripHtmlFence(h: string, b: string)
    requires |h| == |HtmlFence| && Lower(h) == HtmlFence
    ensures StripFences(h + b) == StripFences(b)
  {
    var s := h + b;
    assert s[..|h|] == h && s[|h|..] == b;
  }

  /** A page wrapped in a ```html fence comes out without it. */
  lemma StripWrappedPage(h: string, page: string, f: string)
    requires |h| == |HtmlFence| && Lower(h) == HtmlFence && f == Fence
    requires forall i :: 0 <= i < |page| ==> page[i] != '`'
    ensures StripFences(h + page + f) == page
  {
    assert h + page + f == h + (page + f);
    StripHtmlFence(h, page + f);
    StripKeepsPlainPrefix(page, f);
    assert f + [] == f;
    StripBareFence(f, []);
  }

  /** After the removal no fence is left: a kept backtick is never followed
      by two more, since those three would have been a match. */
  lemma {:induction false} StripLeavesNoFence(s: string)
    ensures NoFence(StripFences(s))
    decreases |s|
  {
    if s == [] {
    } else if StartsWithIgnoringCase(s, HtmlFence) {
      StripLeavesNoFence(s[|HtmlFence|..]);
    } else if StartsWith(s, Fence) {
      StripLeavesNoFence(s[|Fence|..]);
    } else {
      var rest := StripFences(s[1..]);
      StripLeavesNoFence(s[1..]);
      if s[0] == '`' {
        KeptBacktick(s);
      }
      var r := [s[0]] + rest;
      forall i | 0 <= i < |r| - 2 ensures !(r[i] == '`' && r[i + 1] == '`' && r[i + 2] == '`') {
        if i > 0 {
          assert r[i] == rest[i - 1] && r[i + 1] == rest[i] && r[i + 2] == rest[i + 1];
        }
      }
    }
  }

  /** A backtick that is kept is not followed, in what is left of the rest,
      by two more backticks. */
  lemma KeptBacktick(s: string)
    requires s != [] && s[0] == '`'
    requires !StartsWithIgnoringCase(s, HtmlFence) && !StartsWith(s, Fence)
    ensures var rest := StripFences(s[1..]); !(|rest| >= 2 && rest[0] == '`' && rest[1] == '`')
  {
    var t := s[1..];
    if t != [] && t[0] != '`' {
      StripKeepsFirst(t);
    } else if t != [] {
      // s starts with two backticks, so the third character is not one.
      if |s| >= 3 {
        assert s[..3] != Fence;
        assert s[2] != '`';
        assert t[1..] == s[2..];
        StripKeepsFirst(t[1..]);
      }
      FencesStartWithBacktickPair(t);
    }
  }

  /** Text made of one backtick and then something else is not a fence, so
      that backtick is kept. */
  lemma FencesStartWithBacktickPair(t: string)
    requires t != [] && t[0] == '`' && (|t| == 1 || t[1] != '`')
    ensures StripFences(t) == [t[0]] + StripFences(t[1..])
  {
    if |HtmlFence| <= |t| {
      assert Lower(t[..|HtmlFence|])[1] == LowerChar(t[1]);
    }
    if |Fence| <= |t| {
      assert t[..|Fence|][1] == t[1];
    }
  }

  /** `/<!doctype|<html/i.test(html)`. */
  predicate HasDocumentRoot(s: string) {
    ContainsIgnoringCase(s, "<!doctype") || ContainsIgnoringCase(s, "<html")
  }

  /** Text that starts with `<!doctype html>` has a document root. */
  lemma DocTypeIsRoot(s: string)
    requires StartsWith(s, DocType)
    ensures HasDocumentRoot(s)
  {
    var w := "<!doctype";
    assert s[..|w|] == DocType[..|w|] == w;
    LowerConcat(s[..|w|], s[|w|..]);
    assert s == s[..|w|] + s[|w|..];
    LowerOfLower(w);
    ContainsAt(Lower(s), w, 0);
  }

  /** The shell step: the text as it is when it has a document root, else
      the titled head followed by the text. */
  function WithShell(html: string, productName: string): (r: string)
    ensures HasDocumentRoot(r)
    ensures HasDocumentRoot(html) ==> r == html
    ensures !HasDocumentRoot(html) ==> StartsWith(r, DocType) && EndsWith(r, html)
  {
    if HasDocumentRoot(html) then html
    else
      var r := TitledHead(productName) + html;
      assert r[..|DocType|] == TitledHead(productName)[..|DocType|];
      assert r[|r| - |html|..] == html;
      DocTypeIsRoot(r);
      r
  }

  /** The text from the model, up to and including the shell. */
  function Cleaned(raw: string, productName: string): string {
    WithShell(Trim(StripFences(Trim(raw))), productName)
  }

  /** Trimming keeps a fence-free text fence-free: it keeps a slice. */
  lemma TrimKeepsNoFence(s: string)
    requires NoFence(s)
    ensures NoFence(Trim(s))
  {
    var t := TrimStart(s);
    var k := LeadingSpaces(s);
    var r := TrimEnd(t);
    assert forall i :: 0 <= i < |r| ==> r[i] == s[k + i];
  }

  /** The cleaned text has a document root, and the model's part of it,
      which ends the text, has no fence left. */
  lemma CleanedIsDocument(raw: string, productName: string)
    ensures HasDocumentRoot(Cleaned(raw, productName))
    ensures EndsWith(Cleaned(raw, productName), Trim(StripFences(Trim(raw))))
    ensures NoFence(Trim(StripFences(Trim(raw))))
  {
    var body := Trim(StripFences(Trim(raw)));
    StripLeavesNoFence(Trim(raw));
    TrimKeepsNoFence(StripFences(Trim(raw)));
    if HasDocumentRoot(body) {
      assert Cleaned(raw, productName)[|body| - |body|..] == body;
    }
  }

  /** The steps after the model call, in the order of the source: each
      reassigns `html`. `raw` is the model's text (`""` when it gave none). */
  method PostProcess(raw: string, productName: string, email: string) returns (html: string)
    ensures html == Filled(Cleaned(raw, productName), productName, email)
    ensures HasDocumentRoot(Cleaned(raw, productName))
  {
    html := Trim(raw);
    html := Trim(StripFences(html));
    if !HasDocumentRoot(html) {
      html := TitledHead(productName) + html;
    }
    html := FillPlaceholders(html, productName, email);
  }
}
