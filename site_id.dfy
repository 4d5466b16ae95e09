// sanitizeSiteId (functions/src/index.ts): turns a caller-supplied slug into
// a hosting site identifier. The chain of string operations is
//   toLowerCase
//   .replace(/[^a-z0-9-]/g, "-")
//   .replace(/-+/g, "-")
//   .replace(/^-+|-+$/g, "")
//   .slice(0, 30)
// and each stage is one function below.

module SiteId {
  import opened Text

  /** The cut applied by `.slice(0, 30)`. */
  const MaxLength: nat := 30

  predicate IsSlugChar(c: char) {
    'a' <= c <= 'z' || '0' <= c <= '9' || c == '-'
  }

  predicate AllSlugChars(s: string) {
    forall i :: 0 <= i < |s| ==> IsSlugChar(s[i])
  }

  /** No two adjacent hyphens. */
  predicate NoDoubleHyphen(s: string) {
    forall i :: 0 <= i < |s| - 1 ==> !(s[i] == '-' && s[i + 1] == '-')
  }

  predicate NoLeadingHyphen(s: string) {
    s == [] || s[0] != '-'
  }

  predicate NoTrailingHyphen(s: string) {
    s == [] || s[|s| - 1] != '-'
  }

  /** The shape every sanitised identifier has, except for the trailing
      hyphen that the final cut can expose. */
  predicate Canonical(s: string) {
    AllSlugChars(s) && NoDoubleHyphen(s) && NoLeadingHyphen(s)
  }

  /** `.replace(/[^a-z0-9-]/g, "-")` */
  function ReplaceInvalid(s: string): (r: string)
    ensures |r| == |s| && AllSlugChars(r)
    ensures forall i :: 0 <= i < |s| && IsSlugChar(s[i]) ==> r[i] == s[i]
    ensures forall i :: 0 <= i < |s| && !IsSlugChar(s[i]) ==> r[i] == '-'
  {
    seq(|s|, i requires 0 <= i < |s| => if IsSlugChar(s[i]) then s[i] else '-')
  }

  /** Removes the run of hyphens at the start of `s`. */
  function DropLeadingHyphens(s: string): (r: string)
    ensures |r| <= |s| && r == s[|s| - |r|..]
    ensures forall i :: 0 <= i < |s| - |r| ==> s[i] == '-'
    ensures NoLeadingHyphen(r)
  {
    if s != [] && s[0] == '-' then DropLeadingHyphens(s[1..]) else s
  }

  /** Removes the run of hyphens at the end of `s`. */
  function DropTrailingHyphens(s: string): (r: string)
    ensures |r| <= |s| && r == s[..|r|]
    ensures forall i :: |r| <= i < |s| ==> s[i] == '-'
    ensures NoTrailingHyphen(r)
  {
    if s != [] && s[|s| - 1] == '-' then DropTrailingHyphens(s[..|s| - 1]) else s
  }

  /** `.replace(/-+/g, "-")`: every maximal run of hyphens becomes one. */
  function CollapseHyphens(s: string): (r: string)
    ensures |r| <= |s|
    decreases |s|
  {
    if s == [] then []
    else if s[0] == '-' then "-" + CollapseHyphens(DropLeadingHyphens(s))
    else [s[0]] + CollapseHyphens(s[1..])
  }

  /** A second reading of `.replace(/-+/g, "-")`, one character at a time:
      a hyphen followed by another hyphen is dropped, everything else is
      kept. */
  function CollapseStep(s: string): string
    decreases |s|
  {
    if s == [] then []
    else if |s| >= 2 && s[0] == '-' && s[1] == '-' then CollapseStep(s[1..])
    else [s[0]] + CollapseStep(s[1..])
  }

  /** At a hyphen, the step reading also keeps one hyphen for the run. */
  lemma {:induction false} StepAtRun(s: string)
    requires s != [] && s[0] == '-'
    ensures CollapseStep(s) == "-" + CollapseStep(DropLeadingHyphens(s))
    decreases |s|
  {
    if |s| >= 2 && s[1] == '-' {
      StepAtRun(s[1..]);
    } else {
      assert DropLeadingHyphens(s[1..]) == s[1..];
    }
  }

  /** The run reading and the step reading agree on every text. */
  lemma {:induction false} CollapseIsStep(s: string)
    ensures CollapseHyphens(s) == CollapseStep(s)
    decreases |s|
  {
    if s != [] {
      if s[0] == '-' {
        StepAtRun(s);
        CollapseIsStep(DropLeadingHyphens(s));
      } else {
        CollapseIsStep(s[1..]);
      }
    }
  }

  lemma {:induction false} StepAppend(a: string, b: string)
    requires a == [] || b == [] || a[|a| - 1] != '-' || b[0] != '-'
    ensures CollapseStep(a + b) == CollapseStep(a) + CollapseStep(b)
    decreases |a|, 1
  {
    if a == [] {
      assert a + b == b;
    } else if |a| == 1 {
      StepAppendOne(a, b);
    } else {
      StepAppendLong(a, b);
    }
  }

  lemma StepAppendOne(a: string, b: string)
    requires |a| == 1 && (b == [] || a[0] != '-' || b[0] != '-')
    ensures CollapseStep(a + b) == CollapseStep(a) + CollapseStep(b)
  {
    var s := a + b;
    assert s[0] == a[0] && s[1..] == b;
    assert CollapseStep(a) == [a[0]] + CollapseStep([]);
  }

  lemma {:induction false} StepAppendLong(a: string, b: string)
    requires |a| >= 2 && (b == [] || a[|a| - 1] != '-' || b[0] != '-')
    ensures CollapseStep(a + b) == CollapseStep(a) + CollapseStep(b)
    decreases |a|, 0
  {
    var s, t := a + b, a[1..];
    assert s[0] == a[0] && s[1] == a[1] && s[1..] == t + b;
    StepAppend(t, b);
    var ct, cb := CollapseStep(t), CollapseStep(b);
    assert [a[0]] + (ct + cb) == ([a[0]] + ct) + cb;
  }

  /** Collapsing works piece by piece when the cut does not split a run of
      hyphens. */
  lemma CollapseAppend(a: string, b: string)
    requires a == [] || b == [] || a[|a| - 1] != '-' || b[0] != '-'
    ensures CollapseHyphens(a + b) == CollapseHyphens(a) + CollapseHyphens(b)
  {
    CollapseIsStep(a + b);
    CollapseIsStep(a);
    CollapseIsStep(b);
    StepAppend(a, b);
  }

  /** A run of hyphens becomes one hyphen. */
  lemma CollapseRun(n: nat)
    requires n >= 1
    ensures CollapseHyphens(seq(n, _ => '-')) == "-"
  {
    var h: string := seq(n, _ => '-');
    assert DropLeadingHyphens(h) == [];
  }

  /** Any other character is kept. */
  lemma CollapseOther(c: char)
    requires c != '-'
    ensures CollapseHyphens([c]) == [c]
  {
    assert [c][1..] == [];
  }

  /** `.replace(/^-+|-+$/g, "")`: the leading and the trailing run go. */
  function TrimHyphens(s: string): (r: string)
    ensures NoLeadingHyphen(r) && NoTrailingHyphen(r)
    ensures var k := |s| - |DropLeadingHyphens(s)|;
      k + |r| <= |s| && r == s[k..k + |r|] &&
      forall i :: 0 <= i < |s| && (i < k || k + |r| <= i) ==> s[i] == '-'
  {
    DropTrailingHyphens(DropLeadingHyphens(s))
  }

  /** `.slice(0, 30)` */
  function Cut(s: string): (r: string)
    ensures |r| == if |s| <= MaxLength then |s| else MaxLength
    ensures r == s[..|r|]
  {
    if |s| <= MaxLength then s else s[..MaxLength]
  }

  /** sanitizeSiteId */
  function SanitizeSiteId(id: string): (r: string)
    ensures |r| <= MaxLength
    ensures Canonical(r)
    ensures !NoTrailingHyphen(r) ==> |r| == MaxLength
  {
    var collapsed := CollapseHyphens(ReplaceInvalid(Lower(id)));
    CollapseHyphensCanonical(ReplaceInvalid(Lower(id)));
    TrimKeepsShape(collapsed);
    CutKeepsShape(TrimHyphens(collapsed));
    Cut(TrimHyphens(collapsed))
  }

  /** Collapsing keeps the alphabet, leaves no double hyphen, and keeps the
      first character. */
  lemma {:induction false} CollapseHyphensCanonical(s: string)
    ensures var r := CollapseHyphens(s);
      (s == [] <==> r == []) && (s != [] ==> r[0] == s[0]) &&
      NoDoubleHyphen(r) && (AllSlugChars(s) ==> AllSlugChars(r))
    decreases |s|
  {
    if s == [] {
    } else if s[0] == '-' {
      var t := DropLeadingHyphens(s);
      CollapseHyphensCanonical(t);
      var c := CollapseHyphens(t);
      assert CollapseHyphens(s) == "-" + c;
      assert c != [] ==> c[0] == t[0] != '-';
      assert AllSlugChars(s) ==> AllSlugChars(t) by {
        assert forall i :: 0 <= i < |t| ==> t[i] == s[|s| - |t| + i];
      }
    } else {
      var t := s[1..];
      CollapseHyphensCanonical(t);
      var c := CollapseHyphens(t);
      assert CollapseHyphens(s) == [s[0]] + c;
      assert AllSlugChars(s) ==> AllSlugChars(t) by {
        assert forall i :: 0 <= i < |t| ==> t[i] == s[i + 1];
      }
    }
  }

  lemma TrimKeepsShape(s: string)
    requires NoDoubleHyphen(s)
    ensures var r := TrimHyphens(s);
      NoDoubleHyphen(r) && NoLeadingHyphen(r) && NoTrailingHyphen(r) &&
      (AllSlugChars(s) ==> AllSlugChars(r))
  {
    var t := DropLeadingHyphens(s);
    var r := DropTrailingHyphens(t);
    assert forall i :: 0 <= i < |r| ==> r[i] == s[|s| - |t| + i];
  }

  lemma CutKeepsShape(s: string)
    requires Canonical(s) && NoTrailingHyphen(s)
    ensures var r := Cut(s);
      Canonical(r) && |r| <= MaxLength && (!NoTrailingHyphen(r) ==> |r| == MaxLength)
  {
  }

  // ---------------------------------------------------------------------
  // Idempotence holds exactly when the result does not end in a hyphen.

  /** A canonical identifier passes the first three stages unchanged. */
  lemma {:induction false} CollapseOfNoDouble(s: string)
    requires NoDoubleHyphen(s)
    ensures CollapseHyphens(s) == s
    decreases |s|
  {
    if s == [] {
    } else if s[0] == '-' {
      assert |s| == 1 || s[1] != '-';
      assert DropLeadingHyphens(s) == s[1..];
      CollapseOfNoDouble(s[1..]);
    } else {
      CollapseOfNoDouble(s[1..]);
    }
  }

  /** On canonical input, sanitizing only drops a trailing hyphen and cuts. */
  lemma SanitizeOfCanonical(s: string)
    requires Canonical(s)
    ensures SanitizeSiteId(s) == Cut(DropTrailingHyphens(s))
  {
    LowerOfLower(s);
    assert ReplaceInvalid(s) == s;
    CollapseOfNoDouble(s);
    assert DropLeadingHyphens(s) == s;
  }

  /** Sanitizing a sanitized identifier gives it back exactly when it does
      not end in a hyphen. */
  lemma SanitizeIdempotentIff(id: string)
    ensures SanitizeSiteId(SanitizeSiteId(id)) == SanitizeSiteId(id)
        <==> NoTrailingHyphen(SanitizeSiteId(id))
  {
    var r := SanitizeSiteId(id);
    SanitizeOfCanonical(r);
    if !NoTrailingHyphen(r) {
      assert |DropTrailingHyphens(r)| < |r|;
    }
  }

  /** The cut runs after the hyphens are trimmed, so it can leave a trailing
      hyphen: 29 letters, a hyphen and one more letter. */
  lemma SanitizeNotIdempotentExample()
    ensures var id := seq(29, _ => 'a') + "-b";
      SanitizeSiteId(id) == seq(29, _ => 'a') + "-" &&
      SanitizeSiteId(SanitizeSiteId(id)) == seq(29, _ => 'a')
  {
    var a29 := seq(29, _ => 'a');
    var id := a29 + "-b";
    assert Canonical(id);
    SanitizeOfCanonical(id);
    assert DropTrailingHyphens(id) == id;
    assert Cut(id) == a29 + "-";
    var r := a29 + "-";
    assert Canonical(r);
    SanitizeOfCanonical(r);
    assert DropTrailingHyphens(r) == a29 by {
      assert r[..|r| - 1] == a29;
    }
  }
}
