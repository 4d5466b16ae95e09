// fillPlaceholders (functions/src/index.ts): an ordered list of global
// `String.prototype.replace` passes, first for the application-name
// patterns, then for the e-mail patterns. The regular expressions involved
// are made only of literal characters and `\s*`, with or without the `i`
// flag; Pattern below captures exactly that subset.

module Placeholders {
  import opened Text
  import opened Optional

  /** One element of a pattern: a literal character or `\s*`. */
  datatype Atom = Lit(c: char) | Spaces

  /** A regular expression of the subset: its atoms and its `i` flag. */
  datatype Pattern = Pattern(atoms: seq<Atom>, ignoreCase: bool)

  function Lits(w: string): (r: seq<Atom>)
    ensures |r| == |w| && forall i :: 0 <= i < |w| ==> r[i] == Lit(w[i])
  {
    seq(|w|, i requires 0 <= i < |w| => Lit(w[i]))
  }

  /** The literal words `ws`, joined by `\s*`. */
  function Spaced(ws: seq<string>): (r: seq<Atom>)
    requires ws != []
    decreases |ws|
  {
    if |ws| == 1 then Lits(ws[0]) else Lits(ws[0]) + [Spaces] + Spaced(ws[1..])
  }

  // The application-name patterns, in the order of the source list.
  const ProductNameCurly := Pattern(Spaced(["{", "product", "name", "}"]), true)
  const AppNameCurly := Pattern(Spaced(["{", "app", "name", "}"]), true)
  const ProductNameDoubleCurly := Pattern(Spaced(["{{", "product", "name", "}}"]), true)
  const AppNameDoubleCurly := Pattern(Spaced(["{{", "app", "name", "}}"]), true)
  const AppNamePercent := Pattern(Lits("%APP_NAME%"), false)
  const ProductNamePercent := Pattern(Lits("%PRODUCT_NAME%"), false)
  const AppNameToken := Pattern(Spaced(["{{", "APP_NAME", "}}"]), false)
  const ProductNameToken := Pattern(Spaced(["{{", "PRODUCT_NAME", "}}"]), false)
  const AppNameBraced := Pattern(Lits("{APP_NAME}"), false)

  const NamePatterns: seq<Pattern> := [
    ProductNameCurly, AppNameCurly, ProductNameDoubleCurly, AppNameDoubleCurly,
    AppNamePercent, ProductNamePercent, AppNameToken, ProductNameToken, AppNameBraced]

  // The e-mail patterns, in the order of the source list.
  const EmailCurly := Pattern(Spaced(["{", "email", "}"]), true)
  const EmailDoubleCurly := Pattern(Spaced(["{{", "email", "}}"]), true)
  const EmailPercent := Pattern(Lits("%EMAIL%"), false)
  const ContactEmailToken := Pattern(Spaced(["{{", "CONTACT_EMAIL", "}}"]), false)

  const EmailPatterns: seq<Pattern> := [EmailCurly, EmailDoubleCurly, EmailPercent, ContactEmailToken]

  // ---------------------------------------------------------------------
  // Matching

  /** Character comparison under the `i` flag. Without the `unicode` flag a
      non-ASCII character never matches an ASCII letter case-insensitively,
      so ASCII case folding is exact for these patterns. */
  predicate CharMatches(c: char, d: char, ignoreCase: bool) {
    if ignoreCase then LowerChar(c) == LowerChar(d) else c == d
  }

  /** Length of the match of `atoms` at the start of `s`, if there is one.
      `\s*` is greedy; no backtracking is needed because in every pattern
      `\s*` is followed by a literal that is not white space (WellFormed). */
  function MatchAtoms(atoms: seq<Atom>, ignoreCase: bool, s: string): (r: Option<nat>)
    ensures r.Some? ==> r.value <= |s|
    ensures r.Some? && atoms != [] && atoms[0].Lit? ==> r.value >= 1
    decreases |atoms|
  {
    if atoms == [] then Some(0)
    else match atoms[0]
      case Lit(c) =>
        if s != [] && CharMatches(c, s[0], ignoreCase) then
          match MatchAtoms(atoms[1..], ignoreCase, s[1..])
          case Some(n) => Some(n + 1)
          case None => None
        else None
      case Spaces =>
        var k := LeadingSpaces(s);
        match MatchAtoms(atoms[1..], ignoreCase, s[k..])
        case Some(n) => Some(k + n)
        case None => None
  }

  function MatchAt(p: Pattern, s: string): (r: Option<nat>)
    ensures r.Some? ==> r.value <= |s|
  {
    MatchAtoms(p.atoms, p.ignoreCase, s)
  }

  /** Every `\s*` is followed by a literal that is not white space, and the
      pattern starts with a literal (so every match is non-empty). */
  predicate WellFormed(p: Pattern) {
    && p.atoms != [] && p.atoms[0].Lit?
    && SpacesGuarded(p.atoms)
  }

  predicate SpacesGuarded(atoms: seq<Atom>) {
    forall i :: 0 <= i < |atoms| && atoms[i].Spaces? ==>
      i + 1 < |atoms| && atoms[i + 1].Lit? && !IsSpace(atoms[i + 1].c)
  }

  /** No match of `p` starts anywhere in `s`. */
  predicate NoMatch(p: Pattern, s: string) {
    forall j :: 0 <= j <= |s| ==> MatchAt(p, s[j..]).None?
  }

  /** The leftmost match of `p` in `s`: its index and its length. */
  function FirstMatch(p: Pattern, s: string): (r: Option<(nat, nat)>)
    ensures r.Some? ==> r.value.0 + r.value.1 <= |s| && MatchAt(p, s[r.value.0..]) == Some(r.value.1)
    decreases |s|
  {
    if MatchAt(p, s).Some? then
      assert s[0..] == s;
      Some((0, MatchAt(p, s).value))
    else if s == [] then None
    else
      var rest := FirstMatch(p, s[1..]);
      if rest.None? then None
      else
        assert s[1..][rest.value.0..] == s[rest.value.0 + 1..];
        Some((rest.value.0 + 1, rest.value.1))
  }

  /** No position before the first match matches, and there is no first
      match exactly when no position matches. */
  lemma {:induction false} FirstMatchLeftmost(p: Pattern, s: string)
    ensures FirstMatch(p, s).Some? ==>
      forall j :: 0 <= j < FirstMatch(p, s).value.0 ==> MatchAt(p, s[j..]).None?
    ensures FirstMatch(p, s).None? <==> NoMatch(p, s)
    decreases |s|
  {
    assert s[0..] == s;
    if MatchAt(p, s).None? && s != [] {
      FirstMatchLeftmost(p, s[1..]);
      assert forall j :: 1 <= j <= |s| ==> s[1..][j - 1..] == s[j..];
    }
  }

  // ---------------------------------------------------------------------
  // Replacing

  /** GetSubstitution: the replacement string's `$` patterns. The source's
      patterns have no capture groups, so `$1`, `$<` and the like stay
      literal; `$$`, `$&`, `` $` `` and `$'` are expanded. */
  function Expand(v: string, matched: string, before: string, after: string): (r: string)
    decreases |v|
  {
    if v == [] then []
    else if v[0] == '$' && |v| >= 2 && v[1] == '$' then "$" + Expand(v[2..], matched, before, after)
    else if v[0] == '$' && |v| >= 2 && v[1] == '&' then matched + Expand(v[2..], matched, before, after)
    else if v[0] == '$' && |v| >= 2 && v[1] == '`' then before + Expand(v[2..], matched, before, after)
    else if v[0] == '$' && |v| >= 2 && v[1] == '\'' then after + Expand(v[2..], matched, before, after)
    else [v[0]] + Expand(v[1..], matched, before, after)
  }

  predicate NoDollar(v: string) {
    forall i :: 0 <= i < |v| ==> v[i] != '$'
  }

  /** A replacement value without `$` is inserted literally. */
  lemma {:induction false} ExpandLiteral(v: string, matched: string, before: string, after: string)
    requires NoDollar(v)
    ensures Expand(v, matched, before, after) == v
    decreases |v|
  {
    if v != [] {
      ExpandLiteral(v[1..], matched, before, after);
    }
  }

  /** Global replace of `p` by `v` over `s`, where `pre` is the part of the
      whole string already scanned (what `` $` `` refers to). */
  function ReplaceFrom(p: Pattern, s: string, v: string, pre: string): (r: string)
    requires WellFormed(p)
    decreases |s|
  {
    match FirstMatch(p, s)
    case None => s
    case Some((k, n)) =>
      s[..k] + Expand(v, s[k..k + n], pre + s[..k], s[k + n..])
             + ReplaceFrom(p, s[k + n..], v, pre + s[..k + n])
  }

  /** `s.replace(p, v)` for a pattern with the `g` flag. */
  function ReplaceAll(p: Pattern, s: string, v: string): string
    requires WellFormed(p)
  {
    ReplaceFrom(p, s, v, [])
  }

  predicate AllWellFormed(pats: seq<Pattern>) {
    forall i :: 0 <= i < |pats| ==> WellFormed(pats[i])
  }

  /** The passes `for (const p of pats) html = html.replace(p, v)`, in order. */
  function ReplaceEach(pats: seq<Pattern>, s: string, v: string): string
    requires AllWellFormed(pats)
    decreases |pats|
  {
    if pats == [] then s
    else ReplaceAll(pats[|pats| - 1], ReplaceEach(pats[..|pats| - 1], s, v), v)
  }

  lemma LitsGuarded(w: string)
    ensures SpacesGuarded(Lits(w))
  {
  }

  /** Words that are non-empty and do not start with white space, joined by
      `\s*`, form a well-formed pattern. */
  lemma {:induction false} SpacedGuarded(ws: seq<string>)
    requires ws != []
    requires forall i :: 0 <= i < |ws| ==> ws[i] != [] && !IsSpace(ws[i][0])
    ensures var r := Spaced(ws); r != [] && r[0] == Lit(ws[0][0]) && SpacesGuarded(r)
    decreases |ws|
  {
    if |ws| > 1 {
      SpacedGuarded(ws[1..]);
      var a, r := Lits(ws[0]), Spaced(ws[1..]);
      assert Spaced(ws) == a + [Spaces] + r;
      forall i | 0 <= i < |a + [Spaces] + r| && (a + [Spaces] + r)[i].Spaces?
        ensures i + 1 < |a + [Spaces] + r| && (a + [Spaces] + r)[i + 1].Lit?
          && !IsSpace((a + [Spaces] + r)[i + 1].c)
      {
        if i > |a| {
          assert (a + [Spaces] + r)[i] == r[i - |a| - 1];
          assert (a + [Spaces] + r)[i + 1] == r[i - |a|];
        }
      }
    }
  }

  lemma SpacedWellFormed(ws: seq<string>, ignoreCase: bool)
    requires ws != []
    requires forall i :: 0 <= i < |ws| ==> ws[i] != [] && !IsSpace(ws[i][0])
    ensures WellFormed(Pattern(Spaced(ws), ignoreCase))
  {
    SpacedGuarded(ws);
  }

  lemma NamePatternsWellFormed()
    ensures AllWellFormed(NamePatterns)
  {
    forall i | 0 <= i < |NamePatterns| ensures WellFormed(NamePatterns[i]) {
      NamePatternWellFormed(i);
    }
  }

  lemma NamePatternWellFormed(i: nat)
    requires i < |NamePatterns|
    ensures WellFormed(NamePatterns[i])
  {
    if i == 0 {
      ProductNameCurlyWellFormed(NamePatterns[0]);
    } else if i == 1 {
      AppNameCurlyWellFormed(NamePatterns[1]);
    } else if i == 2 {
      ProductNameDoubleCurlyWellFormed(NamePatterns[2]);
    } else if i == 3 {
      AppNameDoubleCurlyWellFormed(NamePatterns[3]);
    } else if i == 4 {
      AppNamePercentWellFormed(NamePatterns[4]);
    } else if i == 5 {
      ProductNamePercentWellFormed(NamePatterns[5]);
    } else if i == 6 {
      AppNameTokenWellFormed(NamePatterns[6]);
    } else if i == 7 {
      ProductNameTokenWellFormed(NamePatterns[7]);
    } else {
      AppNameBracedWellFormed(NamePatterns[8]);
    }
  }

  lemma ProductNameCurlyWellFormed(p: Pattern)
    requires p == ProductNameCurly
    ensures WellFormed(p)
  {
    SpacedWellFormed(["{", "product", "name", "}"], true);
  }

  lemma AppNameCurlyWellFormed(p: Pattern)
    requires p == AppNameCurly
    ensures WellFormed(p)
  {
    SpacedWellFormed(["{", "app", "name", "}"], true);
  }

  lemma ProductNameDoubleCurlyWellFormed(p: Pattern)
    requires p == ProductNameDoubleCurly
    ensures WellFormed(p)
  {
    SpacedWellFormed(["{{", "product", "name", "}}"], true);
  }

  lemma AppNameDoubleCurlyWellFormed(p: Pattern)
    requires p == AppNameDoubleCurly
    ensures WellFormed(p)
  {
    SpacedWellFormed(["{{", "app", "name", "}}"], true);
  }

  lemma AppNamePercentWellFormed(p: Pattern)
    requires p == AppNamePercent
    ensures WellFormed(p)
  {
    LitsGuarded("%APP_NAME%");
  }

  lemma ProductNamePercentWellFormed(p: Pattern)
    requires p == ProductNamePercent
    ensures WellFormed(p)
  {
    LitsGuarded("%PRODUCT_NAME%");
  }

  lemma AppNameTokenWellFormed(p: Pattern)
    requires p == AppNameToken
    ensures WellFormed(p)
  {
    SpacedWellFormed(["{{", "APP_NAME", "}}"], false);
  }

  lemma ProductNameTokenWellFormed(p: Pattern)
    requires p == ProductNameToken
    ensures WellFormed(p)
  {
    SpacedWellFormed(["{{", "PRODUCT_NAME", "}}"], false);
  }

  lemma AppNameBracedWellFormed(p: Pattern)
    requires p == AppNameBraced
    ensures WellFormed(p)
  {
    LitsGuarded("{APP_NAME}");
  }

  lemma EmailPatternsWellFormed()
    ensures AllWellFormed(EmailPatterns)
  {
    forall i | 0 <= i < |EmailPatterns| ensures WellFormed(EmailPatterns[i]) {
      EmailPatternWellFormed(i);
    }
  }

  lemma EmailPatternWellFormed(i: nat)
    requires i < |EmailPatterns|
    ensures WellFormed(EmailPatterns[i])
  {
    if i == 0 {
      EmailCurlyWellFormed(EmailPatterns[0]);
    } else if i == 1 {
      EmailDoubleCurlyWellFormed(EmailPatterns[1]);
    } else if i == 2 {
      EmailPercentWellFormed(EmailPatterns[2]);
    } else {
      ContactEmailTokenWellFormed(EmailPatterns[3]);
    }
  }

  lemma EmailCurlyWellFormed(p: Pattern)
    requires p == EmailCurly
    ensures WellFormed(p)
  {
    SpacedWellFormed(["{", "email", "}"], true);
  }

  lemma EmailDoubleCurlyWellFormed(p: Pattern)
    requires p == EmailDoubleCurly
    ensures WellFormed(p)
  {
    SpacedWellFormed(["{{", "email", "}}"], true);
  }

  lemma EmailPercentWellFormed(p: Pattern)
    requires p == EmailPercent
    ensures WellFormed(p)
  {
    LitsGuarded("%EMAIL%");
  }

  lemma ContactEmailTokenWellFormed(p: Pattern)
    requires p == ContactEmailToken
    ensures WellFormed(p)
  {
    SpacedWellFormed(["{{", "CONTACT_EMAIL", "}}"], false);
  }

  lemma SourcePatternsWellFormed()
    ensures AllWellFormed(NamePatterns) && AllWellFormed(EmailPatterns)
  {
    NamePatternsWellFormed();
    EmailPatternsWellFormed();
  }

  /** What fillPlaceholders returns. */
  function Filled(html: string, appName: string, email: string): string {
    SourcePatternsWellFormed();
    ReplaceEach(EmailPatterns, ReplaceEach(NamePatterns, html, appName), email)
  }

  // ---------------------------------------------------------------------
  // When a pass leaves no match behind

  /** Whether atom `a` can consume character `c`. */
  predicate Accepts(a: Atom, ignoreCase: bool, c: char) {
    match a
    case Lit(d) => CharMatches(d, c, ignoreCase)
    case Spaces => IsSpace(c)
  }

  /** The characters a match of `p` can be made of. */
  predicate InAlphabet(p: Pattern, c: char) {
    exists j :: 0 <= j < |p.atoms| && Accepts(p.atoms[j], p.ignoreCase, c)
  }

  /** No character of `v` can take part in a match of `p`. */
  predicate Foreign(p: Pattern, v: string) {
    forall i :: 0 <= i < |v| ==> !InAlphabet(p, v[i])
  }

  lemma {:induction false} LeadingSpacesAgree(s: string, t: string)
    requires LeadingSpaces(s) < |s| && LeadingSpaces(s) < |t|
    requires t[..LeadingSpaces(s) + 1] == s[..LeadingSpaces(s) + 1]
    ensures LeadingSpaces(t) == LeadingSpaces(s)
    decreases |s|
  {
    if LeadingSpaces(s) > 0 {
      assert s[0] == t[0];
      assert t[1..][..LeadingSpaces(s[1..]) + 1] == s[1..][..LeadingSpaces(s[1..]) + 1];
      LeadingSpacesAgree(s[1..], t[1..]);
    } else {
      assert s[0] == t[0];
    }
  }

  lemma GuardedTail(atoms: seq<Atom>)
    requires atoms != [] && SpacesGuarded(atoms)
    ensures SpacesGuarded(atoms[1..])
  {
    assert forall i :: 0 <= i < |atoms| - 1 ==> atoms[1..][i] == atoms[i + 1];
  }

  /** A match is decided by the characters it consumes. */
  lemma {:induction false} MatchDependsOnPrefix(atoms: seq<Atom>, ignoreCase: bool, s: string, t: string, n: nat)
    requires SpacesGuarded(atoms)
    requires MatchAtoms(atoms, ignoreCase, s) == Some(n)
    requires n <= |t| && t[..n] == s[..n]
    ensures MatchAtoms(atoms, ignoreCase, t) == Some(n)
    decreases |atoms|, 1
  {
    if atoms != [] && atoms[0].Lit? {
      LiteralDependsOnPrefix(atoms, ignoreCase, s, t, n);
    } else if atoms != [] {
      SpacesDependOnPrefix(atoms, ignoreCase, s, t, n);
    }
  }

  /** MatchDependsOnPrefix for a pattern that starts with a literal. */
  lemma {:induction false} LiteralDependsOnPrefix(atoms: seq<Atom>, ignoreCase: bool, s: string, t: string, n: nat)
    requires SpacesGuarded(atoms) && atoms != [] && atoms[0].Lit?
    requires MatchAtoms(atoms, ignoreCase, s) == Some(n)
    requires n <= |t| && t[..n] == s[..n]
    ensures MatchAtoms(atoms, ignoreCase, t) == Some(n)
    decreases |atoms|, 0
  {
    GuardedTail(atoms);
    LiteralHead(atoms, ignoreCase, s, n);
    LiteralThenRest(atoms, ignoreCase, s, t, n);
    MatchDependsOnPrefix(atoms[1..], ignoreCase, s[1..], t[1..], n - 1);
    LiteralCons(atoms, ignoreCase, t, n - 1);
  }

  /** MatchDependsOnPrefix for a pattern that starts with `\s*`. */
  lemma {:induction false} SpacesDependOnPrefix(atoms: seq<Atom>, ignoreCase: bool, s: string, t: string, n: nat)
    requires SpacesGuarded(atoms) && atoms != [] && atoms[0].Spaces?
    requires MatchAtoms(atoms, ignoreCase, s) == Some(n)
    requires n <= |t| && t[..n] == s[..n]
    ensures MatchAtoms(atoms, ignoreCase, t) == Some(n)
    decreases |atoms|, 0
  {
    GuardedTail(atoms);
    var k := SpacesThenLiteral(atoms, ignoreCase, s, t, n);
    MatchDependsOnPrefix(atoms[1..], ignoreCase, s[k..], t[k..], n - k);
    SpacesCons(atoms, ignoreCase, t, n - k);
  }

  /** The literal step of MatchDependsOnPrefix: both strings start with the
      same character. */
  lemma LiteralThenRest(atoms: seq<Atom>, ignoreCase: bool, s: string, t: string, n: nat)
    requires atoms != [] && atoms[0].Lit?
    requires MatchAtoms(atoms, ignoreCase, s) == Some(n)
    requires n <= |t| && t[..n] == s[..n]
    ensures n >= 1 && t[0] == s[0]
    ensures t[1..][..n - 1] == s[1..][..n - 1]
  {
    assert t[0] == t[..n][0];
  }

  /** MatchAtoms unfolded at a literal that matched. */
  lemma LiteralHead(atoms: seq<Atom>, ignoreCase: bool, s: string, n: nat)
    requires atoms != [] && atoms[0].Lit?
    requires MatchAtoms(atoms, ignoreCase, s) == Some(n)
    ensures s != [] && n >= 1 && CharMatches(atoms[0].c, s[0], ignoreCase)
    ensures MatchAtoms(atoms[1..], ignoreCase, s[1..]) == Some(n - 1)
  {
  }

  /** MatchAtoms past a literal that matches. */
  lemma LiteralCons(atoms: seq<Atom>, ignoreCase: bool, t: string, m: nat)
    requires atoms != [] && atoms[0].Lit? && t != [] && CharMatches(atoms[0].c, t[0], ignoreCase)
    requires MatchAtoms(atoms[1..], ignoreCase, t[1..]) == Some(m)
    ensures MatchAtoms(atoms, ignoreCase, t) == Some(m + 1)
  {
  }

  /** MatchAtoms past a `\s*` atom. */
  lemma SpacesCons(atoms: seq<Atom>, ignoreCase: bool, t: string, m: nat)
    requires atoms != [] && atoms[0].Spaces?
    requires MatchAtoms(atoms[1..], ignoreCase, t[LeadingSpaces(t)..]) == Some(m)
    ensures MatchAtoms(atoms, ignoreCase, t) == Some(LeadingSpaces(t) + m)
  {
  }

  /** The `\s*` step of MatchDependsOnPrefix: both strings skip the same
      white space, since the match goes on past it. */
  lemma SpacesThenLiteral(atoms: seq<Atom>, ignoreCase: bool, s: string, t: string, n: nat) returns (k: nat)
    requires SpacesGuarded(atoms) && atoms != [] && atoms[0].Spaces?
    requires MatchAtoms(atoms, ignoreCase, s) == Some(n)
    requires n <= |t| && t[..n] == s[..n]
    ensures k == LeadingSpaces(s) == LeadingSpaces(t) && k <= n
    ensures MatchAtoms(atoms[1..], ignoreCase, s[k..]) == Some(n - k)
    ensures t[k..][..n - k] == s[k..][..n - k]
  {
    k := LeadingSpaces(s);
    var rest := MatchAtoms(atoms[1..], ignoreCase, s[k..]);
    assert atoms[1].Lit?;
    assert rest.Some? && rest.value >= 1;
    assert k < n;
    assert t[..k + 1] == s[..k + 1] by {
      assert t[..k + 1] == t[..n][..k + 1];
      assert s[..k + 1] == s[..n][..k + 1];
    }
    LeadingSpacesAgree(s, t);
    assert t[k..][..n - k] == s[k..][..n - k] by {
      assert t[k..][..n - k] == t[..n][k..];
      assert s[k..][..n - k] == s[..n][k..];
    }
  }

  /** Every character a match consumes is in the pattern's alphabet. */
  lemma {:induction false} MatchInAlphabet(atoms: seq<Atom>, ignoreCase: bool, s: string, n: nat, i: nat)
    requires MatchAtoms(atoms, ignoreCase, s) == Some(n) && i < n
    ensures exists j :: 0 <= j < |atoms| && Accepts(atoms[j], ignoreCase, s[i])
    decreases |atoms|
  {
    match atoms[0]
    case Lit(c) =>
      if i == 0 {
        assert Accepts(atoms[0], ignoreCase, s[0]);
      } else {
        MatchInAlphabet(atoms[1..], ignoreCase, s[1..], n - 1, i - 1);
        var j :| 0 <= j < |atoms[1..]| && Accepts(atoms[1..][j], ignoreCase, s[1..][i - 1]);
        assert Accepts(atoms[j + 1], ignoreCase, s[i]);
      }
    case Spaces =>
      var k := LeadingSpaces(s);
      if i < k {
        assert Accepts(atoms[0], ignoreCase, s[i]);
      } else {
        var m := MatchAtoms(atoms[1..], ignoreCase, s[k..]).value;
        MatchInAlphabet(atoms[1..], ignoreCase, s[k..], m, i - k);
        var j :| 0 <= j < |atoms[1..]| && Accepts(atoms[1..][j], ignoreCase, s[k..][i - k]);
        assert Accepts(atoms[j + 1], ignoreCase, s[i]);
      }
  }

  /** Text with no match before index `k`, then a foreign non-empty value,
      then text with no match: no match anywhere. */
  lemma NoMatchAcross(p: Pattern, s: string, k: nat, v: string, rest: string)
    requires WellFormed(p) && k <= |s|
    requires forall j :: 0 <= j < k ==> MatchAt(p, s[j..]).None?
    requires v != [] && Foreign(p, v) && NoMatch(p, rest)
    ensures NoMatch(p, s[..k] + v + rest)
  {
    var res := s[..k] + v + rest;
    forall j | 0 <= j <= |res| ensures MatchAt(p, res[j..]).None? {
      if j < k {
        if MatchAt(p, res[j..]).Some? {
          var m := MatchAt(p, res[j..]).value;
          if j + m <= k {
            assert res[j..][..m] == s[j..][..m];
            MatchDependsOnPrefix(p.atoms, p.ignoreCase, res[j..], s[j..], m);
            assert false;
          } else {
            MatchInAlphabet(p.atoms, p.ignoreCase, res[j..], m, k - j);
            assert false;
          }
        }
      } else if j < k + |v| {
        if MatchAt(p, res[j..]).Some? {
          var m := MatchAt(p, res[j..]).value;
          MatchInAlphabet(p.atoms, p.ignoreCase, res[j..], m, 0);
          assert false;
        }
      } else {
        assert res[j..] == rest[j - k - |v|..];
      }
    }
  }

  lemma NoMatchSuffix(p: Pattern, s: string, i: nat)
    requires NoMatch(p, s) && i <= |s|
    ensures NoMatch(p, s[i..])
  {
    assert forall j :: 0 <= j <= |s| - i ==> s[i..][j..] == s[i + j..];
  }

  /** A pass of `p` with a value that is non-empty, has no `$` and shares no
      character with `q` leaves no match of `q`, if `q` is `p` itself or if
      there was none before. */
  lemma {:induction false} ReplaceLeavesNoMatch(q: Pattern, p: Pattern, s: string, v: string, pre: string)
    requires WellFormed(q) && WellFormed(p)
    requires v != [] && NoDollar(v) && Foreign(q, v)
    requires q == p || NoMatch(q, s)
    ensures NoMatch(q, ReplaceFrom(p, s, v, pre))
    decreases |s|
  {
    if FirstMatch(p, s).Some? {
      var end := FirstMatchEnd(q, p, s);
      ReplaceLeavesNoMatch(q, p, s[end..], v, pre + s[..end]);
      ReplaceStepLeavesNoMatch(q, p, s, v, pre);
    } else {
      FirstMatchLeftmost(p, s);
    }
  }

  /** Where the first match of `p` ends; what follows has no match of `q`
      if `s` had none. */
  lemma FirstMatchEnd(q: Pattern, p: Pattern, s: string) returns (end: nat)
    requires WellFormed(p) && FirstMatch(p, s).Some?
    requires q == p || NoMatch(q, s)
    ensures var (k, n) := FirstMatch(p, s).value; end == k + n && 0 < end <= |s|
    ensures q == p || NoMatch(q, s[end..])
  {
    var (k, n) := FirstMatch(p, s).value;
    end := k + n;
    if q != p {
      NoMatchSuffix(q, s, end);
    }
  }

  /** The inductive step of ReplaceLeavesNoMatch: text before the first
      match, the value, and the replaced remainder. */
  lemma ReplaceStepLeavesNoMatch(q: Pattern, p: Pattern, s: string, v: string, pre: string)
    requires WellFormed(q) && WellFormed(p)
    requires v != [] && NoDollar(v) && Foreign(q, v)
    requires q == p || NoMatch(q, s)
    requires FirstMatch(p, s).Some?
    requires var (k, n) := FirstMatch(p, s).value;
      NoMatch(q, ReplaceFrom(p, s[k + n..], v, pre + s[..k + n]))
    ensures NoMatch(q, ReplaceFrom(p, s, v, pre))
  {
    var (k, n) := FirstMatch(p, s).value;
    ReplaceLiteralStep(p, s, v, pre, k, n);
    NoMatchBefore(q, p, s);
    NoMatchAcross(q, s, k, v, ReplaceFrom(p, s[k + n..], v, pre + s[..k + n]));
  }

  /** A pass with a value without `$`: the text before the first match, the
      value, and the pass over the rest. */
  lemma ReplaceLiteralStep(p: Pattern, s: string, v: string, pre: string, k: nat, n: nat)
    requires WellFormed(p) && NoDollar(v) && FirstMatch(p, s) == Some((k, n))
    ensures k + n <= |s|
    ensures ReplaceFrom(p, s, v, pre) == s[..k] + v + ReplaceFrom(p, s[k + n..], v, pre + s[..k + n])
  {
    ExpandLiteral(v, s[k..k + n], pre + s[..k], s[k + n..]);
    ReplaceUnfold(p, s, v, pre, k, n);
  }

  /** No match of `q` starts before the first match of `p`, when `q` is `p`
      or has no match at all. */
  lemma NoMatchBefore(q: Pattern, p: Pattern, s: string)
    requires FirstMatch(p, s).Some?
    requires q == p || NoMatch(q, s)
    ensures forall j :: 0 <= j < FirstMatch(p, s).value.0 ==> MatchAt(q, s[j..]).None?
  {
    FirstMatchLeftmost(p, s);
  }

  lemma {:induction false} ReplaceEachKeepsNoMatch(q: Pattern, pats: seq<Pattern>, s: string, v: string)
    requires AllWellFormed(pats) && WellFormed(q)
    requires v != [] && NoDollar(v) && Foreign(q, v)
    requires NoMatch(q, s)
    ensures NoMatch(q, ReplaceEach(pats, s, v))
    decreases |pats|
  {
    if pats != [] {
      var init := pats[..|pats| - 1];
      ReplaceEachKeepsNoMatch(q, init, s, v);
      ReplaceLeavesNoMatch(q, pats[|pats| - 1], ReplaceEach(init, s, v), v, []);
    }
  }

  lemma {:induction false} ReplaceEachSplit(a: seq<Pattern>, b: seq<Pattern>, s: string, v: string)
    requires AllWellFormed(a) && AllWellFormed(b)
    ensures AllWellFormed(a + b)
    ensures ReplaceEach(a + b, s, v) == ReplaceEach(b, ReplaceEach(a, s, v), v)
    decreases |b|
  {
    if b == [] {
      assert a + b == a;
    } else {
      assert (a + b)[..|a + b| - 1] == a + b[..|b| - 1];
      ReplaceEachSplit(a, b[..|b| - 1], s, v);
    }
  }

  /** A pattern's own pass removes it, and no later pass in the list brings
      it back, for a value that has no `$` and shares no character with it. */
  lemma PassLeavesNoMatch(pats: seq<Pattern>, i: nat, s: string, v: string)
    requires AllWellFormed(pats) && i < |pats|
    requires v != [] && NoDollar(v) && Foreign(pats[i], v)
    ensures NoMatch(pats[i], ReplaceEach(pats, s, v))
  {
    var q := pats[i];
    var before, after := pats[..i + 1], pats[i + 1..];
    assert pats == before + after;
    assert before[i] == q && before[..i] == pats[..i];
    ReplaceEachSplit(before, after, s, v);
    ReplaceEachLast(before, s, v);
    ReplaceLeavesNoMatch(q, q, ReplaceEach(before[..i], s, v), v, []);
    ReplaceEachKeepsNoMatch(q, after, ReplaceEach(before, s, v), v);
  }

  /** `{{APP_NAME}}` (with any inner white space) is gone from the filled
      page, when neither value is empty, has a `$`, or shares a character
      with that pattern. */
  lemma AppNameTokenReplaced(html: string, appName: string, email: string)
    requires appName != [] && NoDollar(appName) && Foreign(AppNameToken, appName)
    requires email != [] && NoDollar(email) && Foreign(AppNameToken, email)
    ensures NoMatch(AppNameToken, Filled(html, appName, email))
  {
    SourcePatternsWellFormed();
    assert NamePatterns[6] == AppNameToken;
    PassLeavesNoMatch(NamePatterns, 6, html, appName);
    ReplaceEachKeepsNoMatch(AppNameToken, EmailPatterns, ReplaceEach(NamePatterns, html, appName), email);
  }

  /** `%EMAIL%` is gone from the filled page, when the e-mail value is not
      empty, has no `$` and shares no character with that pattern. */
  lemma EmailTokenReplaced(html: string, appName: string, email: string)
    requires email != [] && NoDollar(email) && Foreign(EmailPercent, email)
    ensures NoMatch(EmailPercent, Filled(html, appName, email))
  {
    SourcePatternsWellFormed();
    assert EmailPatterns[2] == EmailPercent;
    PassLeavesNoMatch(EmailPatterns, 2, ReplaceEach(NamePatterns, html, appName), email);
  }

  // ---------------------------------------------------------------------
  // Passes that find nothing, or one match

  /** A pass over text with no match leaves it as it is. */
  lemma ReplaceNone(p: Pattern, s: string, v: string, pre: string)
    requires WellFormed(p) && NoMatch(p, s)
    ensures ReplaceFrom(p, s, v, pre) == s
  {
    FirstMatchLeftmost(p, s);
  }

  /** ReplaceFrom unfolded at its first match. */
  lemma ReplaceUnfold(p: Pattern, s: string, v: string, pre: string, k: nat, n: nat)
    requires WellFormed(p) && FirstMatch(p, s) == Some((k, n))
    ensures k + n <= |s|
    ensures ReplaceFrom(p, s, v, pre) == s[..k] + Expand(v, s[k..k + n], pre + s[..k], s[k + n..])
        + ReplaceFrom(p, s[k + n..], v, pre + s[..k + n])
  {
  }

  /** One match and nothing after it: the match is swapped for the value. */
  lemma ReplaceOnce(p: Pattern, s: string, v: string, pre: string, k: nat, n: nat)
    requires WellFormed(p) && NoDollar(v)
    requires FirstMatch(p, s) == Some((k, n)) && NoMatch(p, s[k + n..])
    ensures ReplaceFrom(p, s, v, pre) == s[..k] + v + s[k + n..]
  {
    ReplaceNone(p, s[k + n..], v, pre + s[..k + n]);
    ReplaceLiteralStep(p, s, v, pre, k, n);
  }

  /** ReplaceOnce for a whole string. */
  lemma ReplaceAllOnce(p: Pattern, s: string, v: string, k: nat, n: nat)
    requires WellFormed(p) && NoDollar(v)
    requires FirstMatch(p, s) == Some((k, n)) && NoMatch(p, s[k + n..])
    ensures ReplaceAll(p, s, v) == s[..k] + v + s[k + n..]
  {
    ReplaceOnce(p, s, v, [], k, n);
  }

  /** No match at the first position and none after it: none at all. */
  lemma NoMatchCons(p: Pattern, s: string)
    requires s != [] && MatchAt(p, s).None? && NoMatch(p, s[1..])
    ensures NoMatch(p, s)
  {
    assert forall j :: 1 <= j <= |s| ==> s[j..] == s[1..][j - 1..];
  }

  /** Passes whose patterns do not occur leave the text as it is. */
  lemma {:induction false} ReplaceEachNone(pats: seq<Pattern>, s: string, v: string)
    requires AllWellFormed(pats)
    requires forall i :: 0 <= i < |pats| ==> NoMatch(pats[i], s)
    ensures ReplaceEach(pats, s, v) == s
    decreases |pats|
  {
    if pats != [] {
      ReplaceEachNone(pats[..|pats| - 1], s, v);
      ReplaceNone(pats[|pats| - 1], s, v, []);
    }
  }

  /** ReplaceEach unfolded at its last pass. */
  lemma ReplaceEachLast(pats: seq<Pattern>, s: string, v: string)
    requires AllWellFormed(pats) && pats != []
    ensures AllWellFormed(pats[..|pats| - 1])
    ensures ReplaceEach(pats, s, v) == ReplaceAll(pats[|pats| - 1], ReplaceEach(pats[..|pats| - 1], s, v), v)
  {
  }

  /** When the first `k` passes produce `mid` and no later pattern occurs in
      it, all the passes produce `mid`. */
  lemma PrefixThenNone(pats: seq<Pattern>, k: nat, s: string, v: string, mid: string)
    requires AllWellFormed(pats) && k <= |pats|
    requires ReplaceEach(pats[..k], s, v) == mid
    requires forall i :: k <= i < |pats| ==> NoMatch(pats[i], mid)
    ensures ReplaceEach(pats, s, v) == mid
  {
    assert pats == pats[..k] + pats[k..];
    ReplaceEachSplit(pats[..k], pats[k..], s, v);
    ReplaceEachNone(pats[k..], mid, v);
  }

  /** One loop of fillPlaceholders: `for (const p of pats) html = html.replace(p, v)`. */
  method ReplaceInTurn(pats: seq<Pattern>, html: string, v: string) returns (out: string)
    requires AllWellFormed(pats)
    ensures out == ReplaceEach(pats, html, v)
  {
    out := html;
    for i := 0 to |pats|
      invariant out == ReplaceEach(pats[..i], html, v)
    {
      assert pats[..i + 1][..i] == pats[..i];
      out := ReplaceAll(pats[i], out, v);
    }
    assert pats[..|pats|] == pats;
  }

  /** fillPlaceholders: the name passes, then the e-mail passes. */
  method FillPlaceholders(html: string, appName: string, email: string) returns (out: string)
    ensures out == Filled(html, appName, email)
  {
    SourcePatternsWellFormed();
    out := ReplaceInTurn(NamePatterns, html, appName);
    out := ReplaceInTurn(EmailPatterns, out, email);
  }
}
