// What fillPlaceholders does to a lower-case double-brace placeholder. The
// single-brace patterns come first in the list and `{\s*app\s*name\s*}`
// matches the inner `{app name}` of `{{app name}}`, so the outer braces stay
// and the double-brace pattern later in the list finds nothing.
//
// The example texts are passed as parameters equal to the literal, so that
// each lemma reasons about the text through the general lemmas rather than
// by evaluating the matcher on it.

module PlaceholderExamples {
  import opened Text
  import opened Optional
  import opened Placeholders
  import opened PatternWords

  // ---------------------------------------------------------------------
  // Where a word pattern cannot match

  /** The first word cannot start here. */
  lemma WordsMissAtStart(ws: seq<string>, ignoreCase: bool, t: string)
    requires ws != [] && ws[0] != []
    requires t == [] || !CharMatches(ws[0][0], t[0], ignoreCase)
    ensures MatchWords(ws, ignoreCase, t) == None
  {
  }

  /** The first word matches, no white space follows, and the second word
      cannot start after it. */
  lemma SecondWordMisses(ws: seq<string>, ignoreCase: bool, s: string)
    requires |ws| > 1 && ws[1] != [] && PrefixMatches(ws[0], ignoreCase, s)
    requires |ws[0]| < |s| && !IsSpace(s[|ws[0]|]) && !CharMatches(ws[1][0], s[|ws[0]|], ignoreCase)
    ensures MatchWords(ws, ignoreCase, s) == None
  {
    WordsStep(ws, ignoreCase, s);
    var t := s[|ws[0]|..];
    assert t[0] == s[|ws[0]|];
    assert LeadingSpaces(t) == 0 && t[0..] == t;
    WordsMissAtStart(ws[1..], ignoreCase, t);
  }

  /** A word pattern whose first character occurs nowhere has no match. */
  lemma NoFirstCharNoMatch(ws: seq<string>, ignoreCase: bool, s: string)
    requires ws != [] && ws[0] != []
    requires forall i :: 0 <= i < |s| ==> !CharMatches(ws[0][0], s[i], ignoreCase)
    ensures NoMatch(Pattern(Spaced(ws), ignoreCase), s)
  {
    forall j | 0 <= j <= |s| ensures MatchAt(Pattern(Spaced(ws), ignoreCase), s[j..]).None? {
      SpacedMatchesWords(ws, ignoreCase, s[j..]);
      if j < |s| {
        assert s[j..][0] == s[j];
      }
      WordsMissAtStart(ws, ignoreCase, s[j..]);
    }
  }

  /** The first two atoms of a pattern whose first word has two characters
      or more. */
  lemma SpacedOpening(ws: seq<string>)
    requires ws != [] && |ws[0]| >= 2
    ensures |Spaced(ws)| >= 2 && Spaced(ws)[0] == Lit(ws[0][0]) && Spaced(ws)[1] == Lit(ws[0][1])
  {
    if |ws| > 1 {
      assert Spaced(ws) == Lits(ws[0]) + ([Spaces] + Spaced(ws[1..]));
    }
  }

  /** A pattern opening with two literals has no match where those two
      never occur in a row. */
  lemma OpeningAbsent(p: Pattern, s: string, c: char, d: char)
    requires |p.atoms| >= 2 && p.atoms[0] == Lit(c) && p.atoms[1] == Lit(d)
    requires forall i :: 0 <= i < |s| - 1 ==> !(CharMatches(c, s[i], p.ignoreCase) && CharMatches(d, s[i + 1], p.ignoreCase))
    ensures NoMatch(p, s)
  {
    forall j | 0 <= j <= |s| ensures MatchAt(p, s[j..]).None? {
      if j < |s| - 1 {
        assert s[j..][0] == s[j] && s[j..][1] == s[j + 1];
      }
      OpeningMisses(p.atoms, p.ignoreCase, s[j..], c, d);
    }
  }

  lemma OpeningMisses(atoms: seq<Atom>, ignoreCase: bool, t: string, c: char, d: char)
    requires |atoms| >= 2 && atoms[0] == Lit(c) && atoms[1] == Lit(d)
    requires !(|t| >= 2 && CharMatches(c, t[0], ignoreCase) && CharMatches(d, t[1], ignoreCase))
    ensures MatchAtoms(atoms, ignoreCase, t) == None
  {
    assert atoms[1..][0] == Lit(d);
    if t != [] && CharMatches(c, t[0], ignoreCase) {
      assert MatchAtoms(atoms[1..], ignoreCase, t[1..]) == None;
    }
  }

  // ---------------------------------------------------------------------
  // The first two name passes on `{{app name}}`

  /** `{app name}` written with the white space of the example. */
  lemma AppNameJoin()
    ensures Join(["{", "app", "name", "}"], ["", " ", ""]) == "{app name}"
  {
  }

  /** A word of the example patterns starts with a brace or a letter. */
  lemma SolidWord(w: string)
    requires w in {"{", "}", "app", "name", "email"}
    ensures w != [] && !IsSpace(w[0])
  {
  }

  /** The words of the single-brace name pattern meet the conditions of the
      general word lemmas. */
  lemma AppNameWords(p: Pattern, ws: seq<string>)
    requires p == AppNameCurly && ws == ["{", "app", "name", "}"]
    ensures ws != [] && p == Pattern(Spaced(ws), true)
    ensures forall i :: 0 <= i < |ws| ==> ws[i] != [] && !IsSpace(ws[i][0])
  {
    AppNamePattern(p, ws);
    forall i | 0 <= i < |ws| ensures ws[i] != [] && !IsSpace(ws[i][0]) {
      SolidWord(ws[i]);
    }
  }

  lemma AppNamePattern(p: Pattern, ws: seq<string>)
    requires p == AppNameCurly && ws == ["{", "app", "name", "}"]
    ensures p == Pattern(Spaced(ws), true)
  {
  }

  lemma AppNameWordsMatch(ws: seq<string>, seps: seq<string>, rest: string, s: string)
    requires ws == ["{", "app", "name", "}"] && seps == ["", " ", ""]
    requires rest == "}" && s == "{app name}}"
    ensures MatchWords(ws, true, s) == Some(10)
  {
    AppNameWords(AppNameCurly, ws);
    SpaceSeps(seps);
    AppNameJoin();
    MatchWordsJoined(ws, seps, true, rest);
    WithClosingBrace(Join(ws, seps), rest, s);
  }

  /** The example is the placeholder followed by one more brace. */
  lemma WithClosingBrace(j: string, rest: string, s: string)
    requires (j == "{app name}" && s == "{app name}}") || (j == "{email}" && s == "{email}}")
    requires rest == "}"
    ensures j + rest == s && |j| == |s| - 1
  {
  }

  /** The separators of the examples are white space. */
  lemma SpaceSeps(seps: seq<string>)
    requires seps == ["", " ", ""] || seps == ["", ""]
    ensures forall i :: 0 <= i < |seps| ==> AllSpaces(seps[i])
  {
    forall i | 0 <= i < |seps| ensures AllSpaces(seps[i]) {
      assert seps[i] == "" || seps[i] == " ";
    }
  }

  /** From the second brace on, the single-brace pattern matches ten characters. */
  lemma AppNameCurlyMatchesInner(p: Pattern, s: string)
    requires p == AppNameCurly && s == "{app name}}"
    ensures MatchAt(p, s) == Some(10)
  {
    var ws := ["{", "app", "name", "}"];
    AppNameWords(p, ws);
    AppNameWordsMatch(ws, ["", " ", ""], "}", s);
    SpacedMatchesWords(ws, true, s);
  }

  /** At the first brace it does not: `\s*` cannot skip the second brace. */
  lemma AppNameCurlyMissesOuter(p: Pattern, s: string)
    requires p == AppNameCurly && s == "{{app name}}"
    ensures MatchAt(p, s) == None
  {
    var ws := ["{", "app", "name", "}"];
    AppNameWords(p, ws);
    assert s[1] == '{';
    SecondWordMisses(ws, true, s);
    SpacedMatchesWords(ws, true, s);
  }

  lemma AppNameCurlyFirstMatch(p: Pattern, s: string)
    requires p == AppNameCurly && s == "{{app name}}"
    ensures FirstMatch(p, s) == Some((1, 10))
  {
    AppNameCurlyMissesOuter(p, s);
    AppNameCurlyMatchesInner(p, s[1..]);
  }

  lemma AppNameCurlyNotInBrace(p: Pattern, s: string)
    requires p == AppNameCurly && s == "}"
    ensures NoMatch(p, s)
  {
    var ws := ["{", "app", "name", "}"];
    AppNameWords(p, ws);
    NoFirstCharNoMatch(ws, true, s);
  }

  lemma ProductNameCurlyAbsent(p: Pattern, ws: seq<string>, s: string)
    requires p == ProductNameCurly && ws == ["{", "product", "name", "}"] && s == "{{app name}}"
    ensures NoMatch(p, s)
  {
    assert p == Pattern(Spaced(ws), true);
    forall j | 0 <= j <= |s| ensures MatchAt(p, s[j..]).None? {
      SpacedMatchesWords(ws, true, s[j..]);
      if j <= 1 {
        ProductNameMissesAtBrace(ws, s[j..]);
      } else {
        assert s[j..] == [] || s[j..][0] == s[j];
        WordsMissAtStart(ws, true, s[j..]);
      }
    }
  }

  lemma ProductNameMissesAtBrace(ws: seq<string>, t: string)
    requires ws == ["{", "product", "name", "}"]
    requires t == "{{app name}}" || t == "{app name}}"
    ensures MatchWords(ws, true, t) == None
  {
    assert t[1] == '{' || t[1] == 'a';
    SecondWordMisses(ws, true, t);
  }

  /** The single-brace pass replaces the inner placeholder and keeps the
      outer braces, whatever the value (without `$`). */
  lemma SingleBracePassKeepsBraces(p: Pattern, s: string, v: string)
    requires p == AppNameCurly && s == "{{app name}}" && NoDollar(v)
    ensures WellFormed(p)
    ensures ReplaceAll(p, s, v) == "{" + v + "}"
  {
    var ws := ["{", "app", "name", "}"];
    AppNameWords(p, ws);
    SpacedWellFormed(ws, true);
    AppNameCurlyFirstMatch(p, s);
    AppNameCurlyNotInBrace(p, s[11..]);
    BracesAround(s, 1, 10, v);
    ReplaceAllOnce(p, s, v, 1, 10);
  }

  /** Cutting the placeholder out of the one in double braces leaves one
      brace on each side. */
  lemma BracesAround(s: string, k: nat, n: nat, v: string)
    requires (s == "{{app name}}" && k == 1 && n == 10) || (s == "{{email}}" && k == 1 && n == 7)
    ensures k + n <= |s| && s[..k] + v + s[k + n..] == "{" + v + "}"
  {
    assert s[..k] == "{" && s[k + n..] == "}";
  }

  lemma ProductPassKeepsText(p: Pattern, s: string, v: string)
    requires p == ProductNameCurly && s == "{{app name}}"
    ensures WellFormed(p)
    ensures ReplaceAll(p, s, v) == s
  {
    var ws := ["{", "product", "name", "}"];
    SpacedWellFormed(ws, true);
    ProductNameCurlyAbsent(p, ws, s);
    ReplaceNone(p, s, v, []);
  }

  /** Two passes run one after the other. */
  lemma TwoPasses(pats: seq<Pattern>, s: string, v: string, mid: string, out: string)
    requires |pats| == 2 && WellFormed(pats[0]) && WellFormed(pats[1])
    requires ReplaceAll(pats[0], s, v) == mid && ReplaceAll(pats[1], mid, v) == out
    ensures AllWellFormed(pats)
    ensures ReplaceEach(pats, s, v) == out
  {
    var first := pats[..1];
    assert first[..0] == [] && first[0] == pats[0];
    ReplaceEachLast(pats, s, v);
    ReplaceEachLast(first, s, v);
  }

  /** The first two name patterns, in their order. */
  lemma FirstNamePatterns(pats: seq<Pattern>)
    requires pats == NamePatterns
    ensures |pats| == 9 && pats[0] == ProductNameCurly && pats[1] == AppNameCurly
  {
  }

  /** After the first two name passes, `{{app name}}` is the value in braces. */
  lemma FirstTwoPasses(pats: seq<Pattern>, s: string, v: string)
    requires |pats| == 2 && pats[0] == ProductNameCurly && pats[1] == AppNameCurly
    requires s == "{{app name}}" && NoDollar(v)
    ensures AllWellFormed(pats)
    ensures ReplaceEach(pats, s, v) == "{" + v + "}"
  {
    ProductPassKeepsText(pats[0], s, v);
    SingleBracePassKeepsBraces(pats[1], s, v);
    TwoPasses(pats, s, v, s, "{" + v + "}");
  }

  // ---------------------------------------------------------------------
  // The later passes find nothing in `{Foo}`

  /** No two characters of `s` in a row match `c` then `d`. */
  predicate OpensNowhere(s: string, c: char, d: char, ignoreCase: bool) {
    forall i :: 0 <= i < |s| - 1 ==> !(CharMatches(c, s[i], ignoreCase) && CharMatches(d, s[i + 1], ignoreCase))
  }

  /** `{Foo}` has one brace, followed by a capital F. */
  lemma OpensNowhereInFoo(s: string, c: char, d: char, ignoreCase: bool)
    requires s == "{Foo}"
    requires !CharMatches(c, 'F', ignoreCase) && !CharMatches(c, 'o', ignoreCase) && !CharMatches(d, 'F', ignoreCase)
    ensures OpensNowhere(s, c, d, ignoreCase)
  {
    assert s[1] == 'F' && s[2] == 'o' && s[3] == 'o';
  }

  /** A pattern of words whose first word opens with a double brace. */
  lemma DoubleBraceAbsent(ws: seq<string>, ignoreCase: bool, s: string)
    requires ws != [] && |ws[0]| >= 2 && ws[0][0] == '{' && ws[0][1] == '{' && s == "{Foo}"
    ensures NoMatch(Pattern(Spaced(ws), ignoreCase), s)
  {
    SpacedOpening(ws);
    OpensNowhereInFoo(s, '{', '{', ignoreCase);
    OpeningAbsent(Pattern(Spaced(ws), ignoreCase), s, '{', '{');
  }

  /** A pattern of literals whose first two are `c` and `d`. */
  lemma LiteralsAbsent(w: string, s: string)
    requires |w| >= 2 && s == "{Foo}"
    requires !CharMatches(w[0], 'F', false) && !CharMatches(w[0], 'o', false) && !CharMatches(w[1], 'F', false)
    ensures NoMatch(Pattern(Lits(w), false), s)
  {
    OpensNowhereInFoo(s, w[0], w[1], false);
    OpeningAbsent(Pattern(Lits(w), false), s, w[0], w[1]);
  }

  lemma EmailCurlyAbsent(p: Pattern, s: string)
    requires p == EmailCurly && s == "{Foo}"
    ensures NoMatch(p, s)
  {
    var ws := ["{", "email", "}"];
    EmailWords(p, ws);
    assert s[1] == 'F';
    SecondWordMisses(ws, true, s);
    SpacedMatchesWords(ws, true, s);
    var rest := s[1..];
    assert rest == "Foo}";
    NoFirstCharNoMatch(ws, true, rest);
    NoMatchCons(p, s);
  }

  /** No name pattern after the first two occurs in `{Foo}`. */
  lemma LaterNamePassesIdle(s: string)
    requires s == "{Foo}"
    ensures forall i :: 2 <= i < |NamePatterns| ==> NoMatch(NamePatterns[i], s)
  {
    forall i | 2 <= i < |NamePatterns| ensures NoMatch(NamePatterns[i], s) {
      NamePatternIdle(i, s);
    }
  }

  lemma NamePatternIdle(i: nat, s: string)
    requires 2 <= i < |NamePatterns| && s == "{Foo}"
    ensures NoMatch(NamePatterns[i], s)
  {
    if i == 2 {
      ProductNameDoubleCurlyIdle(NamePatterns[2], s);
    } else if i == 3 {
      AppNameDoubleCurlyIdle(NamePatterns[3], s);
    } else if i == 4 {
      AppNamePercentIdle(NamePatterns[4], s);
    } else if i == 5 {
      ProductNamePercentIdle(NamePatterns[5], s);
    } else if i == 6 {
      AppNameTokenIdle(NamePatterns[6], s);
    } else if i == 7 {
      ProductNameTokenIdle(NamePatterns[7], s);
    } else {
      AppNameBracedIdle(NamePatterns[8], s);
    }
  }

  lemma ProductNameDoubleCurlyIdle(p: Pattern, s: string)
    requires p == ProductNameDoubleCurly && s == "{Foo}"
    ensures NoMatch(p, s)
  {
    DoubleBraceAbsent(["{{", "product", "name", "}}"], true, s);
  }

  lemma AppNameDoubleCurlyIdle(p: Pattern, s: string)
    requires p == AppNameDoubleCurly && s == "{Foo}"
    ensures NoMatch(p, s)
  {
    DoubleBraceAbsent(["{{", "app", "name", "}}"], true, s);
  }

  lemma AppNamePercentIdle(p: Pattern, s: string)
    requires p == AppNamePercent && s == "{Foo}"
    ensures NoMatch(p, s)
  {
    LiteralsAbsent("%APP_NAME%", s);
  }

  lemma ProductNamePercentIdle(p: Pattern, s: string)
    requires p == ProductNamePercent && s == "{Foo}"
    ensures NoMatch(p, s)
  {
    LiteralsAbsent("%PRODUCT_NAME%", s);
  }

  lemma AppNameTokenIdle(p: Pattern, s: string)
    requires p == AppNameToken && s == "{Foo}"
    ensures NoMatch(p, s)
  {
    DoubleBraceAbsent(["{{", "APP_NAME", "}}"], false, s);
  }

  lemma ProductNameTokenIdle(p: Pattern, s: string)
    requires p == ProductNameToken && s == "{Foo}"
    ensures NoMatch(p, s)
  {
    DoubleBraceAbsent(["{{", "PRODUCT_NAME", "}}"], false, s);
  }

  lemma AppNameBracedIdle(p: Pattern, s: string)
    requires p == AppNameBraced && s == "{Foo}"
    ensures NoMatch(p, s)
  {
    LiteralsAbsent("{APP_NAME}", s);
  }

  /** No e-mail pattern occurs in `{Foo}`. */
  lemma EmailPassesIdle(s: string)
    requires s == "{Foo}"
    ensures forall i :: 0 <= i < |EmailPatterns| ==> NoMatch(EmailPatterns[i], s)
  {
    forall i | 0 <= i < |EmailPatterns| ensures NoMatch(EmailPatterns[i], s) {
      EmailPatternIdle(i, s);
    }
  }

  lemma EmailPatternIdle(i: nat, s: string)
    requires i < |EmailPatterns| && s == "{Foo}"
    ensures NoMatch(EmailPatterns[i], s)
  {
    if i == 0 {
      EmailCurlyIdle(EmailPatterns[0], s);
    } else if i == 1 {
      EmailDoubleCurlyIdle(EmailPatterns[1], s);
    } else if i == 2 {
      EmailPercentIdle(EmailPatterns[2], s);
    } else {
      ContactEmailTokenIdle(EmailPatterns[3], s);
    }
  }

  lemma EmailCurlyIdle(p: Pattern, s: string)
    requires p == EmailCurly && s == "{Foo}"
    ensures NoMatch(p, s)
  {
    EmailCurlyAbsent(p, s);
  }

  lemma EmailDoubleCurlyIdle(p: Pattern, s: string)
    requires p == EmailDoubleCurly && s == "{Foo}"
    ensures NoMatch(p, s)
  {
    DoubleBraceAbsent(["{{", "email", "}}"], true, s);
  }

  lemma EmailPercentIdle(p: Pattern, s: string)
    requires p == EmailPercent && s == "{Foo}"
    ensures NoMatch(p, s)
  {
    LiteralsAbsent("%EMAIL%", s);
  }

  lemma ContactEmailTokenIdle(p: Pattern, s: string)
    requires p == ContactEmailToken && s == "{Foo}"
    ensures NoMatch(p, s)
  {
    DoubleBraceAbsent(["{{", "CONTACT_EMAIL", "}}"], false, s);
  }

  lemma NamePassesOnExample(pats: seq<Pattern>, s: string, v: string, out: string)
    requires pats == NamePatterns && s == "{{app name}}" && v == "Foo" && out == "{Foo}"
    ensures AllWellFormed(pats)
    ensures ReplaceEach(pats, s, v) == out
  {
    SourcePatternsWellFormed();
    FooHasNoDollar(v);
    FirstNamePatterns(pats);
    FirstTwoPasses(pats[..2], s, v);
    FooInBraces(v, out);
    LaterNamePassesIdle(out);
    PrefixThenNone(pats, 2, s, v, out);
  }

  lemma FooHasNoDollar(v: string)
    requires v == "Foo"
    ensures NoDollar(v)
  {
  }

  lemma FooInBraces(v: string, out: string)
    requires v == "Foo" && out == "{Foo}"
    ensures "{" + v + "}" == out
  {
  }

  /** `{{app name}}` filled with the name `Foo` leaves `{Foo}` behind, for
      any e-mail value. */
  lemma DoubleBraceLeavesBraces(html: string, appName: string, email: string)
    requires html == "{{app name}}" && appName == "Foo"
    ensures Filled(html, appName, email) == "{Foo}"
  {
    var out := "{Foo}";
    NamePassesOnExample(NamePatterns, html, appName, out);
    SourcePatternsWellFormed();
    EmailPassesIdle(out);
    ReplaceEachNone(EmailPatterns, out, email);
  }

  // ---------------------------------------------------------------------
  // The same happens to `{{email}}` in the first e-mail pass

  lemma EmailJoin()
    ensures Join(["{", "email", "}"], ["", ""]) == "{email}"
  {
  }

  /** The words of the single-brace e-mail pattern meet the conditions of
      the general word lemmas. */
  lemma EmailWords(p: Pattern, ws: seq<string>)
    requires p == EmailCurly && ws == ["{", "email", "}"]
    ensures ws != [] && p == Pattern(Spaced(ws), true)
    ensures forall i :: 0 <= i < |ws| ==> ws[i] != [] && !IsSpace(ws[i][0])
  {
    EmailPattern(p, ws);
    forall i | 0 <= i < |ws| ensures ws[i] != [] && !IsSpace(ws[i][0]) {
      SolidWord(ws[i]);
    }
  }

  lemma EmailPattern(p: Pattern, ws: seq<string>)
    requires p == EmailCurly && ws == ["{", "email", "}"]
    ensures p == Pattern(Spaced(ws), true)
  {
  }

  lemma EmailWordsMatch(ws: seq<string>, seps: seq<string>, rest: string, s: string)
    requires ws == ["{", "email", "}"] && seps == ["", ""]
    requires rest == "}" && s == "{email}}"
    ensures MatchWords(ws, true, s) == Some(7)
  {
    EmailWords(EmailCurly, ws);
    SpaceSeps(seps);
    EmailJoin();
    MatchWordsJoined(ws, seps, true, rest);
    WithClosingBrace(Join(ws, seps), rest, s);
  }

  lemma EmailCurlyMatchesInner(p: Pattern, s: string)
    requires p == EmailCurly && s == "{email}}"
    ensures MatchAt(p, s) == Some(7)
  {
    var ws := ["{", "email", "}"];
    EmailWords(p, ws);
    EmailWordsMatch(ws, ["", ""], "}", s);
    SpacedMatchesWords(ws, true, s);
  }

  lemma EmailCurlyMissesOuter(p: Pattern, s: string)
    requires p == EmailCurly && s == "{{email}}"
    ensures MatchAt(p, s) == None
  {
    var ws := ["{", "email", "}"];
    EmailWords(p, ws);
    assert s[1] == '{';
    SecondWordMisses(ws, true, s);
    SpacedMatchesWords(ws, true, s);
  }

  lemma EmailCurlyFirstMatch(p: Pattern, s: string)
    requires p == EmailCurly && s == "{{email}}"
    ensures FirstMatch(p, s) == Some((1, 7))
  {
    EmailCurlyMissesOuter(p, s);
    EmailCurlyMatchesInner(p, s[1..]);
  }

  lemma EmailCurlyNotInBrace(p: Pattern, s: string)
    requires p == EmailCurly && s == "}"
    ensures NoMatch(p, s)
  {
    var ws := ["{", "email", "}"];
    EmailWords(p, ws);
    NoFirstCharNoMatch(ws, true, s);
  }

  /** The first e-mail pass turns `{{email}}` into the value in braces. */
  lemma EmailSingleBracePassKeepsBraces(p: Pattern, s: string, v: string)
    requires p == EmailCurly && s == "{{email}}" && NoDollar(v)
    ensures WellFormed(p)
    ensures ReplaceAll(p, s, v) == "{" + v + "}"
  {
    var ws := ["{", "email", "}"];
    EmailWords(p, ws);
    SpacedWellFormed(ws, true);
    EmailCurlyFirstMatch(p, s);
    EmailCurlyNotInBrace(p, s[8..]);
    BracesAround(s, 1, 7, v);
    ReplaceAllOnce(p, s, v, 1, 7);
  }
}
