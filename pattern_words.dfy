// A word-level reading of the placeholder regular expressions. Each of the
// source's patterns with `\s*` is a list of words joined by `\s*` (Spaced);
// MatchWords reads such a pattern the way its source text does (the words,
// with any white space between them) and SpacedMatchesWords proves that the
// atom-level matcher agrees with it.

module PatternWords {
  import opened Text
  import opened Optional
  import opened Placeholders

  /** `s` starts with the word `w`, under the `i` flag when it is set. */
  predicate PrefixMatches(w: string, ignoreCase: bool, s: string)
    ensures PrefixMatches(w, ignoreCase, s) ==> |w| <= |s|
  {
    w == [] || (s != [] && CharMatches(w[0], s[0], ignoreCase) && PrefixMatches(w[1..], ignoreCase, s[1..]))
  }

  /** A match result moved `k` characters further on. */
  function Shift(k: nat, r: Option<nat>): Option<nat> {
    match r
    case Some(n) => Some(k + n)
    case None => None
  }

  /** The match of the words `ws`, joined by `\s*`, at the start of `s`: each
      word in turn, and between two words the white space that follows. */
  function MatchWords(ws: seq<string>, ignoreCase: bool, s: string): (r: Option<nat>)
    requires ws != []
    decreases |ws|
  {
    if !PrefixMatches(ws[0], ignoreCase, s) then None
    else if |ws| == 1 then Some(|ws[0]|)
    else
      var t := s[|ws[0]|..];
      var k := LeadingSpaces(t);
      Shift(|ws[0]| + k, MatchWords(ws[1..], ignoreCase, t[k..]))
  }

  /** Matching a run of literals is matching the word they spell. */
  lemma {:induction false} MatchLits(w: string, rest: seq<Atom>, ignoreCase: bool, s: string)
    ensures PrefixMatches(w, ignoreCase, s) ==>
      MatchAtoms(Lits(w) + rest, ignoreCase, s) == Shift(|w|, MatchAtoms(rest, ignoreCase, s[|w|..]))
    ensures !PrefixMatches(w, ignoreCase, s) ==> MatchAtoms(Lits(w) + rest, ignoreCase, s) == None
    decreases |w|
  {
    if w == [] {
      assert Lits(w) + rest == rest;
    } else {
      LitStep(w, rest, ignoreCase, s);
      if s != [] && CharMatches(w[0], s[0], ignoreCase) {
        MatchLits(w[1..], rest, ignoreCase, s[1..]);
        if PrefixMatches(w, ignoreCase, s) {
          assert s[1..][|w| - 1..] == s[|w|..];
          ShiftShift(1, |w| - 1, MatchAtoms(rest, ignoreCase, s[|w|..]));
        }
      }
    }
  }

  /** One literal of MatchLits. */
  lemma LitStep(w: string, rest: seq<Atom>, ignoreCase: bool, s: string)
    requires w != []
    ensures MatchAtoms(Lits(w) + rest, ignoreCase, s)
      == if s != [] && CharMatches(w[0], s[0], ignoreCase)
         then Shift(1, MatchAtoms(Lits(w[1..]) + rest, ignoreCase, s[1..])) else None
  {
    var atoms := Lits(w) + rest;
    assert atoms[0] == Lit(w[0]);
    assert atoms[1..] == Lits(w[1..]) + rest;
  }

  /** The atom-level matcher and the word-level reading agree on every
      pattern built by Spaced. */
  lemma {:induction false} SpacedMatchesWords(ws: seq<string>, ignoreCase: bool, s: string)
    requires ws != []
    ensures MatchAtoms(Spaced(ws), ignoreCase, s) == MatchWords(ws, ignoreCase, s)
    decreases |ws|
  {
    if |ws| == 1 {
      assert Lits(ws[0]) + [] == Lits(ws[0]);
      MatchLits(ws[0], [], ignoreCase, s);
    } else if PrefixMatches(ws[0], ignoreCase, s) {
      var t := s[|ws[0]|..];
      SpacedMatchesWords(ws[1..], ignoreCase, t[LeadingSpaces(t)..]);
      SpacedStep(ws, ignoreCase, s);
      WordsStep(ws, ignoreCase, s);
    } else {
      assert Spaced(ws) == Lits(ws[0]) + ([Spaces] + Spaced(ws[1..]));
      MatchLits(ws[0], [Spaces] + Spaced(ws[1..]), ignoreCase, s);
    }
  }

  /** The inductive step of SpacedMatchesWords: a word, then `\s*`. */
  lemma SpacedStep(ws: seq<string>, ignoreCase: bool, s: string)
    requires |ws| > 1 && PrefixMatches(ws[0], ignoreCase, s)
    ensures var t := s[|ws[0]|..];
      MatchAtoms(Spaced(ws), ignoreCase, s)
        == Shift(|ws[0]| + LeadingSpaces(t), MatchAtoms(Spaced(ws[1..]), ignoreCase, t[LeadingSpaces(t)..]))
  {
    var rest := [Spaces] + Spaced(ws[1..]);
    var t := s[|ws[0]|..];
    var k := LeadingSpaces(t);
    var x := MatchAtoms(Spaced(ws[1..]), ignoreCase, t[k..]);
    SpacedCons(ws);
    MatchLits(ws[0], rest, ignoreCase, s);
    SpacesStep(ws[1..], ignoreCase, t);
    ShiftShift(|ws[0]|, k, x);
  }

  lemma ShiftShift(a: nat, b: nat, x: Option<nat>)
    ensures Shift(a, Shift(b, x)) == Shift(a + b, x)
  {
  }

  /** Spaced unfolded once. */
  lemma SpacedCons(ws: seq<string>)
    requires |ws| > 1
    ensures Spaced(ws) == Lits(ws[0]) + ([Spaces] + Spaced(ws[1..]))
  {
  }

  /** MatchWords past its first word and the white space after it. */
  lemma WordsCons(ws: seq<string>, ignoreCase: bool, s: string, k: nat, m: nat)
    requires |ws| > 1 && PrefixMatches(ws[0], ignoreCase, s)
    requires LeadingSpaces(s[|ws[0]|..]) == k
    requires MatchWords(ws[1..], ignoreCase, s[|ws[0]| + k..]) == Some(m)
    ensures MatchWords(ws, ignoreCase, s) == Some(|ws[0]| + k + m)
  {
    assert s[|ws[0]|..][k..] == s[|ws[0]| + k..];
  }

  /** MatchWords unfolded once. */
  lemma WordsStep(ws: seq<string>, ignoreCase: bool, s: string)
    requires |ws| > 1 && PrefixMatches(ws[0], ignoreCase, s)
    ensures var t := s[|ws[0]|..];
      MatchWords(ws, ignoreCase, s) == Shift(|ws[0]| + LeadingSpaces(t), MatchWords(ws[1..], ignoreCase, t[LeadingSpaces(t)..]))
  {
  }

  /** The `\s*` atom skips the white space at the start of `t`. */
  lemma SpacesStep(ws: seq<string>, ignoreCase: bool, t: string)
    requires ws != []
    ensures MatchAtoms([Spaces] + Spaced(ws), ignoreCase, t)
      == Shift(LeadingSpaces(t), MatchAtoms(Spaced(ws), ignoreCase, t[LeadingSpaces(t)..]))
  {
    assert ([Spaces] + Spaced(ws))[1..] == Spaced(ws);
  }

  /** White space only. */
  predicate AllSpaces(s: string) {
    forall i :: 0 <= i < |s| ==> IsSpace(s[i])
  }

  /** The words `ws` with the separators `seps` between them. */
  function Join(ws: seq<string>, seps: seq<string>): (r: string)
    requires ws != [] && |seps| == |ws| - 1
    decreases |ws|
  {
    if |ws| == 1 then ws[0] else ws[0] + seps[0] + Join(ws[1..], seps[1..])
  }

  /** Every word matches itself. */
  lemma {:induction false} PrefixOfSelf(w: string, ignoreCase: bool, rest: string)
    ensures PrefixMatches(w, ignoreCase, w + rest)
    decreases |w|
  {
    if w != [] {
      assert (w + rest)[1..] == w[1..] + rest;
      PrefixOfSelf(w[1..], ignoreCase, rest);
    }
  }

  /** White space followed by something else: the run is exactly the separator. */
  lemma {:induction false} LeadingSpacesOfSep(sep: string, rest: string)
    requires AllSpaces(sep) && rest != [] && !IsSpace(rest[0])
    ensures LeadingSpaces(sep + rest) == |sep|
    decreases |sep|
  {
    if sep != [] {
      assert (sep + rest)[1..] == sep[1..] + rest;
      LeadingSpacesOfSep(sep[1..], rest);
    } else {
      assert sep + rest == rest;
    }
  }

  /** A pattern `w1\s*w2...\s*wn` matches the words separated by any
      white space, and the match ends with the last word. */
  lemma {:induction false} MatchWordsJoined(ws: seq<string>, seps: seq<string>, ignoreCase: bool, rest: string)
    requires ws != [] && |seps| == |ws| - 1
    requires forall i :: 0 <= i < |ws| ==> ws[i] != [] && !IsSpace(ws[i][0])
    requires forall i :: 0 <= i < |seps| ==> AllSpaces(seps[i])
    ensures MatchWords(ws, ignoreCase, Join(ws, seps) + rest) == Some(|Join(ws, seps)|)
    decreases |ws|
  {
    if |ws| == 1 {
      PrefixOfSelf(ws[0], ignoreCase, rest);
    } else {
      MatchWordsJoined(ws[1..], seps[1..], ignoreCase, rest);
      JoinedStep(ws, seps, ignoreCase, rest);
    }
  }

  /** The inductive step of MatchWordsJoined. */
  lemma JoinedStep(ws: seq<string>, seps: seq<string>, ignoreCase: bool, rest: string)
    requires |ws| > 1 && |seps| == |ws| - 1
    requires ws[0] != [] && ws[1] != [] && !IsSpace(ws[1][0]) && AllSpaces(seps[0])
    requires var tail := Join(ws[1..], seps[1..]);
      MatchWords(ws[1..], ignoreCase, tail + rest) == Some(|tail|)
    ensures MatchWords(ws, ignoreCase, Join(ws, seps) + rest) == Some(|Join(ws, seps)|)
  {
    var tail := Join(ws[1..], seps[1..]);
    assert Join(ws, seps) + rest == ws[0] + seps[0] + (tail + rest);
    JoinHead(ws[1..], seps[1..]);
    assert (tail + rest)[0] == ws[1][0];
    WordsAfterSep(ws, seps[0], tail + rest, ignoreCase, |tail|);
  }

  /** The first word, a separator, then text where the other words match. */
  lemma WordsAfterSep(ws: seq<string>, sep: string, u: string, ignoreCase: bool, m: nat)
    requires |ws| > 1 && AllSpaces(sep) && u != [] && !IsSpace(u[0])
    requires MatchWords(ws[1..], ignoreCase, u) == Some(m)
    ensures MatchWords(ws, ignoreCase, ws[0] + sep + u) == Some(|ws[0]| + |sep| + m)
  {
    WordThenSep(ws[0], sep, u, ignoreCase);
    WordsCons(ws, ignoreCase, ws[0] + sep + u, |sep|, m);
  }

  /** A word, white space, and text that does not start with white space:
      the word matches, and the white space after it is exactly `sep`. */
  lemma WordThenSep(w: string, sep: string, u: string, ignoreCase: bool)
    requires AllSpaces(sep) && u != [] && !IsSpace(u[0])
    ensures var s := w + sep + u;
      PrefixMatches(w, ignoreCase, s) && LeadingSpaces(s[|w|..]) == |sep| && s[|w| + |sep|..] == u
  {
    var s := w + sep + u;
    assert s == w + (sep + u) && s[|w|..] == sep + u;
    PrefixOfSelf(w, ignoreCase, sep + u);
    LeadingSpacesOfSep(sep, u);
  }

  /** A join starts with its first word. */
  lemma JoinHead(ws: seq<string>, seps: seq<string>)
    requires ws != [] && |seps| == |ws| - 1 && ws[0] != []
    ensures Join(ws, seps) != [] && Join(ws, seps)[0] == ws[0][0]
  {
  }
}
