/**
 * The placeholder scanner of the template engine: `extractVariables`, shared
 * by the template editor and the variable filler. It applies the regular
 * expression `/\{\{(\w+)\}\}/g` from left to right and de-duplicates the
 * captured names through a `Set`.
 *
 * At a position i the expression matches exactly when the text at i is `{{`,
 * the maximal run of word characters after it is non-empty, and that run is
 * followed by `}}`: `}` is not a word character, so backtracking into a
 * shorter run can never succeed. After a match the scan resumes behind the
 * closing `}}`; otherwise it moves on by one character.
 */
module Placeholders {
  import opened Text
  import opened Seqs

  /** The placeholder for a name: `{{name}}`. */
  function Placeholder(name: string): string {
    "{{" + name + "}}"
  }

  /** The end of the maximal run of word characters that starts at j. */
  function WordRunEnd(s: string, j: nat): (e: nat)
    requires j <= |s|
    ensures j <= e <= |s|
    ensures forall k :: j <= k < e ==> IsWordChar(s[k])
    ensures e == |s| || !IsWordChar(s[e])
    decreases |s| - j
  {
    if j < |s| && IsWordChar(s[j]) then WordRunEnd(s, j + 1) else j
  }

  /** A run of word characters that cannot be extended is the maximal run. */
  lemma WordRunEndUnique(s: string, j: nat, e: nat)
    requires j <= e <= |s|
    requires forall k :: j <= k < e ==> IsWordChar(s[k])
    requires e == |s| || !IsWordChar(s[e])
    ensures WordRunEnd(s, j) == e
  {
  }

  /** The regular expression matches at position i. */
  predicate MatchesAt(s: string, i: nat) {
    && i + 2 <= |s| && s[i] == '{' && s[i + 1] == '{'
    && var e := WordRunEnd(s, i + 2);
       i + 2 < e && e + 2 <= |s| && s[e] == '}' && s[e + 1] == '}'
  }

  /** The captured name of the match at i (`m[1]`). */
  function NameAt(s: string, i: nat): string
    requires MatchesAt(s, i)
  {
    s[i + 2..WordRunEnd(s, i + 2)]
  }

  /** The position just behind the closing braces of the match at i (the regex's `lastIndex`). */
  function MatchEnd(s: string, i: nat): nat
    requires MatchesAt(s, i)
  {
    WordRunEnd(s, i + 2) + 2
  }

  /** The captured names of all matches at or after position i, in order, repeats included. */
  function ScanFrom(s: string, i: nat): seq<string>
    requires i <= |s|
    decreases |s| - i
  {
    if i == |s| then []
    else if MatchesAt(s, i) then [NameAt(s, i)] + ScanFrom(s, MatchEnd(s, i))
    else ScanFrom(s, i + 1)
  }

  /** `Array.from(text.matchAll(regex), m => m[1])`. */
  function Matches(text: string): seq<string> {
    ScanFrom(text, 0)
  }

  /**
   * `extractVariables`: each placeholder name of the text exactly once, in
   * the order in which the scan first meets it.
   */
  function ExtractVariables(text: string): (vars: seq<string>)
    ensures NoDup(vars)
    ensures forall w :: w in vars <==> w in Matches(text)
    ensures forall w :: w in vars <==> IsName(w) && Occurs(Placeholder(w), text)
    ensures forall i, j :: 0 <= i < j < |vars| ==>
      IndexOf(Matches(text), vars[i]) < IndexOf(Matches(text), vars[j])
  {
    MatchesSoundAndComplete(text);
    FirstOccurrencesOrdered(Matches(text));
    Dedup(Matches(text))
  }

  /** A match spells out the placeholder of its name, and that name is a word. */
  lemma MatchIsPlaceholder(s: string, i: nat)
    requires MatchesAt(s, i)
    ensures IsName(NameAt(s, i))
    ensures OccursAt(Placeholder(NameAt(s, i)), s, i)
  {
    var e := WordRunEnd(s, i + 2);
    assert s[i..e + 2] == s[i..i + 2] + s[i + 2..e] + s[e..e + 2];
    assert s[i..i + 2] == "{{";
    assert s[e..e + 2] == "}}";
  }

  /** Every occurrence of a placeholder with a word name is a match of the regular expression. */
  lemma PlaceholderIsMatch(s: string, i: nat, w: string)
    requires IsName(w) && OccursAt(Placeholder(w), s, i)
    ensures MatchesAt(s, i) && NameAt(s, i) == w
  {
    var p := Placeholder(w);
    var e := i + 2 + |w|;
    assert s[i..i + |p|] == p;
    assert forall k :: 0 <= k < |p| ==> s[i + k] == p[k];
    assert s[i] == p[0] && s[i + 1] == p[1];
    assert s[e] == p[2 + |w|] && s[e + 1] == p[3 + |w|];
    forall k | i + 2 <= k < e
      ensures IsWordChar(s[k])
    {
      assert s[k] == p[k - i] == w[k - i - 2];
    }
    WordRunEndUnique(s, i + 2, e);
    assert s[i + 2..e] == p[2..2 + |w|];
  }

  /** No `{{` starts strictly inside a match, so matches never overlap a placeholder occurrence. */
  lemma NoOpeningInsideMatch(s: string, k: nat, i: nat)
    requires MatchesAt(s, k) && k < i < MatchEnd(s, k) && i + 1 < |s|
    ensures !(s[i] == '{' && s[i + 1] == '{')
  {
    var e := WordRunEnd(s, k + 2);
    if i + 1 < e {
      assert IsWordChar(s[i + 1]);
    }
  }

  /** Every name the scan from i reports is a word whose placeholder occurs in the text. */
  lemma {:induction false} ScanFromSound(s: string, i: nat)
    requires i <= |s|
    ensures forall w :: w in ScanFrom(s, i) ==> IsName(w) && Occurs(Placeholder(w), s)
    decreases |s| - i
  {
    if i == |s| {
    } else if MatchesAt(s, i) {
      MatchIsPlaceholder(s, i);
      ScanFromSound(s, MatchEnd(s, i));
    } else {
      ScanFromSound(s, i + 1);
    }
  }

  /** A placeholder occurrence at or after the scan position is reported by the scan. */
  lemma {:induction false} ScanFromComplete(s: string, k: nat, i: nat, w: string)
    requires k <= i && IsName(w) && OccursAt(Placeholder(w), s, i)
    ensures k <= |s| && w in ScanFrom(s, k)
    decreases i - k
  {
    PlaceholderIsMatch(s, i, w);
    if MatchesAt(s, k) {
      if k < i {
        if i < MatchEnd(s, k) {
          NoOpeningInsideMatch(s, k, i);
          assert false;
        }
        ScanFromComplete(s, MatchEnd(s, k), i, w);
      }
    } else {
      ScanFromComplete(s, k + 1, i, w);
    }
  }

  /** The matches are exactly the word names whose placeholders occur in the text. */
  lemma MatchesSoundAndComplete(text: string)
    ensures forall w :: w in Matches(text) <==> IsName(w) && Occurs(Placeholder(w), text)
  {
    ScanFromSound(text, 0);
    forall w | IsName(w) && Occurs(Placeholder(w), text)
      ensures w in Matches(text)
    {
      var i: nat :| i <= |text| && OccursAt(Placeholder(w), text, i);
      ScanFromComplete(text, 0, i, w);
    }
  }

  /** A match that fits inside a prefix of the text is the same match in the whole text. */
  lemma MatchInPrefix(s: string, m: nat, k: nat)
    requires k <= m <= |s| && MatchesAt(s[..m], k)
    ensures MatchesAt(s, k)
    ensures NameAt(s[..m], k) == NameAt(s, k) && MatchEnd(s[..m], k) == MatchEnd(s, k)
  {
    var t := s[..m];
    var e := WordRunEnd(t, k + 2);
    WordRunEndUnique(s, k + 2, e);
  }

  /** A scan that meets no match reports nothing. */
  lemma {:induction false} ScanFromNoMatch(s: string, i: nat)
    requires i <= |s|
    requires forall p :: i <= p < |s| ==> !MatchesAt(s, p)
    ensures ScanFrom(s, i) == []
    decreases |s| - i
  {
    if i < |s| {
      ScanFromNoMatch(s, i + 1);
    }
  }

  /** A match that ends inside a prefix is a match of the prefix. */
  lemma MatchWithinPrefix(s: string, m: nat, k: nat)
    requires k <= m <= |s|
    ensures MatchesAt(s, k) && MatchEnd(s, k) <= m ==> MatchesAt(s[..m], k)
  {
    if MatchesAt(s, k) && MatchEnd(s, k) <= m {
      WordRunEndUnique(s[..m], k + 2, WordRunEnd(s, k + 2));
    }
  }

  /** Scanning a prefix of the text reports a prefix of the names the whole text reports. */
  lemma {:induction false} ScanFromOfPrefix(s: string, m: nat, k: nat)
    requires k <= m <= |s|
    ensures ScanFrom(s[..m], k) <= ScanFrom(s, k)
    decreases m - k
  {
    var t := s[..m];
    if k == m {
    } else if MatchesAt(t, k) {
      MatchInPrefix(s, m, k);
      ScanFromOfPrefix(s, m, MatchEnd(s, k));
    } else if MatchesAt(s, k) {
      // The match at k runs past the end of the prefix, so the prefix holds no `{{` after k.
      MatchWithinPrefix(s, m, k);
      forall p | k + 1 <= p < |t|
        ensures !MatchesAt(t, p)
      {
        if p + 1 < m {
          NoOpeningInsideMatch(s, k, p);
        }
      }
      ScanFromNoMatch(t, k + 1);
    } else {
      ScanFromOfPrefix(s, m, k + 1);
    }
  }

  /**
   * The variables of a prefix of the text are a prefix of the variables of
   * the whole text: typing more text can only add new names at the end.
   */
  lemma ExtractVariablesOfPrefix(text: string, m: nat)
    requires m <= |text|
    ensures ExtractVariables(text[..m]) <= ExtractVariables(text)
  {
    ScanFromOfPrefix(text, m, 0);
    var a := Matches(text[..m]);
    var b := Matches(text);
    assert b == a + b[|a|..];
    FirstOccurrencesOfPrefix(a, b[|a|..]);
  }

  /**
   * Names come out in order of first occurrence in the text: wherever the
   * placeholder of a later name has appeared in full, the placeholder of
   * every earlier name has appeared too.
   */
  lemma ExtractVariablesFirstOccurrenceOrder(text: string, m: nat)
    requires m <= |text|
    ensures var vars := ExtractVariables(text);
      forall i, j :: 0 <= i < j < |vars| && Occurs(Placeholder(vars[j]), text[..m]) ==>
        Occurs(Placeholder(vars[i]), text[..m])
  {
    var vars := ExtractVariables(text);
    var pre := ExtractVariables(text[..m]);
    ExtractVariablesOfPrefix(text, m);
    forall i, j | 0 <= i < j < |vars| && Occurs(Placeholder(vars[j]), text[..m])
      ensures Occurs(Placeholder(vars[i]), text[..m])
    {
      assert vars[j] in pre;
      var k :| 0 <= k < |pre| && pre[k] == vars[j];
      assert vars[k] == vars[j];
      assert vars[i] == pre[i];
    }
  }

  /** The run of word characters after a prefix is the run in the rest, shifted by the prefix. */
  lemma WordRunEndShift(a: string, t: string, j: nat)
    requires j <= |t|
    ensures WordRunEnd(a + t, |a| + j) == |a| + WordRunEnd(t, j)
  {
    var e := WordRunEnd(t, j);
    var s := a + t;
    assert forall k :: |a| + j <= k < |a| + e ==> s[k] == t[k - |a|];
    WordRunEndUnique(s, |a| + j, |a| + e);
  }

  /** A match behind a prefix is the same match, shifted by the prefix's length. */
  lemma MatchesAtShift(a: string, t: string, i: nat)
    requires i <= |t|
    ensures MatchesAt(a + t, |a| + i) == MatchesAt(t, i)
    ensures MatchesAt(t, i) ==>
      NameAt(a + t, |a| + i) == NameAt(t, i) && MatchEnd(a + t, |a| + i) == |a| + MatchEnd(t, i)
  {
    var s := a + t;
    if i + 2 <= |t| {
      WordRunEndShift(a, t, i + 2);
      assert s[|a| + i] == t[i] && s[|a| + i + 1] == t[i + 1];
      var e := WordRunEnd(t, i + 2);
      if e + 2 <= |t| {
        assert s[|a| + e] == t[e] && s[|a| + e + 1] == t[e + 1];
      }
      assert s[|a| + i + 2..|a| + e] == t[i + 2..e];
    }
  }

  /** Matching looks only forward: behind a prefix the scan finds what it finds in the rest. */
  lemma {:induction false} ScanFromShift(a: string, t: string, i: nat)
    requires i <= |t|
    ensures ScanFrom(a + t, |a| + i) == ScanFrom(t, i)
    decreases |t| - i
  {
    if i < |t| {
      MatchesAtShift(a, t, i);
      if MatchesAt(t, i) {
        ScanFromShift(a, t, MatchEnd(t, i));
      } else {
        ScanFromShift(a, t, i + 1);
      }
    }
  }

  /** Positions that hold no `{` contribute nothing to the scan. */
  lemma {:induction false} ScanFromPlain(s: string, i: nat, j: nat)
    requires i <= j <= |s|
    requires forall p :: i <= p < j ==> s[p] != '{'
    ensures ScanFrom(s, i) == ScanFrom(s, j)
    decreases j - i
  {
    if i < j {
      ScanFromPlain(s, i + 1, j);
    }
  }

  /** Text without `{` in front of the rest adds no match. */
  lemma MatchesAfterPlainText(a: string, t: string)
    requires '{' !in a
    ensures Matches(a + t) == Matches(t)
  {
    ScanFromPlain(a + t, 0, |a|);
    ScanFromShift(a, t, 0);
  }

  /** A placeholder in front of the rest is matched first, and the scan resumes behind it. */
  lemma MatchesAfterPlaceholder(w: string, t: string)
    requires IsName(w)
    ensures Matches(Placeholder(w) + t) == [w] + Matches(t)
  {
    var p := Placeholder(w);
    var s := p + t;
    assert s[..|p|] == p;
    assert OccursAt(p, s, 0);
    PlaceholderIsMatch(s, 0, w);
    assert MatchEnd(s, 0) == |p|;
    ScanFromShift(p, t, 0);
  }

  /** The text `Hello {{name}}, order {{id}} ready, {{name}}`. */
  const Greeting: string :=
    "Hello " + (Placeholder("name") + (", order " + (Placeholder("id") + (" ready, " + Placeholder("name")))))

  /** The scan of the worked example reports every match, the repeat included. */
  lemma MatchesOfGreeting()
    ensures Matches(Greeting) == ["name", "id", "name"]
  {
    var tail := Placeholder("name");
    assert tail + "" == tail;
    assert IsName("name") && IsName("id");
    MatchesAfterPlaceholder("name", "");
    MatchesAfterPlainText(" ready, ", tail);
    MatchesAfterPlaceholder("id", " ready, " + tail);
    MatchesAfterPlainText(", order ", Placeholder("id") + (" ready, " + tail));
    MatchesAfterPlaceholder("name", ", order " + (Placeholder("id") + (" ready, " + tail)));
    MatchesAfterPlainText("Hello ", Placeholder("name") + (", order " + (Placeholder("id") + (" ready, " + tail))));
  }

  /** The worked example: the repeated name is reported once, at its first occurrence. */
  lemma ExtractVariablesOfGreeting()
    ensures ExtractVariables(Greeting) == ["name", "id"]
  {
    MatchesOfGreeting();
    var xs := ["name", "id", "name"];
    var x1, x2 := ["name"], ["name", "id"];
    assert x1[..0] == [];
    assert FirstOccurrences(x1) == x1;
    assert x2[..1] == x1 && "id" !in x1;
    assert FirstOccurrences(x2) == x2;
    assert xs[..2] == x2 && "name" in x2;
  }

  /** Adjacent placeholders are both recognised. */
  lemma ExtractVariablesAdjacent()
    ensures ExtractVariables(Placeholder("a") + Placeholder("b")) == ["a", "b"]
  {
    assert IsName("a") && IsName("b");
    MatchesAfterPlaceholder("b", "");
    assert Placeholder("b") + "" == Placeholder("b");
    MatchesAfterPlaceholder("a", Placeholder("b"));
    var x1, x2 := ["a"], ["a", "b"];
    assert x1[..0] == [];
    assert FirstOccurrences(x1) == x1;
    assert x2[..1] == x1 && "b" !in x1;
  }

  /** Nested-looking braces resolve to the innermost well-formed placeholder. */
  lemma ExtractVariablesNestedBraces()
    ensures ExtractVariables("{{{{x}}}}") == ["x"]
  {
    var s := "{{{{x}}}}";
    assert WordRunEnd(s, 2) == 2 && WordRunEnd(s, 3) == 3;
    assert !MatchesAt(s, 0) && !MatchesAt(s, 1);
    assert WordRunEnd(s, 5) == 5 && WordRunEnd(s, 4) == 5;
    assert MatchesAt(s, 2) && NameAt(s, 2) == "x" && MatchEnd(s, 2) == 7;
    ScanFromPlain(s, 7, 9);
  }

  /** A single-brace token, a name with a non-word character and an unterminated placeholder are all inert. */
  lemma ExtractVariablesMalformed()
    ensures ExtractVariables("{x} {{a-b}} {{x") == []
  {
    var s := "{x} {{a-b}} {{x";
    assert !MatchesAt(s, 0);
    ScanFromPlain(s, 1, 4);
    assert WordRunEnd(s, 7) == 7 && WordRunEnd(s, 6) == 7;
    assert !MatchesAt(s, 4) && !MatchesAt(s, 5);
    ScanFromPlain(s, 6, 12);
    assert WordRunEnd(s, 15) == 15 && WordRunEnd(s, 14) == 15;
    assert !MatchesAt(s, 12) && !MatchesAt(s, 13);
    ScanFromPlain(s, 14, 15);
  }

  /** Empty text has no variables. */
  lemma ExtractVariablesEmpty()
    ensures ExtractVariables("") == []
  {
  }

  /** A template text cut into literal text and placeholders. */
  datatype Piece = Literal(text: string) | Hole(name: string)

  /** The text the pieces spell. */
  function Render(pieces: seq<Piece>): string
    decreases |pieces|
  {
    if pieces == [] then ""
    else
      (match pieces[0]
       case Literal(s) => s
       case Hole(n) => Placeholder(n))
      + Render(pieces[1..])
  }

  /** The names of the holes, in order, repeats included. */
  function HoleNames(pieces: seq<Piece>): seq<string>
    decreases |pieces|
  {
    if pieces == [] then []
    else (if pieces[0].Hole? then [pieces[0].name] else []) + HoleNames(pieces[1..])
  }

  /** Literal text holds no `{` and every hole is named by a word. */
  predicate Plain(pieces: seq<Piece>) {
    forall i :: 0 <= i < |pieces| ==>
      match pieces[i]
      case Literal(s) => '{' !in s
      case Hole(n) => IsName(n)
  }

  /** In text whose literal parts hold no `{`, the scan finds exactly the holes. */
  lemma {:induction false} MatchesOfRender(pieces: seq<Piece>)
    requires Plain(pieces)
    ensures Matches(Render(pieces)) == HoleNames(pieces)
    decreases |pieces|
  {
    if pieces != [] {
      assert Plain(pieces[1..]) by {
        forall i | 0 <= i < |pieces[1..]| ensures pieces[1..][i] == pieces[i + 1] {}
      }
      MatchesOfRender(pieces[1..]);
      match pieces[0]
      case Literal(s) =>
        MatchesAfterPlainText(s, Render(pieces[1..]));
      case Hole(n) =>
        MatchesAfterPlaceholder(n, Render(pieces[1..]));
    }
  }

  /** The variables of such a text are its hole names, each once, in order of first appearance. */
  lemma ExtractVariablesOfRender(pieces: seq<Piece>)
    requires Plain(pieces)
    ensures ExtractVariables(Render(pieces)) == FirstOccurrences(HoleNames(pieces))
  {
    MatchesOfRender(pieces);
  }
}
