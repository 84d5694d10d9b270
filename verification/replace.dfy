/**
 * Global literal replacement, as `text.replace(/pattern/g, value)` performs it
 * when the pattern has no regular-expression operators: the text is scanned
 * left to right, each non-overlapping occurrence of the pattern is replaced
 * and scanning resumes after it. `Split` cuts the text at the same
 * occurrences, so replacement is joining the pieces with the value.
 */
module Replace {
  import opened Text

  /** Every leftmost non-overlapping occurrence of p in s replaced by v. */
  function ReplaceAll(s: string, p: string, v: string): string
    requires |p| > 0
    decreases |s|
  {
    if |s| < |p| then s
    else if s[..|p|] == p then v + ReplaceAll(s[|p|..], p, v)
    else [s[0]] + ReplaceAll(s[1..], p, v)
  }

  /** s cut at the occurrences of p that `ReplaceAll` replaces: `s.split(p)`. */
  function Split(s: string, p: string): (parts: seq<string>)
    requires |p| > 0
    ensures |parts| > 0 && parts[0] <= s
    decreases |s|
  {
    if |s| < |p| then [s]
    else if s[..|p|] == p then [""] + Split(s[|p|..], p)
    else
      var rest := Split(s[1..], p);
      [[s[0]] + rest[0]] + rest[1..]
  }

  /** Joining after an empty first piece starts with the separator. */
  lemma JoinAfterEmpty(rest: seq<string>, sep: string)
    requires |rest| > 0
    ensures Join([""] + rest, sep) == sep + Join(rest, sep)
  {
    assert ([""] + rest)[1..] == rest;
  }

  /** Extending the first piece at the front extends the joined text at the front. */
  lemma JoinExtendFirst(c: char, parts: seq<string>, sep: string)
    requires |parts| > 0
    ensures Join([[c] + parts[0]] + parts[1..], sep) == [c] + Join(parts, sep)
  {
    var q := [[c] + parts[0]] + parts[1..];
    if |parts| > 1 {
      assert q[1..] == parts[1..];
    }
  }

  /** Replacing every occurrence is joining the pieces between occurrences with the value. */
  lemma {:induction false} ReplaceAllIsJoinOfSplit(s: string, p: string, v: string)
    requires |p| > 0
    ensures ReplaceAll(s, p, v) == Join(Split(s, p), v)
    decreases |s|
  {
    if |s| < |p| {
    } else if s[..|p|] == p {
      ReplaceAllIsJoinOfSplit(s[|p|..], p, v);
      JoinAfterEmpty(Split(s[|p|..], p), v);
    } else {
      ReplaceAllIsJoinOfSplit(s[1..], p, v);
      JoinExtendFirst(s[0], Split(s[1..], p), v);
    }
  }

  /** Joining the pieces with the pattern itself gives the text back. */
  lemma SplitJoinRoundTrip(s: string, p: string)
    requires |p| > 0
    ensures Join(Split(s, p), p) == s
  {
    ReplaceAllWithItself(s, p);
    ReplaceAllIsJoinOfSplit(s, p, p);
  }

  /** Replacing the pattern by itself changes nothing. */
  lemma {:induction false} ReplaceAllWithItself(s: string, p: string)
    requires |p| > 0
    ensures ReplaceAll(s, p, p) == s
    decreases |s|
  {
    if |s| < |p| {
    } else if s[..|p|] == p {
      ReplaceAllWithItself(s[|p|..], p);
      assert s == s[..|p|] + s[|p|..];
    } else {
      ReplaceAllWithItself(s[1..], p);
      assert s == [s[0]] + s[1..];
    }
  }

  /** No piece contains the pattern: every occurrence was cut out. */
  lemma {:induction false} SplitPiecesAreFree(s: string, p: string)
    requires |p| > 0
    ensures forall k :: 0 <= k < |Split(s, p)| ==> !Occurs(p, Split(s, p)[k])
    decreases |s|
  {
    var parts := Split(s, p);
    if |s| < |p| {
      assert parts == [s];
    } else if s[..|p|] == p {
      SplitPiecesAreFree(s[|p|..], p);
      assert parts[0] == "";
      assert forall k :: 1 <= k < |parts| ==> parts[k] == Split(s[|p|..], p)[k - 1];
    } else {
      SplitPiecesAreFree(s[1..], p);
      var rest := Split(s[1..], p);
      assert forall k :: 1 <= k < |parts| ==> parts[k] == rest[k];
      var first := [s[0]] + rest[0];
      assert parts[0] == first;
      if Occurs(p, first) {
        var i: nat :| i <= |first| && OccursAt(p, first, i);
        if i > 0 {
          assert first[i..i + |p|] == rest[0][i - 1..i - 1 + |p|];
          assert OccursAt(p, rest[0], i - 1);
        }
      }
    }
  }

  /** A text in which the pattern does not occur is returned unchanged. */
  lemma {:induction false} ReplaceAllAbsent(s: string, p: string, v: string)
    requires |p| > 0 && !Occurs(p, s)
    ensures ReplaceAll(s, p, v) == s
    decreases |s|
  {
    if |s| < |p| {
    } else {
      assert !OccursAt(p, s, 0);
      if !Occurs(p, s[1..]) {
        ReplaceAllAbsent(s[1..], p, v);
        assert s == [s[0]] + s[1..];
      } else {
        OccursInTail(p, s);
      }
    }
  }

  /** An occurrence in a suffix is an occurrence in the whole text, shifted. */
  lemma OccursAtShift(p: string, s: string, d: nat, q: nat)
    requires d <= |s|
    ensures OccursAt(p, s[d..], q) ==> OccursAt(p, s, q + d)
  {
    if OccursAt(p, s[d..], q) {
      assert s[d..][q..q + |p|] == s[q + d..q + d + |p|];
    }
  }

  /** No occurrence straddles the boundary of a and b. */
  predicate NoStraddle(a: string, b: string, p: string) {
    forall q: nat :: q < |a| < q + |p| ==> !OccursAt(p, a + b, q)
  }

  /** Dropping a prefix of a keeps the boundary free of straddling occurrences. */
  lemma NoStraddleDrop(a: string, b: string, p: string, d: nat)
    requires d <= |a| && NoStraddle(a, b, p)
    ensures NoStraddle(a[d..], b, p)
  {
    assert a[d..] + b == (a + b)[d..];
    forall q: nat | q < |a[d..]| < q + |p|
      ensures !OccursAt(p, a[d..] + b, q)
    {
      OccursAtShift(p, a + b, d, q);
    }
  }

  /**
   * Replacement works piecewise when no occurrence of the pattern straddles
   * the boundary between the two pieces.
   */
  lemma {:induction false} ReplaceAllConcat(a: string, b: string, p: string, v: string)
    requires |p| > 0
    requires forall q: nat :: q < |a| < q + |p| ==> !OccursAt(p, a + b, q)
    ensures ReplaceAll(a + b, p, v) == ReplaceAll(a, p, v) + ReplaceAll(b, p, v)
    decreases |a|
  {
    assert NoStraddle(a, b, p);
    var s := a + b;
    if a == [] {
      assert s == b;
    } else if |s| < |p| {
    } else if s[..|p|] == p {
      assert OccursAt(p, s, 0);
      assert |a| >= |p|;
      assert a[..|p|] == p;
      assert s[|p|..] == a[|p|..] + b;
      NoStraddleDrop(a, b, p, |p|);
      ReplaceAllConcat(a[|p|..], b, p, v);
    } else {
      assert s[1..] == a[1..] + b;
      NoStraddleDrop(a, b, p, 1);
      ReplaceAllConcat(a[1..], b, p, v);
      if |a| >= |p| {
        assert a[..|p|] == s[..|p|];
      } else {
        assert a == [a[0]] + a[1..];
      }
    }
  }
}
