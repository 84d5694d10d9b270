/**
 * `fillTemplate` and the values map it reads. A JavaScript object used as a
 * string-keyed record keeps its keys in insertion order; the model keeps the
 * values map as key/value pairs in that order. For each entry in turn,
 * `fillTemplate` replaces every occurrence of `{{key}}` in the text filled
 * so far by the entry's value, so a value that itself contains a placeholder
 * can be expanded again by a later entry.
 */
module Fill {
  import opened Options
  import opened Text
  import opened Seqs
  import opened Replace
  import opened Placeholders

  /** A `Record<string, string>` as its entries in insertion order. */
  type Values = seq<(string, string)>

  /** The keys of the record, in order. */
  function Keys(values: Values): (keys: seq<string>)
    ensures |keys| == |values|
    decreases |values|
  {
    if values == [] then [] else [values[0].0] + Keys(values[1..])
  }

  /** `values[key]`: the value stored under key, or `undefined`. */
  function Lookup(values: Values, key: string): (r: Option<string>)
    ensures r.Some? <==> key in Keys(values)
    decreases |values|
  {
    if values == [] then None
    else if values[0].0 == key then Some(values[0].1)
    else Lookup(values[1..], key)
  }

  /**
   * `{ ...values, [key]: value }`: an existing key keeps its place and takes
   * the new value, a new key is added last.
   */
  function Assign(values: Values, key: string, value: string): (r: Values)
    ensures Lookup(r, key) == Some(value)
    ensures forall k :: k != key ==> Lookup(r, k) == Lookup(values, k)
    ensures Keys(r) == if key in Keys(values) then Keys(values) else Keys(values) + [key]
    decreases |values|
  {
    if values == [] then [(key, value)]
    else
      var head, tail := values[0], values[1..];
      if head.0 == key then
        var r := [(key, value)] + tail;
        assert r[1..] == tail;
        r
      else
        var rest := Assign(tail, key, value);
        var r := [head] + rest;
        assert r[1..] == rest;
        assert Keys(values) + [key] == [head.0] + (Keys(tail) + [key]);
        r
  }

  /** `vars.forEach(v => initialValues[v] = "")` starting from `{}`. */
  function EmptyValues(vars: seq<string>): (r: Values)
    ensures forall v :: v in vars ==> Lookup(r, v) == Some("")
    ensures NoDup(vars) ==> Keys(r) == vars
    decreases |vars|
  {
    if vars == [] then []
    else
      var init := vars[..|vars| - 1];
      assert vars == init + [vars[|vars| - 1]];
      Assign(EmptyValues(init), vars[|vars| - 1], "")
  }

  /** `fillTemplate`: each entry in turn replaces every `{{key}}` by its value. */
  function FillTemplate(template: string, values: Values): string
    decreases |values|
  {
    if values == [] then template
    else FillTemplate(ReplaceAll(template, Placeholder(values[0].0), values[0].1), values[1..])
  }

  /** One step of `fillTemplate` is the text cut at every `{{key}}` and rejoined with the value. */
  lemma FillStepReplacesEveryOccurrence(template: string, key: string, value: string)
    ensures var p := Placeholder(key);
      && ReplaceAll(template, p, value) == Join(Split(template, p), value)
      && Join(Split(template, p), p) == template
      && forall k :: 0 <= k < |Split(template, p)| ==> !Occurs(p, Split(template, p)[k])
  {
    var p := Placeholder(key);
    ReplaceAllIsJoinOfSplit(template, p, value);
    SplitJoinRoundTrip(template, p);
    SplitPiecesAreFree(template, p);
  }

  /** A template in which no key's placeholder occurs comes back unchanged (so does any template with no values). */
  lemma {:induction false} FillTemplateUntouched(template: string, values: Values)
    requires forall k :: k in Keys(values) ==> !Occurs(Placeholder(k), template)
    ensures FillTemplate(template, values) == template
    decreases |values|
  {
    if values != [] {
      assert Keys(values) == [values[0].0] + Keys(values[1..]);
      ReplaceAllAbsent(template, Placeholder(values[0].0), values[0].1);
      FillTemplateUntouched(template, values[1..]);
    }
  }

  /** No occurrence of a placeholder straddles the start of another placeholder occurrence. */
  lemma NoPlaceholderAcross(s: string, k: string, q: nat, i: nat)
    requires IsName(k) && i + 1 < |s| && s[i] == '{' && s[i + 1] == '{'
    requires q < i < q + |Placeholder(k)|
    ensures !OccursAt(Placeholder(k), s, q)
  {
    if OccursAt(Placeholder(k), s, q) {
      PlaceholderIsMatch(s, q, k);
      NoOpeningInsideMatch(s, q, i);
    }
  }

  /** The placeholder of another name holds no occurrence of a placeholder. */
  lemma PlaceholderInsideOther(j: string, k: string, rest: string, q: nat)
    requires IsName(j) && IsName(k) && j != k && q < |Placeholder(j)|
    ensures !OccursAt(Placeholder(k), Placeholder(j) + rest, q)
  {
    var s := Placeholder(j) + rest;
    assert s[..|Placeholder(j)|] == Placeholder(j);
    assert OccursAt(Placeholder(j), s, 0);
    PlaceholderIsMatch(s, 0, j);
    if OccursAt(Placeholder(k), s, q) {
      PlaceholderIsMatch(s, q, k);
      if q > 0 {
        NoOpeningInsideMatch(s, 0, q);
      }
    }
  }

  /** Replacing the placeholder of one name leaves the placeholder of another name as it is. */
  lemma ReplaceInOtherPlaceholder(j: string, k: string, v: string)
    requires IsName(j) && IsName(k) && j != k
    ensures ReplaceAll(Placeholder(j), Placeholder(k), v) == Placeholder(j)
  {
    var pj, pk := Placeholder(j), Placeholder(k);
    forall q: nat | q <= |pj|
      ensures !OccursAt(pk, pj, q)
    {
      if q < |pj| {
        PlaceholderInsideOther(j, k, "", q);
        assert pj + "" == pj;
      }
    }
    ReplaceAllAbsent(pj, pk, v);
  }

  /** Replacement around a placeholder of another name is replacement on each side of it. */
  lemma ReplaceAroundOtherPlaceholder(a: string, j: string, rest: string, k: string, v: string)
    requires IsName(j) && IsName(k) && j != k
    ensures ReplaceAll(a + (Placeholder(j) + rest), Placeholder(k), v)
         == ReplaceAll(a, Placeholder(k), v) + (Placeholder(j) + ReplaceAll(rest, Placeholder(k), v))
  {
    var pj, pk := Placeholder(j), Placeholder(k);
    var t := a + (pj + rest);
    assert t[|a|] == pj[0] && t[|a| + 1] == pj[1];
    forall q: nat | q < |a| < q + |pk|
      ensures !OccursAt(pk, t, q)
    {
      NoPlaceholderAcross(t, k, q, |a|);
    }
    ReplaceAllConcat(a, pj + rest, pk, v);
    forall q: nat | q < |pj| < q + |pk|
      ensures !OccursAt(pk, pj + rest, q)
    {
      PlaceholderInsideOther(j, k, rest, q);
    }
    ReplaceAllConcat(pj, rest, pk, v);
    ReplaceInOtherPlaceholder(j, k, v);
  }

  /** A pattern placed between two texts occurs there. */
  lemma OccursBetween(x: string, p: string, y: string)
    ensures OccursAt(p, x + (p + y), |x|) && Occurs(p, x + (p + y))
  {
    var s := x + (p + y);
    assert s[|x|..|x| + |p|] == p;
    var i: nat := |x|;
    assert i <= |s| && OccursAt(p, s, i);
  }

  /** An occurrence cuts the text into what comes before it, the pattern and what follows. */
  lemma CutAtOccurrence(p: string, t: string, i: nat)
    requires OccursAt(p, t, i)
    ensures t == t[..i] + (p + t[i + |p|..])
  {
  }

  /**
   * Replacing the placeholder of one name keeps every placeholder of another
   * name: placeholders whose names are not keys stay in the text literally.
   */
  lemma ReplaceKeepsOtherPlaceholder(t: string, k: string, v: string, j: string)
    requires IsName(j) && IsName(k) && j != k && Occurs(Placeholder(j), t)
    ensures Occurs(Placeholder(j), ReplaceAll(t, Placeholder(k), v))
  {
    var pj, pk := Placeholder(j), Placeholder(k);
    var i: nat :| i <= |t| && OccursAt(pj, t, i);
    var a, rest := t[..i], t[i + |pj|..];
    CutAtOccurrence(pj, t, i);
    ReplaceAroundOtherPlaceholder(a, j, rest, k, v);
    OccursBetween(ReplaceAll(a, pk, v), pj, ReplaceAll(rest, pk, v));
  }

  /** Placeholders of names that are not keys survive `fillTemplate`. */
  lemma {:induction false} FillTemplateKeepsUnknownPlaceholders(template: string, values: Values, j: string)
    requires IsName(j) && j !in Keys(values)
    requires forall k :: k in Keys(values) ==> IsName(k)
    requires Occurs(Placeholder(j), template)
    ensures Occurs(Placeholder(j), FillTemplate(template, values))
    decreases |values|
  {
    if values != [] {
      assert Keys(values) == [values[0].0] + Keys(values[1..]);
      ReplaceKeepsOtherPlaceholder(template, values[0].0, values[0].1, j);
      FillTemplateKeepsUnknownPlaceholders(
        ReplaceAll(template, Placeholder(values[0].0), values[0].1), values[1..], j);
    }
  }

  /**
   * Substitution is sequential: a value that spells a later key's placeholder
   * is expanded again. Here `{{a}}` with a = `{{b}}` and then b = `x` gives `x`.
   */
  lemma FillTemplateReexpands()
    ensures FillTemplate(Placeholder("a"), [("a", Placeholder("b")), ("b", "x")]) == "x"
  {
    var pa, pb := Placeholder("a"), Placeholder("b");
    assert pa[..|pa|] == pa && pa[|pa|..] == "";
    assert ReplaceAll(pa, pa, pb) == pb + ReplaceAll("", pa, pb);
    assert pb[..|pb|] == pb && pb[|pb|..] == "";
    assert ReplaceAll(pb, pb, "x") == "x" + ReplaceAll("", pb, "x");
    var vs := [("a", pb), ("b", "x")];
    assert vs[1..][1..] == [];
  }

  /** A piece after filling: a hole whose name has a value becomes that value as literal text. */
  function FillPiece(piece: Piece, values: Values): Piece {
    match piece
    case Literal(_) => piece
    case Hole(n) =>
      match Lookup(values, n)
      case Some(v) => Literal(v)
      case None => piece
  }

  /** Every piece filled. */
  function FillPieces(pieces: seq<Piece>, values: Values): (r: seq<Piece>)
    ensures |r| == |pieces|
  {
    seq(|pieces|, i requires 0 <= i < |pieces| => FillPiece(pieces[i], values))
  }

  /** No key is other than a word and no value holds a `{`. */
  predicate BraceFree(values: Values) {
    forall i :: 0 <= i < |values| ==> IsName(values[i].0) && '{' !in values[i].1
  }

  /** An occurrence of a placeholder starts with a `{`. */
  lemma OccurrenceOpens(k: string, s: string, q: nat)
    requires OccursAt(Placeholder(k), s, q)
    ensures q < |s| && s[q] == '{'
  {
    assert s[q..q + |Placeholder(k)|][0] == s[q];
  }

  /** Literal text without `{` passes through replacement of a placeholder, and nothing straddles its end. */
  lemma ReplaceAfterPlainText(a: string, rest: string, k: string, v: string)
    requires '{' !in a
    ensures ReplaceAll(a + rest, Placeholder(k), v) == a + ReplaceAll(rest, Placeholder(k), v)
  {
    var pk := Placeholder(k);
    forall q: nat | q < |a| < q + |pk|
      ensures !OccursAt(pk, a + rest, q)
    {
      assert (a + rest)[q] == a[q];
      if OccursAt(pk, a + rest, q) {
        OccurrenceOpens(k, a + rest, q);
      }
    }
    ReplaceAllConcat(a, rest, pk, v);
    forall q: nat | q <= |a|
      ensures !OccursAt(pk, a, q)
    {
      if OccursAt(pk, a, q) {
        OccurrenceOpens(k, a, q);
      }
    }
    ReplaceAllAbsent(a, pk, v);
  }

  /** One replacement step on pieces: the holes named k become v, and nothing else changes. */
  lemma {:induction false} ReplaceInRender(pieces: seq<Piece>, k: string, v: string)
    requires Plain(pieces) && IsName(k) && '{' !in v
    ensures ReplaceAll(Render(pieces), Placeholder(k), v) == Render(FillPieces(pieces, [(k, v)]))
    decreases |pieces|
  {
    if pieces != [] {
      var tail := pieces[1..];
      assert Plain(tail) by {
        forall i | 0 <= i < |tail| ensures tail[i] == pieces[i + 1] {}
      }
      ReplaceInRender(tail, k, v);
      var filled := FillPieces(pieces, [(k, v)]);
      assert filled[1..] == FillPieces(tail, [(k, v)]);
      var rest := Render(tail);
      var pk := Placeholder(k);
      match pieces[0]
      case Literal(s) =>
        ReplaceAfterPlainText(s, rest, k, v);
      case Hole(j) =>
        if j == k {
          var t := pk + rest;
          assert t[..|pk|] == pk && t[|pk|..] == rest;
        } else {
          ReplaceAroundOtherPlaceholder("", j, rest, k, v);
          assert "" + (Placeholder(j) + rest) == Placeholder(j) + rest;
          assert ReplaceAll("", pk, v) == "";
        }
    }
  }

  /**
   * Filling a template whose literal text holds no `{`, with values that hold
   * none either, puts each variable's value where its placeholders were and
   * leaves the placeholders of variables without a value as they are.
   */
  lemma {:induction false} FillTemplateOfRender(pieces: seq<Piece>, values: Values)
    requires Plain(pieces) && BraceFree(values)
    ensures FillTemplate(Render(pieces), values) == Render(FillPieces(pieces, values))
    decreases |values|
  {
    if values == [] {
      assert FillPieces(pieces, values) == pieces;
    } else {
      var (k, v) := values[0];
      var once := FillPieces(pieces, [(k, v)]);
      ReplaceInRender(pieces, k, v);
      assert Plain(once) by {
        forall i | 0 <= i < |once|
          ensures match once[i] case Literal(t) => '{' !in t case Hole(n) => IsName(n)
        {
          match pieces[i]
          case Literal(_) =>
          case Hole(n) =>
        }
      }
      assert BraceFree(values[1..]) by {
        forall i | 0 <= i < |values[1..]| ensures values[1..][i] == values[i + 1] {}
      }
      FillTemplateOfRender(once, values[1..]);
      assert FillPieces(once, values[1..]) == FillPieces(pieces, values) by {
        forall i | 0 <= i < |pieces|
          ensures FillPiece(once[i], values[1..]) == FillPiece(pieces[i], values)
        {
          match pieces[i]
          case Literal(_) =>
          case Hole(n) =>
        }
      }
    }
  }

  /** Storing a brace-free value under a word keeps the record brace-free. */
  lemma {:induction false} AssignKeepsBraceFree(values: Values, key: string, value: string)
    requires BraceFree(values) && IsName(key) && '{' !in value
    ensures BraceFree(Assign(values, key, value))
    decreases |values|
  {
    if values != [] && values[0].0 != key {
      assert BraceFree(values[1..]) by {
        forall i | 0 <= i < |values[1..]| ensures values[1..][i] == values[i + 1] {}
      }
      AssignKeepsBraceFree(values[1..], key, value);
    }
  }

  /** The empty record of a list of words is brace-free. */
  lemma {:induction false} EmptyValuesBraceFree(vars: seq<string>)
    requires forall i :: 0 <= i < |vars| ==> IsName(vars[i])
    ensures BraceFree(EmptyValues(vars))
    decreases |vars|
  {
    if vars != [] {
      var init := vars[..|vars| - 1];
      EmptyValuesBraceFree(init);
      AssignKeepsBraceFree(EmptyValues(init), vars[|vars| - 1], "");
    }
  }
}
