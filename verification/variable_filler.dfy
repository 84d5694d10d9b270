/**
 * The template variable filler: the fill session a supervisor works through
 * after opening the templates dialog. Selecting a template resets the values
 * to one empty entry per variable and shows the raw template text as the
 * preview; editing a variable stores its value and recomputes the preview
 * from the template text; "Use" hands the current preview to the composer,
 * and is enabled only when every variable has a non-blank value.
 */
module VariableFiller {
  import opened Options
  import opened Text
  import opened Seqs
  import opened Placeholders
  import opened Fill

  /** A response template as the filler receives it. */
  datatype Template = Template(id: string, name: string, category: string, content: string)

  /** The filler's state: the selected template, the variable values and the preview text. */
  datatype Filler = Filler(selected: Option<Template>, values: Values, preview: string)

  /** The state when the dialog opens: nothing selected, no values, an empty preview. */
  function InitialFiller(): Filler {
    Filler(None, [], "")
  }

  /** The variables the form shows: those of the selected template, or none. */
  function Variables(f: Filler): seq<string> {
    match f.selected
    case Some(t) => ExtractVariables(t.content)
    case None => []
  }

  /** `handleTemplateSelect`. */
  function SelectTemplate(f: Filler, t: Template): (r: Filler)
    ensures r.selected == Some(t)
    ensures Keys(r.values) == ExtractVariables(t.content)
    ensures forall v :: v in ExtractVariables(t.content) ==> Lookup(r.values, v) == Some("")
    ensures forall k :: k !in ExtractVariables(t.content) ==> Lookup(r.values, k) == None
    ensures r.preview == t.content
  {
    Filler(Some(t), EmptyValues(ExtractVariables(t.content)), t.content)
  }

  /** `handleVariableChange`: store the value, then refill the selected template's text. */
  function ChangeVariable(f: Filler, variable: string, value: string): (r: Filler)
    ensures r.selected == f.selected
    ensures Lookup(r.values, variable) == Some(value)
    ensures forall k :: k != variable ==> Lookup(r.values, k) == Lookup(f.values, k)
    ensures variable in Keys(f.values) ==> Keys(r.values) == Keys(f.values)
    ensures f.selected.Some? ==> r.preview == FillTemplate(f.selected.value.content, r.values)
    ensures f.selected.None? ==> r.preview == f.preview
  {
    var values := Assign(f.values, variable, value);
    match f.selected
    case Some(t) => Filler(f.selected, values, FillTemplate(t.content, values))
    case None => Filler(f.selected, values, f.preview)
  }

  /** `allVariablesFilled`: every variable has a value whose trimmed text is non-empty. */
  predicate AllVariablesFilled(f: Filler) {
    forall v :: v in Variables(f) ==>
      match Lookup(f.values, v)
      case Some(x) => Trim(x) != ""
      case None => false
  }

  /** The "Use This Message" button is shown (a template is selected) and not disabled. */
  predicate UseEnabled(f: Filler) {
    f.selected.Some? && !(|Variables(f)| > 0 && !AllVariablesFilled(f))
  }

  /** `handleUse`, reachable only through the enabled button: the preview, verbatim. */
  function Use(f: Filler): (r: Option<string>)
    ensures r.Some? <==> UseEnabled(f)
    ensures r.Some? ==> r.value == f.preview
  {
    if UseEnabled(f) then Some(f.preview) else None
  }

  /**
   * "Use" is enabled exactly when a template is selected and every one of its
   * variables holds a value that is not blank; a template without variables
   * can always be used.
   */
  lemma UseEnabledIff(f: Filler)
    ensures UseEnabled(f) <==>
      f.selected.Some? &&
      forall v :: v in Variables(f) ==> Lookup(f.values, v).Some? && !IsBlank(Lookup(f.values, v).value)
    ensures f.selected.Some? && Variables(f) == [] ==> UseEnabled(f)
  {
    forall v | v in Variables(f) && Lookup(f.values, v).Some? {
      TrimEmptyIffBlank(Lookup(f.values, v).value);
    }
  }

  /** Right after selection every variable is empty, so a template with variables cannot be used yet. */
  lemma UseDisabledAfterSelect(f: Filler, t: Template)
    requires ExtractVariables(t.content) != []
    ensures !UseEnabled(SelectTemplate(f, t))
  {
    var r := SelectTemplate(f, t);
    var v := ExtractVariables(t.content)[0];
    assert Lookup(r.values, v) == Some("");
    assert Trim("") == "";
  }

  /**
   * With a template selected, the preview after an edit is computed from the
   * template text; the previous preview plays no part.
   */
  lemma PreviewIgnoresOldPreview(f: Filler, preview: string, variable: string, value: string)
    requires f.selected.Some?
    ensures ChangeVariable(f, variable, value) == ChangeVariable(f.(preview := preview), variable, value)
  {
  }

  /**
   * The session is consistent when its values have exactly the selected
   * template's variables as keys.
   */
  predicate Consistent(f: Filler) {
    f.selected.Some? ==> Keys(f.values) == Variables(f)
  }

  /**
   * The inputs of the form are the template's variables, so every edit keeps
   * the session consistent, and after any edit the preview is the template
   * filled with the current values.
   */
  lemma EditKeepsSessionConsistent(f: Filler, variable: string, value: string)
    requires Consistent(f) && variable in Variables(f)
    ensures var r := ChangeVariable(f, variable, value);
      Consistent(r) && r.preview == FillTemplate(r.selected.value.content, r.values)
  {
  }

  /** Selecting a template starts a consistent session whose preview is the raw template text. */
  lemma SelectStartsConsistentSession(f: Filler, t: Template)
    ensures Consistent(SelectTemplate(f, t))
    ensures SelectTemplate(f, t).preview == t.content
    ensures Variables(SelectTemplate(f, t)) == ExtractVariables(t.content)
  {
  }

  /** The order-status template `Hi {{a}}, order {{b}} is {{c}}`, for variable names a, b and c. */
  function StatusPieces(a: string, b: string, c: string): seq<Piece> {
    [Literal("Hi "), Hole(a), Literal(", order "), Hole(b), Literal(" is "), Hole(c)]
  }

  /** Three distinct words. */
  predicate DistinctNames(a: string, b: string, c: string) {
    IsName(a) && IsName(b) && IsName(c) && a != b && a != c && b != c
  }

  /** The holes of the order-status template are its three names. */
  lemma StatusShape(a: string, b: string, c: string)
    requires DistinctNames(a, b, c)
    ensures Plain(StatusPieces(a, b, c))
    ensures HoleNames(StatusPieces(a, b, c)) == [a, b, c]
  {
    var p := StatusPieces(a, b, c);
    assert '{' !in "Hi " && '{' !in ", order " && '{' !in " is ";
    assert HoleNames(p[5..]) == [c];
    assert HoleNames(p[4..]) == [c];
    assert HoleNames(p[3..]) == [b, c];
    assert HoleNames(p[2..]) == [b, c];
  }

  /** The variables of the order-status template are its three names, in order. */
  lemma StatusVariables(a: string, b: string, c: string)
    requires DistinctNames(a, b, c)
    ensures ExtractVariables(Render(StatusPieces(a, b, c))) == [a, b, c]
  {
    StatusShape(a, b, c);
    FirstOccurrencesOfDistinct([a, b, c]);
    ExtractVariablesOfRender(StatusPieces(a, b, c));
  }

  /** The order-status pieces with the three holes replaced by text. */
  lemma RenderStatusFilled(x: string, y: string, z: string)
    ensures Render([Literal("Hi "), Literal(x), Literal(", order "), Literal(y), Literal(" is "), Literal(z)])
         == "Hi " + x + ", order " + y + " is " + z
  {
    var filled := [Literal("Hi "), Literal(x), Literal(", order "), Literal(y), Literal(" is "), Literal(z)];
    assert Render(filled[6..]) == "";
    assert Render(filled[5..]) == z;
    assert Render(filled[4..]) == " is " + z;
    assert Render(filled[3..]) == y + " is " + z;
    assert Render(filled[2..]) == ", order " + y + " is " + z;
    assert Render(filled[1..]) == x + ", order " + y + " is " + z;
  }

  /** The order-status template filled with brace-free values for its three names. */
  lemma StatusFilled(a: string, b: string, c: string, values: Values, x: string, y: string, z: string)
    requires DistinctNames(a, b, c) && BraceFree(values)
    requires Lookup(values, a) == Some(x) && Lookup(values, b) == Some(y) && Lookup(values, c) == Some(z)
    ensures FillTemplate(Render(StatusPieces(a, b, c)), values) == "Hi " + x + ", order " + y + " is " + z
  {
    StatusShape(a, b, c);
    FillTemplateOfRender(StatusPieces(a, b, c), values);
    assert FillPieces(StatusPieces(a, b, c), values)
        == [Literal("Hi "), Literal(x), Literal(", order "), Literal(y), Literal(" is "), Literal(z)];
    RenderStatusFilled(x, y, z);
  }

  /** On the order-status template, Use is enabled exactly when all three values are non-blank. */
  lemma UseStatus(f: Filler, a: string, b: string, c: string, x: string, y: string, z: string)
    requires DistinctNames(a, b, c)
    requires f.selected.Some? && f.selected.value.content == Render(StatusPieces(a, b, c))
    requires Lookup(f.values, a) == Some(x) && Lookup(f.values, b) == Some(y) && Lookup(f.values, c) == Some(z)
    ensures UseEnabled(f) <==> !IsBlank(x) && !IsBlank(y) && !IsBlank(z)
  {
    StatusVariables(a, b, c);
    UseEnabledIff(f);
    assert Variables(f) == [a, b, c];
  }

  /** An edit that stores a brace-free value under a word keeps the values brace-free. */
  lemma ChangeKeepsBraceFree(f: Filler, variable: string, value: string)
    requires BraceFree(f.values) && IsName(variable) && '{' !in value
    ensures BraceFree(ChangeVariable(f, variable, value).values)
  {
    AssignKeepsBraceFree(f.values, variable, value);
  }

  /** The filler shows the order-status template with the values x, y and z. */
  predicate ShowsStatus(f: Filler, a: string, b: string, c: string, x: string, y: string, z: string) {
    && DistinctNames(a, b, c)
    && f.selected.Some? && f.selected.value.content == Render(StatusPieces(a, b, c))
    && BraceFree(f.values)
    && Lookup(f.values, a) == Some(x) && Lookup(f.values, b) == Some(y) && Lookup(f.values, c) == Some(z)
  }

  /** Selecting the order-status template shows it with three empty values. */
  lemma SelectStatus(f: Filler, t: Template, a: string, b: string, c: string)
    requires DistinctNames(a, b, c) && t.content == Render(StatusPieces(a, b, c))
    ensures ShowsStatus(SelectTemplate(f, t), a, b, c, "", "", "")
    ensures Variables(SelectTemplate(f, t)) == [a, b, c]
  {
    StatusVariables(a, b, c);
    EmptyValuesBraceFree([a, b, c]);
  }

  /** Editing the first name keeps showing the template, with the new first value in the preview. */
  lemma EditStatusFirst(f: Filler, a: string, b: string, c: string, x: string, y: string, z: string, v: string)
    requires ShowsStatus(f, a, b, c, x, y, z) && '{' !in v
    ensures var r := ChangeVariable(f, a, v);
      ShowsStatus(r, a, b, c, v, y, z) && r.preview == "Hi " + v + ", order " + y + " is " + z
  {
    ChangeKeepsBraceFree(f, a, v);
    StatusFilled(a, b, c, ChangeVariable(f, a, v).values, v, y, z);
  }

  /** Editing the second name keeps showing the template, with the new second value in the preview. */
  lemma EditStatusSecond(f: Filler, a: string, b: string, c: string, x: string, y: string, z: string, v: string)
    requires ShowsStatus(f, a, b, c, x, y, z) && '{' !in v
    ensures var r := ChangeVariable(f, b, v);
      ShowsStatus(r, a, b, c, x, v, z) && r.preview == "Hi " + x + ", order " + v + " is " + z
  {
    ChangeKeepsBraceFree(f, b, v);
    StatusFilled(a, b, c, ChangeVariable(f, b, v).values, x, v, z);
  }

  /** Editing the third name keeps showing the template, with the new third value in the preview. */
  lemma EditStatusThird(f: Filler, a: string, b: string, c: string, x: string, y: string, z: string, v: string)
    requires ShowsStatus(f, a, b, c, x, y, z) && '{' !in v
    ensures var r := ChangeVariable(f, c, v);
      ShowsStatus(r, a, b, c, x, y, v) && r.preview == "Hi " + x + ", order " + y + " is " + v
  {
    ChangeKeepsBraceFree(f, c, v);
    StatusFilled(a, b, c, ChangeVariable(f, c, v).values, x, y, v);
  }

  /**
   * A fill session on the order-status template: after the first two values
   * are entered the preview ends in an empty status and Use is disabled; once
   * the status is entered the whole message is previewed and Use emits it.
   */
  lemma StatusSession(t: Template, a: string, b: string, c: string, x: string, y: string, z: string)
    requires DistinctNames(a, b, c) && t.content == Render(StatusPieces(a, b, c))
    requires '{' !in x && '{' !in y && '{' !in z
    requires !IsBlank(x) && !IsBlank(y) && !IsBlank(z)
    ensures var f0 := SelectTemplate(InitialFiller(), t);
      var f2 := ChangeVariable(ChangeVariable(f0, a, x), b, y);
      var f3 := ChangeVariable(f2, c, z);
      && Variables(f0) == [a, b, c]
      && f2.preview == "Hi " + x + ", order " + y + " is " && !UseEnabled(f2)
      && f3.preview == "Hi " + x + ", order " + y + " is " + z && Use(f3) == Some(f3.preview)
  {
    var f0 := SelectTemplate(InitialFiller(), t);
    SelectStatus(InitialFiller(), t, a, b, c);
    var f1 := ChangeVariable(f0, a, x);
    EditStatusFirst(f0, a, b, c, "", "", "", x);
    var f2 := ChangeVariable(f1, b, y);
    EditStatusSecond(f1, a, b, c, x, "", "", y);
    assert "Hi " + x + ", order " + y + " is " + "" == "Hi " + x + ", order " + y + " is ";
    UseStatus(f2, a, b, c, x, y, "");
    var f3 := ChangeVariable(f2, c, z);
    EditStatusThird(f2, a, b, c, x, y, "", z);
    UseStatus(f3, a, b, c, x, y, z);
  }

  /** The worked example's names and values, checked character by character. */
  lemma OrderStatusLiterals()
    ensures DistinctNames("customer_name", "order_id", "status")
    ensures '{' !in "Sam" && '{' !in "42" && '{' !in "shipped"
    ensures !IsBlank("Sam") && !IsBlank("42") && !IsBlank("shipped")
    ensures "Hi " + "Sam" + ", order " + "42" + " is " == "Hi Sam, order 42 is "
    ensures "Hi " + "Sam" + ", order " + "42" + " is " + "shipped" == "Hi Sam, order 42 is shipped"
  {
    assert !IsWhitespace("Sam"[0]) && !IsWhitespace("42"[0]) && !IsWhitespace("shipped"[0]);
  }

  /**
   * The worked example `Hi {{customer_name}}, order {{order_id}} is {{status}}`:
   * after customer_name = Sam and order_id = 42 the preview is
   * `Hi Sam, order 42 is ` and Use is disabled; after status = shipped the
   * preview is `Hi Sam, order 42 is shipped` and Use emits it.
   */
  lemma OrderStatusSession(t: Template)
    requires t.content == Render(StatusPieces("customer_name", "order_id", "status"))
    ensures var f0 := SelectTemplate(InitialFiller(), t);
      var f2 := ChangeVariable(ChangeVariable(f0, "customer_name", "Sam"), "order_id", "42");
      var f3 := ChangeVariable(f2, "status", "shipped");
      && Variables(f0) == ["customer_name", "order_id", "status"]
      && f2.preview == "Hi Sam, order 42 is " && !UseEnabled(f2)
      && f3.preview == "Hi Sam, order 42 is shipped" && Use(f3) == Some(f3.preview)
  {
    OrderStatusLiterals();
    StatusSession(t, "customer_name", "order_id", "status", "Sam", "42", "shipped");
  }
}
