/**
 * The template editor: the form that creates or updates a response
 * template. The detected variables are always the placeholder names of the
 * content, found by the same scanner the filler uses, and saving hands the
 * form's fields plus those variables to the caller unless the name, the
 * category or the content is empty.
 */
module TemplateEditor {
  import opened Options
  import opened Text
  import opened Seqs
  import opened Placeholders

  /** The record `onSave` receives. */
  datatype SavedTemplate = SavedTemplate(
    name: string, category: string, content: string, variables: seq<string>, shared: bool)

  /** The editor's form fields; a template the editor starts from (`initialTemplate`) has the same shape. */
  datatype Editor = Editor(name: string, category: string, content: string, shared: bool)

  /**
   * The initial form: `initialTemplate?.name || ""` and so on. A missing
   * field falls back to the empty string (or `false`); an empty string is
   * kept as it is, which is the same value.
   */
  function InitialEditor(initial: Option<Editor>): (e: Editor)
    ensures initial.None? ==> e == Editor("", "", "", false)
    ensures initial.Some? ==>
      && e.name == initial.value.name && e.category == initial.value.category
      && e.content == initial.value.content && e.shared == initial.value.shared
  {
    match initial
    case None => Editor("", "", "", false)
    case Some(d) =>
      Editor(if d.name != "" then d.name else "",
             if d.category != "" then d.category else "",
             if d.content != "" then d.content else "",
             d.shared || false)
  }

  /** The "Detected Variables" of the form. */
  function DetectedVariables(e: Editor): (vars: seq<string>)
    ensures NoDup(vars)
    ensures forall w :: w in vars <==> IsName(w) && Occurs(Placeholder(w), e.content)
  {
    ExtractVariables(e.content)
  }

  /** The save button is enabled: `!(!name || !category || !content)`. */
  predicate SaveEnabled(e: Editor) {
    e.name != "" && e.category != "" && e.content != ""
  }

  /** `handleSave`: `None` when the guard returns early, otherwise the record passed to `onSave`. */
  function Save(e: Editor): (r: Option<SavedTemplate>)
    ensures r.Some? <==> SaveEnabled(e)
    ensures r.Some? ==>
      && r.value.name == e.name && r.value.category == e.category
      && r.value.content == e.content && r.value.shared == e.shared
      && r.value.variables == DetectedVariables(e)
  {
    if e.name == "" || e.category == "" || e.content == "" then None
    else Some(SavedTemplate(e.name, e.category, e.content, DetectedVariables(e), e.shared))
  }

  /**
   * A saved template satisfies the template invariant: its variables are
   * exactly the distinct placeholder names of its content, without repeats
   * and in order of first occurrence, and its display fields are non-empty.
   */
  predicate WellFormed(t: SavedTemplate) {
    && t.name != "" && t.category != "" && t.content != ""
    && t.variables == ExtractVariables(t.content)
  }

  /** Every template the editor saves is well formed, whatever the form held. */
  lemma SavedTemplatesAreWellFormed(e: Editor)
    requires Save(e).Some?
    ensures WellFormed(Save(e).value)
    ensures NoDup(Save(e).value.variables)
    ensures forall w :: w in Save(e).value.variables <==> IsName(w) && Occurs(Placeholder(w), e.content)
  {
  }

  /** Any field left empty makes saving a no-op. */
  lemma SaveRejectsEmptyField(e: Editor)
    requires e.name == "" || e.category == "" || e.content == ""
    ensures Save(e) == None
  {
  }

  /** The guard tests for emptiness only: content made of whitespace is saved. */
  lemma SaveAcceptsBlankContent(name: string, category: string, content: string, shared: bool)
    requires name != "" && category != "" && content != "" && IsBlank(content)
    ensures var e := Editor(name, category, content, shared);
      Save(e).Some? && Save(e).value.content == content
  {
  }

  /** A new template starts as an empty, private form that cannot be saved yet. */
  lemma NewTemplateStartsEmpty()
    ensures InitialEditor(None) == Editor("", "", "", false)
    ensures !SaveEnabled(InitialEditor(None))
  {
  }
}
