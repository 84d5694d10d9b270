/**
 * The template list page: deleting a template removes every entry with its
 * id (`templates.filter(t => t.id !== id)`), keeping the others in order.
 */
module TemplateList {

  /** A template as the list page holds it. */
  datatype Template = Template(id: string, name: string, category: string, content: string)

  /** How many entries carry the id. */
  function CountId(templates: seq<Template>, id: string): nat
    decreases |templates|
  {
    if templates == [] then 0
    else (if templates[0].id == id then 1 else 0) + CountId(templates[1..], id)
  }

  /** `handleDelete`: the list without the entries that carry the id. */
  function Delete(templates: seq<Template>, id: string): (r: seq<Template>)
    ensures forall t :: t in r ==> t.id != id
    ensures forall t :: t in templates && t.id != id ==> t in r
    ensures forall t :: t in r ==> t in templates
    ensures |r| == |templates| - CountId(templates, id)
    decreases |templates|
  {
    if templates == [] then []
    else if templates[0].id == id then Delete(templates[1..], id)
    else [templates[0]] + Delete(templates[1..], id)
  }

  /** Deletion keeps relative order: deleting from a concatenation deletes from each part. */
  lemma {:induction false} DeleteConcat(a: seq<Template>, b: seq<Template>, id: string)
    ensures Delete(a + b, id) == Delete(a, id) + Delete(b, id)
    decreases |a|
  {
    if a == [] {
      assert a + b == b;
    } else {
      assert (a + b)[1..] == a[1..] + b;
      DeleteConcat(a[1..], b, id);
    }
  }

  /** Deleting an id that no entry carries leaves the list as it was. */
  lemma {:induction false} DeleteAbsent(templates: seq<Template>, id: string)
    requires forall t :: t in templates ==> t.id != id
    ensures Delete(templates, id) == templates
    decreases |templates|
  {
    if templates != [] {
      assert templates[0] in templates;
      assert forall t :: t in templates[1..] ==> t in templates;
      DeleteAbsent(templates[1..], id);
    }
  }

  /** Deleting twice is deleting once. */
  lemma DeleteIdempotent(templates: seq<Template>, id: string)
    ensures Delete(Delete(templates, id), id) == Delete(templates, id)
  {
    DeleteAbsent(Delete(templates, id), id);
  }

  /** Deleting two ids gives the same list in either order. */
  lemma {:induction false} DeleteCommutes(templates: seq<Template>, a: string, b: string)
    ensures Delete(Delete(templates, a), b) == Delete(Delete(templates, b), a)
    decreases |templates|
  {
    if templates != [] {
      DeleteCommutes(templates[1..], a, b);
    }
  }
}
