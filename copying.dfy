/**
  `clone` / `copy` (blueprint.js:97-126): a recursive copy of a template tree.
  As written, the copy loop for `attributes` calls `push` on the new
  template's plain-object `attributes`, which has no such method, so the call
  throws whenever a template in the tree has an attribute. `Clone` models the
  code as written (`None` is the thrown TypeError); `CloneWithAttributes` is
  the copy the code evidently means.
 */
module Copying {
  import opened Wrappers
  import opened Templates

  /** No template in the tree has an attribute. */
  predicate AttributeFree(t: Template)
    decreases t
  {
    t.attributes == map[] && forall i :: 0 <= i < |t.childNodes| ==> ChildAttributeFree(t.childNodes[i])
  }

  predicate ChildAttributeFree(c: Child)
    decreases c
  {
    c.Text? || AttributeFree(c.template)
  }

  /**
    `clone()` as written: it succeeds exactly when no template in the tree has
    an attribute, and then the copy has the same tag, class list, listener
    lists (holding the same callbacks) and children, nested templates copied
    in turn.
   */
  function Clone(t: Template): (r: Option<Template>)
    decreases t
    ensures r.Some? <==> AttributeFree(t)
    ensures r.Some? ==> r.value == t
  {
    if t.attributes != map[] then None
    else
      match CloneChildren(t.childNodes)
      case None => None
      case Some(cs) => Some(Template(t.tagName, t.classList, map[], t.eventListeners, cs))
  }

  /** The loop over `childNodes`: strings are copied, templates cloned; the first failure fails the whole. */
  function CloneChildren(cs: seq<Child>): (r: Option<seq<Child>>)
    decreases cs
    ensures r.Some? <==> forall i :: 0 <= i < |cs| ==> ChildAttributeFree(cs[i])
    ensures r.Some? ==> r.value == cs
  {
    if cs == [] then Some([])
    else
      match CloneChild(cs[0])
      case None => None
      case Some(c) =>
        match CloneChildren(cs[1..])
        case None => None
        case Some(rest) =>
          assert forall i :: 1 <= i < |cs| ==> cs[i] == cs[1..][i - 1];
          Some([c] + rest)
  }

  function CloneChild(c: Child): (r: Option<Child>)
    decreases c
    ensures r.Some? <==> ChildAttributeFree(c)
    ensures r.Some? ==> r.value == c
  {
    match c
    case Text(s) => Some(Text(s))
    case Sub(u) =>
      match Clone(u)
      case None => None
      case Some(u') => Some(Sub(u'))
  }

  /** A template that carries an attribute cannot be cloned as written, though a copy exists. */
  lemma CloneFailsWithAttributes(t: Template)
    requires t.attributes != map[]
    ensures Clone(t) == None && CloneWithAttributes(t) == t
  {
  }

  /** The same attribute-carrying child makes cloning its parent fail as well. */
  lemma {:induction false} CloneFailsBelow(t: Template, i: nat)
    requires i < |t.childNodes| && t.childNodes[i].Sub? && t.childNodes[i].template.attributes != map[]
    ensures Clone(t) == None
  {
    assert !ChildAttributeFree(t.childNodes[i]);
  }

  /**
    The copy the code evidently intends: each attribute assigned by key into the
    new template, so every template can be copied, attributes included.
   */
  function CloneWithAttributes(t: Template): (r: Template)
    decreases t
    ensures r == t
  {
    var attributes := map k | k in t.attributes :: t.attributes[k];
    var children := seq(|t.childNodes|, i requires 0 <= i < |t.childNodes| => CloneChildWithAttributes(t.childNodes[i]));
    assert children == t.childNodes;
    Template(t.tagName, t.classList, attributes, t.eventListeners, children)
  }

  function CloneChildWithAttributes(c: Child): (r: Child)
    decreases c
    ensures r == c
  {
    match c
    case Text(s) => Text(s)
    case Sub(u) => Sub(CloneWithAttributes(u))
  }
}
