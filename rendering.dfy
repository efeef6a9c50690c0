/**
  `element` / `create` (blueprint.js:128-160): turning a template tree into
  DOM nodes. The DOM is replaced by the value `Node`, which records what the
  code hands to the DOM: the tag given to `createElement`, the `className`
  if one was assigned, each `setAttribute` pair, each `addEventListener`
  registration per type in order, and the appended children.
 */
module Rendering {
  import opened Wrappers
  import opened Strings
  import opened Templates

  datatype Node =
    | TextNode(data: string)
    | ElementNode(
        tagName: string,
        className: Option<string>,
        attributes: map<string, Option<string>>,
        listeners: map<string, seq<Callback>>,
        childNodes: seq<Node>)

  /**
    `element()`: an element with the template's tag, attributes and listener
    lists, a `className` exactly when the class list is non-empty (the names
    joined with spaces), and one output child per template child in the same
    order: a text node for a string, the rendered element for a template.
   */
  function Create(t: Template): (n: Node)
    decreases t
    ensures n.ElementNode? && n.tagName == t.tagName
    ensures n.attributes == t.attributes && n.listeners == t.eventListeners
    ensures n.className.Some? <==> t.classList != []
    ensures t.classList != [] ==> n.className == Some(Join(t.classList, " "))
    ensures |n.childNodes| == |t.childNodes|
    ensures forall i :: 0 <= i < |t.childNodes| ==> (n.childNodes[i].TextNode? <==> t.childNodes[i].Text?)
    ensures forall i :: 0 <= i < |t.childNodes| && t.childNodes[i].Text? ==> n.childNodes[i] == TextNode(t.childNodes[i].text)
    ensures forall i :: 0 <= i < |t.childNodes| && t.childNodes[i].Sub? ==> n.childNodes[i] == Create(t.childNodes[i].template)
  {
    ElementNode(
      t.tagName,
      if |t.classList| != 0 then Some(Join(t.classList, " ")) else None,
      t.attributes,
      t.eventListeners,
      seq(|t.childNodes|, i requires 0 <= i < |t.childNodes| => CreateChild(t.childNodes[i])))
  }

  /** A string child becomes a text node, a template child its own element. */
  function CreateChild(c: Child): (n: Node)
    decreases c
    ensures n.TextNode? <==> c.Text?
    ensures c.Text? ==> n == TextNode(c.text)
    ensures c.Sub? ==> n == Create(c.template)
  {
    match c
    case Text(s) => TextNode(s)
    case Sub(u) => Create(u)
  }

  /** No class name anywhere in the tree contains a space. */
  predicate SpaceFreeClasses(t: Template)
    decreases t
  {
    && (forall i :: 0 <= i < |t.classList| ==> ' ' !in t.classList[i])
    && forall i :: 0 <= i < |t.childNodes| ==> (t.childNodes[i].Sub? ==> SpaceFreeClasses(t.childNodes[i].template))
  }

  /**
    Reads a node back as a template entry: the class list is the `className`
    split at spaces, everything else is taken as it stands.
   */
  function ReadBack(n: Node): Child
    decreases n
  {
    match n
    case TextNode(s) => Text(s)
    case ElementNode(tag, cn, attrs, ls, kids) =>
      Sub(Template(
        tag,
        if cn.Some? then SplitOn(cn.value, ' ') else [],
        attrs,
        ls,
        seq(|kids|, i requires 0 <= i < |kids| => ReadBack(kids[i]))))
  }

  /**
    Rendering loses nothing: reading the produced element back gives the
    template again, as long as no class name contains a space (the one place
    where joining with ' ' is not reversible).
   */
  lemma {:induction false} CreateReadBack(t: Template)
    requires SpaceFreeClasses(t)
    ensures ReadBack(Create(t)) == Sub(t)
    decreases t
  {
    var n := Create(t);
    if t.classList != [] {
      SplitJoin(t.classList, ' ');
    }
    var kids := seq(|n.childNodes|, i requires 0 <= i < |n.childNodes| => ReadBack(n.childNodes[i]));
    forall i | 0 <= i < |t.childNodes|
      ensures kids[i] == t.childNodes[i]
    {
      assert n.childNodes[i] == CreateChild(t.childNodes[i]);
      match t.childNodes[i]
      case Text(s) =>
      case Sub(u) => CreateReadBack(u);
    }
    assert kids == t.childNodes;
  }

  /** Feeding a valid class list through `classes` in order reproduces it. */
  lemma {:induction false} AddClassesOfValidList(prefix: seq<string>, l: seq<string>)
    requires ClassListOk(prefix + l)
    ensures AddClasses(prefix, l) == prefix + l
    decreases |l|
  {
    if l != [] {
      var p := prefix + l;
      assert l[0] == p[|prefix|];
      assert l[0] !in prefix by {
        forall k | 0 <= k < |prefix| ensures prefix[k] != l[0] {
          assert prefix[k] == p[k];
        }
      }
      assert AddClass(prefix, l[0]) == prefix + [l[0]];
      assert prefix + [l[0]] + l[1..] == p;
      AddClassesOfValidList(prefix + [l[0]], l[1..]);
    } else {
      assert prefix + l == prefix;
    }
  }

  /**
    Giving a rendered element's `className` to `classes` on a fresh template
    rebuilds the original class list, provided no class name contains a space.
   */
  lemma ClassNameReadBack(t: Template)
    requires ClassListOk(t.classList) && t.classList != []
    requires forall i :: 0 <= i < |t.classList| ==> ' ' !in t.classList[i]
    ensures AddClasses([], Pieces(ClassString(Create(t).className.value))) == t.classList
  {
    SplitJoin(t.classList, ' ');
    assert [] + t.classList == t.classList;
    AddClassesOfValidList([], t.classList);
  }
}
