/**
  The mutable `$Element` template object (blueprint.js:9-126) and its
  chainable builder methods. Each method changes only the container it is
  about, says what that container holds afterwards in terms of the functions
  of `Templates`, and keeps `Valid()`.
 */
module Builder {
  import opened Wrappers
  import opened Templates
  import Copying
  import Rendering

  class Element {
    var tagName: string
    var classList: seq<string>
    var attributes: map<string, Option<string>>
    var eventListeners: map<string, seq<Callback>>
    var childNodes: seq<Child>

    /** The template this object currently describes. */
    function Value(): Template
      reads this
    {
      Template(tagName, classList, attributes, eventListeners, childNodes)
    }

    /** The object invariant: the class list rules, non-empty listener lists, well-formed children. */
    predicate Valid()
      reads this
    {
      WellFormed(Value())
    }

    /** `new $Element()`: fresh empty containers and the default tag `'DIV'`. */
    constructor ()
      ensures Value() == Blank() && Valid()
    {
      tagName := DefaultTagName;
      classList := [];
      attributes := map[];
      eventListeners := map[];
      childNodes := [];
    }

    /**
      `classes(str)` / `class(str)`: walks the pieces, trims each, skips empty
      and already present names and appends the rest.
     */
    method Classes(arg: ClassArg)
      modifies this`classList
      ensures classList == AddClasses(old(classList), Pieces(arg))
      ensures old(Valid()) ==> Valid()
    {
      var classes := Pieces(arg);
      var x := 0;
      while x < |classes|
        invariant 0 <= x <= |classes|
        invariant AddClasses(classList, classes[x..]) == AddClasses(old(classList), classes)
      {
        var c := Strings.Trim(classes[x]);
        if |c| != 0 && c !in classList {
          classList := classList + [c];
        }
        assert classes[x..][1..] == classes[x + 1..];
        x := x + 1;
      }
    }

    /** `attribute(key, value)` / `attr(key, value)`: the last write to a key wins. */
    method Attribute(key: string, value: Option<string>)
      modifies this`attributes
      ensures attributes == old(attributes)[key := value]
      ensures old(Valid()) ==> Valid()
    {
      attributes := attributes[key := value];
    }

    /** `on(type, callback)`: the callback goes to the end of that type's list. */
    method On(ty: string, callback: Callback)
      modifies this`eventListeners
      ensures eventListeners == AddListener(old(eventListeners), ty, callback)
      ensures old(Valid()) ==> Valid()
    {
      var callbacks := if ty in eventListeners then eventListeners[ty] else [];
      eventListeners := eventListeners[ty := callbacks + [callback]];
    }

    /** `text(str)`: appends `str`, or `''` when it is `null`. */
    method Text(value: Option<string>)
      modifies this`childNodes
      ensures childNodes == old(childNodes) + [Templates.Text(TextOf(value))]
      ensures old(Valid()) ==> Valid()
    {
      Append(Leaf(Templates.Text(TextOf(value))));
    }

    /**
      `append` / `child` / `children`: several arguments or an array are
      walked in order, each element appended in turn, so nested arrays are
      flattened at any depth; a single child is pushed.
     */
    method Append(arg: Arg)
      modifies this`childNodes
      ensures childNodes == old(childNodes) + Flatten(arg)
      ensures old(Valid()) && ArgWellFormed(arg) ==> Valid()
      decreases arg
    {
      match arg
      case Leaf(c) =>
        childNodes := childNodes + [c];
      case Many(items) =>
        var x := 0;
        while x < |items|
          invariant 0 <= x <= |items|
          invariant childNodes == old(childNodes) + FlattenAll(items[..x])
        {
          assert items[..x + 1][..x] == items[..x];
          Append(items[x]);
          x := x + 1;
        }
        assert items[..x] == items;
        assert old(Valid()) && ArgWellFormed(arg) ==> Valid() by {
          if old(Valid()) && ArgWellFormed(arg) {
            var cs := Flatten(arg);
            forall i | 0 <= i < |childNodes| ensures ChildWellFormed(childNodes[i]) {
              if i >= |old(childNodes)| {
                assert childNodes[i] == cs[i - |old(childNodes)|];
              } else {
                assert childNodes[i] == old(childNodes)[i];
              }
            }
          }
        }
    }

    /**
      `clone()` / `copy()`: a new object describing the same template, the
      source object unchanged. It copies the attributes by key, as the code
      evidently intends; as written the attribute loop throws instead
      (`Copying.Clone`).
     */
    method Copy() returns (r: Element)
      ensures fresh(r) && r.Value() == Value()
    {
      var copy := Copying.CloneWithAttributes(Value());
      r := new Element();
      r.tagName := copy.tagName;
      r.classList := copy.classList;
      r.attributes := copy.attributes;
      r.eventListeners := copy.eventListeners;
      r.childNodes := copy.childNodes;
    }

    /** `element()` / `create()`: renders the template without changing it. */
    method Create() returns (n: Rendering.Node)
      ensures n == Rendering.Create(Value())
    {
      n := Rendering.Create(Value());
    }
  }
}
