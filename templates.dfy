/**
  The value of a blueprint element template (`$Element` in blueprint.js) and
  the pure functions that say what each chainable builder call does to it.
  The mutable object itself is `Builder.Element`; its methods are specified
  by the functions here.
 */
module Templates {
  import opened Wrappers
  import opened Strings

  /** An event callback, kept by identity only: the model never runs one. */
  type Callback = nat

  /** The tag a template has until something sets it (the prototype's `tagName`). */
  const DefaultTagName: string := "DIV"

  /** An entry of `childNodes`: a literal string or a nested template. */
  datatype Child = Text(text: string) | Sub(template: Template)

  /**
    One prospective DOM element. An attribute value is `None` for JavaScript
    `null`; `eventListeners` maps an event type to its callbacks in
    registration order.
   */
  datatype Template = Template(
    tagName: string,
    classList: seq<string>,
    attributes: map<string, Option<string>>,
    eventListeners: map<string, seq<Callback>>,
    childNodes: seq<Child>)

  /** What `new $Element()` holds: empty containers and the default tag. */
  function Blank(): (t: Template)
    ensures t.tagName == DefaultTagName && WellFormed(t)
  {
    Template(DefaultTagName, [], map[], map[], [])
  }

  // ---------------------------------------------------------------------
  // classes / class

  /** The argument of `classes`: a space-separated string or an array. */
  datatype ClassArg = ClassString(s: string) | ClassArray(items: seq<string>)

  /** The candidate class names, before trimming and filtering. */
  function Pieces(arg: ClassArg): (r: seq<string>)
    ensures arg.ClassArray? ==> r == arg.items
    ensures arg.ClassString? ==> Join(r, " ") == arg.s && forall i :: 0 <= i < |r| ==> ' ' !in r[i]
  {
    match arg
    case ClassString(s) => SplitOn(s, ' ')
    case ClassArray(items) => items
  }

  /** A class name as `classes` stores it: non-empty and already trimmed. */
  predicate IsClassName(c: string)
  {
    c != "" && Trim(c) == c
  }

  predicate NoDuplicates(l: seq<string>)
  {
    forall i, j :: 0 <= i < j < |l| ==> l[i] != l[j]
  }

  /** The invariant of `classList`: trimmed non-empty names, each at most once. */
  predicate ClassListOk(l: seq<string>)
  {
    (forall i :: 0 <= i < |l| ==> IsClassName(l[i])) && NoDuplicates(l)
  }

  /** The names a call offers: every piece that is non-empty after trimming. */
  function Offered(pieces: seq<string>): set<string>
  {
    if pieces == [] then {}
    else (if Trim(pieces[0]) != "" then {Trim(pieces[0])} else {}) + Offered(pieces[1..])
  }

  /** One iteration of the loop in `classes`. */
  function AddClass(l: seq<string>, piece: string): (r: seq<string>)
    ensures |l| <= |r| && r[..|l|] == l
    ensures forall c :: c in r <==> c in l || (c == Trim(piece) && c != "")
    ensures ClassListOk(l) ==> ClassListOk(r)
  {
    var c := Trim(piece);
    TrimIdempotent(piece);
    if |c| == 0 || c in l then l else l + [c]
  }

  /**
    The class list after `classes` has walked `pieces` in order: the old list
    is kept as a prefix, every offered name ends up present, nothing else is
    added, and the invariant is kept.
   */
  function AddClasses(l: seq<string>, pieces: seq<string>): (r: seq<string>)
    ensures |l| <= |r| && r[..|l|] == l
    ensures forall c :: c in r <==> c in l || c in Offered(pieces)
    ensures ClassListOk(l) ==> ClassListOk(r)
    decreases |pieces|
  {
    if pieces == [] then l
    else
      var l1 := AddClass(l, pieces[0]);
      var r := AddClasses(l1, pieces[1..]);
      assert r[..|l|] == r[..|l1|][..|l|];
      r
  }

  /** The position of the first piece that trims to `c`, or `|pieces|`. */
  function FirstOffer(pieces: seq<string>, c: string): (k: nat)
    ensures k <= |pieces|
    ensures k < |pieces| ==> Trim(pieces[k]) == c
  {
    if pieces == [] then 0
    else if Trim(pieces[0]) == c then 0
    else 1 + FirstOffer(pieces[1..], c)
  }

  /** After the first piece is handled, no later appended name equals that piece's trim. */
  lemma LaterNamesDifferFromFirst(l: seq<string>, pieces: seq<string>, k: nat)
    requires ClassListOk(l) && pieces != []
    requires |AddClass(l, pieces[0])| <= k < |AddClasses(l, pieces)|
    ensures Trim(pieces[0]) != AddClasses(l, pieces)[k]
  {
    var l1 := AddClass(l, pieces[0]);
    var r := AddClasses(l1, pieces[1..]);
    assert r == AddClasses(l, pieces);
    assert ClassListOk(r);
  }

  /** The names a call appends follow the order in which the input first offers them. */
  lemma {:induction false} AddClassesInInputOrder(l: seq<string>, pieces: seq<string>, i: nat, j: nat)
    requires ClassListOk(l)
    requires |l| <= i < j < |AddClasses(l, pieces)|
    ensures FirstOffer(pieces, AddClasses(l, pieces)[i]) < FirstOffer(pieces, AddClasses(l, pieces)[j])
    decreases |pieces|
  {
    assert pieces != [];
    var l1 := AddClass(l, pieces[0]);
    var r := AddClasses(l, pieces);
    assert r == AddClasses(l1, pieces[1..]);
    assert Trim(pieces[0]) != r[j] by {
      LaterNamesDifferFromFirst(l, pieces, j);
    }
    if i >= |l1| {
      assert Trim(pieces[0]) != r[i] by {
        LaterNamesDifferFromFirst(l, pieces, i);
      }
      AddClassesInInputOrder(l1, pieces[1..], i, j);
    } else {
      assert r[i] == Trim(pieces[0]) by {
        assert r[..|l1|] == l1;
      }
    }
  }

  /** A call whose every offered name is already present changes nothing. */
  lemma {:induction false} AddClassesNothingNew(l: seq<string>, pieces: seq<string>)
    requires Offered(pieces) <= set c | c in l
    ensures AddClasses(l, pieces) == l
    decreases |pieces|
  {
    if pieces != [] {
      AddClassesNothingNew(l, pieces[1..]);
    }
  }

  /** Repeating the same `classes` call changes nothing. */
  lemma AddClassesIdempotent(l: seq<string>, pieces: seq<string>)
    ensures AddClasses(AddClasses(l, pieces), pieces) == AddClasses(l, pieces)
  {
    AddClassesNothingNew(AddClasses(l, pieces), pieces);
  }

  // ---------------------------------------------------------------------
  // on

  /** The callbacks registered for `ty` (none when the type has no list yet). */
  function Listeners(m: map<string, seq<Callback>>, ty: string): seq<Callback>
  {
    if ty in m then m[ty] else []
  }

  /** `on(ty, cb)`: `cb` goes to the end of the list for `ty`; every other list is untouched. */
  function AddListener(m: map<string, seq<Callback>>, ty: string, cb: Callback): (r: map<string, seq<Callback>>)
    ensures r.Keys == m.Keys + {ty}
    ensures Listeners(r, ty) == Listeners(m, ty) + [cb]
    ensures forall other :: other != ty ==> Listeners(r, other) == Listeners(m, other)
  {
    m[ty := Listeners(m, ty) + [cb]]
  }

  // ---------------------------------------------------------------------
  // append / child / children, text

  /**
    An argument of `append`: a single child, or an array (or several
    arguments), whose elements may themselves be arrays.
   */
  datatype Arg = Leaf(child: Child) | Many(items: seq<Arg>)

  /** The children an argument contributes, left to right, at any nesting depth. */
  function Flatten(a: Arg): seq<Child>
    decreases a
  {
    match a
    case Leaf(c) => [c]
    case Many(items) => FlattenAll(items)
  }

  function FlattenAll(items: seq<Arg>): seq<Child>
    decreases items
  {
    if items == [] then []
    else FlattenAll(items[..|items| - 1]) + Flatten(items[|items| - 1])
  }

  /** Appending `xs` and then `ys` is appending `xs` followed by `ys` in one call. */
  lemma {:induction false} FlattenAllConcat(xs: seq<Arg>, ys: seq<Arg>)
    ensures FlattenAll(xs + ys) == FlattenAll(xs) + FlattenAll(ys)
    decreases |ys|
  {
    if ys != [] {
      var ys' := ys[..|ys| - 1];
      assert (xs + ys)[..|xs + ys| - 1] == xs + ys';
      assert (xs + ys)[|xs + ys| - 1] == ys[|ys| - 1];
      FlattenAllConcat(xs, ys');
    } else {
      assert xs + ys == xs;
    }
  }

  /** `append(c1, ..., cn)` and `append([c1, ..., cn])` push exactly `c1, ..., cn`, in order. */
  lemma {:induction false} FlattenLeaves(cs: seq<Child>)
    ensures FlattenAll(seq(|cs|, i requires 0 <= i < |cs| => Leaf(cs[i]))) == cs
    decreases |cs|
  {
    if cs != [] {
      var cs' := cs[..|cs| - 1];
      var items := seq(|cs|, i requires 0 <= i < |cs| => Leaf(cs[i]));
      assert items[..|items| - 1] == seq(|cs'|, i requires 0 <= i < |cs'| => Leaf(cs'[i]));
      FlattenLeaves(cs');
    }
  }

  /** `text(v)`: `null` becomes the empty string. */
  function TextOf(value: Option<string>): string
  {
    match value
    case None => ""
    case Some(s) => s
  }

  // ---------------------------------------------------------------------
  // What the builder calls keep true of a whole template tree

  /**
    Every class list in the tree satisfies `ClassListOk` and every listener
    list is non-empty (`on` creates a list only to push onto it).
   */
  predicate WellFormed(t: Template)
    decreases t
  {
    && ClassListOk(t.classList)
    && (forall ty :: ty in t.eventListeners ==> t.eventListeners[ty] != [])
    && forall i :: 0 <= i < |t.childNodes| ==> ChildWellFormed(t.childNodes[i])
  }

  predicate ChildWellFormed(c: Child)
    decreases c
  {
    c.Text? || WellFormed(c.template)
  }

  predicate ArgWellFormed(a: Arg)
  {
    var cs := Flatten(a);
    forall i :: 0 <= i < |cs| ==> ChildWellFormed(cs[i])
  }
}
