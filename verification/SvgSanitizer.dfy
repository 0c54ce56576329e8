/**
 * The SVG sanitiser: it deletes children and attributes of a tree in place, while iterating over the
 * same tree in document order, and calls itself on the children as it goes.
 */
module SvgSanitizer {
  import opened Basics
  import opened Text

  /** The value of an element and everything below it: its text is what comes before its first child, its tail what
      comes between its end and what follows in its parent. */
  datatype Tree = Node(tag: string, text: string, tail: string, attrib: map<string, string>, children: seq<Tree>)

  /** The name without its namespace, in "{uri}name" and in "prefix:name" form. */
  function LocalName(name: string): string {
    AfterLast(AfterLast(name, '}'), ':')
  }

  const DANGEROUS_ELEMENTS := {"script", "foreignobject", "iframe", "object", "embed", "audio", "video", "style"}
  const URL_ATTRS := {"href", "src"}

  predicate Dangerous(tag: string) {
    Lower(LocalName(tag)) in DANGEROUS_ELEMENTS
  }

  // ----- the specification of the first phase -----

  /** Drops every dangerous element below the root, with all it contains. */
  function Filter(t: Tree): Tree {
    Node(t.tag, t.text, t.tail, t.attrib, FilterAll(t.children))
  }

  function FilterAll(ts: seq<Tree>): seq<Tree> {
    if ts == [] then []
    else
      var rest := FilterAll(ts[..|ts| - 1]);
      if Dangerous(ts[|ts| - 1].tag) then rest else rest + [Filter(ts[|ts| - 1])]
  }

  predicate IsClean(t: Tree) {
    forall c :: c in t.children ==> !Dangerous(c.tag) && IsClean(c)
  }

  lemma {:induction false} FilterIsClean(t: Tree)
    ensures IsClean(Filter(t))
    decreases t, |t.children|
  {
    FilterAllIsClean(t.children);
  }

  lemma {:induction false} FilterAllIsClean(ts: seq<Tree>)
    ensures forall c :: c in FilterAll(ts) ==> !Dangerous(c.tag) && IsClean(c)
    decreases ts, |ts|
  {
    if ts == [] {
    } else {
      FilterAllIsClean(ts[..|ts| - 1]);
      FilterIsClean(ts[|ts| - 1]);
    }
  }

  lemma {:induction false} FilterOfClean(t: Tree)
    requires IsClean(t)
    ensures Filter(t) == t
    decreases t, |t.children|
  {
    FilterAllOfClean(t.children);
  }

  lemma {:induction false} FilterAllOfClean(ts: seq<Tree>)
    requires forall c :: c in ts ==> !Dangerous(c.tag) && IsClean(c)
    ensures FilterAll(ts) == ts
    decreases ts, |ts|
  {
    if ts == [] {
    } else {
      var front, last := ts[..|ts| - 1], ts[|ts| - 1];
      assert ts == front + [last];
      FilterAllOfClean(front);
      FilterOfClean(last);
    }
  }

  function Size(t: Tree): nat {
    1 + SizeAll(t.children)
  }

  function SizeAll(ts: seq<Tree>): nat {
    if ts == [] then 0 else SizeAll(ts[..|ts| - 1]) + Size(ts[|ts| - 1])
  }

  // ----- elements on the heap -----

  class Element {
    var tag: string
    const text: string
    const tail: string
    var attrib: map<string, string>
    var children: seq<Element>
    ghost var repr: set<Element>  // this element and all that was ever below it
    ghost var view: Tree          // its value

    constructor (tag: string, text: string, tail: string, attrib: map<string, string>)
      ensures Shape() && repr == {this} && view == Node(tag, text, tail, attrib, []) && this.attrib == attrib
    {
      this.tag, this.text, this.tail, this.attrib, children := tag, text, tail, attrib, [];
      repr, view := {this}, Node(tag, text, tail, attrib, []);
    }

    /** The elements below form a tree, and the views follow it. */
    ghost predicate Shape()
      reads this`tag, this`children, this`repr, this`view, repr`tag, repr`children, repr`repr, repr`view
      decreases repr
    {
      && this in repr && view.tag == tag && view.text == text && view.tail == tail
      && |view.children| == |children|
      && (forall i :: 0 <= i < |children| ==>
            && children[i] in repr && children[i].repr <= repr && this !in children[i].repr
            && children[i].Shape() && view.children[i] == children[i].view)
      && (forall i, j :: 0 <= i < j < |children| ==> children[i].repr !! children[j].repr)
    }
  }

  /** Element.remove: deletes the first child that is the given one. */
  method Remove(parent: Element, child: Element, ghost at: nat)
    requires at < |parent.children| && parent.children[at] == child
    requires child !in parent.children[..at]
    modifies parent`children
    ensures parent.children == old(parent.children)[..at] + old(parent.children)[at + 1..]
  {
    var k := 0;
    while parent.children[k] != child
      invariant 0 <= k <= at
      decreases at - k
    {
      k := k + 1;
    }
    parent.children := parent.children[..k] + parent.children[k + 1..];
  }

  /** The given elements are roots of disjoint trees below the parent. */
  ghost predicate Siblings(parent: Element, cs: seq<Element>)
    reads parent`repr, parent.repr`tag, parent.repr`children, parent.repr`repr, parent.repr`view
    reads cs`repr
  {
    && (forall i :: 0 <= i < |cs| ==>
          && cs[i] in parent.repr && cs[i].repr <= parent.repr && parent !in cs[i].repr && cs[i].Shape())
    && (forall i, j :: 0 <= i < j < |cs| ==> cs[i].repr !! cs[j].repr)
  }

  /** What elements were before the pass. */
  type Snapshot = map<Element, (seq<Element>, Tree)>

  /** Attributes are as they were, and if the tree was clean so is everything else. */
  ghost predicate Tracks(repr: set<Element>, was: Snapshot, clean: bool)
    reads repr`children, repr`view
  {
    forall o :: o in repr ==> o in was && o.view.attrib == was[o].1.attrib
                              && (clean ==> o.children == was[o].0 && o.view == was[o].1)
  }

  /** The first i children are filtered: their survivors are the elements of the list numbered in kept. */
  ghost predicate Filtered(cs: seq<Element>, trees: seq<Tree>, i: nat, kept: seq<nat>)
    reads cs`view
  {
    && i <= |cs| == |trees|
    && |FilterAll(trees[..i])| == |kept|
    && (forall k :: 0 <= k < |kept| ==> kept[k] < i && cs[kept[k]].view == FilterAll(trees[..i])[k])
    && (forall k, l :: 0 <= k < l < |kept| ==> kept[k] < kept[l])
    && (forall j :: i <= j < |cs| ==> cs[j].view == trees[j])
  }

  ghost predicate Listed(children: seq<Element>, cs: seq<Element>, i: nat, kept: seq<nat>) {
    && i <= |cs| && |children| == |kept| + |cs| - i
    && (forall k :: 0 <= k < |kept| ==> kept[k] < i && children[k] == cs[kept[k]])
    && (forall k :: i <= k < |cs| ==> children[|kept| + k - i] == cs[k])
  }

  lemma FilterAllNext(trees: seq<Tree>, i: nat)
    requires i < |trees|
    ensures FilterAll(trees[..i + 1]) == if Dangerous(trees[i].tag) then FilterAll(trees[..i])
                                         else FilterAll(trees[..i]) + [Filter(trees[i])]
  {
    assert trees[..i + 1][..i] == trees[..i];
  }

  lemma ListedKeep(children: seq<Element>, cs: seq<Element>, i: nat, kept: seq<nat>)
    requires Listed(children, cs, i, kept) && i < |cs|
    ensures Listed(children, cs, i + 1, kept + [i])
  {
  }

  lemma ListedDrop(children: seq<Element>, cs: seq<Element>, i: nat, kept: seq<nat>)
    requires Listed(children, cs, i, kept) && i < |cs|
    ensures children[|kept|] == cs[i]
    ensures Listed(children[..|kept|] + children[|kept| + 1..], cs, i + 1, kept)
  {
    assert children[|kept| + i - i] == cs[i];
  }

  lemma FilteredDrop(cs: seq<Element>, trees: seq<Tree>, i: nat, kept: seq<nat>)
    requires i < |cs| && Filtered(cs, trees, i, kept) && Dangerous(trees[i].tag)
    ensures Filtered(cs, trees, i + 1, kept)
  {
    FilterAllNext(trees, i);
  }

  lemma FilteredKeep(cs: seq<Element>, trees: seq<Tree>, i: nat, kept: seq<nat>)
    requires i < |cs| == |trees| && |FilterAll(trees[..i])| == |kept|
    requires forall k :: 0 <= k < |kept| ==> kept[k] < i && cs[kept[k]].view == FilterAll(trees[..i])[k]
    requires forall k, l :: 0 <= k < l < |kept| ==> kept[k] < kept[l]
    requires forall j :: i < j < |cs| ==> cs[j].view == trees[j]
    requires !Dangerous(trees[i].tag) && cs[i].view == Filter(trees[i])
    ensures Filtered(cs, trees, i + 1, kept + [i])
  {
    FilterAllNext(trees, i);
    OneMoreKept(cs, FilterAll(trees[..i]), Filter(trees[i]), i, kept);
  }

  lemma OneMoreKept(cs: seq<Element>, front: seq<Tree>, t: Tree, i: nat, kept: seq<nat>)
    requires i < |cs| && |front| == |kept| && cs[i].view == t
    requires forall k :: 0 <= k < |kept| ==> kept[k] < i && cs[kept[k]].view == front[k]
    requires forall k, l :: 0 <= k < l < |kept| ==> kept[k] < kept[l]
    ensures |front + [t]| == |kept + [i]|
    ensures forall k :: 0 <= k < |kept| + 1 ==> (kept + [i])[k] < i + 1 && cs[(kept + [i])[k]].view == (front + [t])[k]
    ensures forall k, l :: 0 <= k < l < |kept| + 1 ==> (kept + [i])[k] < (kept + [i])[l]
  {
  }

  /** A child that is not dangerous is sanitised where it is. */
  method KeepChild(parent: Element, cs: seq<Element>, i: nat, ghost was: Snapshot, ghost clean: bool)
    requires parent in parent.repr && Siblings(parent, cs) && i < |cs|
    requires Tracks(parent.repr, was, clean) && (clean ==> IsClean(cs[i].view))
    modifies parent.repr`children, parent.repr`view
    ensures parent.view == old(parent.view) && parent.children == old(parent.children)
    ensures cs[i].Shape() && cs[i].view == Filter(old(cs[i].view))
    ensures Siblings(parent, cs) && Tracks(parent.repr, was, clean)
    ensures forall j :: 0 <= j < |cs| && j != i ==> cs[j].view == old(cs[j].view)
    decreases parent.repr, 0
  {
    RemoveDangerousElements(cs[i]);
    forall j | 0 <= j < |cs| && j != i ensures cs[j].Shape() && cs[j].view == old(cs[j].view) {
      assert cs[j].repr !! cs[i].repr;
    }
  }

  /** A dangerous child is removed from the parent's list. */
  method DropChild(parent: Element, cs: seq<Element>, i: nat, ghost kept: seq<nat>)
    requires parent in parent.repr && Siblings(parent, cs) && i < |cs|
    requires Listed(parent.children, cs, i, kept) && (forall k :: 0 <= k < |kept| ==> kept[k] < i)
    modifies parent`children
    ensures Siblings(parent, cs) && Listed(parent.children, cs, i + 1, kept)
  {
    ListedDrop(parent.children, cs, i, kept);
    assert cs[i] !in parent.children[..|kept|] by {
      forall k | 0 <= k < |kept| ensures parent.children[k] != cs[i] {
        assert cs[kept[k]].repr !! cs[i].repr && cs[i] in cs[i].repr;
      }
    }
    Remove(parent, cs[i], |kept|);
    forall j | 0 <= j < |cs| ensures cs[j].Shape() {
      assert parent !in cs[j].repr;
    }
  }

  /** One turn of the loop over the copied list. */
  method CleanChild(parent: Element, cs: seq<Element>, i: nat, ghost trees: seq<Tree>, ghost kept: seq<nat>,
                    ghost was: Snapshot, ghost clean: bool)
    returns (ghost kept': seq<nat>)
    requires parent in parent.repr && Siblings(parent, cs) && i < |cs|
    requires Filtered(cs, trees, i, kept) && Listed(parent.children, cs, i, kept)
    requires Tracks(parent.repr, was, clean) && (clean ==> !Dangerous(trees[i].tag) && IsClean(trees[i]))
    modifies parent.repr`children, parent.repr`view
    ensures Siblings(parent, cs) && parent.view == old(parent.view)
    ensures Filtered(cs, trees, i + 1, kept') && Listed(parent.children, cs, i + 1, kept')
    ensures Tracks(parent.repr, was, clean)
    decreases parent.repr, 1
  {
    if Dangerous(cs[i].tag) {
      FilteredDrop(cs, trees, i, kept);
      DropChild(parent, cs, i, kept);
      kept' := kept;
    } else {
      KeepChild(parent, cs, i, was, clean);
      FilteredKeep(cs, trees, i, kept);
      ListedKeep(parent.children, cs, i, kept);
      kept' := kept + [i];
    }
  }

  /** The loop over the copied list. */
  method CleanEach(parent: Element, cs: seq<Element>, ghost trees: seq<Tree>, ghost was: Snapshot, ghost clean: bool)
    returns (ghost kept: seq<nat>)
    requires parent in parent.repr && Siblings(parent, cs) && parent.children == cs
    requires Filtered(cs, trees, 0, []) && Tracks(parent.repr, was, clean)
    requires clean ==> forall c :: c in trees ==> !Dangerous(c.tag) && IsClean(c)
    modifies parent.repr`children, parent.repr`view
    ensures Siblings(parent, cs) && parent.view == old(parent.view)
    ensures Filtered(cs, trees, |cs|, kept) && Listed(parent.children, cs, |cs|, kept)
    ensures Tracks(parent.repr, was, clean)
    decreases parent.repr, 2
  {
    kept := [];
    for i := 0 to |cs|
      invariant Siblings(parent, cs) && parent.view == old(parent.view)
      invariant Filtered(cs, trees, i, kept) && Listed(parent.children, cs, i, kept)
      invariant Tracks(parent.repr, was, clean)
    {
      kept := CleanChild(parent, cs, i, trees, kept, was, clean);
    }
  }

  /** The children left over are the survivors; the parent's value follows. */
  ghost method SetView(parent: Element, cs: seq<Element>, trees: seq<Tree>, kept: seq<nat>)
    requires parent in parent.repr && Siblings(parent, cs)
    requires parent.view.tag == parent.tag && parent.view.text == parent.text && parent.view.tail == parent.tail
    requires Filtered(cs, trees, |cs|, kept) && Listed(parent.children, cs, |cs|, kept)
    modifies parent`view
    ensures parent.view == old(parent.view).(children := FilterAll(trees))
    ensures parent.Shape()
  {
    assert trees[..|cs|] == trees;
    parent.view := Node(parent.tag, parent.text, parent.tail, parent.view.attrib, FilterAll(trees));
    forall k | 0 <= k < |kept|
      ensures parent.children[k].Shape() && parent.children[k] in parent.repr && parent.children[k].repr <= parent.repr
      ensures parent !in parent.children[k].repr && parent.view.children[k] == parent.children[k].view
    {
      assert parent.children[k] == cs[kept[k]];
    }
    forall k, l | 0 <= k < l < |kept| ensures parent.children[k].repr !! parent.children[l].repr {
      assert parent.children[k] == cs[kept[k]] && parent.children[l] == cs[kept[l]];
    }
  }

  lemma SameTree(s: Tree, t: Tree)
    requires t == s.(children := s.children)
    ensures t == s
  {
  }

  /** The body of the loop over root.iter(). */
  method CleanChildren(parent: Element)
    requires parent.Shape()
    modifies parent.repr`children, parent.repr`view
    ensures parent.Shape() && parent.view == Filter(old(parent.view))
    ensures forall o :: o in parent.repr ==> o.view.attrib == old(o.view.attrib)
    ensures old(IsClean(parent.view)) ==>
              forall o :: o in parent.repr ==> o.children == old(o.children) && o.view == old(o.view)
    decreases parent.repr, 3
  {
    ghost var trees := parent.view.children;
    ghost var was: Snapshot := map o: Element | o in parent.repr :: (o.children, o.view);
    ghost var clean := IsClean(parent.view);
    var snapshot := parent.children;
    ghost var kept := CleanEach(parent, snapshot, trees, was, clean);
    SetView(parent, snapshot, trees, kept);
    if clean {
      FilterAllOfClean(trees);
      SameTree(old(parent.view), parent.view);
    }
  }

  /** The sizes of the trees still on the iterator's stack. */
  ghost function StackSize(stack: seq<Element>): nat
    reads stack`view
  {
    if stack == [] then 0 else StackSize(stack[..|stack| - 1]) + Size(stack[|stack| - 1].view)
  }

  lemma {:induction false} StackSizeAppend(a: seq<Element>, b: seq<Element>)
    ensures StackSize(a + b) == StackSize(a) + StackSize(b)
  {
    if b == [] {
      assert a + b == a;
    } else {
      assert (a + b)[..|a + b| - 1] == a + b[..|b| - 1];
      StackSizeAppend(a, b[..|b| - 1]);
    }
  }

  lemma {:induction false} StackSizeOfChildren(cs: seq<Element>, trees: seq<Tree>)
    requires |cs| == |trees| && forall i :: 0 <= i < |cs| ==> trees[i] == cs[i].view
    ensures StackSize(cs) == SizeAll(trees)
  {
    if cs == [] {
    } else {
      StackSizeOfChildren(cs[..|cs| - 1], trees[..|trees| - 1]);
    }
  }

  /** Replacing an element by its children shrinks the stack. */
  lemma Expand(stack: seq<Element>)
    requires stack != [] && stack[0].Shape()
    ensures StackSize(stack[0].children + stack[1..]) < StackSize(stack)
  {
    StackSizeAppend(stack[0].children, stack[1..]);
    StackSizeAppend([stack[0]], stack[1..]);
    assert [stack[0]] + stack[1..] == stack && [stack[0]][..0] == [];
    StackSizeOfChildren(stack[0].children, stack[0].view.children);
  }

  /** The elements on the stack are trees of the given one. */
  ghost predicate Stacked(root: Element, stack: seq<Element>)
    reads root`repr, root.repr`tag, root.repr`children, root.repr`repr, root.repr`view, stack`repr
  {
    forall e :: e in stack ==> e in root.repr && e.repr <= root.repr && e.Shape()
  }

  /** A visit of a clean element changes nothing. */
  method Visit(root: Element, parent: Element)
    requires parent in root.repr && parent.repr <= root.repr && parent.Shape() && IsClean(parent.view)
    modifies root.repr`children, root.repr`view
    ensures unchanged(root.repr)
    decreases root.repr, 4
  {
    CleanChildren(parent);
  }

  ghost predicate AllClean(stack: seq<Element>)
    reads stack`view
  {
    forall e :: e in stack ==> IsClean(e.view)
  }

  lemma StackedNext(root: Element, stack: seq<Element>)
    requires stack != [] && Stacked(root, stack) && AllClean(stack)
    ensures Stacked(root, stack[0].children + stack[1..]) && AllClean(stack[0].children + stack[1..])
    ensures StackSize(stack[0].children + stack[1..]) < StackSize(stack)
  {
    Expand(stack);
    forall i | 0 <= i < |stack[0].children| ensures IsClean(stack[0].children[i].view) {
      assert stack[0].view.children[i] in stack[0].view.children;
    }
  }

  /** One turn of the iteration after the first: nothing changes. */
  method VisitNext(root: Element, stack: seq<Element>) returns (next: seq<Element>)
    requires stack != [] && Stacked(root, stack) && AllClean(stack)
    modifies root.repr`children, root.repr`view
    ensures unchanged(root.repr) && next == stack[0].children + stack[1..]
    ensures Stacked(root, next) && AllClean(next) && StackSize(next) < StackSize(stack)
    decreases root.repr, 5
  {
    StackedNext(root, stack);
    Visit(root, stack[0]);
    next := stack[0].children + stack[1..];
  }

  /** What the iterator does after its first visit: every element left is clean, and nothing changes, so the
      iteration is not disturbed. */
  method VisitRest(root: Element)
    requires root.Shape() && IsClean(root.view)
    modifies root.repr`children, root.repr`view
    ensures unchanged(root.repr)
    decreases root.repr, 6
  {
    var stack := root.children;
    while stack != []
      invariant unchanged(root.repr) && Stacked(root, stack) && AllClean(stack)
      decreases StackSize(stack)
    {
      stack := VisitNext(root, stack);
    }
  }

  /** The loop over root.iter() visits root first, and there the recursion does all the work. */
  method RemoveDangerousElements(root: Element)
    requires root.Shape()
    modifies root.repr`children, root.repr`view
    ensures root.Shape() && root.view == Filter(old(root.view))
    ensures forall o :: o in root.repr ==> o.view.attrib == old(o.view.attrib)
    ensures old(IsClean(root.view)) ==>
              forall o :: o in root.repr ==> o.children == old(o.children) && o.view == old(o.view)
    decreases root.repr, 7
  {
    CleanChildren(root);
    FilterIsClean(old(root.view));
    VisitRest(root);
  }

  // ----- the second phase -----

  /** Event handlers, styles and references that do not start with "#" go. */
  predicate KeepsAttr(name: string, value: string) {
    var lowered := Lower(LocalName(name));
    && !StartsWith(lowered, "on") && lowered != "style"
    && (lowered in URL_ATTRS ==> StartsWith(Lower(Strip(value)), "#"))
  }

  function CleanAttrs(attrib: map<string, string>): map<string, string> {
    map name | name in attrib && KeepsAttr(name, attrib[name]) :: attrib[name]
  }

  function Scrub(t: Tree): Tree {
    Node(t.tag, t.text, t.tail, CleanAttrs(t.attrib), ScrubAll(t.children))
  }

  function ScrubAll(ts: seq<Tree>): (r: seq<Tree>)
    ensures |r| == |ts| && forall i :: 0 <= i < |ts| ==> r[i] == Scrub(ts[i])
  {
    if ts == [] then [] else ScrubAll(ts[..|ts| - 1]) + [Scrub(ts[|ts| - 1])]
  }

  function Sanitized(t: Tree): Tree {
    Scrub(Filter(t))
  }

  /** The inner loop: the names in a copy of the attribute list, deleted one at a time. */
  method ScrubAttributes(e: Element)
    modifies e`attrib
    ensures e.attrib == CleanAttrs(old(e.attrib))
  {
    var rest := e.attrib.Keys;
    while rest != {}
      invariant rest <= e.attrib.Keys
      invariant forall name :: name in e.attrib <==>
                  name in old(e.attrib) && (name in rest || KeepsAttr(name, old(e.attrib)[name]))
      invariant forall name :: name in e.attrib ==> e.attrib[name] == old(e.attrib)[name]
      decreases rest
    {
      ghost var some := Member(rest);
      var name :| name in rest;
      rest := rest - {name};
      var value := Strip(e.attrib[name]);
      var lowered := Lower(LocalName(name));
      if StartsWith(lowered, "on") {
        e.attrib := e.attrib - {name};
        continue;
      }
      if lowered == "style" {
        e.attrib := e.attrib - {name};
        continue;
      }
      if lowered in URL_ATTRS && IsUnsafeExternalRef(value) {
        e.attrib := e.attrib - {name};
      }
    }
  }

  const UNSAFE_URL_PREFIXES := ["http:", "https:", "//", "javascript:", "data:", "file:"]

  /** Whatever does not start with "#" is unsafe; the list of prefixes decides nothing. */
  function IsUnsafeExternalRef(value: string): (unsafe: bool)
    ensures unsafe <==> !StartsWith(Lower(value), "#")
  {
    var lowered := Lower(value);
    if StartsWith(lowered, "#") then false
    else if exists i :: 0 <= i < |UNSAFE_URL_PREFIXES| && StartsWith(lowered, UNSAFE_URL_PREFIXES[i]) then true
    else true
  }

  /** Every element of the tree is finished, or on the stack or below an element that is. */
  ghost predicate Covered(e: Element, finished: set<Element>, stack: seq<Element>)
    requires e.Shape()
    reads e`tag, e`children, e`repr, e`view, e.repr`tag, e.repr`children, e.repr`repr, e.repr`view
    decreases e.repr
  {
    e in stack || (e in finished && forall i :: 0 <= i < |e.children| ==> Covered(e.children[i], finished, stack))
  }

  lemma {:induction false} CoveredNext(e: Element, finished: set<Element>, stack: seq<Element>)
    requires e.Shape() && stack != [] && Covered(e, finished, stack)
    ensures Covered(e, finished + {stack[0]}, stack[0].children + stack[1..])
    decreases e.repr
  {
    var next := stack[0].children + stack[1..];
    if e in stack[1..] || e == stack[0] {
      if e == stack[0] {
        assert forall i :: 0 <= i < |e.children| ==> e.children[i] == next[i];
      } else {
        assert e in next;
      }
    } else {
      assert stack == [stack[0]] + stack[1..];
      forall i | 0 <= i < |e.children| ensures Covered(e.children[i], finished + {stack[0]}, next) {
        CoveredNext(e.children[i], finished, stack);
      }
    }
  }

  /** What can be read off the heap from e down is the tree t. */
  ghost predicate IsImage(e: Element, t: Tree)
    requires e.Shape()
    reads e, e.repr
    decreases t
  {
    && e.tag == t.tag && e.text == t.text && e.tail == t.tail && e.attrib == t.attrib
    && |e.children| == |t.children|
    && forall i :: 0 <= i < |t.children| ==> IsImage(e.children[i], t.children[i])
  }

  lemma {:induction false} FinishedImage(e: Element, finished: set<Element>)
    requires e.Shape() && Covered(e, finished, [])
    requires forall o :: o in finished ==> o.attrib == CleanAttrs(o.view.attrib)
    ensures IsImage(e, Scrub(e.view))
    decreases e.repr
  {
    forall i | 0 <= i < |e.children| ensures IsImage(e.children[i], Scrub(e.view).children[i]) {
      FinishedImage(e.children[i], finished);
    }
  }

  lemma CleanAttrsTwice(attrib: map<string, string>)
    ensures CleanAttrs(CleanAttrs(attrib)) == CleanAttrs(attrib)
  {
  }

  /** The invariant of the second loop: what is finished is clean, the rest is untouched. */
  ghost predicate Halfway(root: Element, finished: set<Element>)
    reads root`repr, root.repr`attrib, root.repr`view
  {
    && finished <= root.repr
    && (forall o :: o in finished ==> o.attrib == CleanAttrs(o.view.attrib))
    && (forall o :: o in root.repr && o !in finished ==> o.attrib == o.view.attrib)
  }

  /** Scrubbing an element, the first time or again, finishes it. */
  method ScrubOne(root: Element, element: Element, ghost finished: set<Element>)
    requires Halfway(root, finished) && element in root.repr
    modifies element`attrib
    ensures Halfway(root, finished + {element})
  {
    CleanAttrsTwice(element.view.attrib);
    ScrubAttributes(element);
  }

  lemma StackNext(root: Element, stack: seq<Element>, finished: set<Element>)
    requires root.Shape() && stack != [] && Stacked(root, stack) && Covered(root, finished, stack)
    ensures Stacked(root, stack[0].children + stack[1..])
    ensures Covered(root, finished + {stack[0]}, stack[0].children + stack[1..])
    ensures StackSize(stack[0].children + stack[1..]) < StackSize(stack)
  {
    Expand(stack);
    CoveredNext(root, finished, stack);
  }

  /** Where the second loop is: what it still has to visit, and what it has finished. */
  ghost predicate Scrubbing(root: Element, stack: seq<Element>, finished: set<Element>)
    reads root`tag, root`children, root`repr, root`view
    reads root.repr`tag, root.repr`children, root.repr`repr, root.repr`view, stack`repr
  {
    root.Shape() && Stacked(root, stack) && Covered(root, finished, stack)
  }

  /** One turn of the second loop. */
  method ScrubNext(root: Element, stack: seq<Element>, ghost finished: set<Element>) returns (next: seq<Element>)
    requires stack != [] && Scrubbing(root, stack, finished) && Halfway(root, finished)
    modifies root.repr`attrib
    ensures Scrubbing(root, next, finished + {stack[0]}) && Halfway(root, finished + {stack[0]})
    ensures StackSize(next) < old(StackSize(stack))
  {
    StackNext(root, stack, finished);
    next := stack[0].children + stack[1..];
    assert Scrubbing(root, next, finished + {stack[0]});
    ScrubOne(root, stack[0], finished);
  }

  /** The second loop over root.iter(). */
  method ScrubLoop(root: Element) returns (ghost finished: set<Element>)
    requires root.Shape() && Halfway(root, {})
    modifies root.repr`attrib
    ensures Scrubbing(root, [], finished) && Halfway(root, finished)
  {
    var stack := [root];
    finished := {};
    while stack != []
      invariant Scrubbing(root, stack, finished) && Halfway(root, finished)
      decreases StackSize(stack)
    {
      var next := ScrubNext(root, stack, finished);
      finished := finished + {stack[0]};
      stack := next;
    }
  }

  method ScrubEach(root: Element)
    requires root.Shape() && forall o :: o in root.repr ==> o.attrib == o.view.attrib
    modifies root.repr`attrib
    ensures root.Shape() && root.view == old(root.view) && IsImage(root, Scrub(root.view))
  {
    ghost var finished := ScrubLoop(root);
    FinishedImage(root, finished);
  }

  /** _sanitize_svg: what is left on the heap is the specified tree. */
  method SanitizeSvg(root: Element)
    requires root.Shape() && forall o :: o in root.repr ==> o.attrib == o.view.attrib
    modifies root.repr
    ensures root.Shape() && IsImage(root, Sanitized(old(root.view)))
  {
    RemoveDangerousElements(root);
    ScrubEach(root);
  }

  // ----- what the sanitised tree is -----

  /** Every attribute of the tree may stay, and no element below its root is dangerous. */
  predicate IsSafe(t: Tree) {
    && (forall name :: name in t.attrib ==> KeepsAttr(name, t.attrib[name]))
    && forall c :: c in t.children ==> !Dangerous(c.tag) && IsSafe(c)
  }

  lemma {:induction false} ScrubOfCleanIsSafe(t: Tree)
    requires IsClean(t)
    ensures IsSafe(Scrub(t))
  {
    var kids := ScrubAll(t.children);
    forall c | c in kids ensures !Dangerous(c.tag) && IsSafe(c) {
      var i :| 0 <= i < |kids| && kids[i] == c;
      ScrubOfCleanIsSafe(t.children[i]);
    }
  }

  /** Nothing dangerous is left. */
  lemma SanitizedIsSafe(t: Tree)
    ensures IsSafe(Sanitized(t))
  {
    FilterIsClean(t);
    ScrubOfCleanIsSafe(Filter(t));
  }

  lemma {:induction false} SafeIsClean(t: Tree)
    requires IsSafe(t)
    ensures IsClean(t)
  {
    forall c | c in t.children ensures !Dangerous(c.tag) && IsClean(c) {
      SafeIsClean(c);
    }
  }

  lemma {:induction false} ScrubOfSafe(t: Tree)
    requires IsSafe(t)
    ensures Scrub(t) == t
  {
    assert CleanAttrs(t.attrib) == t.attrib;
    forall i | 0 <= i < |t.children| ensures ScrubAll(t.children)[i] == t.children[i] {
      ScrubOfSafe(t.children[i]);
    }
    assert ScrubAll(t.children) == t.children;
  }

  /** Exactly the safe trees are left alone. */
  lemma UnchangedIffSafe(t: Tree)
    ensures Sanitized(t) == t <==> IsSafe(t)
  {
    SanitizedIsSafe(t);
    if IsSafe(t) {
      SafeIsClean(t);
      FilterOfClean(t);
      ScrubOfSafe(t);
    }
  }

  /** A second pass changes nothing. */
  lemma SanitizingTwice(t: Tree)
    ensures Sanitized(Sanitized(t)) == Sanitized(t)
  {
    SanitizedIsSafe(t);
    UnchangedIffSafe(Sanitized(t));
  }

  // ----- an independent account: one scan over the document order -----

  /** What a reader of the document sees of an element. */
  datatype Opening = Opening(depth: nat, tag: string, text: string, tail: string, attrib: map<string, string>)

  /** The elements in document order, with their depths. */
  function Document(t: Tree, depth: nat): seq<Opening> {
    [Opening(depth, t.tag, t.text, t.tail, t.attrib)] + DocumentAll(t.children, depth + 1)
  }

  function DocumentAll(ts: seq<Tree>, depth: nat): seq<Opening> {
    if ts == [] then [] else DocumentAll(ts[..|ts| - 1], depth) + Document(ts[|ts| - 1], depth)
  }

  /** The scan over a document: everything deeper than the last dangerous element seen is inside it and skipped. The
      depth to stay within is kept in cut; None when nothing is being skipped. */
  function Scan(doc: seq<Opening>): (seq<Opening>, Option<nat>) {
    if doc == [] then ([], None)
    else
      var (kept, cut) := Scan(doc[..|doc| - 1]);
      Step(kept, cut, doc[|doc| - 1])
  }

  function Step(kept: seq<Opening>, cut: Option<nat>, o: Opening): (seq<Opening>, Option<nat>) {
    if cut.Some? && o.depth > cut.value then (kept, cut)
    else if o.depth > 0 && Dangerous(o.tag) then (kept, Some(o.depth))
    else (kept + [o.(attrib := CleanAttrs(o.attrib))], None)
  }

  lemma ScanNext(doc: seq<Opening>, o: Opening)
    ensures Scan(doc + [o]) == Step(Scan(doc).0, Scan(doc).1, o)
  {
    assert (doc + [o])[..|doc|] == doc;
  }

  /** Nothing at this depth is being skipped. */
  predicate Open(cut: Option<nat>, depth: nat) {
    cut.None? || depth <= cut.value
  }

  lemma AppendTwice<T>(a: seq<T>, b: seq<T>, c: seq<T>)
    ensures a + (b + c) == a + b + c
  {
  }

  /** Inside a dangerous element the scan does not move. */
  lemma {:induction false} ScanSkips(doc: seq<Opening>, t: Tree, depth: nat)
    requires Scan(doc).1.Some? && depth > Scan(doc).1.value
    ensures Scan(doc + Document(t, depth)) == Scan(doc)
    decreases t, |t.children|
  {
    ScanNext(doc, Opening(depth, t.tag, t.text, t.tail, t.attrib));
    ScanSkipsAll(doc + [Opening(depth, t.tag, t.text, t.tail, t.attrib)], t.children, depth + 1);
    AppendTwice(doc, [Opening(depth, t.tag, t.text, t.tail, t.attrib)], DocumentAll(t.children, depth + 1));
  }

  lemma {:induction false} ScanSkipsAll(doc: seq<Opening>, ts: seq<Tree>, depth: nat)
    requires Scan(doc).1.Some? && depth > Scan(doc).1.value
    ensures Scan(doc + DocumentAll(ts, depth)) == Scan(doc)
    decreases ts, |ts|
  {
    if ts == [] {
      assert doc + DocumentAll(ts, depth) == doc;
    } else {
      var front := DocumentAll(ts[..|ts| - 1], depth);
      ScanSkipsAll(doc, ts[..|ts| - 1], depth);
      ScanSkips(doc + front, ts[|ts| - 1], depth);
      AppendTwice(doc, front, Document(ts[|ts| - 1], depth));
    }
  }

  /** An element that is kept. */
  lemma ScanHead(doc: seq<Opening>, o: Opening)
    requires Open(Scan(doc).1, o.depth) && (o.depth == 0 || !Dangerous(o.tag))
    ensures Scan(doc + [o]) == (Scan(doc).0 + [o.(attrib := CleanAttrs(o.attrib))], None)
  {
    ScanNext(doc, o);
  }

  lemma SanitizedDocument(t: Tree, depth: nat)
    ensures Document(Sanitized(t), depth)
         == [Opening(depth, t.tag, t.text, t.tail, CleanAttrs(t.attrib))]
            + DocumentAll(ScrubAll(FilterAll(t.children)), depth + 1)
  {
  }

  lemma {:induction false} ScanKeeps(doc: seq<Opening>, t: Tree, depth: nat)
    requires Open(Scan(doc).1, depth) && (depth == 0 || !Dangerous(t.tag))
    ensures Scan(doc + Document(t, depth)).0 == Scan(doc).0 + Document(Sanitized(t), depth)
    ensures Open(Scan(doc + Document(t, depth)).1, depth + 1)
    decreases t, |t.children|
  {
    var o := Opening(depth, t.tag, t.text, t.tail, t.attrib);
    var below := DocumentAll(t.children, depth + 1);
    ScanHead(doc, o);
    ScanKeepsAll(doc + [o], t.children, depth + 1);
    AppendTwice(doc, [o], below);
    assert Document(t, depth) == [o] + below;
    KeptDocument(Scan(doc).0, t, depth);
  }

  lemma KeptDocument(kept: seq<Opening>, t: Tree, depth: nat)
    ensures kept + Document(Sanitized(t), depth)
         == kept + [Opening(depth, t.tag, t.text, t.tail, CleanAttrs(t.attrib))]
            + DocumentAll(ScrubAll(FilterAll(t.children)), depth + 1)
  {
    SanitizedDocument(t, depth);
    AppendTwice(kept, [Opening(depth, t.tag, t.text, t.tail, CleanAttrs(t.attrib))],
                DocumentAll(ScrubAll(FilterAll(t.children)), depth + 1));
  }

  lemma {:induction false} ScanKeepsAll(doc: seq<Opening>, ts: seq<Tree>, depth: nat)
    requires Open(Scan(doc).1, depth) && depth > 0
    ensures Scan(doc + DocumentAll(ts, depth)).0 == Scan(doc).0 + DocumentAll(ScrubAll(FilterAll(ts)), depth)
    ensures Open(Scan(doc + DocumentAll(ts, depth)).1, depth)
    decreases ts, |ts|
  {
    if ts == [] {
      assert doc + DocumentAll(ts, depth) == doc;
    } else {
      var last := ts[|ts| - 1];
      var front := DocumentAll(ts[..|ts| - 1], depth);
      ScanKeepsAll(doc, ts[..|ts| - 1], depth);
      AppendTwice(doc, front, Document(last, depth));
      if Dangerous(last.tag) {
        ScanDrops(doc + front, last, depth);
      } else {
        ScanKeeps(doc + front, last, depth);
        ScrubAllNext(FilterAll(ts[..|ts| - 1]), Filter(last), depth);
        AppendTwice(Scan(doc).0, DocumentAll(ScrubAll(FilterAll(ts[..|ts| - 1])), depth),
                    Document(Sanitized(last), depth));
      }
    }
  }

  lemma ScanDrops(doc: seq<Opening>, t: Tree, depth: nat)
    requires Open(Scan(doc).1, depth) && depth > 0 && Dangerous(t.tag)
    ensures Scan(doc + Document(t, depth)) == (Scan(doc).0, Some(depth))
  {
    var o := Opening(depth, t.tag, t.text, t.tail, t.attrib);
    ScanNext(doc, o);
    ScanSkipsAll(doc + [o], t.children, depth + 1);
    AppendTwice(doc, [o], DocumentAll(t.children, depth + 1));
  }

  lemma ScrubAllNext(ts: seq<Tree>, t: Tree, depth: nat)
    ensures DocumentAll(ScrubAll(ts + [t]), depth) == DocumentAll(ScrubAll(ts), depth) + Document(Scrub(t), depth)
  {
    assert (ts + [t])[..|ts|] == ts;
    assert (ScrubAll(ts) + [Scrub(t)])[..|ts|] == ScrubAll(ts);
  }

  /** The sanitised document is the scan of the document: the kept elements keep their order and their depth, and
      every element that is missing is dangerous or inside one that is. */
  lemma SanitizedInDocumentOrder(t: Tree)
    ensures Document(Sanitized(t), 0) == Scan(Document(t, 0)).0
  {
    ScanKeeps([], t, 0);
    assert [] + Document(t, 0) == Document(t, 0);
    assert [] + Document(Sanitized(t), 0) == Document(Sanitized(t), 0);
  }

  // ----- text that is lost -----

  /** With a dangerous element goes the text after it, up to whatever comes next in its parent. */
  lemma {:induction false} TailGoesToo(front: seq<Tree>, c: Tree, tail: string, back: seq<Tree>)
    requires Dangerous(c.tag)
    ensures FilterAll(front + [c.(tail := tail)] + back) == FilterAll(front + back)
  {
    FilterAllOfSum(front + [c.(tail := tail)], back);
    FilterAllOfSum(front, [c.(tail := tail)]);
    FilterAllOfSum(front, back);
    FilterNone(c.(tail := tail));
  }

  lemma FilterNone(c: Tree)
    requires Dangerous(c.tag)
    ensures FilterAll([c]) == []
  {
    assert [c][..0] == [] && FilterAll([]) == [];
  }

  lemma {:induction false} FilterAllOfSum(a: seq<Tree>, b: seq<Tree>)
    ensures FilterAll(a + b) == FilterAll(a) + FilterAll(b)
    decreases |b|
  {
    if b == [] {
      assert a + b == a;
    } else {
      FilterAllOfSum(a, b[..|b| - 1]);
      assert (a + b)[..|a + b| - 1] == a + b[..|b| - 1];
    }
  }

  // ----- what the first phase costs -----

  /** The calls of _remove_dangerous_elements for a tree without dangerous elements below its root, its own included. */
  function Calls(t: Tree): (n: nat)
    ensures n >= 1
    decreases t, 1
  {
    1 + CallsInside(t)
  }

  /** What the loop calls for: the children of t, and when the iteration goes on into them, whatever is below each. */
  function CallsInside(t: Tree): nat
    decreases t, 0
  {
    CallsAll(t.children) + CallsInsideAll(t.children)
  }

  function CallsAll(ts: seq<Tree>): nat {
    if ts == [] then 0 else CallsAll(ts[..|ts| - 1]) + Calls(ts[|ts| - 1])
  }

  function CallsInsideAll(ts: seq<Tree>): nat {
    if ts == [] then 0 else CallsInsideAll(ts[..|ts| - 1]) + CallsInside(ts[|ts| - 1])
  }

  /** The calls for any tree: the iteration is at the root first and calls for the children that are kept, as they are;
      then it goes on into what is left of them. */
  function CallsMade(t: Tree): nat {
    1 + CallsForKept(t.children) + CallsInsideAll(FilterAll(t.children))
  }

  function CallsForKept(ts: seq<Tree>): nat {
    if ts == [] then 0
    else
      var last := ts[|ts| - 1];
      CallsForKept(ts[..|ts| - 1]) + if Dangerous(last.tag) then 0 else CallsMade(last)
  }

  /** They are the calls for what is left of the tree. */
  lemma {:induction false} CallsMadeAre(t: Tree)
    ensures CallsMade(t) == Calls(Filter(t))
    decreases t, |t.children|
  {
    CallsForKeptAre(t.children);
  }

  lemma {:induction false} CallsForKeptAre(ts: seq<Tree>)
    ensures CallsForKept(ts) == CallsAll(FilterAll(ts))
    decreases ts, |ts|
  {
    if ts == [] {
    } else {
      var front, last := ts[..|ts| - 1], ts[|ts| - 1];
      CallsForKeptAre(front);
      if !Dangerous(last.tag) {
        CallsMadeAre(last);
        CallsAllNext(FilterAll(front), Filter(last));
      }
    }
  }

  lemma CallsAllNext(ts: seq<Tree>, t: Tree)
    ensures CallsAll(ts + [t]) == CallsAll(ts) + Calls(t)
  {
    assert (ts + [t])[..|ts|] == ts;
  }

  /** A child and what is below it, each time it is met. */
  function CallsTwice(ts: seq<Tree>): nat {
    if ts == [] then 0 else CallsTwice(ts[..|ts| - 1]) + 2 * Calls(ts[|ts| - 1]) - 1
  }

  lemma {:induction false} CallsAddUp(ts: seq<Tree>)
    ensures CallsTwice(ts) == CallsAll(ts) + CallsInsideAll(ts)
  {
    if ts == [] {
    } else {
      CallsAddUp(ts[..|ts| - 1]);
    }
  }

  lemma CallsAre(t: Tree)
    ensures Calls(t) == 1 + CallsTwice(t.children)
  {
    CallsAddUp(t.children);
  }

  // ----- the cost, element by element -----

  function PowerOfTwo(n: nat): nat {
    if n == 0 then 1 else 2 * PowerOfTwo(n - 1)
  }

  /** Each element below the root counts twice as much as its parent. */
  function Cost(doc: seq<Opening>): nat {
    if doc == [] then 0
    else
      var o := doc[|doc| - 1];
      Cost(doc[..|doc| - 1]) + if o.depth == 0 then 1 else PowerOfTwo(o.depth - 1)
  }

  lemma {:induction false} CostOfSum(a: seq<Opening>, b: seq<Opening>)
    ensures Cost(a + b) == Cost(a) + Cost(b)
  {
    if b == [] {
      assert a + b == a;
    } else {
      assert (a + b)[..|a + b| - 1] == a + b[..|b| - 1];
      CostOfSum(a, b[..|b| - 1]);
    }
  }

  lemma CostOfOne(o: Opening)
    ensures Cost([o]) == if o.depth == 0 then 1 else PowerOfTwo(o.depth - 1)
  {
    assert Cost([o][..0]) == 0;
  }

  lemma {:induction false} CostOfTree(t: Tree, depth: nat)
    requires depth > 0
    ensures Cost(Document(t, depth)) == Times(2 * Calls(t) - 1, PowerOfTwo(depth - 1))
    decreases t, |t.children|
  {
    CostOfOne(Opening(depth, t.tag, t.text, t.tail, t.attrib));
    CostOfSum([Opening(depth, t.tag, t.text, t.tail, t.attrib)], DocumentAll(t.children, depth + 1));
    CostOfTrees(t.children, depth + 1);
    CallsAre(t);
    DoubleTimes(CallsTwice(t.children), PowerOfTwo(depth - 1));
  }

  lemma {:induction false} CostOfTrees(ts: seq<Tree>, depth: nat)
    requires depth > 0
    ensures Cost(DocumentAll(ts, depth)) == Times(CallsTwice(ts), PowerOfTwo(depth - 1))
    decreases ts, |ts|
  {
    if ts == [] {
    } else {
      var front, last := ts[..|ts| - 1], ts[|ts| - 1];
      CostOfSum(DocumentAll(front, depth), Document(last, depth));
      CostOfTrees(front, depth);
      CostOfTree(last, depth);
      TimesAdd(CallsTwice(front), 2 * Calls(last) - 1, PowerOfTwo(depth - 1));
    }
  }

  lemma {:induction false} TimesAdd(m: nat, n: nat, x: int)
    ensures Times(m + n, x) == Times(m, x) + Times(n, x)
  {
    if n == 0 {
    } else {
      TimesAdd(m, n - 1, x);
    }
  }

  lemma {:induction false} DoubleTimes(n: nat, x: int)
    ensures Times(n, 2 * x) + x == Times(2 * (1 + n) - 1, x)
  {
    if n == 0 {
      assert Times(1, x) == Times(0, x) + x;
    } else {
      DoubleTimes(n - 1, x);
      assert Times(2 * n + 1, x) == Times(2 * n, x) + x == Times(2 * n - 1, x) + x + x;
    }
  }

  lemma CallsCost(t: Tree)
    ensures Calls(t) == Cost(Document(t, 0))
  {
    CostOfOne(Opening(0, t.tag, t.text, t.tail, t.attrib));
    CostOfSum([Opening(0, t.tag, t.text, t.tail, t.attrib)], DocumentAll(t.children, 1));
    CostOfTrees(t.children, 1);
    CallsAre(t);
    TimesIsProduct(CallsTwice(t.children), 1);
  }

  /** The cost in the order of the document: one call for the root, and for an element that is left d levels below it
      two to the power of d - 1. */
  lemma CallsByDepth(t: Tree)
    ensures CallsMade(t) == Cost(Document(Filter(t), 0))
  {
    CallsMadeAre(t);
    CallsCost(Filter(t));
  }

  /** Elements each the only child of the one before it, so many below the root, and none of them dangerous. */
  predicate IsChain(t: Tree, n: nat) {
    if n == 0 then t.children == []
    else |t.children| == 1 && !Dangerous(t.children[0].tag) && IsChain(t.children[0], n - 1)
  }

  lemma FilterOne(t: Tree)
    requires !Dangerous(t.tag)
    ensures FilterAll([t]) == [Filter(t)]
  {
    assert [t][..0] == [] && FilterAll([]) == [];
  }

  lemma CallsTwiceOne(t: Tree)
    ensures CallsTwice([t]) == 2 * Calls(t) - 1
  {
    assert [t][..0] == [] && CallsTwice([]) == 0;
  }

  lemma SizeOne(t: Tree)
    ensures SizeAll([t]) == Size(t)
  {
    assert [t][..0] == [] && SizeAll([]) == 0;
  }

  lemma CostOfLeaf(t: Tree)
    requires t.children == []
    ensures CallsMade(t) == 1 && Size(t) == 1
  {
    CallsMadeAre(t);
    CallsAre(Filter(t));
    assert FilterAll([]) == [] && CallsTwice([]) == 0 && SizeAll([]) == 0;
  }

  lemma CostOfOnlyChild(t: Tree, child: Tree)
    requires t.children == [child] && !Dangerous(child.tag)
    ensures CallsMade(t) == 2 * CallsMade(child) && Size(t) == 1 + Size(child)
  {
    FilterOne(child);
    CallsMadeAre(t);
    CallsMadeAre(child);
    CallsAre(Filter(t));
    CallsTwiceOne(Filter(child));
    SizeOne(child);
  }

  /** So for nested elements the number of calls doubles with each: the work is exponential in the depth. */
  lemma {:induction false} ChainDoubles(t: Tree, n: nat)
    requires IsChain(t, n)
    ensures CallsMade(t) == PowerOfTwo(n) && Size(t) == n + 1
    decreases n
  {
    if n == 0 {
      CostOfLeaf(t);
    } else {
      var child := t.children[0];
      assert t.children == [child];
      ChainDoubles(child, n - 1);
      CostOfOnlyChild(t, child);
    }
  }
}
