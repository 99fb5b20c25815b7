/** An abstract parsed document: a tree of elements (tag, class list, attributes) and text
    nodes, with the three selector forms the extraction code uses and the DOM queries it calls.
    Document order is pre-order: an element comes before its descendants, which come before
    its following siblings. */
module Dom {
  import opened Wrappers

  datatype Node =
    | Element(tag: string, classes: seq<string>, attributes: map<string, string>, children: seq<Node>)
    | TextNode(text: string)

  /** A simple CSS selector: `tag`, `.class` or `[name="value"]`. */
  datatype Selector = Tag(name: string) | Class(name: string) | AttrEquals(attr: string, value: string)

  predicate Matches(n: Node, s: Selector)
  {
    n.Element? &&
    match s
    case Tag(t) => n.tag == t
    case Class(c) => c in n.classes
    case AttrEquals(a, v) => a in n.attributes && n.attributes[a] == v
  }

  /** A selector group `a, b, c` matches an element that any member matches. */
  predicate MatchesAny(n: Node, group: seq<Selector>)
  {
    exists i :: 0 <= i < |group| && Matches(n, group[i])
  }

  /** The element's tag, classes and attributes: everything a selector can look at. */
  predicate SameLabel(a: Node, b: Node)
  {
    a.Element? && b.Element? && a.tag == b.tag && a.classes == b.classes && a.attributes == b.attributes
  }

  lemma SameLabelMatches(a: Node, b: Node, group: seq<Selector>)
    requires SameLabel(a, b)
    ensures MatchesAny(a, group) <==> MatchesAny(b, group)
  {
    if MatchesAny(a, group) {
      var i :| 0 <= i < |group| && Matches(a, group[i]);
      assert Matches(b, group[i]);
    }
    if MatchesAny(b, group) {
      var i :| 0 <= i < |group| && Matches(b, group[i]);
      assert Matches(a, group[i]);
    }
  }

  // ---------------------------------------------------------------- text

  /** `textContent` of a forest: the text of every text node, in document order. */
  function ConcatText(ns: seq<Node>): string
    decreases ns
  {
    if |ns| == 0 then ""
    else
      var head := match ns[0]
        case TextNode(t) => t
        case Element(_, _, _, cs) => ConcatText(cs);
      head + ConcatText(ns[1..])
  }

  /** `node.textContent`. */
  function TextContent(n: Node): string
  {
    match n
    case TextNode(t) => t
    case Element(_, _, _, cs) => ConcatText(cs)
  }

  // ---------------------------------------------------------------- queries

  /** The elements of a forest in document order. */
  function Preorder(ns: seq<Node>): (r: seq<Node>)
    ensures forall i :: 0 <= i < |r| ==> r[i].Element?
    decreases ns
  {
    if |ns| == 0 then []
    else
      var head := if ns[0].Element? then [ns[0]] + Preorder(ns[0].children) else [];
      head + Preorder(ns[1..])
  }

  /** The members of `ns` that `group` matches, in order. */
  function Filter(ns: seq<Node>, group: seq<Selector>): (r: seq<Node>)
    ensures |r| <= |ns|
    ensures forall i :: 0 <= i < |r| ==> MatchesAny(r[i], group) && r[i] in ns
  {
    if |ns| == 0 then []
    else (if MatchesAny(ns[0], group) then [ns[0]] else []) + Filter(ns[1..], group)
  }

  /** `querySelectorAll(group)` over a forest: every matching element, in document order. */
  function QueryAll(ns: seq<Node>, group: seq<Selector>): seq<Node>
  {
    Filter(Preorder(ns), group)
  }

  /** `querySelector(group)` over a forest: the first matching element in document order,
      found by a depth-first walk that stops at the first match. */
  function First(ns: seq<Node>, group: seq<Selector>): (r: Option<Node>)
    ensures r.Some? ==> MatchesAny(r.value, group)
    decreases ns
  {
    if |ns| == 0 then None
    else if MatchesAny(ns[0], group) then Some(ns[0])
    else
      var inner := if ns[0].Element? then First(ns[0].children, group) else None;
      if inner.Some? then inner else First(ns[1..], group)
  }

  /** `element.querySelector(group)`: only descendants are searched, not the element itself. */
  function Within(n: Node, group: seq<Selector>): Option<Node>
  {
    if n.Element? then First(n.children, group) else None
  }

  function HeadOf(ns: seq<Node>): Option<Node>
  {
    if |ns| == 0 then None else Some(ns[0])
  }

  lemma {:induction false} FilterAppend(a: seq<Node>, b: seq<Node>, group: seq<Selector>)
    ensures Filter(a + b, group) == Filter(a, group) + Filter(b, group)
  {
    if |a| > 0 {
      var head := if MatchesAny(a[0], group) then [a[0]] else [];
      assert (a + b)[0] == a[0] && (a + b)[1..] == a[1..] + b;
      FilterAppend(a[1..], b, group);
      assert Filter(a + b, group) == head + Filter(a[1..] + b, group);
      assert Filter(a, group) == head + Filter(a[1..], group);
    } else {
      assert a + b == b;
    }
  }

  /** The depth-first walk and the document-order listing agree: `querySelector` returns the
      first element `querySelectorAll` would list, and nothing when that list is empty. */
  lemma {:induction false} FirstIsHeadOfQueryAll(ns: seq<Node>, group: seq<Selector>)
    ensures First(ns, group) == HeadOf(QueryAll(ns, group))
    decreases ns
  {
    if |ns| > 0 {
      var n := ns[0];
      var head := if n.Element? then [n] + Preorder(n.children) else [];
      assert Preorder(ns) == head + Preorder(ns[1..]);
      FilterAppend(head, Preorder(ns[1..]), group);
      FirstIsHeadOfQueryAll(ns[1..], group);
      if n.Element? {
        FirstIsHeadOfQueryAll(n.children, group);
        FilterAppend([n], Preorder(n.children), group);
      }
    }
  }

  // ---------------------------------------------------------------- mutation

  /** Every element of `ns` (at any depth) that `noise` matches is removed together with its
      subtree — the effect of `querySelectorAll(noise).forEach(el => el.remove())`. */
  function Prune(ns: seq<Node>, noise: seq<Selector>): (r: seq<Node>)
    ensures First(r, noise) == None
    decreases ns
  {
    if |ns| == 0 then []
    else
      var rest := Prune(ns[1..], noise);
      if MatchesAny(ns[0], noise) then rest
      else
        var kept := if ns[0].Element? then ns[0].(children := Prune(ns[0].children, noise)) else ns[0];
        assert ([kept] + rest)[1..] == rest;
        [kept] + rest
  }

  /** Removing noise from a forest that holds none changes nothing. */
  lemma {:induction false} PruneClean(ns: seq<Node>, noise: seq<Selector>)
    requires First(ns, noise) == None
    ensures Prune(ns, noise) == ns
    decreases ns
  {
    if |ns| > 0 {
      PruneClean(ns[1..], noise);
      if ns[0].Element? {
        PruneClean(ns[0].children, noise);
      }
      assert [ns[0]] + ns[1..] == ns;
    }
  }

  /** Removing noise twice removes nothing more. */
  lemma PruneIdempotent(ns: seq<Node>, noise: seq<Selector>)
    ensures Prune(Prune(ns, noise), noise) == Prune(ns, noise)
  {
    PruneClean(Prune(ns, noise), noise);
  }

  /** The text of a forest that lies outside every element `noise` matches, read off the
      unedited tree: what `textContent` should return once the noise is removed. */
  function OutsideText(ns: seq<Node>, noise: seq<Selector>): string
    decreases ns
  {
    if |ns| == 0 then ""
    else
      var head := match ns[0]
        case TextNode(t) => t
        case Element(_, _, _, cs) => if MatchesAny(ns[0], noise) then "" else OutsideText(cs, noise);
      head + OutsideText(ns[1..], noise)
  }

  /** Pruning keeps exactly the text outside the noise, in order. */
  lemma {:induction false} PruneKeepsOutsideText(ns: seq<Node>, noise: seq<Selector>)
    ensures ConcatText(Prune(ns, noise)) == OutsideText(ns, noise)
    decreases ns
  {
    if |ns| > 0 {
      PruneKeepsOutsideText(ns[1..], noise);
      var rest := Prune(ns[1..], noise);
      if !MatchesAny(ns[0], noise) {
        var kept := if ns[0].Element? then ns[0].(children := Prune(ns[0].children, noise)) else ns[0];
        if ns[0].Element? {
          PruneKeepsOutsideText(ns[0].children, noise);
        }
        assert ([kept] + rest)[0] == kept && ([kept] + rest)[1..] == rest;
      }
    }
  }

  /** With no noise selector nothing is outside the noise but everything: the reference agrees
      with `textContent`. */
  lemma {:induction false} OutsideNothing(ns: seq<Node>)
    ensures OutsideText(ns, []) == ConcatText(ns)
    decreases ns
  {
    if |ns| > 0 {
      OutsideNothing(ns[1..]);
      if ns[0].Element? {
        OutsideNothing(ns[0].children);
      }
    }
  }

  /** What a selector can see of an element. */
  datatype Label = Label(tag: string, classes: seq<string>, attributes: map<string, string>)

  /** The labels of every element of a forest, in document order. */
  function Labels(ns: seq<Node>): seq<Label>
    decreases ns
  {
    if |ns| == 0 then []
    else
      var head := match ns[0]
        case TextNode(_) => []
        case Element(t, c, a, cs) => [Label(t, c, a)] + Labels(cs);
      head + Labels(ns[1..])
  }

  /** The labels of the elements that lie outside every element `noise` matches, read off the
      unedited tree. */
  function OutsideLabels(ns: seq<Node>, noise: seq<Selector>): seq<Label>
    decreases ns
  {
    if |ns| == 0 then []
    else
      var head := match ns[0]
        case TextNode(_) => []
        case Element(t, c, a, cs) => if MatchesAny(ns[0], noise) then [] else [Label(t, c, a)] + OutsideLabels(cs, noise);
      head + OutsideLabels(ns[1..], noise)
  }

  /** Pruning keeps exactly the elements outside the noise, with their labels, in order. */
  lemma {:induction false} PruneKeepsOutsideLabels(ns: seq<Node>, noise: seq<Selector>)
    ensures Labels(Prune(ns, noise)) == OutsideLabels(ns, noise)
    decreases ns
  {
    if |ns| > 0 {
      PruneKeepsOutsideLabels(ns[1..], noise);
      var rest := Prune(ns[1..], noise);
      if !MatchesAny(ns[0], noise) {
        var kept := if ns[0].Element? then ns[0].(children := Prune(ns[0].children, noise)) else ns[0];
        if ns[0].Element? {
          PruneKeepsOutsideLabels(ns[0].children, noise);
        }
        assert ([kept] + rest)[0] == kept && ([kept] + rest)[1..] == rest;
      }
    }
  }

  // ---------------------------------------------------------------- positions

  /** A position in a forest: the index of a root, then of a child, and so on. */
  predicate ValidPath(ns: seq<Node>, path: seq<nat>)
    decreases |path|
  {
    && |path| > 0 && path[0] < |ns|
    && (|path| > 1 ==> ns[path[0]].Element? && ValidPath(ns[path[0]].children, path[1..]))
  }

  function NodeAt(ns: seq<Node>, path: seq<nat>): Node
    requires ValidPath(ns, path)
    decreases |path|
  {
    if |path| == 1 then ns[path[0]] else NodeAt(ns[path[0]].children, path[1..])
  }

  /** The forest with the node at `path` replaced by `x`. */
  function ReplaceAt(ns: seq<Node>, path: seq<nat>, x: Node): (r: seq<Node>)
    requires ValidPath(ns, path)
    ensures |r| == |ns|
    decreases |path|
  {
    var i := path[0];
    var node := if |path| == 1 then x else ns[i].(children := ReplaceAt(ns[i].children, path[1..], x));
    ns[..i] + [node] + ns[i + 1..]
  }

  /** The replacement touches nothing off the path: every other root is kept, and the root on
      the path (when `x` lies deeper) keeps its label and its number of children. */
  lemma ReplaceAtKeepsOthers(ns: seq<Node>, path: seq<nat>, x: Node)
    requires ValidPath(ns, path)
    ensures var r := ReplaceAt(ns, path, x);
      && (forall j :: 0 <= j < |ns| && j != path[0] ==> r[j] == ns[j])
      && (|path| > 1 ==> SameLabel(r[path[0]], ns[path[0]]) && |r[path[0]].children| == |ns[path[0]].children|)
  {
  }

  /** After the replacement the path still leads somewhere, and to `x`. */
  lemma {:induction false} ReplaceAtPlaces(ns: seq<Node>, path: seq<nat>, x: Node)
    requires ValidPath(ns, path)
    ensures ValidPath(ReplaceAt(ns, path, x), path)
    ensures NodeAt(ReplaceAt(ns, path, x), path) == x
    decreases |path|
  {
    var i := path[0];
    var r := ReplaceAt(ns, path, x);
    if |path| > 1 {
      var inner := ReplaceAt(ns[i].children, path[1..], x);
      ReplaceAtPlaces(ns[i].children, path[1..], x);
      assert r[i] == ns[i].(children := inner);
    } else {
      assert r[i] == x;
    }
  }

  /** A path into the first root's children, seen from the forest. */
  lemma ChildPath(ns: seq<Node>, q: seq<nat>, x: Node)
    requires |ns| > 0 && ns[0].Element? && ValidPath(ns[0].children, q)
    ensures ValidPath(ns, [0] + q)
    ensures NodeAt(ns, [0] + q) == NodeAt(ns[0].children, q)
    ensures ReplaceAt(ns, [0] + q, x) == [ns[0].(children := ReplaceAt(ns[0].children, q, x))] + ns[1..]
  {
    assert ([0] + q)[1..] == q;
  }

  /** A path into the later roots, seen from the whole forest. */
  lemma ShiftPath(ns: seq<Node>, q: seq<nat>, x: Node)
    requires |ns| > 0 && ValidPath(ns[1..], q)
    ensures ValidPath(ns, [q[0] + 1] + q[1..])
    ensures NodeAt(ns, [q[0] + 1] + q[1..]) == NodeAt(ns[1..], q)
    ensures ReplaceAt(ns, [q[0] + 1] + q[1..], x) == [ns[0]] + ReplaceAt(ns[1..], q, x)
  {
    var p := [q[0] + 1] + q[1..];
    var i := q[0] + 1;
    assert p[0] == i && p[1..] == q[1..];
    assert ns[i] == ns[1..][q[0]];
    ShiftReplace(ns, q, x);
  }

  lemma ShiftReplace(ns: seq<Node>, q: seq<nat>, x: Node)
    requires |ns| > 0 && ValidPath(ns[1..], q)
    requires ValidPath(ns, [q[0] + 1] + q[1..])
    ensures ReplaceAt(ns, [q[0] + 1] + q[1..], x) == [ns[0]] + ReplaceAt(ns[1..], q, x)
  {
    var p := [q[0] + 1] + q[1..];
    var i := q[0] + 1;
    var t := ns[1..];
    assert p[0] == i && p[1..] == q[1..];
    assert ns[i] == t[q[0]];
    var node := if |q| == 1 then x else t[q[0]].(children := ReplaceAt(t[q[0]].children, q[1..], x));
    assert ReplaceAt(ns, p, x) == ns[..i] + [node] + ns[i + 1..];
    assert ReplaceAt(t, q, x) == t[..q[0]] + [node] + t[q[0] + 1..];
    assert ns[..i] == [ns[0]] + t[..q[0]];
    assert ns[i + 1..] == t[q[0] + 1..];
  }

  /** Where `querySelector(group)` finds its element: the path of `First`. */
  function FirstPath(ns: seq<Node>, group: seq<Selector>): (r: Option<seq<nat>>)
    ensures r.Some? <==> First(ns, group).Some?
    ensures r.Some? ==> ValidPath(ns, r.value) && NodeAt(ns, r.value) == First(ns, group).value
    decreases ns
  {
    if |ns| == 0 then None
    else if MatchesAny(ns[0], group) then Some([0])
    else
      var inner := if ns[0].Element? then FirstPath(ns[0].children, group) else None;
      if inner.Some? then
        ChildPath(ns, inner.value, ns[0]);
        Some([0] + inner.value)
      else
        match FirstPath(ns[1..], group)
        case None => None
        case Some(q) =>
          ShiftPath(ns, q, ns[0]);
          Some([q[0] + 1] + q[1..])
  }

  /** The forest with the first element (in document order) that `s` matches replaced by
      `f` of it, and whether there was one: an in-place edit of the node `querySelector`
      returns. */
  function ReplaceFirst(ns: seq<Node>, s: Selector, f: Node -> Node): (r: (seq<Node>, bool))
    decreases ns
  {
    if |ns| == 0 then ([], false)
    else if MatchesAny(ns[0], [s]) then ([f(ns[0])] + ns[1..], true)
    else
      var inner := if ns[0].Element? then ReplaceFirst(ns[0].children, s, f) else ([], false);
      if inner.1 then ([ns[0].(children := inner.0)] + ns[1..], true)
      else
        var tail := ReplaceFirst(ns[1..], s, f);
        ([ns[0]] + tail.0, tail.1)
  }

  /** `ReplaceFirst` edits exactly the node `querySelector` finds: with no match the forest is
      unchanged, and otherwise — when the edit keeps the node's label — a fresh query finds
      the edited node in its place. */
  lemma {:induction false} ReplaceFirstFindsEdited(ns: seq<Node>, s: Selector, f: Node -> Node)
    requires forall n: Node :: n.Element? ==> SameLabel(n, f(n))
    ensures ReplaceFirst(ns, s, f).1 <==> First(ns, [s]).Some?
    ensures First(ns, [s]).None? ==> ReplaceFirst(ns, s, f).0 == ns
    ensures First(ns, [s]).Some? ==> First(ReplaceFirst(ns, s, f).0, [s]) == Some(f(First(ns, [s]).value))
    decreases ns
  {
    if |ns| > 0 {
      var n := ns[0];
      if MatchesAny(n, [s]) {
        SameLabelMatches(n, f(n), [s]);
        assert ([f(n)] + ns[1..])[0] == f(n);
      } else {
        ReplaceFirstFindsEdited(ns[1..], s, f);
        if n.Element? {
          ReplaceFirstFindsEdited(n.children, s, f);
          var inner := ReplaceFirst(n.children, s, f);
          if inner.1 {
            var n' := n.(children := inner.0);
            assert SameLabel(n, n');
            SameLabelMatches(n, n', [s]);
            assert ([n'] + ns[1..])[0] == n';
          } else {
            var tail := ReplaceFirst(ns[1..], s, f);
            assert ([n] + tail.0)[0] == n && ([n] + tail.0)[1..] == tail.0;
            assert [n] + ns[1..] == ns;
          }
        } else {
          var tail := ReplaceFirst(ns[1..], s, f);
          assert ([n] + tail.0)[0] == n && ([n] + tail.0)[1..] == tail.0;
          assert [n] + ns[1..] == ns;
        }
      }
    }
  }

  /** `ReplaceFirst` is a local edit: when `querySelector` finds an element, the result is the
      forest with the node at that element's position replaced by `f` of it and nothing else
      changed; with no match nothing changes at all. */
  lemma {:induction false} ReplaceFirstIsLocal(ns: seq<Node>, s: Selector, f: Node -> Node)
    ensures ReplaceFirst(ns, s, f).1 <==> FirstPath(ns, [s]).Some?
    ensures FirstPath(ns, [s]).None? ==> ReplaceFirst(ns, s, f).0 == ns
    ensures FirstPath(ns, [s]).Some? ==>
      var p := FirstPath(ns, [s]).value;
      ReplaceFirst(ns, s, f).0 == ReplaceAt(ns, p, f(NodeAt(ns, p)))
    decreases ns
  {
    if |ns| > 0 {
      var n := ns[0];
      if MatchesAny(n, [s]) {
        assert ns[..0] + [f(n)] + ns[1..] == [f(n)] + ns[1..];
      } else {
        ReplaceFirstIsLocal(ns[1..], s, f);
        var inner := if n.Element? then FirstPath(n.children, [s]) else None;
        if n.Element? {
          ReplaceFirstIsLocal(n.children, s, f);
        }
        if inner.Some? {
          var q := inner.value;
          assert FirstPath(ns, [s]) == Some([0] + q);
          assert ReplaceFirst(ns, s, f).0 == [n.(children := ReplaceFirst(n.children, s, f).0)] + ns[1..];
          ChildPath(ns, q, f(NodeAt(n.children, q)));
        } else {
          var tail := ReplaceFirst(ns[1..], s, f);
          assert ReplaceFirst(ns, s, f) == ([n] + tail.0, tail.1);
          match FirstPath(ns[1..], [s])
          case None =>
            assert [n] + ns[1..] == ns;
          case Some(q) =>
            assert FirstPath(ns, [s]) == Some([q[0] + 1] + q[1..]);
            ShiftPath(ns, q, f(NodeAt(ns[1..], q)));
        }
      }
    }
  }
}
