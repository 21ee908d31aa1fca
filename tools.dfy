/**
 * The component-tree helpers of circuits/tools/__init__.py: `walk`, a
 * depth-annotated depth-first traversal that shares one visited set across
 * its recursive calls; `edges`, the (parent name, child name) pairs along
 * which that traversal first reaches each component; `root`, which follows
 * `manager` links to a component that manages itself; `graph`, which renders
 * the traversal as indented lines; and `reprhandler`.
 *
 * A component tree is a finite graph: each component has the list of its
 * child components (the order in which a snapshot of its `components` set is
 * iterated), its manager, its `name` and its text (`str(component)`).
 */
module Tools {
  import opened Results
  import opened Strings

  /** A component, known by an identity token. */
  type Node = nat

  datatype Graph = Graph(
    children: map<Node, seq<Node>>,
    manager: map<Node, Node>,
    name: Node -> string,
    text: Node -> string)

  /** Every child and every manager is itself a component of the graph. */
  predicate Wf(g: Graph)
  {
    (forall x, k | x in g.children && 0 <= k < |g.children[x]| :: g.children[x][k] in g.children) &&
    g.manager.Keys == g.children.Keys &&
    ManagerClosed(g)
  }

  /** Every manager is itself a component with a manager. */
  predicate ManagerClosed(g: Graph)
  {
    forall x | x in g.manager :: g.manager[x] in g.manager
  }

  /** A child reached during the traversal: its depth, itself, and the component it was reached from. */
  datatype Visit = Visit(depth: nat, node: Node, parent: Node)

  function NodesOf(vs: seq<Visit>): set<Node>
  {
    set i | 0 <= i < |vs| :: vs[i].node
  }

  /** No component is reported twice. */
  predicate Distinct(vs: seq<Visit>)
  {
    forall i, j :: 0 <= i < j < |vs| ==> vs[i].node != vs[j].node
  }

  lemma NodesOfAppend(a: seq<Visit>, b: seq<Visit>)
    ensures NodesOf(a + b) == NodesOf(a) + NodesOf(b)
  {
    forall n | n in NodesOf(a + b) ensures n in NodesOf(a) + NodesOf(b) {
      var i :| 0 <= i < |a + b| && (a + b)[i].node == n;
      if i < |a| { assert a[i].node == n; } else { assert b[i - |a|].node == n; }
    }
    forall n | n in NodesOf(a) ensures n in NodesOf(a + b) {
      var i :| 0 <= i < |a| && a[i].node == n;
      assert (a + b)[i].node == n;
    }
    forall n | n in NodesOf(b) ensures n in NodesOf(a + b) {
      var i :| 0 <= i < |b| && b[i].node == n;
      assert (a + b)[|a| + i].node == n;
    }
  }

  /**
   * `vs` reports each component at most once, only components outside `v`,
   * and each one below the component it was reached from.
   */
  predicate Fresh(g: Graph, vs: seq<Visit>, v: set<Node>)
  {
    Distinct(vs) &&
    forall i :: 0 <= i < |vs| ==>
      vs[i].node !in v && vs[i].parent in g.children && vs[i].node in g.children[vs[i].parent]
  }

  /** One step of the traversal: a fresh child, what was walked below it, then its later siblings. */
  lemma FreshGlue(g: Graph, v: set<Node>, h: Visit, below: seq<Visit>, v1: set<Node>, after: seq<Visit>)
    requires h.node !in v && h.parent in g.children && h.node in g.children[h.parent]
    requires Fresh(g, below, v + {h.node}) && v1 == v + {h.node} + NodesOf(below)
    requires Fresh(g, after, v1)
    ensures Fresh(g, [h] + below + after, v)
  {
    var r := [h] + below + after;
    forall i, j | 0 <= i < j < |r| ensures r[i].node != r[j].node {
      if i == 0 {
        if j <= |below| { assert r[j] == below[j - 1]; } else { assert r[j] == after[j - 1 - |below|]; }
      } else if i <= |below| {
        assert r[i] == below[i - 1];
        if j > |below| {
          assert r[j] == after[j - 1 - |below|];
          assert r[i].node in NodesOf(below);
        }
      }
    }
  }

  /**
   * The children walked below `x`, which is reported at depth `d`, given the
   * visited set `v`; and the visited set afterwards, which only grows.
   */
  function Descend(g: Graph, x: Node, d: nat, v: set<Node>): (r: (seq<Visit>, set<Node>))
    requires Wf(g) && x in g.children
    ensures v <= r.1
    decreases g.children.Keys - v, 1, 0
  {
    DescendAll(g, x, g.children[x], d + 1, v)
  }

  /** The loop of walk over the children snapshot `cs` of `p`, reporting them at depth `d`. */
  function DescendAll(g: Graph, p: Node, cs: seq<Node>, d: nat, v: set<Node>): (r: (seq<Visit>, set<Node>))
    requires Wf(g) && p in g.children
    requires forall k :: 0 <= k < |cs| ==> cs[k] in g.children[p]
    ensures v <= r.1
    decreases g.children.Keys - v, 0, |cs|
  {
    if cs == [] then ([], v)
    else if cs[0] in v then DescendAll(g, p, cs[1..], d, v)
    else
      var c := cs[0];
      assert c in g.children by {
        var k :| 0 <= k < |g.children[p]| && g.children[p][k] == c;
      }
      var (below, v1) := Descend(g, c, d, v + {c});
      var (after, v2) := DescendAll(g, p, cs[1..], d, v1);
      ([Visit(d, c, p)] + below + after, v2)
  }

  /** A child already visited is skipped. */
  lemma DescendAllSkip(g: Graph, p: Node, cs: seq<Node>, d: nat, v: set<Node>)
    requires Wf(g) && p in g.children
    requires forall k :: 0 <= k < |cs| ==> cs[k] in g.children[p]
    requires cs != [] && cs[0] in v
    ensures DescendAll(g, p, cs, d, v) == DescendAll(g, p, cs[1..], d, v)
  {
  }

  /** A child not yet visited is reported, walked below, and then its later siblings are walked. */
  lemma DescendAllTake(g: Graph, p: Node, cs: seq<Node>, d: nat, v: set<Node>)
    requires Wf(g) && p in g.children
    requires forall k :: 0 <= k < |cs| ==> cs[k] in g.children[p]
    requires cs != [] && cs[0] !in v
    ensures cs[0] in g.children
    ensures var below := Descend(g, cs[0], d, v + {cs[0]});
      var after := DescendAll(g, p, cs[1..], d, below.1);
      DescendAll(g, p, cs, d, v) == ([Visit(d, cs[0], p)] + below.0 + after.0, after.1)
  {
    assert cs[0] in g.children by {
      var k :| 0 <= k < |g.children[p]| && g.children[p][k] == cs[0];
    }
  }

  /**
   * Within one walk every component is descended into at most once: each
   * child is reported once, only if it was not yet visited, and below the
   * component it hangs from; the visited set grows by exactly the reported
   * children.
   */
  lemma {:induction false} DescendFresh(g: Graph, x: Node, d: nat, v: set<Node>)
    requires Wf(g) && x in g.children
    ensures Descend(g, x, d, v).1 == v + NodesOf(Descend(g, x, d, v).0)
    ensures Fresh(g, Descend(g, x, d, v).0, v)
    decreases g.children.Keys - v, 1, 0
  {
    DescendAllFresh(g, x, g.children[x], d + 1, v);
  }

  lemma {:induction false} DescendAllFresh(g: Graph, p: Node, cs: seq<Node>, d: nat, v: set<Node>)
    requires Wf(g) && p in g.children
    requires forall k :: 0 <= k < |cs| ==> cs[k] in g.children[p]
    ensures DescendAll(g, p, cs, d, v).1 == v + NodesOf(DescendAll(g, p, cs, d, v).0)
    ensures Fresh(g, DescendAll(g, p, cs, d, v).0, v)
    decreases g.children.Keys - v, 0, |cs|
  {
    if cs == [] {
    } else if cs[0] in v {
      DescendAllSkip(g, p, cs, d, v);
      DescendAllFresh(g, p, cs[1..], d, v);
    } else {
      var c := cs[0];
      DescendAllTake(g, p, cs, d, v);
      var (below, v1) := Descend(g, c, d, v + {c});
      var (after, v2) := DescendAll(g, p, cs[1..], d, v1);
      DescendFresh(g, c, d, v + {c});
      DescendAllFresh(g, p, cs[1..], d, v1);
      FreshGlue(g, v, Visit(d, c, p), below, v1, after);
      NodesOfAppend([Visit(d, c, p)] + below, after);
      NodesOfAppend([Visit(d, c, p)], below);
      assert NodesOf([Visit(d, c, p)]) == {c} by {
        assert [Visit(d, c, p)][0].node == c;
      }
      assert v2 == v + ({c} + NodesOf(below) + NodesOf(after));
    }
  }

  /* ---------------------------------------------------------------- depths */

  /** Visit `i` of `vs` is reached from `p` at depth `d`, or one level below an earlier visit. */
  predicate LayeredAt(vs: seq<Visit>, i: nat, p: Node, d: nat)
    requires i < |vs|
  {
    vs[i].depth >= d &&
    ((vs[i].parent == p && vs[i].depth == d) ||
     exists j :: 0 <= j < i && vs[j].node == vs[i].parent && vs[j].depth + 1 == vs[i].depth)
  }

  /**
   * Each visit in `vs` is at depth at least `d`; it is either reached from
   * `p` at depth `d`, or from a component reported earlier, one level deeper.
   */
  predicate Layered(vs: seq<Visit>, p: Node, d: nat)
  {
    forall i :: 0 <= i < |vs| ==> LayeredAt(vs, i, p, d)
  }

  lemma LayeredShiftBelow(h: Visit, below: seq<Visit>, r: seq<Visit>, k: nat, d: nat)
    requires h.depth == d && k < |below| && |r| > |below| && r[0] == h && r[1..|below| + 1] == below
    requires LayeredAt(below, k, h.node, d + 1)
    ensures LayeredAt(r, k + 1, h.parent, d)
  {
    assert r[k + 1] == below[k];
    if !(below[k].parent == h.node && below[k].depth == d + 1) {
      var j :| 0 <= j < k && below[j].node == below[k].parent && below[j].depth + 1 == below[k].depth;
      assert r[j + 1] == below[j];
    }
  }

  lemma LayeredShiftAfter(front: seq<Visit>, after: seq<Visit>, k: nat, p: Node, d: nat)
    requires k < |after|
    requires LayeredAt(after, k, p, d)
    ensures LayeredAt(front + after, |front| + k, p, d)
  {
    var r := front + after;
    assert r[|front| + k] == after[k];
    if !(after[k].parent == p && after[k].depth == d) {
      var j :| 0 <= j < k && after[j].node == after[k].parent && after[j].depth + 1 == after[k].depth;
      assert r[|front| + j] == after[j];
    }
  }

  lemma LayeredGlue(h: Visit, below: seq<Visit>, after: seq<Visit>, p: Node, d: nat)
    requires h.parent == p && h.depth == d
    requires Layered(below, h.node, d + 1) && Layered(after, p, d)
    ensures Layered([h] + below + after, p, d)
  {
    var front := [h] + below;
    var r := front + after;
    assert r[0] == h;
    assert r[1..|below| + 1] == below;
    forall i | 0 <= i < |r| ensures LayeredAt(r, i, p, d) {
      if 1 <= i <= |below| {
        LayeredShiftBelow(h, below, r, i - 1, d);
      } else if i > |below| {
        LayeredShiftAfter(front, after, i - |front|, p, d);
      }
    }
  }

  /**
   * A child of `x` is reported one level below `x`, and every deeper
   * component one level below the component it was reached from, which the
   * traversal reported earlier.
   */
  lemma {:induction false} DescendDepths(g: Graph, x: Node, d: nat, v: set<Node>)
    requires Wf(g) && x in g.children
    ensures Layered(Descend(g, x, d, v).0, x, d + 1)
    decreases g.children.Keys - v, 1, 0
  {
    DescendAllDepths(g, x, g.children[x], d + 1, v);
  }

  lemma {:induction false} DescendAllDepths(g: Graph, p: Node, cs: seq<Node>, d: nat, v: set<Node>)
    requires Wf(g) && p in g.children
    requires forall k :: 0 <= k < |cs| ==> cs[k] in g.children[p]
    ensures Layered(DescendAll(g, p, cs, d, v).0, p, d)
    decreases g.children.Keys - v, 0, |cs|
  {
    if cs == [] {
    } else if cs[0] in v {
      DescendAllDepths(g, p, cs[1..], d, v);
    } else {
      var c := cs[0];
      assert c in g.children by {
        var k :| 0 <= k < |g.children[p]| && g.children[p][k] == c;
      }
      var (below, v1) := Descend(g, c, d, v + {c});
      DescendDepths(g, c, d, v + {c});
      DescendAllDepths(g, p, cs[1..], d, v1);
      LayeredGlue(Visit(d, c, p), below, DescendAll(g, p, cs[1..], d, v1).0, p, d);
    }
  }

  /* ------------------------------------------------------------------ walk */

  /** The values `f` yields for the visits `vs`, in order. */
  function Render<R>(f: (nat, Node) -> R, vs: seq<Visit>): (out: seq<R>)
    ensures |out| == |vs|
  {
    seq(|vs|, i requires 0 <= i < |vs| => f(vs[i].depth, vs[i].node))
  }

  lemma RenderAppend<R>(f: (nat, Node) -> R, a: seq<Visit>, b: seq<Visit>)
    ensures Render(f, a + b) == Render(f, a) + Render(f, b)
  {
    assert forall i :: 0 <= i < |a + b| ==> Render(f, a + b)[i] == (Render(f, a) + Render(f, b))[i];
  }

  /** What walk(x, f, d, v) yields: `f` of `x` itself, then of each component walked below it. */
  function Walked<R>(g: Graph, x: Node, f: (nat, Node) -> R, d: nat, v: set<Node>): seq<R>
    requires Wf(g) && x in g.children
  {
    [f(d, x)] + Render(f, Descend(g, x, d, v).0)
  }

  /** What the walk loop yields for a child not yet visited, followed by its later siblings. */
  lemma RenderTake<R>(g: Graph, p: Node, cs: seq<Node>, d: nat, v: set<Node>, f: (nat, Node) -> R)
    requires Wf(g) && p in g.children
    requires forall k :: 0 <= k < |cs| ==> cs[k] in g.children[p]
    requires cs != [] && cs[0] !in v
    ensures cs[0] in g.children
    ensures var below := Descend(g, cs[0], d, v + {cs[0]});
      var after := DescendAll(g, p, cs[1..], d, below.1);
      Render(f, DescendAll(g, p, cs, d, v).0) == Walked(g, cs[0], f, d, v + {cs[0]}) + Render(f, after.0) &&
      DescendAll(g, p, cs, d, v).1 == after.1
  {
    var c := cs[0];
    DescendAllTake(g, p, cs, d, v);
    var below := Descend(g, c, d, v + {c});
    var after := DescendAll(g, p, cs[1..], d, below.1);
    RenderAppend(f, [Visit(d, c, p)] + below.0, after.0);
    RenderAppend(f, [Visit(d, c, p)], below.0);
    assert Render(f, [Visit(d, c, p)]) == [f(d, c)];
  }

  /**
   * walk: yields f(d, x), then walks each child of a snapshot of x's children
   * that is not yet in the shared visited set, after adding it there.
   */
  method Walk<R>(g: Graph, x: Node, f: (nat, Node) -> R, d: nat, v: set<Node>) returns (out: seq<R>, seen: set<Node>)
    requires Wf(g) && x in g.children
    ensures out == Walked(g, x, f, d, v)
    ensures seen == Descend(g, x, d, v).1
    decreases g.children.Keys - v, 1
  {
    out := [f(d, x)];
    seen := v;
    var cs := g.children[x];
    ghost var total := Descend(g, x, d, v);
    assert cs[0..] == cs;
    var i := 0;
    while i < |cs|
      invariant 0 <= i <= |cs|
      invariant v <= seen
      invariant out + Render(f, DescendAll(g, x, cs[i..], d + 1, seen).0) == [f(d, x)] + Render(f, total.0)
      invariant DescendAll(g, x, cs[i..], d + 1, seen).1 == total.1
    {
      assert cs[i..][1..] == cs[i + 1..];
      out, seen := WalkChild(g, x, f, d, cs[i..], out, seen);
      i := i + 1;
    }
    assert cs[i..] == [];
  }

  /**
   * One round of walk's loop over the remaining children `rest` of x: the
   * first of them is walked at depth d + 1 unless it was visited already.
   */
  method WalkChild<R>(g: Graph, x: Node, f: (nat, Node) -> R, d: nat, rest: seq<Node>, out: seq<R>, seen: set<Node>)
    returns (out': seq<R>, seen': set<Node>)
    requires Wf(g) && x in g.children && rest != []
    requires forall k :: 0 <= k < |rest| ==> rest[k] in g.children[x]
    ensures seen <= seen'
    ensures out' + Render(f, DescendAll(g, x, rest[1..], d + 1, seen').0) == out + Render(f, DescendAll(g, x, rest, d + 1, seen).0)
    ensures DescendAll(g, x, rest[1..], d + 1, seen').1 == DescendAll(g, x, rest, d + 1, seen).1
    decreases g.children.Keys - seen, 0
  {
    var c := rest[0];
    if c !in seen {
      RenderTake(g, x, rest, d + 1, seen, f);
      var sub;
      sub, seen' := Walk(g, c, f, d + 1, seen + {c});
      out' := out + sub;
    } else {
      DescendAllSkip(g, x, rest, d + 1, seen);
      out', seen' := out, seen;
    }
  }

  /** walk yields `f` of the starting component, at its depth, before anything else. */
  lemma WalkStartsAtTop<R>(g: Graph, x: Node, f: (nat, Node) -> R, d: nat, v: set<Node>)
    requires Wf(g) && x in g.children
    ensures |Walked(g, x, f, d, v)| == 1 + |Descend(g, x, d, v).0|
    ensures Walked(g, x, f, d, v)[0] == f(d, x)
  {
  }

  /* ----------------------------------------------------------------- edges */

  /** The (parent, child) links along which the traversal first reached each child. */
  function Links(vs: seq<Visit>): (ls: seq<(Node, Node)>)
    ensures |ls| == |vs|
  {
    seq(|vs|, i requires 0 <= i < |vs| => (vs[i].parent, vs[i].node))
  }

  lemma LinksAppend(a: seq<Visit>, b: seq<Visit>)
    ensures Links(a + b) == Links(a) + Links(b)
  {
    assert forall i :: 0 <= i < |a + b| ==> Links(a + b)[i] == (Links(a) + Links(b))[i];
  }

  /**
   * The traversal's shape (which components are reached, from where, in which
   * order, and the visited set afterwards) does not depend on the depth it
   * starts at.
   */
  lemma {:induction false} DescendShift(g: Graph, x: Node, d: nat, d': nat, v: set<Node>)
    requires Wf(g) && x in g.children
    ensures Links(Descend(g, x, d, v).0) == Links(Descend(g, x, d', v).0)
    ensures Descend(g, x, d, v).1 == Descend(g, x, d', v).1
    decreases g.children.Keys - v, 1, 0
  {
    DescendAllShift(g, x, g.children[x], d + 1, d' + 1, v);
  }

  lemma {:induction false} DescendAllShift(g: Graph, p: Node, cs: seq<Node>, d: nat, d': nat, v: set<Node>)
    requires Wf(g) && p in g.children
    requires forall k :: 0 <= k < |cs| ==> cs[k] in g.children[p]
    ensures Links(DescendAll(g, p, cs, d, v).0) == Links(DescendAll(g, p, cs, d', v).0)
    ensures DescendAll(g, p, cs, d, v).1 == DescendAll(g, p, cs, d', v).1
    decreases g.children.Keys - v, 0, |cs|
  {
    if cs == [] {
    } else if cs[0] in v {
      DescendAllSkip(g, p, cs, d, v);
      DescendAllSkip(g, p, cs, d', v);
      DescendAllShift(g, p, cs[1..], d, d', v);
    } else {
      var c := cs[0];
      DescendAllTake(g, p, cs, d, v);
      DescendAllTake(g, p, cs, d', v);
      DescendShift(g, c, d, d', v + {c});
      var (below, v1) := Descend(g, c, d, v + {c});
      var below' := Descend(g, c, d', v + {c}).0;
      DescendAllShift(g, p, cs[1..], d, d', v1);
      var after := DescendAll(g, p, cs[1..], d, v1).0;
      var after' := DescendAll(g, p, cs[1..], d', v1).0;
      LinksAppend([Visit(d, c, p)] + below, after);
      LinksAppend([Visit(d, c, p)], below);
      LinksAppend([Visit(d', c, p)] + below', after');
      LinksAppend([Visit(d', c, p)], below');
    }
  }

  /** The pairs of names of the links `ls`. */
  function EdgeNames(g: Graph, ls: seq<(Node, Node)>): set<(string, string)>
  {
    if ls == [] then {} else {(g.name(ls[0].0), g.name(ls[0].1))} + EdgeNames(g, ls[1..])
  }

  lemma {:induction false} EdgeNamesAppend(g: Graph, a: seq<(Node, Node)>, b: seq<(Node, Node)>)
    ensures EdgeNames(g, a + b) == EdgeNames(g, a) + EdgeNames(g, b)
  {
    if a != [] {
      assert (a + b)[1..] == a[1..] + b;
      EdgeNamesAppend(g, a[1..], b);
    } else {
      assert a + b == b;
    }
  }

  /** A pair is collected exactly when some link carries those names. */
  lemma {:induction false} EdgeNamesMember(g: Graph, ls: seq<(Node, Node)>, q: (string, string))
    ensures q in EdgeNames(g, ls) <==> exists i :: 0 <= i < |ls| && q == (g.name(ls[i].0), g.name(ls[i].1))
  {
    if ls != [] {
      EdgeNamesMember(g, ls[1..], q);
      if exists i :: 0 <= i < |ls| && q == (g.name(ls[i].0), g.name(ls[i].1)) {
        var i :| 0 <= i < |ls| && q == (g.name(ls[i].0), g.name(ls[i].1));
        if i > 0 { assert ls[1..][i - 1] == ls[i]; }
      }
      if q in EdgeNames(g, ls[1..]) {
        var i :| 0 <= i < |ls[1..]| && q == (g.name(ls[1..][i].0), g.name(ls[1..][i].1));
        assert ls[1..][i] == ls[i + 1];
      }
    }
  }

  /** What the edges loop collects for a child not yet visited, followed by its later siblings. */
  lemma EdgesTake(g: Graph, p: Node, cs: seq<Node>, v: set<Node>)
    requires Wf(g) && p in g.children
    requires forall k :: 0 <= k < |cs| ==> cs[k] in g.children[p]
    requires cs != [] && cs[0] !in v
    ensures cs[0] in g.children
    ensures var below := Descend(g, cs[0], 0, v + {cs[0]});
      var after := DescendAll(g, p, cs[1..], 1, below.1);
      EdgeNames(g, Links(DescendAll(g, p, cs, 1, v).0)) ==
        {(g.name(p), g.name(cs[0]))} + EdgeNames(g, Links(below.0)) + EdgeNames(g, Links(after.0)) &&
      DescendAll(g, p, cs, 1, v).1 == after.1
  {
    var c := cs[0];
    DescendAllTake(g, p, cs, 1, v);
    DescendShift(g, c, 0, 1, v + {c});
    var below := Descend(g, c, 1, v + {c});
    var after := DescendAll(g, p, cs[1..], 1, below.1);
    LinksAppend([Visit(1, c, p)] + below.0, after.0);
    LinksAppend([Visit(1, c, p)], below.0);
    EdgeNamesAppend(g, Links([Visit(1, c, p)]) + Links(below.0), Links(after.0));
    EdgeNamesAppend(g, Links([Visit(1, c, p)]), Links(below.0));
    assert EdgeNames(g, Links([Visit(1, c, p)])) == {(g.name(p), g.name(c))} by {
      assert Links([Visit(1, c, p)]) == [(p, c)];
    }
  }

  /**
   * edges: for each child of a snapshot of x's children not yet visited, marks
   * it visited, records (x.name, child.name) and recurses into the child, all
   * into the shared sets `e` and `v`.
   */
  method Edges(g: Graph, x: Node, e: set<(string, string)>, v: set<Node>) returns (edges: set<(string, string)>, seen: set<Node>)
    requires Wf(g) && x in g.children
    ensures edges == e + EdgeNames(g, Links(Descend(g, x, 0, v).0))
    ensures seen == Descend(g, x, 0, v).1
    decreases g.children.Keys - v, 1
  {
    edges := e;
    seen := v;
    var cs := g.children[x];
    ghost var total := Descend(g, x, 0, v);
    assert cs[0..] == cs;
    var i := 0;
    while i < |cs|
      invariant 0 <= i <= |cs|
      invariant v <= seen
      invariant edges + EdgeNames(g, Links(DescendAll(g, x, cs[i..], 1, seen).0)) == e + EdgeNames(g, Links(total.0))
      invariant DescendAll(g, x, cs[i..], 1, seen).1 == total.1
    {
      assert cs[i..][1..] == cs[i + 1..];
      edges, seen := EdgesChild(g, x, cs[i..], edges, seen);
      i := i + 1;
    }
    assert cs[i..] == [];
  }

  /**
   * One round of edges' loop over the remaining children `rest` of x: the
   * first of them, unless visited already, is marked, recorded with x and
   * searched in turn.
   */
  method EdgesChild(g: Graph, x: Node, rest: seq<Node>, edges: set<(string, string)>, seen: set<Node>)
    returns (edges': set<(string, string)>, seen': set<Node>)
    requires Wf(g) && x in g.children && rest != []
    requires forall k :: 0 <= k < |rest| ==> rest[k] in g.children[x]
    ensures seen <= seen'
    ensures edges' + EdgeNames(g, Links(DescendAll(g, x, rest[1..], 1, seen').0)) ==
            edges + EdgeNames(g, Links(DescendAll(g, x, rest, 1, seen).0))
    ensures DescendAll(g, x, rest[1..], 1, seen').1 == DescendAll(g, x, rest, 1, seen).1
    decreases g.children.Keys - seen, 0
  {
    var c := rest[0];
    if c !in seen {
      EdgesTake(g, x, rest, seen);
      edges', seen' := Edges(g, c, edges + {(g.name(x), g.name(c))}, seen + {c});
    } else {
      DescendAllSkip(g, x, rest, 1, seen);
      edges', seen' := edges, seen;
    }
  }

  /**
   * Every pair edges collects names a component of the graph and one of its
   * children, and the traversal reached that child from that component.
   */
  lemma EdgesAreTreeLinks(g: Graph, x: Node, v: set<Node>, q: (string, string))
    requires Wf(g) && x in g.children
    requires q in EdgeNames(g, Links(Descend(g, x, 0, v).0))
    ensures exists i :: 0 <= i < |Descend(g, x, 0, v).0| &&
                        var w := Descend(g, x, 0, v).0[i];
                        w.parent in g.children && w.node in g.children[w.parent] && q == (g.name(w.parent), g.name(w.node))
  {
    DescendFresh(g, x, 0, v);
    var vs := Descend(g, x, 0, v).0;
    EdgeNamesMember(g, Links(vs), q);
    var i :| 0 <= i < |Links(vs)| && q == (g.name(Links(vs)[i].0), g.name(Links(vs)[i].1));
    assert Links(vs)[i] == (vs[i].parent, vs[i].node);
  }

  /* ------------------------------------------------------------------ root */

  /** Whether `r` manages itself. */
  predicate IsRoot(g: Graph, r: Node)
  {
    r in g.manager && g.manager[r] == r
  }

  /** The component reached from `x` by following `k` manager links. */
  function Iterate(g: Graph, x: Node, k: nat): (y: Node)
    requires ManagerClosed(g) && x in g.manager
    ensures y in g.manager
    decreases k
  {
    if k == 0 then x else Iterate(g, g.manager[x], k - 1)
  }

  /**
   * root, allowed at most `fuel` further manager links: the first component
   * on the chain that manages itself, or None when there is none that close.
   */
  function RootWithin(g: Graph, x: Node, fuel: nat): (r: Option<Node>)
    requires ManagerClosed(g) && x in g.manager
    ensures r.Some? ==> IsRoot(g, r.value)
    ensures IsRoot(g, x) ==> r == Some(x)
    decreases fuel
  {
    if g.manager[x] == x then Some(x)
    else if fuel == 0 then None
    else RootWithin(g, g.manager[x], fuel - 1)
  }

  /**
   * root(x): follows manager links from `x` until a component manages itself.
   * A chain of managers that never reaches such a component does not end in
   * the source; here it yields None. A component graph has finitely many
   * components, so as many links as it has components are always enough.
   */
  function Root(g: Graph, x: Node): (r: Option<Node>)
    requires ManagerClosed(g) && x in g.manager
    ensures r.Some? ==> IsRoot(g, r.value)
    ensures IsRoot(g, x) ==> r == Some(x)
  {
    RootWithin(g, x, |g.manager.Keys|)
  }

  lemma {:induction false} IterateAdd(g: Graph, x: Node, a: nat, b: nat)
    requires ManagerClosed(g) && x in g.manager
    ensures Iterate(g, x, a + b) == Iterate(g, Iterate(g, x, a), b)
    decreases a
  {
    if a > 0 {
      IterateAdd(g, g.manager[x], a - 1, b);
    }
  }

  lemma {:induction false} StaysAtRoot(g: Graph, r: Node, k: nat)
    requires ManagerClosed(g) && IsRoot(g, r)
    ensures Iterate(g, r, k) == r
  {
    if k > 0 {
      StaysAtRoot(g, r, k - 1);
    }
  }

  lemma {:induction false} RootWithinSound(g: Graph, x: Node, fuel: nat)
    requires ManagerClosed(g) && x in g.manager && RootWithin(g, x, fuel).Some?
    ensures IsRoot(g, RootWithin(g, x, fuel).value)
    ensures exists k: nat :: k <= fuel && Iterate(g, x, k) == RootWithin(g, x, fuel).value
    decreases fuel
  {
    if g.manager[x] == x {
      assert Iterate(g, x, 0) == x;
    } else {
      var m := g.manager[x];
      RootWithinSound(g, m, fuel - 1);
      var k: nat :| k <= fuel - 1 && Iterate(g, m, k) == RootWithin(g, m, fuel - 1).value;
      assert Iterate(g, x, k + 1) == Iterate(g, m, k);
    }
  }

  lemma {:induction false} RootWithinComplete(g: Graph, x: Node, k: nat, fuel: nat)
    requires ManagerClosed(g) && x in g.manager && IsRoot(g, Iterate(g, x, k)) && k <= fuel
    ensures RootWithin(g, x, fuel) == Some(Iterate(g, x, k))
    decreases k
  {
    if g.manager[x] == x {
      StaysAtRoot(g, x, k);
    } else {
      assert k != 0;
      RootWithinComplete(g, g.manager[x], k - 1, fuel - 1);
    }
  }

  /** The first `n` components of the manager chain from `x`. */
  function Chain(g: Graph, x: Node, n: nat): set<Node>
    requires ManagerClosed(g) && x in g.manager
  {
    if n == 0 then {} else Chain(g, x, n - 1) + {Iterate(g, x, n - 1)}
  }

  /** The chain stays among the graph's components. */
  lemma {:induction false} ChainWithin(g: Graph, x: Node, n: nat)
    requires ManagerClosed(g) && x in g.manager
    ensures Chain(g, x, n) <= g.manager.Keys
  {
    if n > 0 {
      ChainWithin(g, x, n - 1);
    }
  }

  lemma {:induction false} ChainAvoids(g: Graph, x: Node, n: nat, y: Node)
    requires ManagerClosed(g) && x in g.manager
    requires forall j :: 0 <= j < n ==> Iterate(g, x, j) != y
    ensures y !in Chain(g, x, n)
  {
    if n > 0 {
      ChainAvoids(g, x, n - 1, y);
    }
  }

  /** The first `n` components of the chain from `x`, when they are pairwise distinct, are `n` components. */
  lemma {:induction false} ChainCard(g: Graph, x: Node, n: nat)
    requires ManagerClosed(g) && x in g.manager
    requires forall i, j :: 0 <= i < j < n ==> Iterate(g, x, i) != Iterate(g, x, j)
    ensures |Chain(g, x, n)| == n
  {
    if n > 0 {
      DistinctDrop(g, x, n);
      ChainCard(g, x, n - 1);
      ChainStep(g, x, n);
    }
  }

  /** A component new to the chain so far adds one to its size. */
  lemma ChainStep(g: Graph, x: Node, n: nat)
    requires ManagerClosed(g) && x in g.manager && n > 0
    requires forall j :: 0 <= j < n - 1 ==> Iterate(g, x, j) != Iterate(g, x, n - 1)
    ensures |Chain(g, x, n)| == |Chain(g, x, n - 1)| + 1
  {
    ChainAvoids(g, x, n - 1, Iterate(g, x, n - 1));
    CardAddOne(Chain(g, x, n - 1), Iterate(g, x, n - 1));
  }

  /** Dropping the last component of a pairwise distinct chain prefix keeps it distinct, and the dropped one is new. */
  lemma DistinctDrop(g: Graph, x: Node, n: nat)
    requires ManagerClosed(g) && x in g.manager && n > 0
    requires forall i, j :: 0 <= i < j < n ==> Iterate(g, x, i) != Iterate(g, x, j)
    ensures forall i, j :: 0 <= i < j < n - 1 ==> Iterate(g, x, i) != Iterate(g, x, j)
    ensures forall j :: 0 <= j < n - 1 ==> Iterate(g, x, j) != Iterate(g, x, n - 1)
  {
  }

  lemma CardAddOne(a: set<Node>, y: Node)
    requires y !in a
    ensures |a + {y}| == |a| + 1
  {
  }

  /** A chain whose first `n` components are pairwise distinct has at most as many links as there are components. */
  lemma ChainBound(g: Graph, x: Node, n: nat)
    requires ManagerClosed(g) && x in g.manager
    requires forall i, j :: 0 <= i < j < n ==> Iterate(g, x, i) != Iterate(g, x, j)
    ensures n <= |g.manager.Keys|
  {
    ChainCard(g, x, n);
    ChainWithin(g, x, n);
    SubsetCard(Chain(g, x, n), g.manager.Keys);
  }

  lemma SubsetCard(a: set<Node>, b: set<Node>)
    requires a <= b
    ensures |a| <= |b|
  {
    assert b == a + (b - a);
  }

  /**
   * A root that the chain from `x` reaches at all, it reaches within fewer
   * links than there are components: the chain cannot pass a component
   * twice before its first root.
   */
  lemma FirstRoot(g: Graph, x: Node, k: nat) returns (k0: nat)
    requires ManagerClosed(g) && x in g.manager && IsRoot(g, Iterate(g, x, k))
    ensures k0 < |g.manager.Keys|
    ensures Iterate(g, x, k0) == Iterate(g, x, k)
  {
    k0 := 0;
    while !IsRoot(g, Iterate(g, x, k0))
      invariant k0 <= k
      invariant forall j :: 0 <= j < k0 ==> !IsRoot(g, Iterate(g, x, j))
      decreases k - k0
    {
      k0 := k0 + 1;
    }
    IterateAdd(g, x, k0, k - k0);
    StaysAtRoot(g, Iterate(g, x, k0), k - k0);
    DistinctBeforeRoot(g, x, k0);
    ChainBound(g, x, k0 + 1);
  }

  /** Up to its first root, the manager chain never passes a component twice. */
  lemma DistinctBeforeRoot(g: Graph, x: Node, k0: nat)
    requires ManagerClosed(g) && x in g.manager && IsRoot(g, Iterate(g, x, k0))
    requires forall j :: 0 <= j < k0 ==> !IsRoot(g, Iterate(g, x, j))
    ensures forall i, j :: 0 <= i < j < k0 + 1 ==> Iterate(g, x, i) != Iterate(g, x, j)
  {
    forall i, j | 0 <= i < j < k0 + 1 ensures Iterate(g, x, i) != Iterate(g, x, j) {
      // Following k0 - j more links from each: the later one reaches the
      // root at k0, the earlier one a component before it, not a root.
      IterateAdd(g, x, i, k0 - j);
      IterateAdd(g, x, j, k0 - j);
      assert !IsRoot(g, Iterate(g, x, i + (k0 - j)));
    }
  }

  /**
   * Root(x) is a component that manages itself and that the manager chain
   * from `x` reaches, and there is one exactly when the chain reaches any.
   */
  lemma RootCharacterised(g: Graph, x: Node)
    requires ManagerClosed(g) && x in g.manager
    ensures Root(g, x).Some? <==> exists k: nat :: IsRoot(g, Iterate(g, x, k))
    ensures Root(g, x).Some? ==> IsRoot(g, Root(g, x).value) && exists k: nat :: Iterate(g, x, k) == Root(g, x).value
  {
    if Root(g, x).Some? {
      RootWithinSound(g, x, |g.manager.Keys|);
    }
    if exists k: nat :: IsRoot(g, Iterate(g, x, k)) {
      var k: nat :| IsRoot(g, Iterate(g, x, k));
      var k0 := FirstRoot(g, x, k);
      RootWithinComplete(g, x, k0, |g.manager.Keys|);
    }
  }

  /** root(x) is x when x manages itself, and root(x.manager) otherwise. */
  lemma RootFollowsManager(g: Graph, x: Node)
    requires ManagerClosed(g) && x in g.manager
    ensures g.manager[x] == x ==> Root(g, x) == Some(x)
    ensures g.manager[x] != x ==> Root(g, x) == Root(g, g.manager[x])
  {
    var m := g.manager[x];
    var n := |g.manager.Keys|;
    if m != x {
      assert n > 0 by { assert x in g.manager.Keys; }
      assert Root(g, x) == RootWithin(g, m, n - 1);
      if exists k: nat :: IsRoot(g, Iterate(g, m, k)) {
        var k: nat :| IsRoot(g, Iterate(g, m, k));
        assert Iterate(g, x, k + 1) == Iterate(g, m, k);
        var k0 := FirstRoot(g, x, k + 1);
        assert k0 != 0;
        assert Iterate(g, x, k0) == Iterate(g, m, k0 - 1);
        RootWithinComplete(g, m, k0 - 1, n - 1);
        RootWithinComplete(g, m, k0 - 1, n);
      } else {
        if RootWithin(g, m, n).Some? { RootWithinSound(g, m, n); }
        if RootWithin(g, m, n - 1).Some? { RootWithinSound(g, m, n - 1); }
      }
    }
  }

  /* ----------------------------------------------------------------- graph */

  /** graph's printer: `d` spaces, a star and a space, then the component's text. */
  function Printer(g: Graph): (nat, Node) -> string
  {
    (d: nat, n: Node) => Spaces(d) + "* " + g.text(n)
  }

  /** What graph(x) returns: the printer's line for each walked component, joined by newlines. */
  function GraphText(g: Graph, x: Node): string
    requires Wf(g) && x in g.children
  {
    Join(Walked(g, x, Printer(g), 0, {}), "\n")
  }

  /** graph: walks from `x` with the printer and joins the lines. */
  method DrawGraph(g: Graph, x: Node) returns (s: string)
    requires Wf(g) && x in g.children
    ensures s == GraphText(g, x)
  {
    var lines, _ := Walk(g, x, Printer(g), 0, {});
    s := Join(lines, "\n");
  }

  lemma PrinterLine(g: Graph, d: nat, n: Node)
    requires '\n' !in g.text(n)
    ensures '\n' !in Printer(g)(d, n)
  {
    var sp := Spaces(d);
    assert '\n' !in sp by {
      forall i | 0 <= i < |sp| ensures sp[i] != '\n' {
      }
    }
  }

  /**
   * The printer's lines for a walk from `x` that reached `vs`: `x`
   * unindented, then each walked component indented by its depth.
   */
  lemma PrinterLines(g: Graph, x: Node, vs: seq<Visit>)
    ensures var ws := [Printer(g)(0, x)] + Render(Printer(g), vs);
      |ws| == 1 + |vs| && ws[0] == "* " + g.text(x) &&
      forall i :: 0 <= i < |vs| ==> ws[i + 1] == Spaces(vs[i].depth) + "* " + g.text(vs[i].node)
  {
    assert Spaces(0) == "";
  }

  lemma WalkedAvoidNewline(g: Graph, x: Node)
    requires Wf(g) && x in g.children
    requires forall n: Node :: '\n' !in g.text(n)
    ensures var ws := Walked(g, x, Printer(g), 0, {});
      forall k :: 0 <= k < |ws| ==> '\n' !in ws[k]
  {
    var vs := Descend(g, x, 0, {}).0;
    var ws := Walked(g, x, Printer(g), 0, {});
    forall k | 0 <= k < |ws| ensures '\n' !in ws[k] {
      if k == 0 {
        PrinterLine(g, 0, x);
      } else {
        PrinterLine(g, vs[k - 1].depth, vs[k - 1].node);
      }
    }
  }

  /**
   * When no component's text contains a newline, graph(x) has one line per
   * walked component: the first is x itself, unindented, and each further
   * one is indented by the depth at which the walk reached its component.
   */
  lemma GraphLines(g: Graph, x: Node)
    requires Wf(g) && x in g.children
    requires forall n: Node :: '\n' !in g.text(n)
    ensures Split(GraphText(g, x), '\n') == Walked(g, x, Printer(g), 0, {})
    ensures var vs := Descend(g, x, 0, {}).0;
      var lines := Split(GraphText(g, x), '\n');
      |lines| == 1 + |vs| && lines[0] == "* " + g.text(x) &&
      forall i :: 0 <= i < |vs| ==> lines[i + 1] == Spaces(vs[i].depth) + "* " + g.text(vs[i].node)
  {
    WalkedAvoidNewline(g, x);
    SplitJoin(Walked(g, x, Printer(g), 0, {}), '\n');
    PrinterLines(g, x, Descend(g, x, 0, {}).0);
  }

  /* ----------------------------------------------------------- reprhandler */

  /** A callable: one the handler decorator marked, with its attributes, or anything else. */
  datatype Callable =
    | Plain
    | Handler(channels: seq<string>, filter: bool, target: Option<string>, priority: int)

  datatype ToolError = TypeError

  /** %r of a string, for strings that need no escaping. */
  function Repr(t: string): string
  {
    "'" + t + "'"
  }

  /** %s of a boolean. */
  function ShowBool(b: bool): string
  {
    if b then "True" else "False"
  }

  /** The target as reprhandler shows it, `x.target or ""`: no target and an empty one look alike. */
  function ShownTarget(target: Option<string>): string
  {
    if target.Some? then target.value else ""
  }

  /** What reprhandler writes after the channel list: the filter flag, the quoted target and the priority. */
  function HandlerTail(filter: bool, target: Option<string>, priority: int): (s: string)
    ensures |s| >= 2 && s[0] == ')' && s[|s| - 2..] == "}>"
  {
    var s := ") {f: " + ShowBool(filter) + ", t: " + Repr(ShownTarget(target)) + ", p: " + IntToString(priority) + "}>";
    assert s[|s| - 2..] == "}>";
    s
  }

  /**
   * reprhandler: a TypeError for anything without the handler mark; otherwise
   * the channels joined by commas, the filter flag, the quoted target ("" when
   * there is none) and the priority.
   */
  function ReprHandler(x: Callable): (r: Result<string, ToolError>)
    ensures r.Err? <==> x.Plain?
    ensures r.Ok? ==> |r.value| >= 10 && r.value[..10] == "<handler (" && r.value[|r.value| - 2..] == "}>"
  {
    if !x.Handler? then Err(TypeError)
    else
      var tail := HandlerTail(x.filter, x.target, x.priority);
      Framed(Join(x.channels, ","), tail);
      Ok("<handler (" + Join(x.channels, ",") + tail)
  }

  lemma Framed(j: string, tail: string)
    requires |tail| >= 2 && tail[|tail| - 2..] == "}>"
    ensures var s := "<handler (" + j + tail; |s| >= 10 && s[..10] == "<handler (" && s[|s| - 2..] == "}>"
  {
    var s := "<handler (" + j + tail;
    assert s[|s| - 2..] == tail[|tail| - 2..];
  }

  /** The text of `s` before the first `c`. */
  function UpTo(s: string, c: char): (r: string)
    ensures |r| <= |s| && r == s[..|r|]
  {
    if s == [] || s[0] == c then [] else [s[0]] + UpTo(s[1..], c)
  }

  lemma {:induction false} UpToPrefix(a: string, b: string, c: char)
    requires c !in a && b != [] && b[0] == c
    ensures UpTo(a + b, c) == a
  {
    if a != [] {
      assert (a + b)[1..] == a[1..] + b;
      UpToPrefix(a[1..], b, c);
      assert [a[0]] + a[1..] == a;
    } else {
      assert a + b == b;
    }
  }

  /** `s` without its prefix `p`, or None when `s` does not start with `p`. */
  function Strip(s: string, p: string): Option<string>
  {
    if |p| <= |s| && s[..|p|] == p then Some(s[|p|..]) else None
  }

  lemma StripPrefix(p: string, rest: string)
    ensures Strip(p + rest, p) == Some(rest)
  {
    assert (p + rest)[..|p|] == p;
    assert (p + rest)[|p|..] == rest;
  }

  /** Reads the filter flag back: "True" or "False" and the text after it. */
  function ReadFilter(a: string): Option<(bool, string)>
  {
    if Strip(a, "True").Some? then Some((true, Strip(a, "True").value))
    else if Strip(a, "False").Some? then Some((false, Strip(a, "False").value))
    else None
  }

  /** Reads the quoted target back, an empty one as no target, and the text after the priority label. */
  function ReadTarget(b: string): Option<(Option<string>, string)>
  {
    match Strip(b, ", t: '")
    case None => None
    case Some(c) =>
      var t := UpTo(c, '\'');
      match Strip(c[|t|..], "', p: ")
      case None => None
      case Some(d) => Some((if t == "" then None else Some(t), d))
  }

  /** Reads the priority back from the text that ends the rendering. */
  function ReadPriority(d: string): Option<int>
  {
    if |d| >= 2 && d[|d| - 2..] == "}>" then ParseInt(d[..|d| - 2]) else None
  }

  /** Reads back what follows the channel list: filter, target and priority. */
  function ReadTail(tail: string): Option<(bool, Option<string>, int)>
  {
    match Strip(tail, ") {f: ")
    case None => None
    case Some(a) =>
      match ReadFilter(a)
      case None => None
      case Some(fb) =>
        match ReadTarget(fb.1)
        case None => None
        case Some(td) =>
          match ReadPriority(td.1)
          case None => None
          case Some(p) => Some((fb.0, td.0, p))
  }

  /** Reads a rendered handler back into the attributes reprhandler shows. */
  function ReadHandler(s: string): Option<Callable>
  {
    match Strip(s, "<handler (")
    case None => None
    case Some(a) =>
      var j := UpTo(a, ')');
      match ReadTail(a[|j|..])
      case None => None
      case Some(fpt) => Some(Handler(Split(j, ','), fpt.0, fpt.1, fpt.2))
  }

  /** The target a reader recovers: the empty target reads back as none. */
  function Normal(target: Option<string>): Option<string>
  {
    if target == Some("") then None else target
  }

  /**
   * reprhandler loses nothing but the difference between no target and an
   * empty one: with at least one channel, no channel holding a comma or a
   * closing parenthesis, and a target without a quote, the channels, the
   * filter flag, the target and the priority can all be read back.
   */
  lemma ReprHandlerReadsBack(x: Callable)
    requires x.Handler? && 1 <= |x.channels|
    requires forall k :: 0 <= k < |x.channels| ==> ',' !in x.channels[k] && ')' !in x.channels[k]
    requires x.target.Some? ==> '\'' !in x.target.value
    ensures ReprHandler(x).Ok?
    ensures ReadHandler(ReprHandler(x).value) == Some(Handler(x.channels, x.filter, Normal(x.target), x.priority))
  {
    var j := Join(x.channels, ",");
    JoinAvoids(x.channels, ",", ')');
    HeadReadsBack(j, HandlerTail(x.filter, x.target, x.priority));
    TailReadsBack(x.filter, x.target, x.priority);
    SplitJoin(x.channels, ',');
  }

  /** The channel text ends at the first ')', and the rest is read as the tail. */
  lemma HeadReadsBack(j: string, tail: string)
    requires ')' !in j && tail != [] && tail[0] == ')'
    ensures ReadHandler("<handler (" + j + tail) ==
      if ReadTail(tail).None? then None
      else Some(Handler(Split(j, ','), ReadTail(tail).value.0, ReadTail(tail).value.1, ReadTail(tail).value.2))
  {
    StripPrefix("<handler (", j + tail);
    assert "<handler (" + j + tail == "<handler (" + (j + tail);
    UpToPrefix(j, tail, ')');
    assert (j + tail)[|j|..] == tail;
  }

  lemma TailReadsBack(f: bool, target: Option<string>, p: int)
    requires target.Some? ==> '\'' !in target.value
    ensures ReadTail(HandlerTail(f, target, p)) == Some((f, Normal(target), p))
  {
    var d := IntToString(p) + "}>";
    var b := ", t: '" + ShownTarget(target) + "', p: " + d;
    var a := ShowBool(f) + b;
    TailShape(f, target, p);
    StripPrefix(") {f: ", a);
    FilterReadsBack(f, b);
    TargetReadsBack(target, d);
    PriorityReadsBack(p);
  }

  lemma TailShape(f: bool, target: Option<string>, p: int)
    ensures HandlerTail(f, target, p)
         == ") {f: " + (ShowBool(f) + (", t: '" + ShownTarget(target) + "', p: " + (IntToString(p) + "}>")))
  {
    Regroup(") {f: ", ShowBool(f), ", t: ", "'", ShownTarget(target), ", p: ", IntToString(p), "}>");
    assert ", t: " + "'" == ", t: '";
    assert "'" + ", p: " == "', p: ";
  }

  lemma Regroup(a: string, f: string, b: string, q: string, t: string, c: string, n: string, e: string)
    ensures a + f + b + (q + t + q) + c + n + e == a + (f + ((b + q) + t + (q + c) + (n + e)))
  {
  }

  lemma TargetReadsBack(target: Option<string>, d: string)
    requires target.Some? ==> '\'' !in target.value
    ensures ReadTarget(", t: '" + ShownTarget(target) + "', p: " + d) == Some((Normal(target), d))
  {
    var t := ShownTarget(target);
    var c := t + ("', p: " + d);
    assert ", t: '" + t + "', p: " + d == ", t: '" + c;
    StripPrefix(", t: '", c);
    UpToPrefix(t, "', p: " + d, '\'');
    assert c[|t|..] == "', p: " + d;
    StripPrefix("', p: ", d);
  }

  lemma PriorityReadsBack(p: int)
    ensures ReadPriority(IntToString(p) + "}>") == Some(p)
  {
    var n := IntToString(p);
    var d := n + "}>";
    assert d[|d| - 2..] == "}>";
    assert d[..|d| - 2] == n;
    ParseIntToString(p);
  }

  lemma FilterReadsBack(f: bool, b: string)
    ensures ReadFilter(ShowBool(f) + b) == Some((f, b))
  {
    if f {
      StripPrefix("True", b);
    } else {
      StripPrefix("False", b);
      assert ("False" + b)[..4][0] == 'F';
    }
  }
}
