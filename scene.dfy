/**
 * The per-frame traversal of code/src/solution.js: `drawGraph` walks one node
 * tree in pre-order and `window.loop` applies it to every root of `scene`.
 *
 * Only the ORDER of the side effects is modelled. A node's `update(dt)`
 * closure becomes an `Update` event and the `useProgram` / `uniformMatrix4fv`
 * / `draw` calls made for a node with a `program` become one `Draw` event,
 * which records the `parent` argument drawGraph hands to `draw`.
 */
module SceneGraph {
  import opened Options

  /** Object identity of a node. */
  type NodeId = nat

  /**
   * A node as drawGraph sees it: whether `update` and `program` are set, and
   * its ordered `children`. An inductive datatype, so every tree is finite
   * and acyclic.
   */
  datatype Node = Node(id: NodeId, hasUpdate: bool, hasProgram: bool, children: seq<Node>)

  /** The observable side effects of one traversal step. */
  datatype Event =
    | Update(node: NodeId, dt: real)
    | Draw(node: NodeId, parent: Option<NodeId>)

  /** The events drawGraph issues for `n` itself, before looking at its children. */
  function Own(n: Node, parent: Option<NodeId>, dt: real): seq<Event>
  {
    (if n.hasUpdate then [Update(n.id, dt)] else [])
    + (if n.hasProgram then [Draw(n.id, parent)] else [])
  }

  /** The events of `drawGraph(n, parent, dt)`: own events, then every child in list order. */
  function NodeTrace(n: Node, parent: Option<NodeId>, dt: real): seq<Event>
    decreases n, 1
  {
    Own(n, parent, dt) + ForestTrace(n.children, Some(n.id), dt)
  }

  /** The events of calling drawGraph on each of `ns` in order, all with the same `parent`. */
  function ForestTrace(ns: seq<Node>, parent: Option<NodeId>, dt: real): seq<Event>
    decreases ns, 0
  {
    if ns == [] then [] else NodeTrace(ns[0], parent, dt) + ForestTrace(ns[1..], parent, dt)
  }

  /** The events of one `window.loop` frame: every root, in `scene` order, with no parent. */
  function FrameTrace(scene: seq<Node>, dt: real): seq<Event>
  {
    ForestTrace(scene, None, dt)
  }

  /** `drawGraph` (solution.js:121-141): update, draw when a program is bound, then each child with this node as parent. */
  method DrawGraph(node: Node, parent: Option<NodeId>, dt: real) returns (events: seq<Event>)
    ensures events == NodeTrace(node, parent, dt)
    decreases node
  {
    events := [];
    if node.hasUpdate {
      events := events + [Update(node.id, dt)];
    }
    if node.hasProgram {
      events := events + [Draw(node.id, parent)];
    }
    assert events == Own(node, parent, dt);
    var j := 0;
    while j < |node.children|
      invariant 0 <= j <= |node.children|
      invariant events == Own(node, parent, dt) + ForestTrace(node.children[..j], Some(node.id), dt)
    {
      var child := node.children[j];
      var childEvents := DrawGraph(child, Some(node.id), dt);
      ForestTracePrefix(node.children, j, Some(node.id), dt);
      AppendAssoc(Own(node, parent, dt), ForestTrace(node.children[..j], Some(node.id), dt), childEvents);
      events := events + childEvents;
      j := j + 1;
    }
    assert node.children[..j] == node.children;
  }

  /** The root loop of `window.loop` (solution.js:116-118): drawGraph on each root, in order, with a null parent. */
  method Loop(scene: seq<Node>, dt: real) returns (events: seq<Event>)
    ensures events == FrameTrace(scene, dt)
  {
    events := [];
    var j := 0;
    while j < |scene|
      invariant 0 <= j <= |scene|
      invariant events == ForestTrace(scene[..j], None, dt)
    {
      var rootEvents := DrawGraph(scene[j], None, dt);
      ForestTracePrefix(scene, j, None, dt);
      events := events + rootEvents;
      j := j + 1;
    }
    assert scene[..j] == scene;
  }

  /** Traversing a list of siblings is traversing its two halves one after the other. */
  lemma {:induction false} ForestTraceAppend(a: seq<Node>, b: seq<Node>, parent: Option<NodeId>, dt: real)
    ensures ForestTrace(a + b, parent, dt) == ForestTrace(a, parent, dt) + ForestTrace(b, parent, dt)
    decreases a
  {
    if a == [] {
      assert a + b == b;
    } else {
      assert (a + b)[0] == a[0];
      assert (a + b)[1..] == a[1..] + b;
      ForestTraceAppend(a[1..], b, parent, dt);
    }
  }

  /** Traversing one more sibling appends that sibling's trace. */
  lemma ForestTracePrefix(cs: seq<Node>, j: nat, parent: Option<NodeId>, dt: real)
    requires j < |cs|
    ensures ForestTrace(cs[..j + 1], parent, dt) == ForestTrace(cs[..j], parent, dt) + NodeTrace(cs[j], parent, dt)
  {
    assert cs[..j + 1] == cs[..j] + [cs[j]];
    ForestTraceAppend(cs[..j], [cs[j]], parent, dt);
    assert ForestTrace([cs[j]], parent, dt) == NodeTrace(cs[j], parent, dt) by {
      assert [cs[j]][1..] == [];
    }
  }

  /** Sibling `i` is traversed after every earlier sibling and before every later one. */
  lemma SiblingBlock(cs: seq<Node>, parent: Option<NodeId>, dt: real, i: nat)
    requires i < |cs|
    ensures ForestTrace(cs, parent, dt)
      == ForestTrace(cs[..i], parent, dt) + NodeTrace(cs[i], parent, dt) + ForestTrace(cs[i + 1..], parent, dt)
  {
    assert cs == cs[..i] + cs[i..];
    ForestTraceAppend(cs[..i], cs[i..], parent, dt);
    assert cs[i..][0] == cs[i];
    assert cs[i..][1..] == cs[i + 1..];
  }

  /** Sibling `i` is traversed, with all of its subtree, before sibling `j` whenever i < j. */
  lemma SiblingsInOrder(cs: seq<Node>, parent: Option<NodeId>, dt: real, i: nat, j: nat)
    returns (pre: seq<Event>, mid: seq<Event>, post: seq<Event>)
    requires i < j < |cs|
    ensures ForestTrace(cs, parent, dt)
      == pre + NodeTrace(cs[i], parent, dt) + (mid + NodeTrace(cs[j], parent, dt) + post)
  {
    var rest := cs[i + 1..];
    pre, mid, post := ForestTrace(cs[..i], parent, dt),
      ForestTrace(rest[..j - i - 1], parent, dt), ForestTrace(rest[j - i..], parent, dt);
    var a, b := NodeTrace(cs[i], parent, dt), NodeTrace(cs[j], parent, dt);
    assert ForestTrace(cs, parent, dt) == pre + a + ForestTrace(rest, parent, dt) by {
      SiblingBlock(cs, parent, dt, i);
    }
    assert ForestTrace(rest, parent, dt) == mid + b + post by {
      SiblingBlock(rest, parent, dt, j - i - 1);
      assert rest[j - i - 1] == cs[j];
    }
  }

  /*
   * Reference views of a forest that do not depend on traversal order.
   */

  /** The id of every node of the forest, once per node. */
  ghost function Ids(ns: seq<Node>): multiset<NodeId>
    decreases ns
  {
    if ns == [] then multiset{} else multiset{ns[0].id} + Ids(ns[0].children) + Ids(ns[1..])
  }

  /** (id, dt) for every node whose `update` is set, once per such node. */
  ghost function Updaters(ns: seq<Node>, dt: real): multiset<(NodeId, real)>
    decreases ns
  {
    if ns == [] then multiset{}
    else
      (if ns[0].hasUpdate then multiset{(ns[0].id, dt)} else multiset{})
      + Updaters(ns[0].children, dt) + Updaters(ns[1..], dt)
  }

  /**
   * (id, enclosing node) of every node whose `program` is set, once per such
   * node; the nodes of `ns` themselves are enclosed by `parent`.
   */
  ghost function Renderables(ns: seq<Node>, parent: Option<NodeId>): multiset<(NodeId, Option<NodeId>)>
    decreases ns
  {
    if ns == [] then multiset{}
    else
      (if ns[0].hasProgram then multiset{(ns[0].id, parent)} else multiset{})
      + Renderables(ns[0].children, Some(ns[0].id)) + Renderables(ns[1..], parent)
  }

  /** No two nodes of the forest share an id (each JavaScript object is one node). */
  ghost predicate UniqueIds(ns: seq<Node>)
  {
    forall x :: Ids(ns)[x] <= 1
  }

  /** `m` is a node of the forest `ns` and `p` is the parent drawGraph passes it. */
  ghost predicate Occurs(m: Node, p: Option<NodeId>, ns: seq<Node>, parent: Option<NodeId>)
    decreases ns
  {
    ns != []
    && ((ns[0] == m && p == parent)
        || Occurs(m, p, ns[0].children, Some(ns[0].id))
        || Occurs(m, p, ns[1..], parent))
  }

  /** (node, dt) of every Update event, once per event. */
  function UpdatesIn(tr: seq<Event>): multiset<(NodeId, real)>
  {
    if tr == [] then multiset{}
    else (if tr[0].Update? then multiset{(tr[0].node, tr[0].dt)} else multiset{}) + UpdatesIn(tr[1..])
  }

  /** (node, parent) of every Draw event, once per event. */
  function DrawsIn(tr: seq<Event>): multiset<(NodeId, Option<NodeId>)>
  {
    if tr == [] then multiset{}
    else (if tr[0].Draw? then multiset{(tr[0].node, tr[0].parent)} else multiset{}) + DrawsIn(tr[1..])
  }

  lemma {:induction false} EventsConcat(a: seq<Event>, b: seq<Event>)
    ensures UpdatesIn(a + b) == UpdatesIn(a) + UpdatesIn(b)
    ensures DrawsIn(a + b) == DrawsIn(a) + DrawsIn(b)
  {
    if a == [] {
      assert a + b == b;
    } else {
      assert (a + b)[1..] == a[1..] + b;
      EventsConcat(a[1..], b);
    }
  }

  /** What a node's own events contribute to the event counts. */
  lemma OwnEventCounts(n: Node, parent: Option<NodeId>, dt: real)
    ensures UpdatesIn(Own(n, parent, dt)) == if n.hasUpdate then multiset{(n.id, dt)} else multiset{}
    ensures DrawsIn(Own(n, parent, dt)) == if n.hasProgram then multiset{(n.id, parent)} else multiset{}
  {
    var u: seq<Event> := if n.hasUpdate then [Update(n.id, dt)] else [];
    var d: seq<Event> := if n.hasProgram then [Draw(n.id, parent)] else [];
    assert UpdatesIn(d) == multiset{} && DrawsIn(u) == multiset{} by {
      if n.hasProgram { assert d[1..] == []; }
      if n.hasUpdate { assert u[1..] == []; }
    }
    if n.hasUpdate { assert u[1..] == []; }
    if n.hasProgram { assert d[1..] == []; }
    EventsConcat(u, d);
  }

  /**
   * Exactly the nodes with `update` set are updated, each once, and each
   * receives the frame's `dt`.
   */
  lemma {:induction false} UpdatesMatchUpdaters(ns: seq<Node>, parent: Option<NodeId>, dt: real)
    ensures UpdatesIn(ForestTrace(ns, parent, dt)) == Updaters(ns, dt)
    decreases ns
  {
    if ns != [] {
      var n := ns[0];
      UpdatesMatchUpdaters(n.children, Some(n.id), dt);
      UpdatesMatchUpdaters(ns[1..], parent, dt);
      var own, kids, rest := Own(n, parent, dt), ForestTrace(n.children, Some(n.id), dt), ForestTrace(ns[1..], parent, dt);
      assert ForestTrace(ns, parent, dt) == own + kids + rest;
      OwnEventCounts(n, parent, dt);
      EventsConcat(own, kids);
      EventsConcat(own + kids, rest);
    }
  }

  /**
   * Exactly the nodes with a `program` are drawn, each once, and each is
   * drawn with its enclosing node (the roots with `parent`) as parent.
   */
  lemma {:induction false} DrawsMatchRenderables(ns: seq<Node>, parent: Option<NodeId>, dt: real)
    ensures DrawsIn(ForestTrace(ns, parent, dt)) == Renderables(ns, parent)
    decreases ns
  {
    if ns != [] {
      var n := ns[0];
      DrawsMatchRenderables(n.children, Some(n.id), dt);
      DrawsMatchRenderables(ns[1..], parent, dt);
      var own, kids, rest := Own(n, parent, dt), ForestTrace(n.children, Some(n.id), dt), ForestTrace(ns[1..], parent, dt);
      assert ForestTrace(ns, parent, dt) == own + kids + rest;
      OwnEventCounts(n, parent, dt);
      EventsConcat(own, kids);
      EventsConcat(own + kids, rest);
    }
  }

  /** Every event of a forest's traversal concerns a node of that forest. */
  lemma {:induction false} EventsConcernForest(ns: seq<Node>, parent: Option<NodeId>, dt: real)
    ensures forall e :: e in ForestTrace(ns, parent, dt) ==> e.node in Ids(ns)
    decreases ns
  {
    if ns != [] {
      var n := ns[0];
      EventsConcernForest(n.children, Some(n.id), dt);
      EventsConcernForest(ns[1..], parent, dt);
      assert ForestTrace(ns, parent, dt)
        == Own(n, parent, dt) + ForestTrace(n.children, Some(n.id), dt) + ForestTrace(ns[1..], parent, dt);
    }
  }

  /**
   * With distinct ids, a node's own events come before every event of its
   * descendants.
   */
  lemma OwnEventsFirst(m: Node, p: Option<NodeId>, dt: real)
    requires UniqueIds([m])
    ensures var tr := NodeTrace(m, p, dt);
      forall j, k :: 0 <= j < |tr| && 0 <= k < |tr| && tr[j].node == m.id && tr[k].node != m.id ==> j < k
  {
    OwnEventsLead(m, p, dt);
    DescendantEventsFollow(m, p, dt);
  }

  /** The first |Own| events of a node's trace are its own. */
  lemma OwnEventsLead(m: Node, p: Option<NodeId>, dt: real)
    ensures var tr, own := NodeTrace(m, p, dt), Own(m, p, dt);
      |own| <= |tr| && forall j :: 0 <= j < |own| ==> tr[j].node == m.id
  {
    var own, tr := Own(m, p, dt), NodeTrace(m, p, dt);
    assert forall e :: e in own ==> e.node == m.id;
    forall j | 0 <= j < |own| ensures tr[j].node == m.id {
      assert tr[j] == own[j];
    }
  }

  /** With distinct ids, no event after a node's own ones concerns that node. */
  lemma DescendantEventsFollow(m: Node, p: Option<NodeId>, dt: real)
    requires UniqueIds([m])
    ensures var tr, own := NodeTrace(m, p, dt), Own(m, p, dt);
      forall k :: |own| <= k < |tr| ==> tr[k].node != m.id
  {
    var own, kids := Own(m, p, dt), ForestTrace(m.children, Some(m.id), dt);
    var tr := NodeTrace(m, p, dt);
    assert m.id !in Ids(m.children) by {
      assert Ids([m]) == multiset{m.id} + Ids(m.children) + Ids([]);
      assert Ids([m])[m.id] <= 1;
    }
    EventsConcernForest(m.children, Some(m.id), dt);
    forall k | |own| <= k < |tr| ensures tr[k].node != m.id {
      assert tr[k] == kids[k - |own|];
      assert tr[k] in kids;
    }
  }

  lemma AppendAssoc<T>(a: seq<T>, b: seq<T>, c: seq<T>)
    ensures a + b + c == a + (b + c)
  {
  }

  /** drawGraph on the first tree of a forest, then on the rest. */
  lemma ForestTraceUnfold(ns: seq<Node>, parent: Option<NodeId>, dt: real)
    requires ns != []
    ensures ForestTrace(ns, parent, dt)
      == Own(ns[0], parent, dt) + ForestTrace(ns[0].children, Some(ns[0].id), dt) + ForestTrace(ns[1..], parent, dt)
  {
  }

  /** In `tr`, two events of the same node are an Update followed by a Draw. */
  predicate UpdateThenDraw(tr: seq<Event>)
  {
    forall j, k :: 0 <= j < k < |tr| && tr[j].node == tr[k].node ==> tr[j].Update? && tr[k].Draw?
  }

  /** No node has events in both `a` and `b`. */
  predicate NoSharedNode(a: seq<Event>, b: seq<Event>)
  {
    forall e, f :: e in a && f in b ==> e.node != f.node
  }

  lemma UpdateThenDrawConcat(a: seq<Event>, b: seq<Event>)
    requires UpdateThenDraw(a) && UpdateThenDraw(b) && NoSharedNode(a, b)
    ensures UpdateThenDraw(a + b)
  {
    var tr := a + b;
    forall j, k | 0 <= j < k < |tr| && tr[j].node == tr[k].node
      ensures tr[j].Update? && tr[k].Draw?
    {
      if k < |a| {
        assert tr[j] == a[j] && tr[k] == a[k];
      } else if j >= |a| {
        assert tr[j] == b[j - |a|] && tr[k] == b[k - |a|];
      }
    }
  }

  /** Distinct ids in a forest are distinct in each part, and no id is shared between the parts. */
  lemma UniqueIdsSplit(ns: seq<Node>)
    requires ns != [] && UniqueIds(ns)
    ensures UniqueIds(ns[0].children) && UniqueIds(ns[1..])
    ensures ns[0].id !in Ids(ns[0].children) && ns[0].id !in Ids(ns[1..])
    ensures forall x :: x in Ids(ns[0].children) ==> x !in Ids(ns[1..])
  {
    var n := ns[0];
    assert Ids(ns) == multiset{n.id} + Ids(n.children) + Ids(ns[1..]);
    forall x ensures Ids(n.children)[x] <= 1 && Ids(ns[1..])[x] <= 1 {
      assert Ids(ns)[x] <= 1;
    }
    assert Ids(ns)[n.id] <= 1;
    forall x | x in Ids(n.children) ensures x !in Ids(ns[1..]) {
      assert Ids(ns)[x] <= 1;
    }
  }

  /**
   * With distinct ids, a frame touches each node at most twice: at most one
   * Update, and after it at most one Draw.
   */
  lemma {:induction false} AtMostOncePerNode(ns: seq<Node>, parent: Option<NodeId>, dt: real)
    requires UniqueIds(ns)
    ensures UpdateThenDraw(ForestTrace(ns, parent, dt))
    decreases ns
  {
    if ns != [] {
      var n := ns[0];
      UniqueIdsSplit(ns);
      AtMostOncePerNode(n.children, Some(n.id), dt);
      AtMostOncePerNode(ns[1..], parent, dt);
      NodeUpdateThenDraw(n, parent, dt);
      ForestUpdateThenDraw(ns, parent, dt);
    }
  }

  /** A node's own events, then its subtree's, keep Update-before-Draw when the node's id is not below it. */
  lemma NodeUpdateThenDraw(n: Node, parent: Option<NodeId>, dt: real)
    requires n.id !in Ids(n.children)
    requires UpdateThenDraw(ForestTrace(n.children, Some(n.id), dt))
    ensures UpdateThenDraw(NodeTrace(n, parent, dt))
  {
    var own, kids := Own(n, parent, dt), ForestTrace(n.children, Some(n.id), dt);
    OwnUpdateThenDraw(n, parent, dt);
    assert NoSharedNode(own, kids) by {
      EventsConcernForest(n.children, Some(n.id), dt);
    }
    UpdateThenDrawConcat(own, kids);
  }

  /** A node's own events all concern it: an Update, if any, followed by a Draw, if any. */
  lemma OwnUpdateThenDraw(n: Node, parent: Option<NodeId>, dt: real)
    ensures forall e :: e in Own(n, parent, dt) ==> e.node == n.id
    ensures UpdateThenDraw(Own(n, parent, dt))
  {
  }

  /** The first tree's trace, then the rest's, keep Update-before-Draw when their ids are disjoint. */
  lemma ForestUpdateThenDraw(ns: seq<Node>, parent: Option<NodeId>, dt: real)
    requires ns != []
    requires ns[0].id !in Ids(ns[1..])
    requires forall x :: x in Ids(ns[0].children) ==> x !in Ids(ns[1..])
    requires UpdateThenDraw(NodeTrace(ns[0], parent, dt)) && UpdateThenDraw(ForestTrace(ns[1..], parent, dt))
    ensures UpdateThenDraw(ForestTrace(ns, parent, dt))
  {
    var n := ns[0];
    var first, rest := NodeTrace(n, parent, dt), ForestTrace(ns[1..], parent, dt);
    assert NoSharedNode(first, rest) by {
      EventsConcernNode(n, parent, dt);
      EventsConcernForest(ns[1..], parent, dt);
    }
    UpdateThenDrawConcat(first, rest);
  }

  /** Every event of drawGraph on `n` concerns `n` or one of its descendants. */
  lemma EventsConcernNode(n: Node, parent: Option<NodeId>, dt: real)
    ensures forall e :: e in NodeTrace(n, parent, dt) ==> e.node == n.id || e.node in Ids(n.children)
  {
    EventsConcernForest(n.children, Some(n.id), dt);
    assert forall e :: e in Own(n, parent, dt) ==> e.node == n.id;
  }


  /**
   * The events of any node `m` of the forest, with those of its whole
   * subtree, form one contiguous block of the forest's trace (pre-order).
   */
  lemma {:induction false} SubtreeIsContiguous(m: Node, p: Option<NodeId>, ns: seq<Node>, parent: Option<NodeId>, dt: real)
    returns (pre: seq<Event>, post: seq<Event>)
    requires Occurs(m, p, ns, parent)
    ensures ForestTrace(ns, parent, dt) == pre + NodeTrace(m, p, dt) + post
    decreases ns, 0
  {
    var first, rest := NodeTrace(ns[0], parent, dt), ForestTrace(ns[1..], parent, dt);
    var block := NodeTrace(m, p, dt);
    assert ForestTrace(ns, parent, dt) == first + rest;
    if Occurs(m, p, ns[1..], parent) {
      var before, after := SubtreeIsContiguous(m, p, ns[1..], parent, dt);
      pre, post := first + before, after;
      AppendAssoc(first, before + block, after);
      AppendAssoc(first, before, block);
    } else {
      var before, after := SubtreeOfNodeIsContiguous(m, p, ns[0], parent, dt);
      pre, post := before, after + rest;
      AppendAssoc(before + block, after, rest);
    }
  }

  /** The same within the events of one node, `m` being `n` itself or one of its descendants. */
  lemma {:induction false} SubtreeOfNodeIsContiguous(m: Node, p: Option<NodeId>, n: Node, parent: Option<NodeId>, dt: real)
    returns (pre: seq<Event>, post: seq<Event>)
    requires (n == m && p == parent) || Occurs(m, p, n.children, Some(n.id))
    ensures NodeTrace(n, parent, dt) == pre + NodeTrace(m, p, dt) + post
    decreases n, 1
  {
    if n == m && p == parent {
      pre, post := [], [];
      assert NodeTrace(n, parent, dt) == [] + NodeTrace(n, parent, dt) + [];
    } else {
      var own, block := Own(n, parent, dt), NodeTrace(m, p, dt);
      var before, after := SubtreeIsContiguous(m, p, n.children, Some(n.id), dt);
      pre, post := own + before, after;
      AppendAssoc(own, before + block, after);
      AppendAssoc(own, before, block);
    }
  }
}
