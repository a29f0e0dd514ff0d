/**
 THREAD=REFERENCES (crates/imap-server/src/imap.rs): messages point to a chosen parent, the
 links become a forest, and the forest is sorted level by level.
 */
module Threads {
  import opened Wrappers
  import opened Ordering

  datatype ThreadMessage = ThreadMessage(uid: nat, subject: string, date: int, messageId: Option<string>,
                                         references: seq<string>, inReplyTo: seq<string>)

  datatype Node = Node(uid: nat, subject: string, date: int, children: seq<Node>)

  function NodeOf(m: ThreadMessage): Node { Node(m.uid, m.subject, m.date, []) }

  // ---------- links ----------

  /** The last reference, else the last In-Reply-To. */
  function ChosenParent(m: ThreadMessage): Option<string> {
    if m.references != [] then Some(m.references[|m.references| - 1])
    else if m.inReplyTo != [] then Some(m.inReplyTo[|m.inReplyTo| - 1])
    else None
  }

  function Nodes(ms: seq<ThreadMessage>): map<string, Node> {
    if ms == [] then map[] else
      var (before, m) := (Nodes(ms[..|ms| - 1]), ms[|ms| - 1]);
      if m.messageId.Some? then before[m.messageId.value := NodeOf(m)] else before
  }

  /** A message has a link when it has an id and its chosen parent is another known message. */
  predicate HasLink(m: ThreadMessage, nodes: map<string, Node>) {
    && m.messageId.Some? && ChosenParent(m).Some?
    && ChosenParent(m).value != m.messageId.value && ChosenParent(m).value in nodes
  }

  function Parents(ms: seq<ThreadMessage>, nodes: map<string, Node>): map<string, string> {
    if ms == [] then map[] else
      var (before, m) := (Parents(ms[..|ms| - 1], nodes), ms[|ms| - 1]);
      if HasLink(m, nodes) then before[m.messageId.value := ChosenParent(m).value] else before
  }

  function ChildList(children: map<string, seq<string>>, id: string): seq<string> {
    if id in children then children[id] else []
  }

  function Children(ms: seq<ThreadMessage>, nodes: map<string, Node>): map<string, seq<string>> {
    if ms == [] then map[] else
      var (before, m) := (Children(ms[..|ms| - 1], nodes), ms[|ms| - 1]);
      if HasLink(m, nodes)
      then before[ChosenParent(m).value := ChildList(before, ChosenParent(m).value) + [m.messageId.value]]
      else before
  }

  datatype Graph = Graph(nodes: map<string, Node>, parents: map<string, string>, children: map<string, seq<string>>) {
    /** Child lists name known messages only. */
    ghost predicate Closed() {
      forall id, i :: id in children && 0 <= i < |children[id]| ==> children[id][i] in nodes
    }
  }

  function GraphOf(ms: seq<ThreadMessage>): Graph {
    var nodes := Nodes(ms);
    Graph(nodes, Parents(ms, nodes), Children(ms, nodes))
  }

  lemma {:induction false} NodesHave(ms: seq<ThreadMessage>, i: nat)
    requires i < |ms| && ms[i].messageId.Some?
    ensures ms[i].messageId.value in Nodes(ms)
  {
    if i < |ms| - 1 { NodesHave(ms[..|ms| - 1], i); }
  }

  lemma {:induction false} ChildrenKnown(ms: seq<ThreadMessage>, all: seq<ThreadMessage>)
    requires ms <= all
    ensures Graph(Nodes(all), map[], Children(ms, Nodes(all))).Closed()
  {
    if ms != [] {
      ChildrenKnown(ms[..|ms| - 1], all);
      var m := ms[|ms| - 1];
      assert m == all[|ms| - 1];
      if m.messageId.Some? { NodesHave(all, |ms| - 1); }
    }
  }

  /** Every lookup of the construction finds its node, whatever the messages. */
  lemma GraphClosed(ms: seq<ThreadMessage>)
    ensures GraphOf(ms).Closed()
  {
    ChildrenKnown(ms, ms);
  }

  // ---------- trees ----------

  /** `build_thread_node`: an id already on the way down becomes a leaf.  Each step down adds an
      id to the way, so the walk ends on every graph, cyclic ones included. */
  function Build(g: Graph, id: string, visited: set<string>): Node
    requires g.Closed() && id in g.nodes
    decreases |g.nodes.Keys - visited|, 0
  {
    if id in visited then g.nodes[id]
    else
      assert g.nodes.Keys - (visited + {id}) < g.nodes.Keys - visited by { assert id in g.nodes.Keys - visited; }
      CardLess(g.nodes.Keys - (visited + {id}), g.nodes.Keys - visited);
      if id in g.children
      then g.nodes[id].(children := BuildAll(g, g.children[id], visited + {id}))
      else g.nodes[id]
  }

  function BuildAll(g: Graph, ids: seq<string>, visited: set<string>): (r: seq<Node>)
    requires g.Closed() && forall i :: 0 <= i < |ids| ==> ids[i] in g.nodes
    ensures |r| == |ids|
    decreases |g.nodes.Keys - visited|, |ids|
  {
    if ids == [] then [] else BuildAll(g, ids[..|ids| - 1], visited) + [Build(g, ids[|ids| - 1], visited)]
  }

  lemma {:induction false} CardLess<T>(a: set<T>, b: set<T>)
    requires a < b
    ensures |a| < |b|
    decreases a
  {
    if a == {} {
    } else {
      var x :| x in a;
      CardLess(a - {x}, b - {x});
    }
  }

  class VisitedSet {
    var ids: set<string>

    constructor ()
      ensures ids == {}
    {
      ids := {};
    }
  }

  method BuildThreadNode(g: Graph, id: string, visited: VisitedSet) returns (node: Node)
    requires g.Closed() && id in g.nodes
    modifies visited
    ensures node == Build(g, id, old(visited.ids)) && visited.ids == old(visited.ids)
    decreases |g.nodes.Keys - visited.ids|
  {
    if id in visited.ids {
      return g.nodes[id];
    }
    ghost var above := visited.ids;
    visited.ids := visited.ids + {id};
    assert g.nodes.Keys - visited.ids < g.nodes.Keys - above by { assert id in g.nodes.Keys - above; }
    CardLess(g.nodes.Keys - visited.ids, g.nodes.Keys - above);
    node := g.nodes[id];
    if id in g.children {
      var ids := g.children[id];
      var children: seq<Node> := [];
      for i := 0 to |ids|
        invariant children == BuildAll(g, ids[..i], above + {id}) && visited.ids == above + {id}
      {
        var child := BuildThreadNode(g, ids[i], visited);
        assert ids[..i + 1][..i] == ids[..i];
        children := children + [child];
      }
      assert ids[..|ids|] == ids;
      node := node.(children := children);
    }
    visited.ids := visited.ids - {id};
  }

  // ---------- sorting ----------

  predicate Before(a: Node, b: Node) {
    a.date < b.date
    || (a.date == b.date && (StringLess(a.subject, b.subject) || (a.subject == b.subject && a.uid < b.uid)))
  }

  /** A stable insertion: equal keys keep their order. */
  function InsertNode(n: Node, sorted: seq<Node>): seq<Node> {
    if sorted == [] || !Before(sorted[0], n) then [n] + sorted else [sorted[0]] + InsertNode(n, sorted[1..])
  }

  /** `sort_thread_nodes`. */
  function SortForest(nodes: seq<Node>): seq<Node> {
    if nodes == [] then []
    else InsertNode(nodes[0].(children := SortForest(nodes[0].children)), SortForest(nodes[1..]))
  }

  // ---------- the forest ----------

  ghost predicate Covers(g: Graph, ms: seq<ThreadMessage>) {
    g.Closed() && forall i :: 0 <= i < |ms| && ms[i].messageId.Some? ==> ms[i].messageId.value in g.nodes
  }

  function Roots(ms: seq<ThreadMessage>, g: Graph): seq<Node>
    requires Covers(g, ms)
  {
    if ms == [] then [] else
      var (before, m) := (Roots(ms[..|ms| - 1], g), ms[|ms| - 1]);
      if m.messageId.None? then before + [NodeOf(m)]
      else if m.messageId.value !in g.parents then before + [Build(g, m.messageId.value, {})]
      else before
  }

  function Ids(ms: seq<ThreadMessage>): seq<string> {
    if ms == [] then [] else Ids(ms[..|ms| - 1]) + if ms[|ms| - 1].messageId.Some? then [ms[|ms| - 1].messageId.value] else []
  }

  lemma {:induction false} IdsAreNodes(ms: seq<ThreadMessage>)
    ensures forall id :: id in Ids(ms) <==> id in Nodes(ms)
  {
    if ms != [] { IdsAreNodes(ms[..|ms| - 1]); }
  }

  /** The node map's keys in its order. */
  function SortedIds(ms: seq<ThreadMessage>): seq<string> { SortDedup(StringLess, Ids(ms)) }

  function Unsorted(ms: seq<ThreadMessage>): seq<Node> {
    var g := GraphOf(ms);
    GraphClosed(ms);
    Known(ms);
    var roots := Roots(ms, g);
    if roots == [] && g.nodes != map[] then BuildAll(g, SortedIds(ms), {}) else roots
  }

  lemma Known(ms: seq<ThreadMessage>)
    ensures forall i :: 0 <= i < |ms| && ms[i].messageId.Some? ==> ms[i].messageId.value in GraphOf(ms).nodes
    ensures forall i :: 0 <= i < |SortedIds(ms)| ==> SortedIds(ms)[i] in GraphOf(ms).nodes
  {
    forall i | 0 <= i < |ms| && ms[i].messageId.Some? ensures ms[i].messageId.value in GraphOf(ms).nodes {
      NodesHave(ms, i);
    }
    IdsAreNodes(ms);
    forall i | 0 <= i < |SortedIds(ms)| ensures SortedIds(ms)[i] in GraphOf(ms).nodes {
      assert SortedIds(ms)[i] in Ids(ms);
    }
  }

  function Threaded(ms: seq<ThreadMessage>): seq<Node> { SortForest(Unsorted(ms)) }

  method ThreadReferences(ms: seq<ThreadMessage>) returns (forest: seq<Node>)
    ensures forest == Threaded(ms)
  {
    var nodes: map<string, Node> := map[];
    for i := 0 to |ms|
      invariant nodes == Nodes(ms[..i])
    {
      assert ms[..i + 1][..i] == ms[..i];
      if ms[i].messageId.Some? {
        nodes := nodes[ms[i].messageId.value := NodeOf(ms[i])];
      }
    }
    assert ms[..|ms|] == ms;
    var parents: map<string, string>, children: map<string, seq<string>> := map[], map[];
    for i := 0 to |ms|
      invariant parents == Parents(ms[..i], nodes) && children == Children(ms[..i], nodes)
    {
      assert ms[..i + 1][..i] == ms[..i];
      if ms[i].messageId.Some? && ChosenParent(ms[i]).Some? {
        var id, parent := ms[i].messageId.value, ChosenParent(ms[i]).value;
        if parent != id && parent in nodes {
          parents := parents[id := parent];
          children := children[parent := ChildList(children, parent) + [id]];
        }
      }
    }
    var g := Graph(nodes, parents, children);
    GraphClosed(ms);
    Known(ms);
    var roots := BuildRoots(ms, g);
    if roots == [] && nodes != map[] {
      roots := BuildEach(g, SortedIds(ms));
    }
    forest := SortForest(roots);
  }

  method BuildRoots(ms: seq<ThreadMessage>, g: Graph) returns (roots: seq<Node>)
    requires Covers(g, ms)
    ensures roots == Roots(ms, g)
  {
    roots := [];
    for i := 0 to |ms|
      invariant roots == Roots(ms[..i], g)
    {
      assert ms[..i + 1][..i] == ms[..i];
      if ms[i].messageId.None? {
        roots := roots + [NodeOf(ms[i])];
      } else if ms[i].messageId.value !in g.parents {
        var visited := new VisitedSet();
        var root := BuildThreadNode(g, ms[i].messageId.value, visited);
        roots := roots + [root];
      }
    }
    assert ms[..|ms|] == ms;
  }

  method BuildEach(g: Graph, ids: seq<string>) returns (trees: seq<Node>)
    requires g.Closed() && forall i :: 0 <= i < |ids| ==> ids[i] in g.nodes
    ensures trees == BuildAll(g, ids, {})
  {
    trees := [];
    for i := 0 to |ids|
      invariant trees == BuildAll(g, ids[..i], {})
    {
      assert ids[..i + 1][..i] == ids[..i];
      var visited := new VisitedSet();
      var tree := BuildThreadNode(g, ids[i], visited);
      trees := trees + [tree];
    }
    assert ids[..|ids|] == ids;
  }
}
