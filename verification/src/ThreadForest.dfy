/**
 Where messages end up in a REFERENCES forest: exactly once, under their chosen parent,
 exactly when following chosen parents always ends.
 */
module ThreadForest {
  import opened Wrappers
  import opened Ordering
  import opened Threads

  // ---------- places ----------

  /** A message somewhere in a forest: the node above it, if any, and its own UID and sort keys. */
  datatype Place = Place(parent: Option<nat>, uid: nat, subject: string, date: int)

  function PlaceAt(parent: Option<nat>, n: Node): Place { Place(parent, n.uid, n.subject, n.date) }

  function Places(nodes: seq<Node>, parent: Option<nat>): multiset<Place> {
    if nodes == [] then multiset{}
    else multiset{PlaceAt(parent, nodes[0])} + Places(nodes[0].children, Some(nodes[0].uid)) + Places(nodes[1..], parent)
  }

  lemma {:induction false} PlacesConcat(a: seq<Node>, b: seq<Node>, parent: Option<nat>)
    ensures Places(a + b, parent) == Places(a, parent) + Places(b, parent)
    decreases |a|
  {
    if a == [] {
      assert a + b == b;
    } else {
      assert (a + b)[1..] == a[1..] + b;
      PlacesConcat(a[1..], b, parent);
    }
  }

  lemma {:induction false} InsertKeepsPlaces(n: Node, sorted: seq<Node>, parent: Option<nat>)
    ensures Places(InsertNode(n, sorted), parent) == Places([n] + sorted, parent)
  {
    hide Before;
    if sorted != [] && Before(sorted[0], n) {
      InsertKeepsPlaces(n, sorted[1..], parent);
      assert ([n] + sorted[1..])[1..] == sorted[1..] && ([n] + sorted)[1..] == sorted;
      assert InsertNode(n, sorted)[1..] == InsertNode(n, sorted[1..]);
    }
  }

  /** Sorting moves no message to another parent and drops or doubles none. */
  lemma {:induction false} SortKeepsPlaces(nodes: seq<Node>, parent: Option<nat>)
    ensures Places(SortForest(nodes), parent) == Places(nodes, parent)
  {
    hide Before;
    if nodes != [] {
      var first := nodes[0].(children := SortForest(nodes[0].children));
      SortKeepsPlaces(nodes[0].children, Some(nodes[0].uid));
      SortKeepsPlaces(nodes[1..], parent);
      InsertKeepsPlaces(first, SortForest(nodes[1..]), parent);
      assert ([first] + SortForest(nodes[1..]))[1..] == SortForest(nodes[1..]);
    }
  }

  ghost predicate Sorted(nodes: seq<Node>) {
    && (forall i, j :: 0 <= i < j < |nodes| ==> !Before(nodes[j], nodes[i]))
    && (forall i :: 0 <= i < |nodes| ==> Sorted(nodes[i].children))
  }

  lemma BeforeOrder(a: Node, b: Node, c: Node)
    ensures Before(a, b) ==> !Before(b, a)
    ensures !Before(b, a) && !Before(c, b) ==> !Before(c, a)
  {
    StringLessOrder();
  }

  lemma {:induction false} InsertSorted(n: Node, sorted: seq<Node>)
    requires Sorted(sorted) && Sorted(n.children)
    ensures Sorted(InsertNode(n, sorted))
    ensures forall m :: m in InsertNode(n, sorted) <==> m == n || m in sorted
  {
    hide Before;
    if sorted == [] || !Before(sorted[0], n) {
      forall j | 0 <= j < |sorted| ensures !Before(sorted[j], n) {
        BeforeOrder(n, sorted[0], sorted[j]);
      }
    } else {
      InsertSorted(n, sorted[1..]);
      var rest := InsertNode(n, sorted[1..]);
      BeforeOrder(sorted[0], n, n);
      forall j | 0 <= j < |rest| ensures !Before(rest[j], sorted[0]) {
        assert rest[j] in rest;
        assert rest[j] == n || rest[j] in sorted[1..];
      }
    }
  }

  /** Every level of the result is in order of date, subject and UID. */
  lemma {:induction false} SortForestSorts(nodes: seq<Node>)
    ensures Sorted(SortForest(nodes))
  {
    if nodes != [] {
      SortForestSorts(nodes[0].children);
      SortForestSorts(nodes[1..]);
      InsertSorted(nodes[0].(children := SortForest(nodes[0].children)), SortForest(nodes[1..]));
    }
  }

  // ---------- well-formed links ----------

  ghost predicate NoRepeat(ids: seq<string>) {
    forall i, j :: 0 <= i < j < |ids| ==> ids[i] != ids[j]
  }

  /** Parent links and child lists say the same thing. */
  ghost predicate Linked(g: Graph) {
    && g.Closed()
    && (forall c :: c in g.parents ==> c in g.nodes && g.parents[c] in g.nodes)
    && (forall p :: NoRepeat(ChildList(g.children, p)))
    && (forall p, c :: c in ChildList(g.children, p) <==> c in g.parents && g.parents[c] == p)
    && (forall id :: id in g.nodes ==> g.nodes[id].children == [])
  }

  lemma {:induction false} ParentsFromIds(ms: seq<ThreadMessage>, nodes: map<string, Node>, c: string)
    requires c in Parents(ms, nodes)
    ensures c in Ids(ms) && Parents(ms, nodes)[c] in nodes
  {
    if ms != [] {
      var m := ms[|ms| - 1];
      if !(HasLink(m, nodes) && m.messageId.value == c) { ParentsFromIds(ms[..|ms| - 1], nodes, c); }
    }
  }

  lemma NewId(ms: seq<ThreadMessage>, nodes: map<string, Node>)
    requires ms != [] && NoRepeat(Ids(ms)) && ms[|ms| - 1].messageId.Some?
    ensures ms[|ms| - 1].messageId.value !in Parents(ms[..|ms| - 1], nodes)
    ensures ms[|ms| - 1].messageId.value !in Ids(ms[..|ms| - 1])
  {
    var front, id := ms[..|ms| - 1], ms[|ms| - 1].messageId.value;
    assert Ids(ms) == Ids(front) + [id] && Ids(ms)[|Ids(front)|] == id;
    forall k | 0 <= k < |Ids(front)| ensures Ids(front)[k] != id {
      assert Ids(ms)[k] == Ids(front)[k];
    }
    if id in Parents(front, nodes) { ParentsFromIds(front, nodes, id); }
  }

  /** Each message is listed once, and under its own parent only. */
  ghost predicate ListsMatch(children: map<string, seq<string>>, parents: map<string, string>) {
    && (forall p :: NoRepeat(ChildList(children, p)))
    && (forall p, c :: c in ChildList(children, p) <==> c in parents && parents[c] == p)
  }

  lemma NoRepeatSnoc(ids: seq<string>, id: string)
    requires NoRepeat(ids) && id !in ids
    ensures NoRepeat(ids + [id])
  {}

  lemma AddChild(children: map<string, seq<string>>, parents: map<string, string>, id: string, parent: string)
    requires ListsMatch(children, parents) && id !in parents
    ensures ListsMatch(children[parent := ChildList(children, parent) + [id]], parents[id := parent])
  {
    hide NoRepeat;
    var after := children[parent := ChildList(children, parent) + [id]];
    assert id !in ChildList(children, parent);
    NoRepeatSnoc(ChildList(children, parent), id);
    forall p ensures ChildList(after, p) == if p == parent then ChildList(children, p) + [id] else ChildList(children, p) {}
  }

  lemma {:induction false} ChildListsMatch(ms: seq<ThreadMessage>, nodes: map<string, Node>)
    requires NoRepeat(Ids(ms))
    ensures ListsMatch(Children(ms, nodes), Parents(ms, nodes))
  {
    if ms != [] {
      hide ListsMatch, ChosenParent;
      var front, m := ms[..|ms| - 1], ms[|ms| - 1];
      assert Ids(front) <= Ids(ms);
      ChildListsMatch(front, nodes);
      if HasLink(m, nodes) {
        NewId(ms, nodes);
        AddChild(Children(front, nodes), Parents(front, nodes), m.messageId.value, ChosenParent(m).value);
      }
    }
  }

  lemma {:induction false} NodesBare(ms: seq<ThreadMessage>)
    ensures forall id :: id in Nodes(ms) ==> Nodes(ms)[id].children == []
  {
    if ms != [] { NodesBare(ms[..|ms| - 1]); }
  }

  lemma GraphLinked(ms: seq<ThreadMessage>)
    requires NoRepeat(Ids(ms))
    ensures Linked(GraphOf(ms))
  {
    hide Nodes, Parents, Children;
    GraphClosed(ms);
    ChildListsMatch(ms, Nodes(ms));
    NodesBare(ms);
    IdsAreNodes(ms);
    forall c | c in Parents(ms, Nodes(ms)) ensures c in Nodes(ms) && Parents(ms, Nodes(ms))[c] in Nodes(ms) {
      ParentsFromIds(ms, Nodes(ms), c);
    }
  }

  // ---------- following parents ----------

  /** Following parents from `id` ends within the given number of steps. */
  predicate EndsWithin(parents: map<string, string>, id: string, steps: nat)
    decreases steps
  {
    id !in parents || (steps > 0 && EndsWithin(parents, parents[id], steps - 1))
  }

  ghost predicate Ends(parents: map<string, string>, id: string) {
    exists steps: nat :: EndsWithin(parents, id, steps)
  }

  ghost predicate Acyclic(g: Graph) { forall id :: id in g.nodes ==> Ends(g.parents, id) }

  function Depth(parents: map<string, string>, id: string, steps: nat): nat
    requires EndsWithin(parents, id, steps)
    decreases steps
  {
    if id in parents then 1 + Depth(parents, parents[id], steps - 1) else 0
  }

  lemma {:induction false} DepthUnique(parents: map<string, string>, id: string, a: nat, b: nat)
    requires EndsWithin(parents, id, a) && EndsWithin(parents, id, b)
    ensures Depth(parents, id, a) == Depth(parents, id, b)
    decreases a
  {
    if id in parents { DepthUnique(parents, parents[id], a - 1, b - 1); }
  }

  ghost function Rank(parents: map<string, string>, id: string): nat
    requires Ends(parents, id)
  {
    var steps: nat :| EndsWithin(parents, id, steps);
    Depth(parents, id, steps)
  }

  lemma RankStep(parents: map<string, string>, id: string)
    requires id in parents
    ensures Ends(parents, id) <==> Ends(parents, parents[id])
    ensures Ends(parents, id) ==> Rank(parents, id) == Rank(parents, parents[id]) + 1
  {
    if Ends(parents, parents[id]) {
      var steps: nat :| EndsWithin(parents, parents[id], steps);
      assert EndsWithin(parents, id, steps + 1);
    }
    if Ends(parents, id) {
      var steps: nat :| EndsWithin(parents, id, steps);
      assert EndsWithin(parents, parents[id], steps - 1);
      RankIs(parents, id, steps);
      RankIs(parents, parents[id], steps - 1);
    }
  }

  lemma RankIs(parents: map<string, string>, id: string, steps: nat)
    requires EndsWithin(parents, id, steps)
    ensures Ends(parents, id) && Rank(parents, id) == Depth(parents, id, steps)
  {
    var chosen: nat :| EndsWithin(parents, id, chosen) && Rank(parents, id) == Depth(parents, id, chosen);
    DepthUnique(parents, id, chosen, steps);
  }

  /** `a` is `d` or above it. */
  ghost predicate OnPath(parents: map<string, string>, a: string, d: string)
    requires Ends(parents, d)
    decreases Rank(parents, d)
  {
    a == d || (d in parents && (RankStep(parents, d); OnPath(parents, a, parents[d])))
  }

  lemma {:induction false} OnPathRank(parents: map<string, string>, a: string, d: string)
    requires Ends(parents, d) && OnPath(parents, a, d)
    ensures Ends(parents, a) && Rank(parents, a) <= Rank(parents, d)
    ensures Rank(parents, a) == Rank(parents, d) ==> a == d
    decreases Rank(parents, d)
  {
    if a != d {
      RankStep(parents, d);
      OnPathRank(parents, a, parents[d]);
    }
  }

  /** Above a message there is one id of each rank. */
  lemma {:induction false} OnPathUnique(parents: map<string, string>, a: string, b: string, d: string)
    requires Ends(parents, d) && OnPath(parents, a, d) && OnPath(parents, b, d)
    requires Ends(parents, a) && Ends(parents, b) && Rank(parents, a) == Rank(parents, b)
    ensures a == b
    decreases Rank(parents, d)
  {
    OnPathRank(parents, a, d);
    OnPathRank(parents, b, d);
    if a != d && b != d {
      RankStep(parents, d);
      OnPathUnique(parents, a, b, parents[d]);
    }
  }

  lemma {:induction false} OnPathParent(parents: map<string, string>, c: string, d: string)
    requires Ends(parents, d) && OnPath(parents, c, d) && c in parents
    ensures OnPath(parents, parents[c], d)
    decreases Rank(parents, d)
  {
    RankStep(parents, d);
    if c == d {
      assert OnPath(parents, parents[c], parents[d]);
    } else {
      OnPathParent(parents, c, parents[d]);
    }
  }

  /** Below `id` and on the way down to `d` there is a child of `id`. */
  lemma {:induction false} OnPathChild(parents: map<string, string>, id: string, d: string) returns (c: string)
    requires Ends(parents, d) && OnPath(parents, id, d) && id != d
    ensures c in parents && parents[c] == id && OnPath(parents, c, d)
    decreases Rank(parents, d)
  {
    RankStep(parents, d);
    if parents[d] == id {
      c := d;
    } else {
      c := OnPathChild(parents, id, parents[d]);
    }
  }

  lemma {:induction false} OnPathRoot(parents: map<string, string>, d: string) returns (r: string)
    requires Ends(parents, d)
    ensures r !in parents && OnPath(parents, r, d) && Ends(parents, r) && Rank(parents, r) == 0
    decreases Rank(parents, d)
  {
    if d in parents {
      RankStep(parents, d);
      r := OnPathRoot(parents, parents[d]);
    } else {
      r := d;
      assert EndsWithin(parents, d, 0);
    }
  }

  // ---------- the ids of a tree ----------

  /** The ids of the nodes of `Build(g, id, visited)`. */
  ghost function TreeIds(g: Graph, id: string, visited: set<string>): seq<string>
    requires g.Closed() && id in g.nodes
    decreases |g.nodes.Keys - visited|, 0
  {
    if id in visited then [id]
    else
      assert g.nodes.Keys - (visited + {id}) < g.nodes.Keys - visited by { assert id in g.nodes.Keys - visited; }
      CardLess(g.nodes.Keys - (visited + {id}), g.nodes.Keys - visited);
      if id in g.children then [id] + ForestIds(g, g.children[id], visited + {id}) else [id]
  }

  ghost function ForestIds(g: Graph, ids: seq<string>, visited: set<string>): seq<string>
    requires g.Closed() && forall i :: 0 <= i < |ids| ==> ids[i] in g.nodes
    decreases |g.nodes.Keys - visited|, |ids|
  {
    if ids == [] then [] else ForestIds(g, ids[..|ids| - 1], visited) + TreeIds(g, ids[|ids| - 1], visited)
  }

  /** The place a message should have: under its chosen parent if that is known, else on top. */
  ghost function PlaceOf(g: Graph, id: string): Place
    requires Linked(g) && id in g.nodes
  {
    PlaceAt(if id in g.parents then Some(g.nodes[g.parents[id]].uid) else None, g.nodes[id])
  }

  ghost function PlacesOf(g: Graph, ids: seq<string>): multiset<Place>
    requires Linked(g) && forall i :: 0 <= i < |ids| ==> ids[i] in g.nodes
  {
    if ids == [] then multiset{} else PlacesOf(g, ids[..|ids| - 1]) + multiset{PlaceOf(g, ids[|ids| - 1])}
  }

  lemma {:induction false} PlacesOfConcat(g: Graph, a: seq<string>, b: seq<string>)
    requires Linked(g) && (forall i :: 0 <= i < |a| ==> a[i] in g.nodes) && (forall i :: 0 <= i < |b| ==> b[i] in g.nodes)
    ensures PlacesOf(g, a + b) == PlacesOf(g, a) + PlacesOf(g, b)
    decreases |b|
  {
    hide Linked, PlaceOf;
    if b == [] {
      assert a + b == a;
    } else {
      assert (a + b)[..|a + b| - 1] == a + b[..|b| - 1];
      PlacesOfConcat(g, a, b[..|b| - 1]);
    }
  }

  lemma {:induction false} TreeIdsKnown(g: Graph, id: string, visited: set<string>)
    requires g.Closed() && id in g.nodes
    ensures forall i :: 0 <= i < |TreeIds(g, id, visited)| ==> TreeIds(g, id, visited)[i] in g.nodes
    ensures TreeIds(g, id, visited)[0] == id
    decreases |g.nodes.Keys - visited|, 0
  {
    if id !in visited && id in g.children {
      assert g.nodes.Keys - (visited + {id}) < g.nodes.Keys - visited by { assert id in g.nodes.Keys - visited; }
      CardLess(g.nodes.Keys - (visited + {id}), g.nodes.Keys - visited);
      ForestIdsKnown(g, g.children[id], visited + {id});
    }
  }

  lemma {:induction false} ForestIdsKnown(g: Graph, ids: seq<string>, visited: set<string>)
    requires g.Closed() && forall i :: 0 <= i < |ids| ==> ids[i] in g.nodes
    ensures forall i :: 0 <= i < |ForestIds(g, ids, visited)| ==> ForestIds(g, ids, visited)[i] in g.nodes
    decreases |g.nodes.Keys - visited|, |ids|
  {
    if ids != [] {
      ForestIdsKnown(g, ids[..|ids| - 1], visited);
      TreeIdsKnown(g, ids[|ids| - 1], visited);
    }
  }

  lemma OneTree(tree: Node, parent: Option<nat>)
    ensures Places([tree], parent) == multiset{PlaceAt(parent, tree)} + Places(tree.children, Some(tree.uid))
  {
    assert [tree][1..] == [];
  }

  lemma ChildPlaces(g: Graph, id: string)
    requires Linked(g) && id in g.nodes && id in g.children
    ensures forall i :: 0 <= i < |g.children[id]| ==>
      g.children[id][i] in g.nodes && PlaceOf(g, g.children[id][i]).parent == Some(g.nodes[id].uid)
  {
    forall i | 0 <= i < |g.children[id]| ensures PlaceOf(g, g.children[id][i]).parent == Some(g.nodes[id].uid) {
      assert g.children[id][i] in ChildList(g.children, id);
    }
  }

  /** A built tree puts every id it holds at that id's place, its root aside. */
  lemma {:induction false} BuildPlaces(g: Graph, id: string, visited: set<string>)
    requires Linked(g) && id in g.nodes
    ensures forall i :: 0 <= i < |TreeIds(g, id, visited)| ==> TreeIds(g, id, visited)[i] in g.nodes
    ensures Places([Build(g, id, visited)], PlaceOf(g, id).parent) == PlacesOf(g, TreeIds(g, id, visited))
    decreases |g.nodes.Keys - visited|, 0
  {
    hide Places, PlacesOf, ForestIds, BuildAll;
    TreeIdsKnown(g, id, visited);
    OneTree(Build(g, id, visited), PlaceOf(g, id).parent);
    OnePlace(g, id);
    if id !in visited && id in g.children {
      var ids, below := g.children[id], visited + {id};
      assert g.nodes.Keys - below < g.nodes.Keys - visited by { assert id in g.nodes.Keys - visited; }
      CardLess(g.nodes.Keys - below, g.nodes.Keys - visited);
      ChildPlaces(g, id);
      BuildAllPlaces(g, ids, below, Some(g.nodes[id].uid));
      PlacesOfConcat(g, [id], ForestIds(g, ids, below));
    } else {
      NoPlaces(Some(g.nodes[id].uid));
    }
  }

  lemma NoPlaces(parent: Option<nat>)
    ensures Places([], parent) == multiset{}
  {}

  lemma OnePlace(g: Graph, id: string)
    requires Linked(g) && id in g.nodes
    ensures PlacesOf(g, [id]) == multiset{PlaceOf(g, id)}
  {
    assert [id][..0] == [];
  }

  lemma {:induction false} BuildAllPlaces(g: Graph, ids: seq<string>, visited: set<string>, parent: Option<nat>)
    requires Linked(g) && forall i :: 0 <= i < |ids| ==> ids[i] in g.nodes && PlaceOf(g, ids[i]).parent == parent
    ensures forall i :: 0 <= i < |ForestIds(g, ids, visited)| ==> ForestIds(g, ids, visited)[i] in g.nodes
    ensures Places(BuildAll(g, ids, visited), parent) == PlacesOf(g, ForestIds(g, ids, visited))
    decreases |g.nodes.Keys - visited|, |ids|
  {
    hide PlaceOf;
    ForestIdsKnown(g, ids, visited);
    if ids != [] {
      var front, last := ids[..|ids| - 1], ids[|ids| - 1];
      BuildAllPlaces(g, front, visited, parent);
      BuildPlaces(g, last, visited);
      PlacesConcat(BuildAll(g, front, visited), [Build(g, last, visited)], parent);
      PlacesOfConcat(g, ForestIds(g, front, visited), TreeIds(g, last, visited));
    }
  }

  // ---------- how often an id occurs ----------

  /** The trees of a list of roots that hold a message: those on its way up. */
  ghost function Above(parents: map<string, string>, ids: seq<string>, d: string): nat {
    if ids == [] then 0
    else Above(parents, ids[..|ids| - 1], d) + if Ends(parents, d) && OnPath(parents, ids[|ids| - 1], d) then 1 else 0
  }

  lemma {:induction false} AboveNone(parents: map<string, string>, ids: seq<string>, d: string)
    requires Ends(parents, d) ==> forall i :: 0 <= i < |ids| ==> !OnPath(parents, ids[i], d)
    ensures Above(parents, ids, d) == 0
  {
    hide OnPath;
    if ids != [] { AboveNone(parents, ids[..|ids| - 1], d); }
  }

  lemma {:induction false} AboveOne(parents: map<string, string>, ids: seq<string>, d: string, k: nat)
    requires Ends(parents, d) && k < |ids| && OnPath(parents, ids[k], d)
    requires forall i :: 0 <= i < |ids| && i != k ==> !OnPath(parents, ids[i], d)
    ensures Above(parents, ids, d) == 1
  {
    hide OnPath;
    if k < |ids| - 1 {
      AboveOne(parents, ids[..|ids| - 1], d, k);
    } else {
      AboveNone(parents, ids[..|ids| - 1], d);
    }
  }

  /** Among the children of one id at most one is on the way up from a message. */
  lemma ChildrenAbove(g: Graph, id: string, d: string)
    requires Linked(g) && id in g.children && Ends(g.parents, d)
    ensures Above(g.parents, g.children[id], d) == if id != d && OnPath(g.parents, id, d) then 1 else 0
  {
    hide Above, OnPath, Ends;
    var ids := g.children[id];
    assert ids == ChildList(g.children, id);
    forall i | 0 <= i < |ids| && OnPath(g.parents, ids[i], d) ensures id != d && OnPath(g.parents, id, d) {
      assert ids[i] in ChildList(g.children, id);
      OnPathParent(g.parents, ids[i], d);
      OnPathRank(g.parents, ids[i], d);
      RankStep(g.parents, ids[i]);
    }
    if id != d && OnPath(g.parents, id, d) {
      var c := OnPathChild(g.parents, id, d);
      assert c in ChildList(g.children, id);
      var k :| 0 <= k < |ids| && ids[k] == c;
      forall i | 0 <= i < |ids| && i != k ensures !OnPath(g.parents, ids[i], d) {
        assert ids[i] in ChildList(g.children, id);
        SiblingsApart(g, id, ids[i], c, d);
        assert ids[i] != ids[k];
      }
      AboveOne(g.parents, ids, d, k);
    } else {
      AboveNone(g.parents, ids, d);
    }
  }

  lemma SiblingsApart(g: Graph, id: string, a: string, b: string, d: string)
    requires a in g.parents && b in g.parents && g.parents[a] == id == g.parents[b]
    requires Ends(g.parents, d) && OnPath(g.parents, b, d)
    ensures OnPath(g.parents, a, d) ==> a == b
  {
    if OnPath(g.parents, a, d) {
      OnPathRank(g.parents, a, d);
      OnPathRank(g.parents, b, d);
      RankStep(g.parents, a);
      RankStep(g.parents, b);
      OnPathUnique(g.parents, a, b, d);
    }
  }

  /** All ids on the way down so far rank below `id`. */
  ghost predicate Higher(g: Graph, visited: set<string>, id: string)
    requires Ends(g.parents, id)
  {
    forall v :: v in visited ==> Ends(g.parents, v) && Rank(g.parents, v) < Rank(g.parents, id)
  }

  /** The tree of an id whose parents end holds exactly the messages below it, each once. */
  lemma {:induction false} TreeCount(g: Graph, id: string, visited: set<string>, d: string)
    requires Linked(g) && id in g.nodes && Ends(g.parents, id) && Higher(g, visited, id)
    ensures multiset(TreeIds(g, id, visited))[d] == if Ends(g.parents, d) && OnPath(g.parents, id, d) then 1 else 0
    decreases |g.nodes.Keys - visited|, 0
  {
    hide OnPath, Ends, Rank;
    assert id !in visited;
    assert Ends(g.parents, id);
    var self := if d == id then 1 else 0;
    if d == id { SelfOnPath(g.parents, id); }
    if id in g.children {
      var ids, below := g.children[id], visited + {id};
      assert g.nodes.Keys - below < g.nodes.Keys - visited by { assert id in g.nodes.Keys - visited; }
      CardLess(g.nodes.Keys - below, g.nodes.Keys - visited);
      forall i | 0 <= i < |ids| ensures Ends(g.parents, ids[i]) && Higher(g, below, ids[i]) {
        assert ids[i] in ChildList(g.children, id);
        RankStep(g.parents, ids[i]);
      }
      ForestCount(g, ids, below, d);
      if Ends(g.parents, d) { ChildrenAbove(g, id, d); } else { AboveNone(g.parents, ids, d); }
      assert multiset([id] + ForestIds(g, ids, below)) == multiset([id]) + multiset(ForestIds(g, ids, below));
    } else if Ends(g.parents, d) && id != d && OnPath(g.parents, id, d) {
      var c := OnPathChild(g.parents, id, d);
      ChildListed(g, c);
    }
  }

  lemma ChildListed(g: Graph, c: string)
    requires Linked(g) && c in g.parents
    ensures c in ChildList(g.children, g.parents[c])
  {}

  lemma SelfOnPath(parents: map<string, string>, id: string)
    requires Ends(parents, id)
    ensures OnPath(parents, id, id)
  {}

  lemma {:induction false} ForestCount(g: Graph, ids: seq<string>, visited: set<string>, d: string)
    requires Linked(g)
    requires forall i :: 0 <= i < |ids| ==> ids[i] in g.nodes && Ends(g.parents, ids[i]) && Higher(g, visited, ids[i])
    ensures multiset(ForestIds(g, ids, visited))[d] == Above(g.parents, ids, d)
    decreases |g.nodes.Keys - visited|, |ids|
  {
    hide OnPath, Ends, Higher, Linked;
    if ids != [] {
      ForestCount(g, ids[..|ids| - 1], visited, d);
      TreeCount(g, ids[|ids| - 1], visited, d);
    }
  }

  // ---------- lists of ids ----------

  ghost predicate AllKnown(g: Graph, ids: seq<string>) { forall i :: 0 <= i < |ids| ==> ids[i] in g.nodes }

  lemma {:induction false} CountNoRepeat(ids: seq<string>, x: string)
    requires NoRepeat(ids)
    ensures multiset(ids)[x] == if x in ids then 1 else 0
  {
    if ids != [] {
      var front := ids[..|ids| - 1];
      CountNoRepeat(front, x);
      assert ids == front + [ids[|ids| - 1]];
      if x == ids[|ids| - 1] { assert x !in front; }
    }
  }

  lemma MultisetWithout(b: seq<string>, k: nat)
    requires k < |b|
    ensures multiset(b) == multiset(b[..k] + b[k + 1..]) + multiset{b[k]}
  {
    assert b == b[..k] + ([b[k]] + b[k + 1..]);
  }

  lemma PlacesWithout(g: Graph, b: seq<string>, k: nat)
    requires Linked(g) && k < |b| && AllKnown(g, b)
    ensures AllKnown(g, b[..k] + b[k + 1..])
    ensures PlacesOf(g, b) == PlacesOf(g, b[..k] + b[k + 1..]) + multiset{PlaceOf(g, b[k])}
  {
    hide Linked, PlaceOf, PlacesOf;
    var before, after := b[..k], b[k + 1..];
    assert b == before + ([b[k]] + after);
    PlacesOfConcat(g, before, after);
    PlacesOfConcat(g, before, [b[k]] + after);
    PlacesOfConcat(g, [b[k]], after);
    OnePlace(g, b[k]);
  }

  lemma {:induction false} PlacesOfPermuted(g: Graph, a: seq<string>, b: seq<string>)
    requires Linked(g) && AllKnown(g, a) && AllKnown(g, b) && multiset(a) == multiset(b)
    ensures PlacesOf(g, a) == PlacesOf(g, b)
    decreases |a|
  {
    hide Linked, PlaceOf, PlacesOf, AllKnown;
    if a == [] {
      assert |multiset(b)| == 0;
    } else {
      var last := |a| - 1;
      var x := a[last];
      assert x in multiset(a);
      var k :| 0 <= k < |b| && b[k] == x;
      MultisetWithout(a, last);
      MultisetWithout(b, k);
      PlacesWithout(g, a, last);
      PlacesWithout(g, b, k);
      var a', b' := a[..last] + a[last + 1..], b[..k] + b[k + 1..];
      assert multiset(a') == multiset(a) - multiset{x} && multiset(b') == multiset(b) - multiset{x};
      PlacesOfPermuted(g, a', b');
    }
  }

  lemma {:induction false} PlacesOfSize(g: Graph, ids: seq<string>)
    requires Linked(g) && forall i :: 0 <= i < |ids| ==> ids[i] in g.nodes
    ensures |PlacesOf(g, ids)| == |ids|
  {
    hide Linked, PlaceOf;
    if ids != [] { PlacesOfSize(g, ids[..|ids| - 1]); }
  }

  // ---------- the expected forest ----------

  /** Messages that carry no id; they stand on top by themselves. */
  function Idless(ms: seq<ThreadMessage>): multiset<Place> {
    if ms == [] then multiset{}
    else Idless(ms[..|ms| - 1]) + if ms[|ms| - 1].messageId.None? then multiset{PlaceAt(None, NodeOf(ms[|ms| - 1]))} else multiset{}
  }

  function RootIds(ms: seq<ThreadMessage>, g: Graph): seq<string> {
    if ms == [] then [] else
      var m := ms[|ms| - 1];
      RootIds(ms[..|ms| - 1], g) + if m.messageId.Some? && m.messageId.value !in g.parents then [m.messageId.value] else []
  }

  lemma {:induction false} RootIdsAre(ms: seq<ThreadMessage>, g: Graph)
    requires NoRepeat(Ids(ms))
    ensures NoRepeat(RootIds(ms, g)) && forall id :: id in RootIds(ms, g) <==> id in Ids(ms) && id !in g.parents
  {
    if ms != [] {
      var front := ms[..|ms| - 1];
      assert Ids(front) <= Ids(ms);
      RootIdsAre(front, g);
      if ms[|ms| - 1].messageId.Some? { NewId(ms, g.nodes); }
    }
  }

  lemma ForestSnoc(g: Graph, ids: seq<string>, id: string)
    requires g.Closed() && id in g.nodes && forall i :: 0 <= i < |ids| ==> ids[i] in g.nodes
    ensures forall i :: 0 <= i < |ids + [id]| ==> (ids + [id])[i] in g.nodes
    ensures ForestIds(g, ids + [id], {}) == ForestIds(g, ids, {}) + TreeIds(g, id, {})
  {
    hide TreeIds;
    assert (ids + [id])[..|ids + [id]| - 1] == ids;
  }

  lemma {:induction false} RootIdsKnown(ms: seq<ThreadMessage>, g: Graph)
    requires Linked(g) && Covers(g, ms)
    ensures AllKnown(g, RootIds(ms, g)) && AllKnown(g, ForestIds(g, RootIds(ms, g), {}))
  {
    if ms != [] { RootIdsKnown(ms[..|ms| - 1], g); }
    ForestIdsKnown(g, RootIds(ms, g), {});
  }

  lemma {:induction false} RootsPlaces(ms: seq<ThreadMessage>, g: Graph)
    requires Linked(g) && Covers(g, ms)
    ensures AllKnown(g, RootIds(ms, g)) && AllKnown(g, ForestIds(g, RootIds(ms, g), {}))
    ensures Places(Roots(ms, g), None) == Idless(ms) + PlacesOf(g, ForestIds(g, RootIds(ms, g), {}))
    ensures Roots(ms, g) == [] <==> RootIds(ms, g) == [] && Idless(ms) == multiset{}
  {
    hide Build, TreeIds, ForestIds, Places, PlacesOf;
    RootIdsKnown(ms, g);
    if ms == [] {
      NoPlaces(None);
      EmptyForest(g);
    } else {
      var front, m := ms[..|ms| - 1], ms[|ms| - 1];
      RootsPlaces(front, g);
      var before, ids := Roots(front, g), RootIds(front, g);
      if m.messageId.None? {
        PlacesConcat(before, [NodeOf(m)], None);
        OneTree(NodeOf(m), None);
        NoPlaces(Some(m.uid));
        assert RootIds(ms, g) == ids;
      } else if m.messageId.value !in g.parents {
        var id := m.messageId.value;
        PlacesConcat(before, [Build(g, id, {})], None);
        BuildPlaces(g, id, {});
        ForestSnoc(g, ids, id);
        PlacesOfConcat(g, ForestIds(g, ids, {}), TreeIds(g, id, {}));
      } else {
        assert RootIds(ms, g) == ids;
      }
    }
  }

  lemma EmptyForest(g: Graph)
    requires Linked(g)
    ensures ForestIds(g, [], {}) == [] && PlacesOf(g, []) == multiset{}
  {}

  lemma {:induction false} OnPathKnown(g: Graph, a: string, d: string)
    requires Linked(g) && Ends(g.parents, d) && OnPath(g.parents, a, d)
    ensures d in g.nodes ==> a in g.nodes
    ensures d !in g.nodes ==> a == d
    decreases Rank(g.parents, d)
  {
    if a != d {
      RankStep(g.parents, d);
      OnPathKnown(g, a, g.parents[d]);
    }
  }

  /** From the top, every message whose parents end is met exactly once, any other never. */
  lemma RootCount(ms: seq<ThreadMessage>, g: Graph, d: string)
    requires Linked(g) && NoRepeat(Ids(ms)) && forall id :: id in Ids(ms) <==> id in g.nodes
    ensures AllKnown(g, RootIds(ms, g))
    ensures multiset(ForestIds(g, RootIds(ms, g), {}))[d] == if d in g.nodes && Ends(g.parents, d) then 1 else 0
  {
    hide Above, OnPath, Ends, Rank, Ids, RootIds, Linked;
    var ids := RootIds(ms, g);
    RootIdsAre(ms, g);
    forall i | 0 <= i < |ids| ensures ids[i] in g.nodes && Ends(g.parents, ids[i]) && Rank(g.parents, ids[i]) == 0 {
      assert ids[i] in ids;
      TopRank(g.parents, ids[i]);
    }
    ForestCount(g, ids, {}, d);
    if d in g.nodes && Ends(g.parents, d) {
      var r := OnPathRoot(g.parents, d);
      OnPathKnown(g, r, d);
      assert r in ids;
      var k :| 0 <= k < |ids| && ids[k] == r;
      forall i | 0 <= i < |ids| && i != k ensures !OnPath(g.parents, ids[i], d) {
        if OnPath(g.parents, ids[i], d) { OnPathUnique(g.parents, ids[i], r, d); }
        assert ids[i] != ids[k];
      }
      AboveOne(g.parents, ids, d, k);
    } else {
      forall i | 0 <= i < |ids| && Ends(g.parents, d) ensures !OnPath(g.parents, ids[i], d) {
        if OnPath(g.parents, ids[i], d) { OnPathKnown(g, ids[i], d); }
      }
      AboveNone(g.parents, ids, d);
    }
  }

  lemma TopRank(parents: map<string, string>, id: string)
    requires id !in parents
    ensures Ends(parents, id) && Rank(parents, id) == 0
  {
    assert EndsWithin(parents, id, 0);
  }

  /** A message's own place: under its chosen parent when that is another known message. */
  function MessagePlace(m: ThreadMessage, nodes: map<string, Node>): Place {
    PlaceAt(if HasLink(m, nodes) then Some(nodes[ChosenParent(m).value].uid) else None, NodeOf(m))
  }

  /** Every message once, each at its own place. */
  function Expected(ms: seq<ThreadMessage>, nodes: map<string, Node>): multiset<Place> {
    if ms == [] then multiset{} else Expected(ms[..|ms| - 1], nodes) + multiset{MessagePlace(ms[|ms| - 1], nodes)}
  }

  lemma {:induction false} NodeIs(ms: seq<ThreadMessage>, i: nat)
    requires NoRepeat(Ids(ms)) && i < |ms| && ms[i].messageId.Some?
    ensures ms[i].messageId.value in Ids(ms) && ms[i].messageId.value in Nodes(ms)
    ensures Nodes(ms)[ms[i].messageId.value] == NodeOf(ms[i])
  {
    var front := ms[..|ms| - 1];
    assert Ids(front) <= Ids(ms);
    if i < |ms| - 1 {
      NodeIs(front, i);
      if ms[|ms| - 1].messageId.Some? { NewId(ms, map[]); }
    }
  }

  lemma {:induction false} ParentIs(ms: seq<ThreadMessage>, nodes: map<string, Node>, i: nat)
    requires NoRepeat(Ids(ms)) && i < |ms| && ms[i].messageId.Some?
    ensures ms[i].messageId.value in Parents(ms, nodes) <==> HasLink(ms[i], nodes)
    ensures HasLink(ms[i], nodes) ==> Parents(ms, nodes)[ms[i].messageId.value] == ChosenParent(ms[i]).value
  {
    var front := ms[..|ms| - 1];
    assert Ids(front) <= Ids(ms);
    if ms[|ms| - 1].messageId.Some? { NewId(ms, nodes); }
    if i < |ms| - 1 {
      ParentIs(front, nodes, i);
      NodeIs(front, i);
    }
  }

  lemma PlaceAgrees(ms: seq<ThreadMessage>, i: nat)
    requires NoRepeat(Ids(ms)) && i < |ms| && ms[i].messageId.Some? && Linked(GraphOf(ms))
    ensures ms[i].messageId.value in Nodes(ms)
    ensures MessagePlace(ms[i], Nodes(ms)) == PlaceOf(GraphOf(ms), ms[i].messageId.value)
  {
    hide Linked, Nodes, Parents, Children;
    NodeIs(ms, i);
    ParentIs(ms, Nodes(ms), i);
  }

  ghost predicate PlacesAgree(ms: seq<ThreadMessage>, g: Graph, nodes: map<string, Node>)
    requires Linked(g)
  {
    forall i :: 0 <= i < |ms| && ms[i].messageId.Some? ==>
      ms[i].messageId.value in g.nodes && MessagePlace(ms[i], nodes) == PlaceOf(g, ms[i].messageId.value)
  }

  lemma {:induction false} IdsKnown(ms: seq<ThreadMessage>, g: Graph)
    requires forall i :: 0 <= i < |ms| && ms[i].messageId.Some? ==> ms[i].messageId.value in g.nodes
    ensures AllKnown(g, Ids(ms))
  {
    if ms != [] { IdsKnown(ms[..|ms| - 1], g); }
  }

  lemma ExpectedStep(ms: seq<ThreadMessage>, g: Graph, nodes: map<string, Node>)
    requires ms != [] && Linked(g) && AllKnown(g, Ids(ms)) && AllKnown(g, Ids(ms[..|ms| - 1]))
    requires ms[|ms| - 1].messageId.Some? ==>
      && ms[|ms| - 1].messageId.value in g.nodes
      && MessagePlace(ms[|ms| - 1], nodes) == PlaceOf(g, ms[|ms| - 1].messageId.value)
    ensures var front := ms[..|ms| - 1];
      Idless(ms) + PlacesOf(g, Ids(ms)) == Idless(front) + PlacesOf(g, Ids(front)) + multiset{MessagePlace(ms[|ms| - 1], nodes)}
  {
    hide Linked, PlaceOf, MessagePlace, PlacesOf, HasLink, AllKnown;
    var front, m := ms[..|ms| - 1], ms[|ms| - 1];
    if m.messageId.Some? {
      var id := m.messageId.value;
      assert Ids(ms) == Ids(front) + [id];
      PlacesSnoc(g, Ids(front), id);
    } else {
      assert Ids(ms) == Ids(front);
      IdlessPlace(m, nodes);
    }
  }

  lemma PlacesSnoc(g: Graph, ids: seq<string>, id: string)
    requires Linked(g) && AllKnown(g, ids) && id in g.nodes && AllKnown(g, ids + [id])
    ensures PlacesOf(g, ids + [id]) == PlacesOf(g, ids) + multiset{PlaceOf(g, id)}
  {
    hide Linked, PlaceOf;
    assert (ids + [id])[..|ids + [id]| - 1] == ids;
  }

  lemma {:induction false} ExpectedOf(ms: seq<ThreadMessage>, g: Graph, nodes: map<string, Node>)
    requires Linked(g) && PlacesAgree(ms, g, nodes)
    ensures AllKnown(g, Ids(ms))
    ensures Expected(ms, nodes) == Idless(ms) + PlacesOf(g, Ids(ms))
  {
    hide Linked, PlaceOf, MessagePlace, PlacesOf, AllKnown, Ids;
    IdsKnown(ms, g);
    if ms == [] {
      EmptyForest(g);
      assert Ids([]) == [] by { NoIds(); }
    } else {
      var front := ms[..|ms| - 1];
      ExpectedOf(front, g, nodes);
      ExpectedStep(ms, g, nodes);
    }
  }

  lemma NoIds()
    ensures Ids([]) == []
  {}

  lemma ExpectedSplits(ms: seq<ThreadMessage>)
    requires NoRepeat(Ids(ms)) && Linked(GraphOf(ms))
    ensures AllKnown(GraphOf(ms), Ids(ms))
    ensures Expected(ms, Nodes(ms)) == Idless(ms) + PlacesOf(GraphOf(ms), Ids(ms))
  {
    hide Linked, GraphOf, Nodes, PlaceOf, MessagePlace, Expected, Ids, PlacesOf;
    forall i | 0 <= i < |ms| && ms[i].messageId.Some?
      ensures ms[i].messageId.value in GraphOf(ms).nodes
      ensures MessagePlace(ms[i], Nodes(ms)) == PlaceOf(GraphOf(ms), ms[i].messageId.value)
    {
      KnownInGraph(ms, i);
      PlaceAgrees(ms, i);
    }
    ExpectedOf(ms, GraphOf(ms), Nodes(ms));
  }

  lemma KnownInGraph(all: seq<ThreadMessage>, i: nat)
    requires i < |all| && all[i].messageId.Some?
    ensures all[i].messageId.value in GraphOf(all).nodes && GraphOf(all).nodes == Nodes(all)
  {
    NodesHave(all, i);
  }

  lemma IdlessPlace(m: ThreadMessage, nodes: map<string, Node>)
    requires m.messageId.None?
    ensures MessagePlace(m, nodes) == PlaceAt(None, NodeOf(m))
  {}

  // ---------- the theorem ----------

  lemma AcyclicPlaces(ms: seq<ThreadMessage>)
    requires NoRepeat(Ids(ms)) && Acyclic(GraphOf(ms))
    ensures Places(Unsorted(ms), None) == Expected(ms, Nodes(ms))
  {
    hide Linked, GraphOf, Nodes, Places, PlacesOf, ForestIds, Roots, Ids, RootIds, Idless, Expected, Ends;
    var g := GraphOf(ms);
    GraphLinked(ms);
    GraphClosed(ms);
    Known(ms);
    IdsAreGraphNodes(ms);
    ExpectedSplits(ms);
    RootsPlaces(ms, g);
    var forest := ForestIds(g, RootIds(ms, g), {});
    forall d ensures multiset(forest)[d] == multiset(Ids(ms))[d] {
      RootCount(ms, g, d);
      CountNoRepeat(Ids(ms), d);
    }
    assert multiset(forest) == multiset(Ids(ms));
    PlacesOfPermuted(g, forest, Ids(ms));
    if Roots(ms, g) == [] {
      EmptyForest(g);
      assert |multiset(Ids(ms))| == 0;
    }
  }

  lemma IdsAreGraphNodes(ms: seq<ThreadMessage>)
    ensures GraphOf(ms).nodes == Nodes(ms) && forall id :: id in Ids(ms) <==> id in GraphOf(ms).nodes
  {
    IdsAreNodes(ms);
  }

  /** A tree has a node, and another if its id has a child. */
  lemma TreeSize(g: Graph, id: string, parent: Option<nat>)
    requires Linked(g) && id in g.nodes
    ensures |Places([Build(g, id, {})], parent)| >= if ChildList(g.children, id) != [] then 2 else 1
  {
    hide Places;
    var tree := Build(g, id, {});
    OneTree(tree, parent);
    if ChildList(g.children, id) != [] {
      SomePlaces(tree.children, Some(tree.uid));
    }
  }

  lemma SomePlaces(nodes: seq<Node>, parent: Option<nat>)
    requires nodes != []
    ensures |Places(nodes, parent)| >= 1
  {}

  lemma {:induction false} EachSize(g: Graph, ids: seq<string>, k: nat)
    requires Linked(g) && AllKnown(g, ids)
    ensures |Places(BuildAll(g, ids, {}), None)| >= |ids| + if k < |ids| && ChildList(g.children, ids[k]) != [] then 1 else 0
  {
    hide Places, Build;
    if ids == [] {
      NoPlaces(None);
    } else {
      var front, last := ids[..|ids| - 1], ids[|ids| - 1];
      EachSize(g, front, k);
      PlacesConcat(BuildAll(g, front, {}), [Build(g, last, {})], None);
      TreeSize(g, last, None);
    }
  }

  /** With a cycle and some root, the messages on the cycle are nowhere. */
  lemma CycleDropped(ms: seq<ThreadMessage>, d: string)
    requires NoRepeat(Ids(ms)) && d in GraphOf(ms).nodes && !Ends(GraphOf(ms).parents, d)
    requires Linked(GraphOf(ms)) && Covers(GraphOf(ms), ms) && Roots(ms, GraphOf(ms)) != []
    ensures |Places(Roots(ms, GraphOf(ms)), None)| < |Expected(ms, Nodes(ms))|
  {
    hide Linked, GraphOf, Nodes, Places, PlacesOf, ForestIds, Roots, Ids, RootIds, Idless, Expected, Ends;
    var g := GraphOf(ms);
    GraphClosed(ms);
    IdsAreGraphNodes(ms);
    Known(ms);
    ExpectedSplits(ms);
    RootsPlaces(ms, g);
    var forest := ForestIds(g, RootIds(ms, g), {});
    var others := multiset(Ids(ms)) - multiset{d};
    forall x ensures multiset(forest)[x] <= others[x] {
      RootCount(ms, g, x);
      CountNoRepeat(Ids(ms), x);
    }
    CountNoRepeat(Ids(ms), d);
    assert multiset(forest) <= others;
    assert others == multiset(forest) + (others - multiset(forest));
    assert multiset(Ids(ms)) == others + multiset{d};
    PlacesOfSize(g, forest);
    PlacesOfSize(g, Ids(ms));
  }

  /** With no root at all, every message heads a tree and its parent's tree holds it again. */
  lemma NoRootDoubles(ms: seq<ThreadMessage>)
    requires NoRepeat(Ids(ms)) && Linked(GraphOf(ms)) && Covers(GraphOf(ms), ms)
    requires Roots(ms, GraphOf(ms)) == [] && GraphOf(ms).nodes != map[]
    ensures |Places(Unsorted(ms), None)| > |Expected(ms, Nodes(ms))|
  {
    hide GraphOf, Nodes, Places, PlacesOf, Roots, Ids, RootIds, Idless, Expected, BuildAll, SortedIds, Linked;
    var g, ids := GraphOf(ms), SortedIds(ms);
    GraphClosed(ms);
    Known(ms);
    ExpectedSplits(ms);
    RootsPlaces(ms, g);
    PlacesOfSize(g, Ids(ms));
    SortedIdsSize(ms);
    var k := SomeParent(ms);
    EachSize(g, ids, k);
  }

  /** Without a root some message has a child. */
  lemma SomeParent(ms: seq<ThreadMessage>) returns (k: nat)
    requires NoRepeat(Ids(ms)) && Linked(GraphOf(ms)) && Covers(GraphOf(ms), ms)
    requires Roots(ms, GraphOf(ms)) == [] && GraphOf(ms).nodes != map[]
    ensures k < |SortedIds(ms)| && ChildList(GraphOf(ms).children, SortedIds(ms)[k]) != []
  {
    hide GraphOf, Nodes, Places, PlacesOf, Roots, Ids, RootIds, Idless, SortedIds, Linked, NoRepeat, Covers, ForestIds;
    var g, ids := GraphOf(ms), SortedIds(ms);
    IdsAreGraphNodes(ms);
    RootsPlaces(ms, g);
    SortedIdsSize(ms);
    RootIdsAre(ms, g);
    var id :| id in g.nodes;
    assert id in Ids(ms) && id !in RootIds(ms, g);
    ChildListed(g, id);
    ParentKnown(g, id);
    assert g.parents[id] in ids;
    k :| 0 <= k < |ids| && ids[k] == g.parents[id];
  }

  lemma ParentKnown(g: Graph, c: string)
    requires Linked(g) && c in g.parents
    ensures g.parents[c] in g.nodes
  {}

  lemma SortedIdsSize(ms: seq<ThreadMessage>)
    requires NoRepeat(Ids(ms))
    ensures |SortedIds(ms)| == |Ids(ms)| && forall id :: id in SortedIds(ms) <==> id in Ids(ms)
  {
    hide Ids;
    StringLessOrder();
    SortDedupAscending(StringLess, Ids(ms));
    var ids := SortedIds(ms);
    forall i, j | 0 <= i < j < |ids| ensures ids[i] != ids[j] {
      assert StringLess(ids[i], ids[j]);
      StringLessAsym(ids[i], ids[j]);
    }
    forall x ensures multiset(ids)[x] == multiset(Ids(ms))[x] {
      CountNoRepeat(ids, x);
      CountNoRepeat(Ids(ms), x);
    }
    assert multiset(ids) == multiset(Ids(ms));
    assert |multiset(ids)| == |ids| && |multiset(Ids(ms))| == |Ids(ms)|;
  }

  /** With distinct Message-IDs, the sorted forest holds every message exactly once and directly
      under its chosen parent if and only if following chosen parents always ends. */
  lemma ForestIffAcyclic(ms: seq<ThreadMessage>)
    requires NoRepeat(Ids(ms))
    ensures Places(Threaded(ms), None) == Expected(ms, Nodes(ms)) <==> Acyclic(GraphOf(ms))
    ensures Sorted(Threaded(ms))
  {
    hide Linked, GraphOf, Nodes, Places, Roots, Ids, Expected, Ends, SortForest, Sorted;
    var g := GraphOf(ms);
    GraphLinked(ms);
    SortKeepsPlaces(Unsorted(ms), None);
    SortForestSorts(Unsorted(ms));
    if Acyclic(g) {
      AcyclicPlaces(ms);
    } else {
      var d :| d in g.nodes && !Ends(g.parents, d);
      GraphClosed(ms);
      Known(ms);
      if Roots(ms, g) == [] { NoRootDoubles(ms); } else { CycleDropped(ms, d); }
    }
  }
}
